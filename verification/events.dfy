/**
  `HelperEventEmitter`: a map from event names to ordered listener lists.
  Listeners are compared by identity, so they are modelled by opaque
  identities `L`. A listener registered with `once` sits in the list as a
  wrapper `OnceWrap(l)`, a different object from `l` itself. What a listener
  does when called is abstract except whether it throws and whether it
  carries a `cancel` method. Only the sequential `fire` is modelled.
 */
module Events {
  import opened Common

  datatype Entry<L> = Direct(l: L) | OnceWrap(l: L)

  type Registry<E, L> = map<E, seq<Entry<L>>>

  /** The disposable returned by `on` and `once`: disposing it calls
      `off(event, listener)` with the listener that was passed in. */
  datatype Disposable<E, L> = OffOnDispose(event: E, listener: L)

  /** `listeners(event)`: the event's list, creating an empty one on first use. */
  function Listeners<E, L>(reg: Registry<E, L>, e: E): (r: (seq<Entry<L>>, Registry<E, L>))
    ensures e in r.1 && r.1[e] == r.0
    ensures e !in reg ==> r.0 == [] && r.1 == reg[e := []]
    ensures e in reg ==> r.0 == reg[e] && r.1 == reg
  {
    if e !in reg then ([], reg[e := []]) else (reg[e], reg)
  }

  /** The position of the first occurrence of `x` in `s`. */
  function IndexOf<T(==)>(s: seq<T>, x: T): (i: int)
    ensures -1 <= i < |s|
    ensures i == -1 <==> x !in s
    ensures 0 <= i ==> s[i] == x
    ensures forall k :: 0 <= k < |s| && s[k] == x ==> 0 <= i <= k
    decreases |s|
  {
    if |s| == 0 then -1
    else if s[0] == x then 0
    else
      var j := IndexOf(s[1..], x);
      if j == -1 then -1
      else j + 1
  }

  /** `listeners.splice(listeners.indexOf(x), 1)` when `x` is present. */
  function RemoveFirst<T(==)>(s: seq<T>, x: T): (r: seq<T>)
    ensures x !in s ==> r == s
    ensures x in s ==> |r| == |s| - 1 && multiset(r) == multiset(s) - multiset{x}
    ensures x in s ==> var i := IndexOf(s, x); r == s[..i] + s[i + 1..]
  {
    var i := IndexOf(s, x);
    if i == -1 then s
    else
      assert s == s[..i] + [s[i]] + s[i + 1..];
      s[..i] + s[i + 1..]
  }

  /** `on(event, listener, disposables)`: appends the listener to the event's
      list and, when a list of disposables is given, appends the disposable
      to it. */
  function On<E, L>(reg: Registry<E, L>, e: E, l: L, disposables: Option<seq<Disposable<E, L>>>)
    : (r: (Registry<E, L>, Disposable<E, L>, Option<seq<Disposable<E, L>>>))
    ensures r.0.Keys == reg.Keys + {e}
    ensures r.0[e] == (if e in reg then reg[e] else []) + [Direct(l)]
    ensures forall e' :: e' in reg && e' != e ==> r.0[e'] == reg[e']
    ensures r.1 == OffOnDispose(e, l)
    ensures disposables.Some? ==> r.2 == Some(disposables.value + [r.1])
    ensures disposables.None? ==> r.2 == None
  {
    var (ls, reg1) := Listeners(reg, e);
    var d := OffOnDispose(e, l);
    (reg1[e := ls + [Direct(l)]], d, if disposables.Some? then Some(disposables.value + [d]) else None)
  }

  /** `once(event, listener, disposables)`: appends a wrapper around the
      listener, but the disposable still names the original listener. */
  function Once<E, L>(reg: Registry<E, L>, e: E, l: L, disposables: Option<seq<Disposable<E, L>>>)
    : (r: (Registry<E, L>, Disposable<E, L>, Option<seq<Disposable<E, L>>>))
    ensures r.0.Keys == reg.Keys + {e}
    ensures r.0[e] == (if e in reg then reg[e] else []) + [OnceWrap(l)]
    ensures forall e' :: e' in reg && e' != e ==> r.0[e'] == reg[e']
    ensures r.1 == OffOnDispose(e, l)
    ensures disposables.Some? ==> r.2 == Some(disposables.value + [r.1])
    ensures disposables.None? ==> r.2 == None
  {
    var (ls, reg1) := Listeners(reg, e);
    var d := OffOnDispose(e, l);
    (reg1[e := ls + [OnceWrap(l)]], d, if disposables.Some? then Some(disposables.value + [d]) else None)
  }

  /** `off(event, listener)`: calls the listener's `cancel` when it has one
      (the returned flag), then removes the first entry that is the listener
      itself; a missing listener leaves the list as it was. */
  function Off<E, L(==)>(reg: Registry<E, L>, e: E, l: L, hasCancel: bool)
    : (r: (Registry<E, L>, bool))
    ensures r.1 == hasCancel
    ensures r.0.Keys == reg.Keys + {e}
    ensures r.0[e] == RemoveFirst(if e in reg then reg[e] else [], Direct(l))
    ensures forall e' :: e' in reg && e' != e ==> r.0[e'] == reg[e']
  {
    var (ls, reg1) := Listeners(reg, e);
    (reg1[e := RemoveFirst(ls, Direct(l))], hasCancel)
  }

  function Dispose<E, L(==)>(reg: Registry<E, L>, d: Disposable<E, L>, hasCancel: bool): (r: (Registry<E, L>, bool))
  {
    Off(reg, d.event, d.listener, hasCancel)
  }

  /** Disposing a `once` registration does not remove its wrapper, since `off`
      looks for the original listener and the list holds the wrapper. */
  lemma OnceDisposeKeepsWrapper<E, L>(reg: Registry<E, L>, e: E, l: L, hasCancel: bool)
    requires e in reg && Direct(l) !in reg[e]
    ensures var (reg1, d, _) := Once(reg, e, l, None);
      Dispose(reg1, d, hasCancel).0[e] == reg[e] + [OnceWrap(l)]
  {
    var (reg1, d, _) := Once(reg, e, l, None);
    assert reg1[e] == reg[e] + [OnceWrap(l)];
    assert Direct(l) !in reg1[e];
  }

  /** `on` followed by disposing its disposable restores the listener list. */
  lemma OnThenDispose<E, L>(reg: Registry<E, L>, e: E, l: L, hasCancel: bool)
    requires e in reg && Direct(l) !in reg[e]
    ensures var (reg1, d, _) := On(reg, e, l, None);
      Dispose(reg1, d, hasCancel).0 == reg
  {
    var (reg1, d, _) := On(reg, e, l, None);
    var s := reg[e] + [Direct(l)];
    assert reg1[e] == s;
    var i := IndexOf(s, Direct(l));
    assert s[|reg[e]|] == Direct(l);
    assert s[..|reg[e]|] == reg[e];
    assert s[|reg[e]| + 1..] == [];
    var back := Dispose(reg1, d, hasCancel).0;
    assert back[e] == reg[e];
    assert back.Keys == reg.Keys;
    assert forall k :: k in reg ==> back[k] == reg[k];
  }

  /** One step of the trace of a sequential `fire`. */
  datatype FireStep<L> =
    | Called(entry: Entry<L>)   // the listener (or wrapper) is invoked
    | Logged(entry: Entry<L>)   // it threw; the error goes to the logger
    | Cancelled(l: L)           // a wrapper's dispose called `l.cancel()`

  /** What a sequential `fire` does when no listener is a `once` wrapper:
      every listener is called in list order and every throw is logged. */
  function PlainTrace<L>(ls: seq<Entry<L>>, throws: L -> bool): seq<FireStep<L>>
    decreases |ls|
  {
    if |ls| == 0 then []
    else [Called(ls[0])] + (if throws(ls[0].l) then [Logged(ls[0])] else []) + PlainTrace(ls[1..], throws)
  }

  lemma {:induction false} PlainTraceAppend<L>(a: seq<Entry<L>>, x: Entry<L>, throws: L -> bool)
    ensures PlainTrace(a + [x], throws) == PlainTrace(a, throws) + PlainTrace([x], throws)
    decreases |a|
  {
    if |a| == 0 {
      assert a + [x] == [x];
    } else {
      assert (a + [x])[1..] == a[1..] + [x];
      PlainTraceAppend(a[1..], x, throws);
    }
  }

  function CountOf<T(==)>(s: seq<T>, x: T): nat {
    multiset(s)[x]
  }

  /** One listener's turn in `fire`: the call, then either the logged
      error or, for a `once` wrapper, its dispose. Only the dispose changes
      the registry, and it never removes a wrapper. */
  function FireEntry<E, L(==)>(reg: Registry<E, L>, e: E, entry: Entry<L>, throws: L -> bool, hasCancel: L -> bool)
    : (r: (seq<FireStep<L>>, Registry<E, L>))
    requires e in reg
    ensures e in r.1
    ensures forall e' :: e' in reg && e' != e ==> e' in r.1 && r.1[e'] == reg[e']
    ensures forall w :: w in reg[e] && w.OnceWrap? ==> CountOf(r.1[e], w) == CountOf(reg[e], w)
    ensures entry.Direct? ==> r == (PlainTrace([entry], throws), reg)
    ensures |r.0| >= 1 && r.0[0] == Called(entry)
  {
    if throws(entry.l) then
      assert PlainTrace([entry], throws) == [Called(entry), Logged(entry)];
      ([Called(entry), Logged(entry)], reg)
    else if entry.OnceWrap? then
      var off := Off(reg, e, entry.l, hasCancel(entry.l));
      ([Called(entry)] + (if off.1 then [Cancelled(entry.l)] else []), off.0)
    else
      assert PlainTrace([entry], throws) == [Called(entry)];
      ([Called(entry)], reg)
  }

  /** The sequential `fire(event)`: walks the live list by index. A throwing
      listener is logged and the walk goes on. A `once` wrapper whose listener
      returned normally disposes its registration, which runs `off` with the
      original listener (and may shift the live list under the walk). */
  method Fire<E, L(==)>(reg: Registry<E, L>, e: E, throws: L -> bool, hasCancel: L -> bool)
    returns (trace: seq<FireStep<L>>, reg': Registry<E, L>)
    ensures e in reg'
    ensures forall e' :: e' in reg && e' != e ==> e' in reg' && reg'[e'] == reg[e']
    ensures var ls := if e in reg then reg[e] else [];
      forall w :: w in ls && w.OnceWrap? ==> CountOf(reg'[e], w) == CountOf(ls, w)
    ensures var ls := if e in reg then reg[e] else [];
      (forall i :: 0 <= i < |ls| ==> ls[i].Direct?) ==> trace == PlainTrace(ls, throws) && reg'[e] == ls
  {
    var got := Listeners(reg, e);
    var ls0: seq<Entry<L>> := got.0;
    reg' := got.1;
    var ls := ls0;
    trace := [];
    var i := 0;
    while i < |ls|
      invariant 0 <= i <= |ls| + 1
      invariant e in reg' && reg'[e] == ls
      invariant forall e' :: e' in reg && e' != e ==> e' in reg' && reg'[e'] == reg[e']
      invariant forall w :: w in ls0 && w.OnceWrap? ==> CountOf(ls, w) == CountOf(ls0, w)
      invariant (forall j :: 0 <= j < |ls0| ==> ls0[j].Direct?) ==> ls == ls0 && i <= |ls0| && trace == PlainTrace(ls0[..i], throws)
      decreases |ls| + 1 - i
    {
      var entry := ls[i];
      var (steps, next) := FireEntry(reg', e, entry, throws, hasCancel);
      trace := trace + steps;
      reg' := next;
      ls := reg'[e];
      if forall j :: 0 <= j < |ls0| ==> ls0[j].Direct? {
        assert ls0[..i + 1] == ls0[..i] + [entry];
        PlainTraceAppend(ls0[..i], entry, throws);
      }
      i := i + 1;
    }
    if forall j :: 0 <= j < |ls0| ==> ls0[j].Direct? {
      assert ls0[..i] == ls0;
    }
  }
}

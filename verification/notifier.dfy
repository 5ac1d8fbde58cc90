/**
  Deferred host-call batches. A `Notifier` holds an ordered list of
  callbacks; a callback is modelled by the sequence of host actions it
  performs when called, so running a notifier is concatenating those
  sequences. The host's pause/resume batching around a run is not part of
  this model.
 */
module Notifier {
  import opened Common
  import opened Collection

  /** A callback, as the host actions it issues, in order. */
  type Thunk<A> = seq<A>

  datatype Notifier<A> = Notifier(fns: seq<Thunk<A>>)

  /** `Notifier.create(f)`: a notifier holding exactly `f`. */
  function Create<A>(f: Thunk<A>): (n: Notifier<A>)
    ensures n.fns == [f]
    ensures Notify(n) == f
  {
    assert Flatten([f]) == f + Flatten([]);
    Notifier([f])
  }

  /** `Notifier.noop()`: one callback that does nothing. */
  function Noop<A>(): (n: Notifier<A>)
    ensures |n.fns| == 1 && n.fns[0] == []
    ensures Notify(n) == []
  {
    Create([])
  }

  function Flatten<A>(fs: seq<Thunk<A>>): seq<A>
    decreases |fs|
  {
    if |fs| == 0 then [] else fs[0] + Flatten(fs[1..])
  }

  lemma {:induction false} FlattenAppend<A>(a: seq<Thunk<A>>, b: seq<Thunk<A>>)
    ensures Flatten(a + b) == Flatten(a) + Flatten(b)
    decreases |a|
  {
    if |a| == 0 {
      assert a + b == b;
    } else {
      assert (a + b)[1..] == a[1..] + b;
      FlattenAppend(a[1..], b);
    }
  }

  /** `notify()`: calls the callbacks in insertion order. */
  function Notify<A>(n: Notifier<A>): seq<A> {
    Flatten(n.fns)
  }

  /** `a.concat(b)`: `a`'s callbacks followed by `b`'s; `b` is left as it was
      (the source mutates and returns `a`; the result here is that new `a`). */
  function Concat<A>(a: Notifier<A>, b: Notifier<A>): (r: Notifier<A>)
    ensures r.fns == a.fns + b.fns
    ensures Notify(r) == Notify(a) + Notify(b)
  {
    FlattenAppend(a.fns, b.fns);
    Notifier(a.fns + b.fns)
  }

  /** Every callback of the notifiers `ns`, in order. */
  function AllFns<A>(ns: seq<Notifier<A>>): seq<Thunk<A>>
    decreases |ns|
  {
    if |ns| == 0 then [] else ns[0].fns + AllFns(ns[1..])
  }

  /** `ns.reduce((ret, cur) => ret.concat(cur), acc)`. */
  function FoldConcat<A>(acc: Notifier<A>, ns: seq<Notifier<A>>): (r: Notifier<A>)
    ensures r.fns == acc.fns + AllFns(ns)
    decreases |ns|
  {
    if |ns| == 0 then acc
    else
      var r := FoldConcat(Concat(acc, ns[0]), ns[1..]);
      assert r.fns == acc.fns + (ns[0].fns + AllFns(ns[1..]));
      r
  }

  /** `Notifier.combine(cells)`: after dropping the missing cells, no notifier
      gives a fresh no-op, one gives that very notifier, and several give a
      fresh notifier holding a no-op followed by all their callbacks. */
  function Combine<A>(cells: seq<Option<Notifier<A>>>): (r: Notifier<A>)
    ensures var c := CompactI(cells);
      && (|c| == 0 ==> r == Noop())
      && (|c| == 1 ==> r == c[0])
      && (|c| >= 2 ==> r.fns == [[]] + AllFns(c))
  {
    var c := CompactI(cells);
    if |c| < 1 then Noop()
    else if |c| == 1 then c[0]
    else FoldConcat(Noop(), c)
  }

  /** `Notifier.notifyAll(cells)`: notifies the present cells in order. */
  function NotifyAll<A>(cells: seq<Option<Notifier<A>>>): seq<A>
    decreases |cells|
  {
    if |cells| == 0 then []
    else match cells[0]
      case None => NotifyAll(cells[1..])
      case Some(n) => Notify(n) + NotifyAll(cells[1..])
  }

  lemma {:induction false} NotifyAllCompacted<A>(cells: seq<Option<Notifier<A>>>)
    ensures NotifyAll(cells) == Flatten(AllFns(CompactI(cells)))
    decreases |cells|
  {
    if |cells| > 0 {
      NotifyAllCompacted(cells[1..]);
      match cells[0]
      case None =>
      case Some(n) =>
        assert CompactI(cells) == [n] + CompactI(cells[1..]);
        assert AllFns([n] + CompactI(cells[1..])) == n.fns + AllFns(CompactI(cells[1..]));
        FlattenAppend(n.fns, AllFns(CompactI(cells[1..])));
    }
  }

  /** Notifying the combination of cells performs exactly what notifying
      each present cell in turn performs. */
  lemma CombineThenNotify<A>(cells: seq<Option<Notifier<A>>>)
    ensures Notify(Combine(cells)) == NotifyAll(cells)
  {
    NotifyAllCompacted(cells);
    var c := CompactI(cells);
    if |c| == 1 {
      assert AllFns(c) == c[0].fns + AllFns(c[1..]);
      assert AllFns(c[1..]) == [];
      assert Flatten(AllFns(c)) == Notify(c[0]);
    } else if |c| >= 2 {
      var empty: seq<Thunk<A>> := [[]];
      FlattenAppend(empty, AllFns(c));
      assert Flatten(empty) == [] by {
        assert Flatten(empty) == empty[0] + Flatten(empty[1..]);
      }
    }
  }

  /** A trailing missing cell changes nothing, and a single cell combines
      to a notifier that does what that cell does. */
  lemma CombineIgnoresMissingCells<A>(cells: seq<Option<Notifier<A>>>, n: Notifier<A>)
    ensures Notify(Combine(cells + [None])) == NotifyAll(cells)
    ensures Notify(Combine([Some(n)])) == Notify(n)
  {
    CombineThenNotify(cells + [None]);
    NotifyAllAppend(cells, [None]);
    CombineThenNotify([Some(n)]);
  }

  lemma {:induction false} NotifyAllAppend<A>(a: seq<Option<Notifier<A>>>, b: seq<Option<Notifier<A>>>)
    ensures NotifyAll(a + b) == NotifyAll(a) + NotifyAll(b)
    decreases |a|
  {
    if |a| == 0 {
      assert a + b == b;
    } else {
      assert (a + b)[0] == a[0];
      assert (a + b)[1..] == a[1..] + b;
      NotifyAllAppend(a[1..], b);
    }
  }

  /** Notifying four cells is notifying each in turn. */
  lemma NotifyAllFour<A>(a: Option<Notifier<A>>, b: Option<Notifier<A>>, c: Option<Notifier<A>>, d: Option<Notifier<A>>)
    ensures NotifyAll([a, b, c, d]) == NotifyAll([a]) + NotifyAll([b]) + NotifyAll([c]) + NotifyAll([d])
  {
    var cells := [a, b, c, d];
    assert cells == [a] + [b] + [c] + [d];
    NotifyAllAppend([a] + [b] + [c], [d]);
    NotifyAllAppend([a] + [b], [c]);
    NotifyAllAppend([a], [b]);
  }

  /** Notifying two cells is notifying each in turn. */
  lemma NotifyAllPair<A>(a: Option<Notifier<A>>, b: Option<Notifier<A>>)
    ensures NotifyAll([a, b]) == NotifyAll([a]) + NotifyAll([b])
  {
    assert [a, b] == [a] + [b];
    NotifyAllAppend([a], [b]);
  }
}

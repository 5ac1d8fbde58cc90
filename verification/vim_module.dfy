/**
  `VimModule`: Vim-script modules declared from the extension. A module
  registers initialisers that `init` runs once the host is ready, builds
  its body lazily (at most once), and names its functions under a global
  dictionary whose name carries the module id and the library version.

  The host calls themselves are not modelled: an initialiser is described
  by what it does to the queue (the initialisers it registers while it
  runs) and by whether it throws.
 */
module VimModule {
  import opened Common
  import opened ModuleId

  // ---------------------------------------------------------------------
  // filterLineCont: removing Vim line continuations

  /** A character of JavaScript's `\s` class. */
  predicate IsJsSpace(c: char) {
    var n := c as int;
    n == 0x09 || n == 0x0a || n == 0x0b || n == 0x0c || n == 0x0d || n == 0x20 ||
    n == 0xa0 || n == 0x1680 || (0x2000 <= n <= 0x200a) || n == 0x2028 || n == 0x2029 ||
    n == 0x202f || n == 0x205f || n == 0x3000 || n == 0xfeff
  }

  /** The length of the run of `\s` characters that `s` starts with. */
  function SpaceRun(s: string): (k: nat)
    ensures k <= |s|
    ensures forall m :: 0 <= m < k ==> IsJsSpace(s[m])
    ensures k < |s| ==> !IsJsSpace(s[k])
    decreases |s|
  {
    if |s| == 0 || !IsJsSpace(s[0]) then 0 else 1 + SpaceRun(s[1..])
  }

  /** `s` starts with a match of `\n\s*\\`: the greedy `\s*` stops at the
      first character outside the class, which must be the backslash. */
  predicate ContAt(s: string) {
    |s| > 0 && s[0] == '\n' && 1 + SpaceRun(s[1..]) < |s| && s[1 + SpaceRun(s[1..])] == '\\'
  }

  /** The length of the match `s` starts with. */
  function ContLen(s: string): (k: nat)
    requires ContAt(s)
    ensures 2 <= k <= |s|
  {
    2 + SpaceRun(s[1..])
  }

  /** `filterLineCont`: `content.replace(/\n\s*\\/g, '')`, scanning left to
      right and resuming after each removed match. */
  function FilterLineCont(s: string): (r: string)
    ensures |r| <= |s|
    decreases |s|
  {
    if |s| == 0 then ""
    else if ContAt(s) then FilterLineCont(s[ContLen(s)..])
    else [s[0]] + FilterLineCont(s[1..])
  }

  /** The pattern matches at `k` in the plain reading of the regular
      expression: a newline, then only `\s` characters, then a backslash. */
  ghost predicate LineContinuationAt(s: string, k: int) {
    0 <= k < |s| && s[k] == '\n' &&
    exists j :: k < j < |s| && s[j] == '\\' && forall m :: k < m < j ==> IsJsSpace(s[m])
  }

  /** A run of `n` class characters followed by another character has length `n`. */
  lemma {:induction false} SpaceRunExact(u: string, n: nat)
    requires n < |u| && !IsJsSpace(u[n])
    requires forall m :: 0 <= m < n ==> IsJsSpace(u[m])
    ensures SpaceRun(u) == n
    decreases n
  {
    if n > 0 {
      forall m | 0 <= m < n - 1 ensures IsJsSpace(u[1..][m]) {
        assert u[1..][m] == u[m + 1];
      }
      SpaceRunExact(u[1..], n - 1);
    }
  }

  /** The greedy match and the plain reading agree. */
  lemma ContAtIsLineContinuation(s: string, k: nat)
    requires k < |s|
    ensures ContAt(s[k..]) <==> LineContinuationAt(s, k)
  {
    var t := s[k..];
    if ContAt(t) {
      var j := k + 1 + SpaceRun(t[1..]);
      assert s[j] == t[1 + SpaceRun(t[1..])];
      forall m | k < m < j ensures IsJsSpace(s[m]) {
        assert s[m] == t[1..][m - k - 1];
      }
    }
    if LineContinuationAt(s, k) {
      var j :| k < j < |s| && s[j] == '\\' && forall m :: k < m < j ==> IsJsSpace(s[m]);
      var u := t[1..];
      forall m | 0 <= m < j - k - 1 ensures IsJsSpace(u[m]) {
        assert u[m] == s[k + 1 + m];
      }
      assert u[j - k - 1] == s[j];
      SpaceRunExact(u, j - k - 1);
      assert t[1 + SpaceRun(u)] == s[j];
    }
  }

  /** A string with a match somewhere loses characters. */
  lemma {:induction false} FilterShortens(s: string, k: nat)
    requires k < |s| && ContAt(s[k..])
    ensures |FilterLineCont(s)| < |s|
    decreases |s|
  {
    if !ContAt(s) {
      assert k > 0 by { assert s[0..] == s; }
      assert s[1..][k - 1..] == s[k..];
      FilterShortens(s[1..], k - 1);
    }
  }

  /** A string without a match comes back unchanged. */
  lemma {:induction false} FilterKeepsPlain(s: string)
    requires forall k :: 0 <= k < |s| ==> !ContAt(s[k..])
    ensures FilterLineCont(s) == s
    decreases |s|
  {
    if |s| > 0 {
      assert s[0..] == s;
      forall k | 0 <= k < |s[1..]| ensures !ContAt(s[1..][k..]) {
        assert s[1..][k..] == s[k + 1..];
      }
      FilterKeepsPlain(s[1..]);
    }
  }

  /** `filterLineCont` changes a string exactly when the pattern matches
      somewhere in it. */
  lemma FilterUnchangedIffNoMatch(s: string)
    ensures FilterLineCont(s) == s <==> forall k :: 0 <= k < |s| ==> !LineContinuationAt(s, k)
  {
    forall k | 0 <= k < |s| ensures ContAt(s[k..]) <==> LineContinuationAt(s, k) {
      ContAtIsLineContinuation(s, k);
    }
    if exists k :: 0 <= k < |s| && ContAt(s[k..]) {
      var k :| 0 <= k < |s| && ContAt(s[k..]);
      FilterShortens(s, k);
    } else {
      FilterKeepsPlain(s);
    }
  }

  /** The characters that a match can consist of. */
  predicate Removable(c: char) {
    IsJsSpace(c) || c == '\\'
  }

  /** `s` without its whitespace and backslashes. */
  function Visible(s: string): (r: string)
    ensures forall i :: 0 <= i < |r| ==> !Removable(r[i])
    decreases |s|
  {
    if |s| == 0 then "" else (if Removable(s[0]) then "" else [s[0]]) + Visible(s[1..])
  }

  lemma {:induction false} VisibleAppend(a: string, b: string)
    ensures Visible(a + b) == Visible(a) + Visible(b)
    decreases |a|
  {
    if |a| == 0 {
      assert a + b == b;
    } else {
      assert (a + b)[0] == a[0];
      assert (a + b)[1..] == a[1..] + b;
      VisibleAppend(a[1..], b);
    }
  }

  lemma {:induction false} VisibleOfRemovable(s: string)
    requires forall i :: 0 <= i < |s| ==> Removable(s[i])
    ensures Visible(s) == ""
    decreases |s|
  {
    if |s| > 0 {
      VisibleOfRemovable(s[1..]);
    }
  }

  /** Only whitespace and backslashes are ever removed: every other
      character survives, in order. */
  lemma {:induction false} FilterKeepsVisible(s: string)
    ensures Visible(FilterLineCont(s)) == Visible(s)
    decreases |s|
  {
    if |s| > 0 {
      if ContAt(s) {
        var n := ContLen(s);
        assert s == s[..n] + s[n..];
        VisibleAppend(s[..n], s[n..]);
        forall i | 0 <= i < n ensures Removable(s[..n][i]) {
          if 0 < i < n - 1 {
            assert s[i] == s[1..][i - 1];
          }
        }
        VisibleOfRemovable(s[..n]);
        FilterKeepsVisible(s[n..]);
      } else {
        FilterKeepsVisible(s[1..]);
        VisibleAppend([s[0]], FilterLineCont(s[1..]));
        assert ([s[0]] + FilterLineCont(s[1..]))[1..] == FilterLineCont(s[1..]);
      }
    }
  }

  /** A continued Vim line is joined: `a`, newline, two spaces, backslash,
      `b` becomes `ab`. */
  lemma FilterJoinsContinuedLine()
    ensures FilterLineCont("a\n  \\b") == "ab"
  {
    var s := "a\n  \\b";
    assert !ContAt(s);
    var t := s[1..];
    assert t == "\n  \\b";
    assert t[1..] == "  \\b";
    assert SpaceRun("\\b") == 0;
    assert "  \\b"[1..] == " \\b" && " \\b"[1..] == "\\b";
    assert SpaceRun(t[1..]) == 2;
    assert ContAt(t) && ContLen(t) == 4;
    assert t[4..] == "b";
    assert FilterLineCont("b") == "b" by {
      assert "b"[1..] == "";
    }
  }

  // ---------------------------------------------------------------------
  // The init queue

  /** An initialiser, as it behaves when run: the initialisers it registers
      while running, in order, and whether it then throws. */
  datatype InitItem = InitItem(description: string, throws: bool, registers: seq<InitItem>)

  /** The class-level state: `inited`, `initQueue` and `initAfterQueue`. */
  datatype InitState = InitState(inited: bool, initQueue: seq<InitItem>, initAfterQueue: seq<InitItem>)

  /** `registerInit`: before `init` an initialiser joins `initQueue`,
      afterwards `initAfterQueue`. */
  function RegisterInit(st: InitState, item: InitItem): (r: InitState)
    ensures r.inited == st.inited
    ensures !st.inited ==> r.initQueue == st.initQueue + [item] && r.initAfterQueue == st.initAfterQueue
    ensures st.inited ==> r.initQueue == st.initQueue && r.initAfterQueue == st.initAfterQueue + [item]
  {
    if !st.inited then st.(initQueue := st.initQueue + [item])
    else st.(initAfterQueue := st.initAfterQueue + [item])
  }

  /** Registers the initialisers in order. */
  function RegisterAll(st: InitState, items: seq<InitItem>): (r: InitState)
    ensures r.inited == st.inited
    ensures !st.inited ==> r.initQueue == st.initQueue + items && r.initAfterQueue == st.initAfterQueue
    ensures st.inited ==> r.initQueue == st.initQueue && r.initAfterQueue == st.initAfterQueue + items
    decreases |items|
  {
    if |items| == 0 then st
    else
      var r := RegisterAll(RegisterInit(st, items[0]), items[1..]);
      assert [items[0]] + items[1..] == items;
      r
  }

  /** The number of runs a list of initialisers leads to, counting the ones
      they register. */
  function SizeAll(q: seq<InitItem>): nat
    decreases q
  {
    if |q| == 0 then 0 else 1 + SizeAll(q[0].registers) + SizeAll(q[1..])
  }

  /** Every initialiser of the list and every one registered under it, in
      pre-order. */
  function AllItems(q: seq<InitItem>): seq<InitItem>
    decreases q
  {
    if |q| == 0 then [] else [q[0]] + AllItems(q[0].registers) + AllItems(q[1..])
  }

  /** The initialisers the list registers directly, in order. */
  function Kids(q: seq<InitItem>): seq<InitItem>
    decreases |q|
  {
    if |q| == 0 then [] else q[0].registers + Kids(q[1..])
  }

  lemma {:induction false} SizeAllAppend(a: seq<InitItem>, b: seq<InitItem>)
    ensures SizeAll(a + b) == SizeAll(a) + SizeAll(b)
    decreases |a|
  {
    if |a| == 0 {
      assert a + b == b;
    } else {
      assert (a + b)[0] == a[0];
      assert (a + b)[1..] == a[1..] + b;
      SizeAllAppend(a[1..], b);
    }
  }

  lemma {:induction false} AllItemsAppend(a: seq<InitItem>, b: seq<InitItem>)
    ensures AllItems(a + b) == AllItems(a) + AllItems(b)
    decreases |a|
  {
    if |a| == 0 {
      assert a + b == b;
    } else {
      assert (a + b)[0] == a[0];
      assert (a + b)[1..] == a[1..] + b;
      AllItemsAppend(a[1..], b);
    }
  }

  lemma {:induction false} KidsAppend(a: seq<InitItem>, b: seq<InitItem>)
    ensures Kids(a + b) == Kids(a) + Kids(b)
    decreases |a|
  {
    if |a| == 0 {
      assert a + b == b;
    } else {
      assert (a + b)[0] == a[0];
      assert (a + b)[1..] == a[1..] + b;
      KidsAppend(a[1..], b);
    }
  }

  /** One level down there are as many runs left as before, less one per
      initialiser of the level. */
  lemma {:induction false} SizeOfKids(q: seq<InitItem>)
    ensures SizeAll(Kids(q)) + |q| == SizeAll(q)
    decreases |q|
  {
    if |q| > 0 {
      SizeOfKids(q[1..]);
      SizeAllAppend(q[0].registers, Kids(q[1..]));
    }
  }

  /** The reference order: the queued initialisers, then everything they
      registered in registration order, then everything that registered,
      level by level. */
  function LevelOrder(q: seq<InitItem>): seq<InitItem>
    decreases SizeAll(q)
  {
    if |q| == 0 then []
    else
      SizeOfKids(q);
      q + LevelOrder(Kids(q))
  }

  lemma LevelOrderUnfold(q: seq<InitItem>)
    ensures LevelOrder(q) == q + LevelOrder(Kids(q))
  {
    if |q| == 0 {
      assert Kids(q) == [];
    }
  }

  /** The initialisers of `s` that threw, in order: what `init` logs. */
  function Throwing(s: seq<InitItem>): seq<InitItem>
    decreases |s|
  {
    if |s| == 0 then []
    else Throwing(s[..|s| - 1]) + (if s[|s| - 1].throws then [s[|s| - 1]] else [])
  }

  /** The log holds exactly the initialisers that threw: a throwing one
      does not keep the others from running, and none that returned is
      logged. */
  lemma {:induction false} ThrowingIsExactlyThrown(s: seq<InitItem>, x: InitItem)
    ensures x in Throwing(s) <==> x in s && x.throws
    decreases |s|
  {
    if |s| > 0 {
      ThrowingIsExactlyThrown(s[..|s| - 1], x);
      assert s == s[..|s| - 1] + [s[|s| - 1]];
    }
  }

  /** The order invariant of the queue: `queue` is the rest `a` of the
      current level followed by what the finished part `p` of that level
      registered, and the runs still to come complete the reference order. */
  ghost predicate OnSchedule(init: seq<InitItem>, trace: seq<InitItem>, queue: seq<InitItem>,
                             a: seq<InitItem>, p: seq<InitItem>) {
    queue == a + Kids(p) && trace + a + LevelOrder(Kids(p + a)) == LevelOrder(init)
  }

  /** Moves to the next level when the current one is finished. */
  lemma NextLevel(init: seq<InitItem>, trace: seq<InitItem>, queue: seq<InitItem>, p: seq<InitItem>)
    requires OnSchedule(init, trace, queue, [], p)
    ensures OnSchedule(init, trace, queue, queue, [])
  {
    var none: seq<InitItem> := [];
    assert Kids(none) == none;
    assert p + none == p && none + queue == queue && queue + none == queue && trace + none == trace;
    assert queue == Kids(p);
    LevelOrderUnfold(queue);
  }

  /** Runs the head `a[0]` of the current level. */
  lemma RunOne(init: seq<InitItem>, trace: seq<InitItem>, queue: seq<InitItem>, a: seq<InitItem>, p: seq<InitItem>)
    requires OnSchedule(init, trace, queue, a, p) && |a| > 0
    ensures OnSchedule(init, trace + [a[0]], queue[1..] + a[0].registers, a[1..], p + [a[0]])
  {
    var x, rest := a[0], a[1..];
    assert a == [x] + rest;
    QueueAfterRun(queue, x, rest, p);
    Shift(trace, x, rest);
    Shift(p, x, rest);
  }

  lemma QueueAfterRun(queue: seq<InitItem>, x: InitItem, rest: seq<InitItem>, p: seq<InitItem>)
    requires queue == [x] + rest + Kids(p)
    ensures queue[1..] + x.registers == rest + Kids(p + [x])
  {
    assert queue[1..] == rest + Kids(p);
    KidsOne(x);
    KidsAppend(p, [x]);
  }

  lemma Shift<T>(s: seq<T>, x: T, rest: seq<T>)
    ensures s + [x] + rest == s + ([x] + rest)
  {
  }

  lemma KidsOne(x: InitItem)
    ensures Kids([x]) == x.registers
  {
    assert [x][1..] == [];
  }

  /** The queue starts with the initially registered initialisers. */
  ghost predicate InitialFirst(init: seq<InitItem>, trace: seq<InitItem>, queue: seq<InitItem>) {
    |trace + queue| >= |init| && (trace + queue)[..|init|] == init
  }

  lemma InitialFirstStep(init: seq<InitItem>, trace: seq<InitItem>, queue: seq<InitItem>, extra: seq<InitItem>)
    requires InitialFirst(init, trace, queue) && |queue| > 0
    ensures InitialFirst(init, trace + [queue[0]], queue[1..] + extra)
  {
    assert trace + [queue[0]] + (queue[1..] + extra) == (trace + queue) + extra;
  }

  /** The state of the queue loop of `init`: the runs so far, the logged
      failures, the queue and `initAfterQueue`. */
  datatype Run = Run(trace: seq<InitItem>, errors: seq<InitItem>, queue: seq<InitItem>, after: seq<InitItem>)

  /** One round of the loop: run the head of the queue, log it if it throws,
      and move whatever is in `initAfterQueue` (now including what it
      registered) to the end of the queue. */
  function Step(r: Run): (r': Run)
    requires |r.queue| > 0
  {
    var it := r.queue[0];
    var after := RegisterAll(InitState(true, [], r.after), it.registers).initAfterQueue;
    var errors := r.errors + (if it.throws then [it] else []);
    if |after| > 0 then Run(r.trace + [it], errors, r.queue[1..] + after, [])
    else Run(r.trace + [it], errors, r.queue[1..], after)
  }

  function Measure(r: Run): nat {
    SizeAll(r.queue) + SizeAll(r.after)
  }

  ghost predicate RunInv(init: seq<InitItem>, after0: seq<InitItem>, r: Run, a: seq<InitItem>, p: seq<InitItem>) {
    && (|r.trace| == 0 ==> r.queue == init && r.after == after0)
    && (|r.trace| > 0 ==> r.after == [] && |init| > 0)
    && InitialFirst(init, r.trace, r.queue)
    && multiset(r.trace) + multiset(AllItems(r.queue)) + multiset(AllItems(r.after))
         == multiset(AllItems(init)) + multiset(AllItems(after0))
    && (after0 == [] ==> OnSchedule(init, r.trace, r.queue, a, p))
    && r.errors == Throwing(r.trace)
  }

  /** A round moves the head of the queue to the trace and its
      registrations behind the rest of the queue. */
  lemma StepShape(r: Run)
    requires |r.queue| > 0
    ensures var it := r.queue[0]; var after := r.after + it.registers;
      && Step(r).trace == r.trace + [it]
      && multiset(AllItems(Step(r).queue)) + multiset(AllItems(Step(r).after))
           == multiset(AllItems(r.queue[1..])) + multiset(AllItems(after))
      && SizeAll(Step(r).queue) + SizeAll(Step(r).after) == SizeAll(r.queue[1..]) + SizeAll(after)
  {
    var after := r.after + r.queue[0].registers;
    AllItemsAppend(r.queue[1..], after);
    SizeAllAppend(r.queue[1..], after);
    assert AllItems([]) == [] && SizeAll([]) == 0;
  }

  lemma StepCounts(r: Run)
    requires |r.queue| > 0
    ensures Measure(Step(r)) < Measure(r)
    ensures multiset(Step(r).trace) + multiset(AllItems(Step(r).queue)) + multiset(AllItems(Step(r).after))
         == multiset(r.trace) + multiset(AllItems(r.queue)) + multiset(AllItems(r.after))
  {
    var it := r.queue[0];
    var rest := r.queue[1..];
    StepShape(r);
    HeadSplit(r.queue);
    AllItemsAppend(r.after, it.registers);
    SizeAllAppend(r.after, it.registers);
    var t, i, g, q, f := multiset(r.trace), multiset{it}, multiset(AllItems(it.registers)),
      multiset(AllItems(rest)), multiset(AllItems(r.after));
    var lhs := multiset(Step(r).trace) + multiset(AllItems(Step(r).queue)) + multiset(AllItems(Step(r).after));
    var rhs := multiset(r.trace) + multiset(AllItems(r.queue)) + multiset(AllItems(r.after));
    assert lhs == (t + i) + (q + (f + g));
    assert rhs == t + (i + g + q) + f;
    Shuffle(t, i, g, q, f);
  }

  lemma Shuffle<T>(t: multiset<T>, i: multiset<T>, g: multiset<T>, q: multiset<T>, f: multiset<T>)
    ensures (t + i) + (q + (f + g)) == t + (i + g + q) + f
  {
  }

  /** The items below the head of a queue, and its size, split off the head. */
  lemma HeadSplit(q: seq<InitItem>)
    requires |q| > 0
    ensures AllItems(q) == [q[0]] + AllItems(q[0].registers) + AllItems(q[1..])
    ensures SizeAll(q) == 1 + SizeAll(q[0].registers) + SizeAll(q[1..])
  {
    var it := q[0];
    assert [it] + q[1..] == q;
    AllItemsAppend([it], q[1..]);
    SizeAllAppend([it], q[1..]);
    assert AllItems([it]) == [it] + AllItems(it.registers) + AllItems([]);
    assert SizeAll([it]) == 1 + SizeAll(it.registers) + SizeAll([]);
    assert AllItems([]) == [] && SizeAll([]) == 0;
  }

  lemma StepErrors(r: Run)
    requires |r.queue| > 0 && r.errors == Throwing(r.trace)
    ensures Step(r).errors == Throwing(Step(r).trace)
  {
    var t := r.trace + [r.queue[0]];
    assert t[..|t| - 1] == r.trace;
  }

  lemma StepKeeps(init: seq<InitItem>, after0: seq<InitItem>, r: Run, a: seq<InitItem>, p: seq<InitItem>)
    returns (a': seq<InitItem>, p': seq<InitItem>)
    requires RunInv(init, after0, r, a, p) && |r.queue| > 0
    ensures RunInv(init, after0, Step(r), a', p')
    ensures Measure(Step(r)) < Measure(r)
  {
    var it := r.queue[0];
    StepCounts(r);
    StepErrors(r);
    InitialFirstStep(init, r.trace, r.queue, r.after + it.registers);
    if |r.after + it.registers| == 0 {
      assert r.queue[1..] + (r.after + it.registers) == r.queue[1..];
    }
    a', p' := a, p;
    if after0 == [] {
      assert r.after == [];
      var a0, p0 := a, p;
      if |a| == 0 {
        NextLevel(init, r.trace, r.queue, p);
        a0, p0 := r.queue, [];
      }
      RunOne(init, r.trace, r.queue, a0, p0);
      a', p' := a0[1..], p0 + [a0[0]];
      assert [] + it.registers == it.registers;
      if |it.registers| == 0 {
        assert r.queue[1..] + it.registers == r.queue[1..];
      }
    }
  }

  lemma StartRun(init: seq<InitItem>, after0: seq<InitItem>)
    ensures RunInv(init, after0, Run([], [], init, after0), init, [])
  {
    assert init == init + Kids([]) by { assert Kids([]) == []; }
    LevelOrderUnfold(init);
    assert [] + init == init && [] + init + [] == init;
    assert ([] + init)[..|init|] == init;
  }

  lemma FinishRun(init: seq<InitItem>, after0: seq<InitItem>, r: Run, a: seq<InitItem>, p: seq<InitItem>)
    requires RunInv(init, after0, r, a, p) && |r.queue| == 0
    ensures |r.trace| >= |init| && r.trace[..|init|] == init
    ensures |init| == 0 ==> r.trace == [] && r.after == after0
    ensures |init| > 0 ==> r.after == []
    ensures |init| > 0 ==> multiset(r.trace) == multiset(AllItems(init + after0))
    ensures after0 == [] ==> r.trace == LevelOrder(init)
  {
    assert r.trace + r.queue == r.trace;
    if |init| > 0 {
      FinishCounts(init, after0, r);
    }
    if after0 == [] {
      FinishOrder(init, r.trace, a, p);
    }
  }

  lemma FinishCounts(init: seq<InitItem>, after0: seq<InitItem>, r: Run)
    requires |r.queue| == 0 && |init| > 0 && r.after == []
    requires multiset(r.trace) + multiset(AllItems(r.queue)) + multiset(AllItems(r.after))
         == multiset(AllItems(init)) + multiset(AllItems(after0))
    ensures multiset(r.trace) == multiset(AllItems(init + after0))
  {
    AllItemsAppend(init, after0);
    assert AllItems(r.queue) == [] && AllItems(r.after) == [];
  }

  lemma FinishOrder(init: seq<InitItem>, trace: seq<InitItem>, a: seq<InitItem>, p: seq<InitItem>)
    requires OnSchedule(init, trace, [], a, p)
    ensures trace == LevelOrder(init)
  {
    assert a == [] && Kids(p) == [];
    assert p + a == p;
    assert LevelOrder([]) == [];
    assert trace + a == trace;
  }

  /** `init`: marks the class inited, then runs the initially registered
      initialisers in order; after each run, the initialisers registered in
      the meantime are appended to the queue. A throwing initialiser is
      logged and the rest still run. Returns the runs in order, the logged
      failures and the new state. */
  method Init(st: InitState) returns (trace: seq<InitItem>, errors: seq<InitItem>, st': InitState)
    ensures st'.inited && st'.initQueue == st.initQueue
    ensures |trace| >= |st.initQueue| && trace[..|st.initQueue|] == st.initQueue
    ensures |st.initQueue| == 0 ==> trace == [] && st'.initAfterQueue == st.initAfterQueue
    ensures |st.initQueue| > 0 ==> st'.initAfterQueue == []
    ensures |st.initQueue| > 0 ==> multiset(trace) == multiset(AllItems(st.initQueue + st.initAfterQueue))
    ensures st.initAfterQueue == [] ==> trace == LevelOrder(st.initQueue)
    ensures errors == Throwing(trace)
  {
    ghost var init := st.initQueue;
    ghost var after0 := st.initAfterQueue;
    var r := Run([], [], st.initQueue, st.initAfterQueue);
    ghost var a := init;
    ghost var p: seq<InitItem> := [];
    StartRun(init, after0);
    while |r.queue| > 0
      invariant RunInv(init, after0, r, a, p)
      decreases Measure(r)
    {
      a, p := StepKeeps(init, after0, r, a, p);
      r := Step(r);
    }
    FinishRun(init, after0, r, a, p);
    trace, errors := r.trace, r.errors;
    st' := InitState(true, st.initQueue, r.after);
  }

  /** Initialisers registered before `init` run first, in registration
      order, however many more they register. */
  method InitRunsRegisteredFirst(items: seq<InitItem>) returns (trace: seq<InitItem>)
    ensures |trace| >= |items| && trace[..|items|] == items
    ensures trace == LevelOrder(items)
  {
    var st := RegisterAll(InitState(false, [], []), items);
    assert st.initQueue == items;
    var errors, st';
    trace, errors, st' := Init(st);
  }

  /** After `init`, a new initialiser waits in `initAfterQueue` and does not
      run until another `init` pass moves it to a queue. */
  lemma RegisterAfterInitWaits(st: InitState, item: InitItem)
    requires st.inited
    ensures RegisterInit(st, item).initQueue == st.initQueue
    ensures RegisterInit(st, item).initAfterQueue[|st.initAfterQueue|] == item
  {
  }

  // ---------------------------------------------------------------------
  // create: the lazily built module body

  /** The module handle the body callback receives. */
  datatype Handle = Handle(moduleKey: string)

  /** The memoised body: `mod`, unset until the first access. */
  datatype Memo<T> = Memo(mod: Option<T>)

  /** `initedMod`: builds the body on first use and returns the stored one
      afterwards; the flag tells whether the callback ran. */
  function InitedMod<T>(m: Memo<T>, h: Handle, cb: Handle -> T): (r: (T, Memo<T>, bool))
    ensures r.2 <==> m.mod.None?
    ensures r.1.mod == Some(r.0)
    ensures m.mod.Some? ==> r.0 == m.mod.value && r.1 == m
    ensures m.mod.None? ==> r.0 == cb(h)
  {
    match m.mod
    case Some(v) => (v, m, false)
    case None => var v := cb(h); (v, Memo(Some(v)), true)
  }

  /** However many times the module is used (through the proxy or by its
      initialiser), the callback runs at most once, and exactly once when
      the module is used at all; every use sees the same body. */
  method UseModule<T>(h: Handle, cb: Handle -> T, uses: nat) returns (values: seq<T>, calls: nat)
    ensures calls == if uses == 0 then 0 else 1
    ensures |values| == uses
    ensures forall i :: 0 <= i < uses ==> values[i] == cb(h)
  {
    var m: Memo<T> := Memo(None);
    values, calls := [], 0;
    while |values| < uses
      invariant |values| <= uses
      invariant calls == if |values| == 0 then 0 else 1
      invariant |values| == 0 <==> m.mod.None?
      invariant m.mod.Some? ==> m.mod.value == cb(h)
      invariant forall i :: 0 <= i < |values| ==> values[i] == cb(h)
    {
      var r := InitedMod(m, h, cb);
      if r.2 {
        calls := calls + 1;
      }
      values := values + [r.0];
      m := r.1;
    }
  }

  /** `create(moduleName, cb)`: draws a fresh id for `VimModule.module` and
      keys the module `${id}_${moduleName}`; the initialiser it registers is
      described as `module ${moduleKey}`. */
  function Create(g: Globals, moduleName: string): (r: (string, Globals))
    ensures var id := GetModuleId(g, "VimModule.module").0;
      r.0 == IntToString(id) + "_" + moduleName
    ensures r.1 == GetModuleId(g, "VimModule.module").1
  {
    var (id, g') := GetModuleId(g, "VimModule.module");
    (IntToString(id) + "_" + moduleName, g')
  }

  /** Two modules created one after the other get different keys, even
      under the same name. */
  lemma CreateKeysDistinct(g: Globals, name1: string, name2: string)
    ensures var (k1, g1) := Create(g, name1);
      Create(g1, name2).0 != k1
  {
    var (k1, g1) := Create(g, name1);
    var k2 := Create(g1, name2).0;
    var id1 := GetModuleId(g, "VimModule.module").0;
    var id2 := GetModuleId(g1, "VimModule.module").0;
    assert id2 == id1 + 1;
    if k1 == k2 {
      assert '_' !in IntToString(id1) && '_' !in IntToString(id2);
      assert IntToString(id1) + ['_'] + name1 == k1;
      assert IntToString(id2) + ['_'] + name2 == k2;
      SeparatedInjective(IntToString(id1), IntToString(id2), '_', name1, name2);
      IntToStringInjective(id1, id2);
    }
  }

  // ---------------------------------------------------------------------
  // Names

  /** The library-wide names, for module id `mid` of `VimModule` and the
      library version. */
  datatype Names = Names(globalKey: string, globalVariable: string, callFunc: string, declareVar: string)

  function ModuleNames(mid: int, versionName: string): (n: Names)
    ensures n.globalVariable == "g:" + n.globalKey
  {
    var m := IntToString(mid);
    Names("coc_helper_module_m" + m + "_v" + versionName,
          "g:coc_helper_module_m" + m + "_v" + versionName,
          "CocHelperCallFn_m" + m + "_v" + versionName,
          "CocHelperCallVar_m" + m + "_v" + versionName)
  }

  /** Different ids of the library (two copies of it loaded side by side)
      give different global dictionaries and call functions. */
  lemma ModuleNamesDistinct(mid1: int, mid2: int, versionName: string)
    requires mid1 != mid2
    ensures ModuleNames(mid1, versionName).globalKey != ModuleNames(mid2, versionName).globalKey
    ensures ModuleNames(mid1, versionName).callFunc != ModuleNames(mid2, versionName).callFunc
  {
    var m1, m2 := IntToString(mid1), IntToString(mid2);
    var v := "v" + versionName;
    assert '_' !in m1 && '_' !in m2;
    var p1 := "coc_helper_module_m";
    if p1 + m1 + "_v" + versionName == p1 + m2 + "_v" + versionName {
      assert m1 + ['_'] + v == (p1 + m1 + "_v" + versionName)[|p1|..];
      assert m2 + ['_'] + v == (p1 + m2 + "_v" + versionName)[|p1|..];
      SeparatedInjective(m1, m2, '_', v, v);
      IntToStringInjective(mid1, mid2);
    }
    var p2 := "CocHelperCallFn_m";
    if p2 + m1 + "_v" + versionName == p2 + m2 + "_v" + versionName {
      assert m1 + ['_'] + v == (p2 + m1 + "_v" + versionName)[|p2|..];
      assert m2 + ['_'] + v == (p2 + m2 + "_v" + versionName)[|p2|..];
      SeparatedInjective(m1, m2, '_', v, v);
      IntToStringInjective(mid1, mid2);
    }
  }

  /** `${globalVariable}.${moduleKey}.${memberName}`: the name of a module
      function (and of a module variable, which `var` builds the same way). */
  function MemberName(n: Names, moduleKey: string, memberName: string): (r: string)
    ensures |r| == |n.globalVariable| + |moduleKey| + |memberName| + 2
    ensures r[..|n.globalVariable| + 1] == n.globalVariable + "."
    ensures r[|r| - |memberName|..] == memberName
  {
    n.globalVariable + "." + moduleKey + "." + memberName
  }

  /** Within a module, different function names give different names. */
  lemma MemberNameInjective(n: Names, moduleKey: string, a: string, b: string)
    requires MemberName(n, moduleKey, a) == MemberName(n, moduleKey, b)
    ensures a == b
  {
  }

  /** `inlineCall(argsExpression = '')`: a Vim expression calling the
      module function through the library's call function. */
  function InlineCall(n: Names, moduleKey: string, fnName: string, argsExpression: Option<string>): (r: string)
    ensures var prefix := n.callFunc + "('" + moduleKey + "', '" + fnName + "', [";
      var args := argsExpression.GetOr("");
      |r| == |prefix| + |args| + 2 && r[..|prefix|] == prefix && r[|prefix|..|r| - 2] == args &&
      r[|r| - 2..] == "])"
  {
    n.callFunc + "('" + moduleKey + "', '" + fnName + "', [" + argsExpression.GetOr("") + "])"
  }

  /** Leaving the arguments out is calling with none, and the argument
      expression can be read back from the call. */
  lemma InlineCallArgs(n: Names, moduleKey: string, fnName: string, a: string, b: string)
    ensures InlineCall(n, moduleKey, fnName, None) == InlineCall(n, moduleKey, fnName, Some(""))
    ensures InlineCall(n, moduleKey, fnName, Some(a)) == InlineCall(n, moduleKey, fnName, Some(b)) ==> a == b
  {
  }

  /** What `fn(fnName, getContent)` sets up: the function's name, the
      description of the initialiser that declares it, and the script that
      initialiser executes (the content with line continuations joined). */
  datatype FnDecl = FnDecl(name: string, description: string, script: string)

  function Fn(n: Names, moduleKey: string, fnName: string, getContent: string -> string): (d: FnDecl)
    ensures d.name == MemberName(n, moduleKey, fnName)
    ensures d.description == "fn " + d.name
    ensures d.script == FilterLineCont(getContent(d.name))
    ensures Visible(d.script) == Visible(getContent(d.name))
    ensures |d.script| <= |getContent(d.name)|
  {
    var name := MemberName(n, moduleKey, fnName);
    FilterKeepsVisible(getContent(name));
    FnDecl(name, "fn " + name, FilterLineCont(getContent(name)))
  }

  /** What `var` registers: the variable's name (also its inline form), the
      description of its initialiser, and the expression that initialiser
      hands to the declaring function, with line continuations joined. */
  datatype VarDecl = VarDecl(name: string, inline: string, description: string, expression: string)

  function Var(n: Names, moduleKey: string, varName: string, expression: string): (d: VarDecl)
    ensures d.name == MemberName(n, moduleKey, varName) && d.inline == d.name
    ensures d.description == "var " + d.name
    ensures d.expression == FilterLineCont(expression)
    ensures Visible(d.expression) == Visible(expression)
    ensures |d.expression| <= |expression|
  {
    var name := MemberName(n, moduleKey, varName);
    FilterKeepsVisible(expression);
    VarDecl(name, name, "var " + name, FilterLineCont(expression))
  }
}

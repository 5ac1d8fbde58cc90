/**
  `WinLayoutFinder`: the tree of Vim's `winlayout()` (columns, rows and
  window leaves), converted into nodes that know their parent, with a
  depth-first search for a window id and a breadth-first search for the
  closest window among a set of ids.

  A node is addressed by its path of child indices from the root; the
  parent link of a node names its group by the group's path (JavaScript
  links the group object itself).
 */
module WinLayout {
  import opened Common

  datatype Kind = Col | Row

  /** `winlayout()` as the host returns it. */
  datatype VimNode = VimLeaf(winid: int) | VimSplit(kind: Kind, nodes: seq<VimNode>)

  /** A parent link: the enclosing group and the node's index in it. */
  datatype ParentRef = ParentRef(groupPath: seq<nat>, indexInParent: nat)

  datatype Node =
    | Leaf(winid: int, parent: Option<ParentRef>)
    | Group(kind: Kind, children: seq<Node>, parent: Option<ParentRef>)

  /** `create(tabnr)`: the arguments of the `winlayout` call; tab 0 or no tab
      means the current tab. */
  function WinlayoutArgs(tabnr: Option<int>): (args: seq<int>)
    ensures |args| <= 1
    ensures args == [] <==> tabnr.None? || tabnr == Some(0)
    ensures args != [] ==> args[0] == tabnr.value
  {
    if tabnr.Some? && tabnr.value != 0 then [tabnr.value] else []
  }

  // ---------------------------------------------------------------------
  // Conversion

  /** `convertVimLayoutNode` as written: the node at `path` gets `parent`
      when it is a leaf; a group object is built without one, so no group
      ever has a parent. */
  function ConvertAsWritten(v: VimNode, parent: Option<ParentRef>, path: seq<nat>): Node
    decreases v
  {
    match v
    case VimLeaf(id) => Leaf(id, parent)
    case VimSplit(k, vs) =>
      Group(k, seq(|vs|, i requires 0 <= i < |vs| => ConvertAsWritten(vs[i], Some(ParentRef(path, i)), path + [i])), None)
  }

  /** The conversion as documented: every node but the root is linked to
      its enclosing group. */
  function Convert(v: VimNode, parent: Option<ParentRef>, path: seq<nat>): Node
    decreases v
  {
    match v
    case VimLeaf(id) => Leaf(id, parent)
    case VimSplit(k, vs) =>
      Group(k, seq(|vs|, i requires 0 <= i < |vs| => Convert(vs[i], Some(ParentRef(path, i)), path + [i])), parent)
  }

  /** The layout a tree was converted from. */
  function Erase(n: Node): VimNode
    decreases n
  {
    match n
    case Leaf(id, _) => VimLeaf(id)
    case Group(k, cs, _) => VimSplit(k, seq(|cs|, i requires 0 <= i < |cs| => Erase(cs[i])))
  }

  /** Both conversions keep the shape: leaves keep their ids, groups their
      kind and their children in order. */
  lemma {:induction false} ConversionKeepsShape(v: VimNode, parent: Option<ParentRef>, path: seq<nat>)
    ensures Erase(Convert(v, parent, path)) == v
    ensures Erase(ConvertAsWritten(v, parent, path)) == v
    decreases v
  {
    match v
    case VimLeaf(_) =>
    case VimSplit(k, vs) =>
      forall i | 0 <= i < |vs| {
        ConversionKeepsShape(vs[i], Some(ParentRef(path, i)), path + [i]);
      }
      assert Erase(Convert(v, parent, path)).nodes == vs;
      assert Erase(ConvertAsWritten(v, parent, path)).nodes == vs;
  }

  // ---------------------------------------------------------------------
  // Paths

  /** The node at path `p`, if `p` leads anywhere. */
  function NodeAt(n: Node, p: seq<nat>): Option<Node>
    decreases |p|
  {
    if |p| == 0 then Some(n)
    else match n
      case Leaf(_, _) => None
      case Group(_, cs, _) => if p[0] < |cs| then NodeAt(cs[p[0]], p[1..]) else None
  }

  lemma {:induction false} NodeAtAppend(n: Node, a: seq<nat>, b: seq<nat>)
    ensures NodeAt(n, a + b) == if NodeAt(n, a).Some? then NodeAt(NodeAt(n, a).value, b) else None
    decreases |a|
  {
    if |a| == 0 {
      assert a + b == b;
    } else {
      assert (a + b)[0] == a[0];
      assert (a + b)[1..] == a[1..] + b;
      match n
      case Leaf(_, _) =>
      case Group(_, cs, _) =>
        if a[0] < |cs| {
          NodeAtAppend(cs[a[0]], a[1..], b);
        }
    }
  }

  /** Every prefix of a path that leads somewhere leads somewhere. */
  lemma PrefixValid(n: Node, p: seq<nat>, k: nat)
    requires NodeAt(n, p).Some? && k <= |p|
    ensures NodeAt(n, p[..k]).Some?
  {
    assert p == p[..k] + p[k..];
    NodeAtAppend(n, p[..k], p[k..]);
  }

  /** The parent link a node at path `p` should carry. */
  function ExpectedParent(p: seq<nat>): Option<ParentRef> {
    if |p| == 0 then None else Some(ParentRef(p[..|p| - 1], p[|p| - 1]))
  }

  lemma {:induction false} ConvertParents(v: VimNode, parent: Option<ParentRef>, path: seq<nat>, p: seq<nat>)
    requires NodeAt(Convert(v, parent, path), p).Some?
    ensures NodeAt(Convert(v, parent, path), p).value.parent ==
      if |p| == 0 then parent else Some(ParentRef(path + p[..|p| - 1], p[|p| - 1]))
    decreases |p|
  {
    if |p| > 0 {
      match v
      case VimSplit(k, vs) =>
        var i := p[0];
        var n := Convert(v, parent, path);
        assert n.children[i] == Convert(vs[i], Some(ParentRef(path, i)), path + [i]);
        assert NodeAt(n, p) == NodeAt(n.children[i], p[1..]);
        ConvertParents(vs[i], Some(ParentRef(path, i)), path + [i], p[1..]);
        if |p| == 1 {
          assert p[..0] == [];
          assert path + [] == path;
        } else {
          assert p[..|p| - 1] == [i] + p[1..][..|p[1..]| - 1];
          assert path + [i] + p[1..][..|p[1..]| - 1] == path + p[..|p| - 1];
          assert p[1..][|p[1..]| - 1] == p[|p| - 1];
        }
    }
  }

  lemma {:induction false} ConvertAsWrittenParents(v: VimNode, parent: Option<ParentRef>, path: seq<nat>, p: seq<nat>)
    requires NodeAt(ConvertAsWritten(v, parent, path), p).Some?
    ensures var n := NodeAt(ConvertAsWritten(v, parent, path), p).value;
      n.parent == if n.Group? then None
                  else if |p| == 0 then parent else Some(ParentRef(path + p[..|p| - 1], p[|p| - 1]))
    decreases |p|
  {
    if |p| > 0 {
      match v
      case VimSplit(k, vs) =>
        var i := p[0];
        var n := ConvertAsWritten(v, parent, path);
        assert n.children[i] == ConvertAsWritten(vs[i], Some(ParentRef(path, i)), path + [i]);
        assert NodeAt(n, p) == NodeAt(n.children[i], p[1..]);
        ConvertAsWrittenParents(vs[i], Some(ParentRef(path, i)), path + [i], p[1..]);
        if |p| == 1 {
          assert p[..0] == [];
          assert path + [] == path;
        } else {
          assert p[..|p| - 1] == [i] + p[1..][..|p[1..]| - 1];
          assert path + [i] + p[1..][..|p[1..]| - 1] == path + p[..|p| - 1];
          assert p[1..][|p[1..]| - 1] == p[|p| - 1];
        }
    }
  }

  /** Every node of the converted tree but the root is linked to its
      enclosing group, under its own index; the root has no parent. */
  lemma ConvertLinksEveryNode(v: VimNode, p: seq<nat>)
    requires NodeAt(Convert(v, None, []), p).Some?
    ensures NodeAt(Convert(v, None, []), p).value.parent == ExpectedParent(p)
  {
    ConvertParents(v, None, [], p);
    if |p| > 0 {
      assert [] + p[..|p| - 1] == p[..|p| - 1];
    }
  }

  /** As written, only leaves are linked; no group has a parent. */
  lemma AsWrittenLinksOnlyLeaves(v: VimNode, p: seq<nat>)
    requires NodeAt(ConvertAsWritten(v, None, []), p).Some?
    ensures var n := NodeAt(ConvertAsWritten(v, None, []), p).value;
      n.parent == if n.Group? then None else ExpectedParent(p)
  {
    ConvertAsWrittenParents(v, None, [], p);
    if |p| > 0 {
      assert [] + p[..|p| - 1] == p[..|p| - 1];
    }
  }

  /** Every parent link names a group path of the tree. */
  ghost predicate WellLinked(root: Node) {
    forall p :: NodeAt(root, p).Some? && NodeAt(root, p).value.parent.Some? ==>
      NodeAt(root, NodeAt(root, p).value.parent.value.groupPath).Some?
  }

  lemma BothConversionsWellLinked(v: VimNode)
    ensures WellLinked(Convert(v, None, []))
    ensures WellLinked(ConvertAsWritten(v, None, []))
  {
    forall p | NodeAt(Convert(v, None, []), p).Some? && NodeAt(Convert(v, None, []), p).value.parent.Some?
      ensures NodeAt(Convert(v, None, []), NodeAt(Convert(v, None, []), p).value.parent.value.groupPath).Some?
    {
      ConvertLinksEveryNode(v, p);
      PrefixValid(Convert(v, None, []), p, |p| - 1);
    }
    forall p | NodeAt(ConvertAsWritten(v, None, []), p).Some? && NodeAt(ConvertAsWritten(v, None, []), p).value.parent.Some?
      ensures NodeAt(ConvertAsWritten(v, None, []), NodeAt(ConvertAsWritten(v, None, []), p).value.parent.value.groupPath).Some?
    {
      AsWrittenLinksOnlyLeaves(v, p);
      PrefixValid(ConvertAsWritten(v, None, []), p, |p| - 1);
    }
  }

  // ---------------------------------------------------------------------
  // Leaves, findWinid and getFirstLeafWinid

  function Concat<T>(ss: seq<seq<T>>): seq<T>
    decreases |ss|
  {
    if |ss| == 0 then [] else ss[0] + Concat(ss[1..])
  }

  /** The leaves under `n`, which sits at `path`, in left-to-right pre-order. */
  function Leaves(n: Node, path: seq<nat>): seq<(seq<nat>, int)>
    decreases n
  {
    match n
    case Leaf(id, _) => [(path, id)]
    case Group(_, cs, _) => Concat(seq(|cs|, i requires 0 <= i < |cs| => Leaves(cs[i], path + [i])))
  }

  /** The path of the first leaf entry with the window id. */
  function FirstMatch(ls: seq<(seq<nat>, int)>, winid: int): (r: Option<seq<nat>>)
    ensures r.None? <==> forall k :: 0 <= k < |ls| ==> ls[k].1 != winid
    decreases |ls|
  {
    if |ls| == 0 then None
    else if ls[0].1 == winid then Some(ls[0].0)
    else
      assert forall k :: 1 <= k < |ls| ==> ls[k] == ls[1..][k - 1];
      FirstMatch(ls[1..], winid)
  }

  /** A match is the first entry with the id. */
  lemma {:induction false} FirstMatchIsFirst(ls: seq<(seq<nat>, int)>, winid: int)
    requires FirstMatch(ls, winid).Some?
    ensures exists k :: 0 <= k < |ls| && ls[k] == (FirstMatch(ls, winid).value, winid) &&
                        (forall j :: 0 <= j < k ==> ls[j].1 != winid)
    decreases |ls|
  {
    if ls[0].1 != winid {
      var r := FirstMatch(ls[1..], winid);
      FirstMatchIsFirst(ls[1..], winid);
      var k :| 0 <= k < |ls[1..]| && ls[1..][k] == (r.value, winid) && forall j :: 0 <= j < k ==> ls[1..][j].1 != winid;
      assert ls[k + 1] == (r.value, winid);
      forall j | 0 <= j < k + 1 ensures ls[j].1 != winid {
        if j > 0 { assert ls[j] == ls[1..][j - 1]; }
      }
    } else {
      assert ls[0] == (FirstMatch(ls, winid).value, winid);
    }
  }

  lemma {:induction false} FirstMatchAppend(a: seq<(seq<nat>, int)>, b: seq<(seq<nat>, int)>, winid: int)
    ensures FirstMatch(a + b, winid) == if FirstMatch(a, winid).Some? then FirstMatch(a, winid) else FirstMatch(b, winid)
    decreases |a|
  {
    if |a| == 0 {
      assert a + b == b;
    } else {
      assert (a + b)[0] == a[0];
      assert (a + b)[1..] == a[1..] + b;
      FirstMatchAppend(a[1..], b, winid);
    }
  }

  /** The first present result. */
  function FirstSome<T>(rs: seq<Option<T>>): Option<T>
    decreases |rs|
  {
    if |rs| == 0 then None else if rs[0].Some? then rs[0] else FirstSome(rs[1..])
  }

  /** `findWinid(winid, beginNode)`: searches the children in order and
      returns the first leaf found with the id. */
  function FindWinid(n: Node, winid: int, path: seq<nat>): Option<seq<nat>>
    decreases n
  {
    match n
    case Leaf(id, _) => if id == winid then Some(path) else None
    case Group(_, cs, _) => FirstSome(seq(|cs|, i requires 0 <= i < |cs| => FindWinid(cs[i], winid, path + [i])))
  }

  lemma {:induction false} FirstSomeOfMatches(xs: seq<Option<seq<nat>>>, ys: seq<seq<(seq<nat>, int)>>, winid: int)
    requires |xs| == |ys|
    requires forall i :: 0 <= i < |xs| ==> xs[i] == FirstMatch(ys[i], winid)
    ensures FirstSome(xs) == FirstMatch(Concat(ys), winid)
    decreases |xs|
  {
    if |xs| > 0 {
      FirstSomeOfMatches(xs[1..], ys[1..], winid);
      FirstMatchAppend(ys[0], Concat(ys[1..]), winid);
    }
  }

  /** `findWinid` returns the first leaf in left-to-right pre-order with the
      id, and nothing exactly when no leaf under the node has it. */
  lemma {:induction false} FindWinidIsFirstInPreorder(n: Node, winid: int, path: seq<nat>)
    ensures FindWinid(n, winid, path) == FirstMatch(Leaves(n, path), winid)
    decreases n
  {
    match n
    case Leaf(id, _) =>
      assert Leaves(n, path)[1..] == [];
    case Group(_, cs, _) =>
      var xs := seq(|cs|, i requires 0 <= i < |cs| => FindWinid(cs[i], winid, path + [i]));
      var ys := seq(|cs|, i requires 0 <= i < |cs| => Leaves(cs[i], path + [i]));
      forall i | 0 <= i < |cs| ensures xs[i] == FirstMatch(ys[i], winid) {
        FindWinidIsFirstInPreorder(cs[i], winid, path + [i]);
      }
      FirstSomeOfMatches(xs, ys, winid);
  }

  lemma {:induction false} InConcat<T>(ss: seq<seq<T>>, x: T)
    requires x in Concat(ss)
    ensures exists i :: 0 <= i < |ss| && x in ss[i]
    decreases |ss|
  {
    if x !in ss[0] {
      InConcat(ss[1..], x);
      var i :| 0 <= i < |ss[1..]| && x in ss[1..][i];
      assert x in ss[i + 1];
    }
  }

  /** Every entry of `Leaves` is a leaf of the tree with that id. */
  lemma {:induction false} LeavesAreLeaves(n: Node, path: seq<nat>, e: (seq<nat>, int))
    requires e in Leaves(n, path)
    ensures |path| <= |e.0| && e.0[..|path|] == path
    ensures NodeAt(n, e.0[|path|..]).Some? && NodeAt(n, e.0[|path|..]).value.Leaf?
    ensures NodeAt(n, e.0[|path|..]).value.winid == e.1
    decreases n
  {
    match n
    case Leaf(id, _) =>
      assert e == (path, id);
      assert e.0[|path|..] == [];
    case Group(_, cs, _) =>
      var ys := seq(|cs|, i requires 0 <= i < |cs| => Leaves(cs[i], path + [i]));
      InConcat(ys, e);
      var i :| 0 <= i < |ys| && e in ys[i];
      LeavesAreLeaves(cs[i], path + [i], e);
      var rest := e.0[|path| + 1..];
      assert e.0[|path|..] == [i] + rest;
      assert ([i] + rest)[1..] == rest;
  }

  /** `getFirstLeafWinid`: follows first children down to a leaf; an empty
      group on that path makes `children[0]` undefined, and reading its
      `type` throws a `TypeError`. */
  function GetFirstLeafWinid(n: Node): (r: Result<int>)
    decreases n
  {
    match n
    case Leaf(id, _) => Ok(id)
    case Group(_, cs, _) => if |cs| == 0 then Throw(TypeError) else GetFirstLeafWinid(cs[0])
  }

  /** No group of the tree is empty. */
  ghost predicate NoEmptyGroups(n: Node)
    decreases n
  {
    match n
    case Leaf(_, _) => true
    case Group(_, cs, _) => |cs| > 0 && forall i :: 0 <= i < |cs| ==> NoEmptyGroups(cs[i])
  }

  /** When it succeeds, `getFirstLeafWinid` gives the first leaf in
      pre-order, and it succeeds on trees without empty groups. */
  lemma {:induction false} FirstLeafIsFirstInPreorder(n: Node, path: seq<nat>)
    ensures GetFirstLeafWinid(n).Ok? ==> |Leaves(n, path)| > 0 && Leaves(n, path)[0].1 == GetFirstLeafWinid(n).value
    ensures NoEmptyGroups(n) ==> GetFirstLeafWinid(n).Ok?
    decreases n
  {
    match n
    case Leaf(_, _) =>
    case Group(_, cs, _) =>
      if |cs| > 0 {
        FirstLeafIsFirstInPreorder(cs[0], path + [0]);
        var ys := seq(|cs|, i requires 0 <= i < |cs| => Leaves(cs[i], path + [i]));
        assert Leaves(n, path) == ys[0] + Concat(ys[1..]);
      }
  }

  // ---------------------------------------------------------------------
  // findClosest

  /** The leaf at `p` has one of the ids. */
  ghost predicate MatchingLeaf(root: Node, p: seq<nat>, matchWinids: seq<int>) {
    NodeAt(root, p).Some? && NodeAt(root, p).value.Leaf? && NodeAt(root, p).value.winid in matchWinids
  }

  /** The moves of the search: from a group to each of its children, and
      from any node along its parent link. */
  ghost predicate Edge(root: Node, q: seq<nat>, p: seq<nat>) {
    NodeAt(root, q).Some? &&
    ( (NodeAt(root, q).value.Group? && |p| == |q| + 1 && p[..|q|] == q && p[|q|] < |NodeAt(root, q).value.children|)
      || (NodeAt(root, q).value.parent.Some? && p == NodeAt(root, q).value.parent.value.groupPath))
  }

  ghost predicate IsWalk(root: Node, walk: seq<seq<nat>>) {
    && |walk| >= 1
    && NodeAt(root, walk[0]).Some?
    && forall i :: 0 <= i < |walk| - 1 ==> Edge(root, walk[i], walk[i + 1])
  }

  lemma WalkExtend(root: Node, walk: seq<seq<nat>>, p: seq<nat>)
    requires IsWalk(root, walk) && Edge(root, walk[|walk| - 1], p)
    ensures IsWalk(root, walk + [p]) && (walk + [p])[0] == walk[0]
  {
    var w := walk + [p];
    forall i | 0 <= i < |w| - 1 ensures Edge(root, w[i], w[i + 1]) {
      if i < |walk| - 1 {
        assert w[i] == walk[i] && w[i + 1] == walk[i + 1];
      }
    }
  }

  /** A walk that starts in a set closed under the moves stays in it. */
  lemma {:induction false} WalkStaysIn(root: Node, walk: seq<seq<nat>>, s: set<seq<nat>>, k: nat)
    requires IsWalk(root, walk) && walk[0] in s
    requires forall q, p :: q in s && Edge(root, q, p) ==> p in s
    requires k < |walk|
    ensures walk[k] in s
    decreases k
  {
    if k > 0 {
      WalkStaysIn(root, walk, s, k - 1);
      assert Edge(root, walk[k - 1], walk[k]);
    }
  }

  /** Every path that leads somewhere. */
  ghost function AllPaths(n: Node): set<seq<nat>>
    decreases n
  {
    match n
    case Leaf(_, _) => {[]}
    case Group(_, cs, _) => {[]} + (set i: nat, q | i < |cs| && q in AllPaths(cs[i]) :: [i] + q)
  }

  lemma {:induction false} AllPathsComplete(n: Node, p: seq<nat>)
    requires NodeAt(n, p).Some?
    ensures p in AllPaths(n)
    decreases |p|
  {
    if |p| > 0 {
      var i := p[0];
      AllPathsComplete(n.children[i], p[1..]);
      assert p == [i] + p[1..];
    }
  }

  lemma CardinalityDrops(all: set<seq<nat>>, c0: set<seq<nat>>, c1: set<seq<nat>>)
    requires c0 < c1 <= all
    ensures |all - c1| < |all - c0|
  {
    var x :| x in c1 && x !in c0;
    assert all - c1 <= (all - c0) - {x};
    SubsetCard(all - c1, (all - c0) - {x});
  }

  lemma {:induction false} SubsetCard<T>(a: set<T>, b: set<T>)
    requires a <= b
    ensures |a| <= |b|
    decreases |b|
  {
    if a != {} {
      var x :| x in a;
      SubsetCard(a - {x}, b - {x});
    }
  }

  /** Every queued path is checked. */
  ghost predicate QueueChecked(queue: seq<seq<nat>>, checked: set<seq<nat>>) {
    forall i :: 0 <= i < |queue| ==> queue[i] in checked
  }

  /** Every checked path is either finished or still queued. */
  ghost predicate Covered(checked: set<seq<nat>>, queue: seq<seq<nat>>, done: set<seq<nat>>) {
    forall q :: q in checked ==> q in done || q in queue
  }

  /** Every finished path is checked, is no match, and has all its moves checked. */
  ghost predicate DoneClosed(root: Node, matchWinids: seq<int>, checked: set<seq<nat>>, done: set<seq<nat>>) {
    && (forall q :: q in done ==> q in checked && !MatchingLeaf(root, q, matchWinids))
    && (forall q, p :: q in done && Edge(root, q, p) ==> p in checked)
  }

  /** Every checked path leads somewhere and has a walk from the start. */
  ghost predicate Reached(root: Node, begin: seq<nat>, checked: set<seq<nat>>, walks: map<seq<nat>, seq<seq<nat>>>) {
    && checked <= AllPaths(root)
    && forall q :: q in checked ==>
         && NodeAt(root, q).Some? && q in walks && IsWalk(root, walks[q])
         && walks[q][0] == begin && walks[q][|walks[q]| - 1] == q
  }

  /** The state of the search, which every step keeps. */
  ghost predicate SearchInv(root: Node, begin: seq<nat>, matchWinids: seq<int>, checked: set<seq<nat>>,
                            queue: seq<seq<nat>>, done: set<seq<nat>>, walks: map<seq<nat>, seq<seq<nat>>>) {
    && begin in checked
    && QueueChecked(queue, checked)
    && Covered(checked, queue, done)
    && DoneClosed(root, matchWinids, checked, done)
    && Reached(root, begin, checked, walks)
  }

  lemma ReachedPush(root: Node, begin: seq<nat>, checked: set<seq<nat>>, walks: map<seq<nat>, seq<seq<nat>>>,
                    from: seq<nat>, c: seq<nat>)
    requires Reached(root, begin, checked, walks)
    requires from in checked && Edge(root, from, c) && NodeAt(root, c).Some?
    ensures Reached(root, begin, checked + {c}, walks[c := walks[from] + [c]])
  {
    var all := AllPaths(root);
    assert c in all by { AllPathsComplete(root, c); }
    assert checked + {c} <= all;
    var wc := walks[from] + [c];
    assert IsWalk(root, wc) && wc[0] == begin && wc[|wc| - 1] == c by {
      WalkExtend(root, walks[from], c);
    }
    var w' := walks[c := wc];
    forall q | q in checked + {c}
      ensures NodeAt(root, q).Some? && q in w' && IsWalk(root, w'[q]) && w'[q][0] == begin && w'[q][|w'[q]| - 1] == q
    {
      if q == c {
        assert w'[q] == wc;
      } else {
        assert w'[q] == walks[q];
      }
    }
  }

  lemma QueuePush(queue: seq<seq<nat>>, checked: set<seq<nat>>, c: seq<nat>)
    requires QueueChecked(queue, checked)
    ensures QueueChecked(queue + [c], checked + {c})
  {
    var q' := queue + [c];
    forall i | 0 <= i < |q'| ensures q'[i] in checked + {c} {
      if i < |queue| { assert q'[i] == queue[i]; }
    }
  }

  lemma CoveredPush(checked: set<seq<nat>>, queue: seq<seq<nat>>, done: set<seq<nat>>, c: seq<nat>)
    requires Covered(checked, queue, done)
    ensures Covered(checked + {c}, queue + [c], done)
  {
    forall x | x in checked + {c} ensures x in done || x in queue + [c] {
      if x != c && x !in done {
        assert x in queue;
      }
    }
  }

  /** Adds an unchecked path reached by a move from `from` to the search. */
  lemma PushKeeps(root: Node, begin: seq<nat>, matchWinids: seq<int>, checked: set<seq<nat>>,
                  queue: seq<seq<nat>>, done: set<seq<nat>>, walks: map<seq<nat>, seq<seq<nat>>>,
                  from: seq<nat>, c: seq<nat>)
    requires SearchInv(root, begin, matchWinids, checked, queue, done, walks)
    requires from in checked && Edge(root, from, c) && NodeAt(root, c).Some?
    ensures SearchInv(root, begin, matchWinids, checked + {c}, queue + [c], done, walks[c := walks[from] + [c]])
  {
    ReachedPush(root, begin, checked, walks, from, c);
    QueuePush(queue, checked, c);
    CoveredPush(checked, queue, done, c);
  }

  /** Finishes the path at the head of the queue once all its moves are checked. */
  lemma PopKeeps(root: Node, begin: seq<nat>, matchWinids: seq<int>, checked: set<seq<nat>>,
                 queue: seq<seq<nat>>, done: set<seq<nat>>, walks: map<seq<nat>, seq<seq<nat>>>)
    requires SearchInv(root, begin, matchWinids, checked, queue, done, walks)
    requires |queue| > 0 && !MatchingLeaf(root, queue[0], matchWinids)
    requires forall p :: Edge(root, queue[0], p) ==> p in checked
    ensures SearchInv(root, begin, matchWinids, checked, queue[1..], done + {queue[0]}, walks)
  {
    var q := queue[0];
    assert q in checked;
    forall i | 0 <= i < |queue[1..]| ensures queue[1..][i] in checked {
      assert queue[1..][i] == queue[i + 1];
    }
    forall x | x in checked ensures x in done + {q} || x in queue[1..] {
      if x !in done && x != q {
        assert x in queue;
        var k :| 0 <= k < |queue| && queue[k] == x;
        assert queue[1..][k - 1] == x;
      }
    }
  }

  /** When the queue is empty, the checked paths are closed under the moves,
      so no walk from the start reaches a matching leaf. */
  lemma EmptyQueueIsComplete(root: Node, begin: seq<nat>, matchWinids: seq<int>, checked: set<seq<nat>>,
                             done: set<seq<nat>>, walks: map<seq<nat>, seq<seq<nat>>>)
    requires SearchInv(root, begin, matchWinids, checked, [], done, walks)
    ensures forall walk :: IsWalk(root, walk) && walk[0] == begin ==> !MatchingLeaf(root, walk[|walk| - 1], matchWinids)
  {
    forall walk | IsWalk(root, walk) && walk[0] == begin
      ensures !MatchingLeaf(root, walk[|walk| - 1], matchWinids)
    {
      assert forall q :: q in checked ==> q in done;
      WalkStaysIn(root, walk, checked, |walk| - 1);
    }
  }

  /** Queues every unchecked child of the group at `q`, the head of the queue. */
  method PushChildren(root: Node, ghost begin: seq<nat>, ghost matchWinids: seq<int>, q: seq<nat>,
                      checked0: set<seq<nat>>, queue0: seq<seq<nat>>, ghost done: set<seq<nat>>,
                      ghost walks0: map<seq<nat>, seq<seq<nat>>>)
    returns (checked: set<seq<nat>>, queue: seq<seq<nat>>, ghost walks: map<seq<nat>, seq<seq<nat>>>)
    requires SearchInv(root, begin, matchWinids, checked0, queue0, done, walks0)
    requires |queue0| > 0 && queue0[0] == q
    requires NodeAt(root, q).Some? && NodeAt(root, q).value.Group?
    ensures SearchInv(root, begin, matchWinids, checked, queue, done, walks)
    ensures |queue| > 0 && queue[0] == q
    ensures checked0 <= checked && (checked == checked0 ==> queue == queue0)
    ensures forall j :: 0 <= j < |NodeAt(root, q).value.children| ==> q + [j] in checked
  {
    var children := NodeAt(root, q).value.children;
    checked, queue, walks := checked0, queue0, walks0;
    var i: nat := 0;
    while i < |children|
      invariant i <= |children|
      invariant SearchInv(root, begin, matchWinids, checked, queue, done, walks)
      invariant |queue| > 0 && queue[0] == q
      invariant checked0 <= checked && (checked == checked0 ==> queue == queue0)
      invariant forall j :: 0 <= j < i ==> q + [j] in checked
    {
      var c: seq<nat> := q + [i];
      if c !in checked {
        NodeAtAppend(root, q, [i]);
        assert c[..|q|] == q && c[|q|] == i;
        assert Edge(root, q, c);
        PushKeeps(root, begin, matchWinids, checked, queue, done, walks, q, c);
        queue := queue + [c];
        checked := checked + {c};
        walks := walks[c := walks[q] + [c]];
      }
      i := i + 1;
    }
  }

  /** Queues the group a parent link of `q`, the head of the queue, names,
      unless it is already checked. */
  method PushParent(root: Node, ghost begin: seq<nat>, ghost matchWinids: seq<int>, q: seq<nat>,
                    checked0: set<seq<nat>>, queue0: seq<seq<nat>>, ghost done: set<seq<nat>>,
                    ghost walks0: map<seq<nat>, seq<seq<nat>>>)
    returns (checked: set<seq<nat>>, queue: seq<seq<nat>>, ghost walks: map<seq<nat>, seq<seq<nat>>>)
    requires WellLinked(root)
    requires SearchInv(root, begin, matchWinids, checked0, queue0, done, walks0)
    requires |queue0| > 0 && queue0[0] == q
    requires NodeAt(root, q).Some?
    ensures SearchInv(root, begin, matchWinids, checked, queue, done, walks)
    ensures |queue| > 0 && queue[0] == q
    ensures checked0 <= checked && (checked == checked0 ==> queue == queue0)
    ensures NodeAt(root, q).value.parent.Some? ==> NodeAt(root, q).value.parent.value.groupPath in checked
  {
    checked, queue, walks := checked0, queue0, walks0;
    var node := NodeAt(root, q).value;
    if node.parent.Some? && node.parent.value.groupPath !in checked {
      var g: seq<nat> := node.parent.value.groupPath;
      assert q in checked by { assert queue[0] == q; }
      assert Edge(root, q, g);
      PushKeeps(root, begin, matchWinids, checked, queue, done, walks, q, g);
      queue := queue + [g];
      checked := checked + {g};
      walks := walks[g := walks[q] + [g]];
    }
  }

  /** A path whose children and parent are all checked has all its moves checked. */
  lemma MovesChecked(root: Node, q: seq<nat>, checked: set<seq<nat>>)
    requires NodeAt(root, q).Some?
    requires NodeAt(root, q).value.Group? ==> forall j :: 0 <= j < |NodeAt(root, q).value.children| ==> q + [j] in checked
    requires NodeAt(root, q).value.parent.Some? ==> NodeAt(root, q).value.parent.value.groupPath in checked
    ensures forall p :: Edge(root, q, p) ==> p in checked
  {
    var node := NodeAt(root, q).value;
    forall p | Edge(root, q, p) ensures p in checked {
      if node.Group? && |p| == |q| + 1 && p[..|q|] == q && p[|q|] < |node.children| {
        assert p == q + [p[|q|]];
      }
    }
  }

  /** One round of the search: the head of the queue is a match, or its
      unchecked neighbours are queued and it is finished. */
  method SearchStep(root: Node, ghost begin: seq<nat>, matchWinids: seq<int>,
                    checked0: set<seq<nat>>, queue0: seq<seq<nat>>, ghost done0: set<seq<nat>>,
                    ghost walks0: map<seq<nat>, seq<seq<nat>>>)
    returns (found: bool, checked: set<seq<nat>>, queue: seq<seq<nat>>, ghost done: set<seq<nat>>,
             ghost walks: map<seq<nat>, seq<seq<nat>>>)
    requires WellLinked(root)
    requires SearchInv(root, begin, matchWinids, checked0, queue0, done0, walks0)
    requires |queue0| > 0
    ensures found <==> MatchingLeaf(root, queue0[0], matchWinids)
    ensures found ==> IsWalk(root, walks0[queue0[0]]) && walks0[queue0[0]][0] == begin
                      && walks0[queue0[0]][|walks0[queue0[0]]| - 1] == queue0[0]
    ensures !found ==> SearchInv(root, begin, matchWinids, checked, queue, done, walks)
    ensures !found ==> checked0 <= checked && (checked == checked0 ==> |queue| < |queue0|)
  {
    var q: seq<nat> := queue0[0];
    assert q in checked0;
    var node := NodeAt(root, q).value;
    if node.Leaf? && node.winid in matchWinids {
      return true, checked0, queue0, done0, walks0;
    }
    found, checked, queue, walks := false, checked0, queue0, walks0;
    if node.Group? {
      checked, queue, walks := PushChildren(root, begin, matchWinids, q, checked, queue, done0, walks);
    }
    ghost var checked1 := checked;
    ghost var queue1 := queue;
    checked, queue, walks := PushParent(root, begin, matchWinids, q, checked, queue, done0, walks);
    MovesChecked(root, q, checked);
    PopKeeps(root, begin, matchWinids, checked, queue, done0, walks);
    if checked == checked0 {
      assert checked1 == checked0;
      assert queue1 == queue0 && queue == queue0;
    }
    done := done0 + {q};
    queue := queue[1..];
  }

  /** `findClosest(beginNode, matchWinids)`: a breadth-first search from the
      start over children and parent links that visits each node once.
      A result is a matching leaf the moves lead to; no result means no
      matching leaf can be reached from the start at all. */
  method FindClosest(root: Node, begin: seq<nat>, matchWinids: seq<int>) returns (r: Option<seq<nat>>)
    requires NodeAt(root, begin).Some?
    requires WellLinked(root)
    ensures r.Some? ==> MatchingLeaf(root, r.value, matchWinids)
    ensures r.Some? ==> exists walk :: IsWalk(root, walk) && walk[0] == begin && walk[|walk| - 1] == r.value
    ensures r.None? ==> forall walk :: IsWalk(root, walk) && walk[0] == begin ==> !MatchingLeaf(root, walk[|walk| - 1], matchWinids)
    ensures MatchingLeaf(root, begin, matchWinids) ==> r == Some(begin)
  {
    var checked: set<seq<nat>> := {begin};
    var queue: seq<seq<nat>> := [begin];
    ghost var done: set<seq<nat>> := {};
    ghost var walks: map<seq<nat>, seq<seq<nat>>> := map[begin := [begin]];
    AllPathsComplete(root, begin);
    ghost var all := AllPaths(root);
    while |queue| > 0
      invariant SearchInv(root, begin, matchWinids, checked, queue, done, walks)
      invariant checked <= all
      invariant MatchingLeaf(root, begin, matchWinids) ==> queue == [begin]
      decreases |all - checked|, |queue|
    {
      ghost var checked0 := checked;
      ghost var walks0 := walks;
      var q := queue[0];
      var found;
      found, checked, queue, done, walks := SearchStep(root, begin, matchWinids, checked, queue, done, walks);
      if found {
        assert IsWalk(root, walks0[q]);
        return Some(q);
      }
      if checked != checked0 {
        CardinalityDrops(all, checked0, checked);
      }
    }
    EmptyQueueIsComplete(root, begin, matchWinids, checked, done, walks);
    r := None;
  }

  // ---------------------------------------------------------------------
  // Reaching every node of a correctly linked tree

  /** The walk from `p` up to the root. */
  function UpWalk(p: seq<nat>): (w: seq<seq<nat>>)
    ensures |w| == |p| + 1 && w[0] == p && w[|p|] == []
    ensures forall i :: 0 <= i <= |p| ==> w[i] == p[..|p| - i]
  {
    seq(|p| + 1, i requires 0 <= i <= |p| => p[..|p| - i])
  }

  /** The walk from the root down to `q`. */
  function DownWalk(q: seq<nat>): (w: seq<seq<nat>>)
    ensures |w| == |q| + 1 && w[0] == [] && w[|q|] == q
    ensures forall i :: 0 <= i <= |q| ==> w[i] == q[..i]
  {
    seq(|q| + 1, i requires 0 <= i <= |q| => q[..i])
  }

  lemma UpWalkIsWalk(v: VimNode, p: seq<nat>)
    requires NodeAt(Convert(v, None, []), p).Some?
    ensures IsWalk(Convert(v, None, []), UpWalk(p))
  {
    var root := Convert(v, None, []);
    var w := UpWalk(p);
    forall i | 0 <= i < |w| - 1 ensures Edge(root, w[i], w[i + 1]) {
      var k := |p| - i;
      PrefixValid(root, p, k);
      ConvertLinksEveryNode(v, p[..k]);
      assert p[..k][..k - 1] == p[..k - 1];
    }
  }

  lemma DownWalkIsWalk(root: Node, q: seq<nat>)
    requires NodeAt(root, q).Some?
    ensures IsWalk(root, DownWalk(q))
  {
    var w := DownWalk(q);
    forall i | 0 <= i < |w| - 1 ensures Edge(root, w[i], w[i + 1]) {
      PrefixValid(root, q, i + 1);
      assert q[..i + 1] == q[..i] + [q[i]];
      NodeAtAppend(root, q[..i], [q[i]]);
      assert q[..i + 1][..i] == q[..i];
    }
  }

  /** In a correctly linked tree every node can be reached from every other. */
  lemma Connected(v: VimNode, p: seq<nat>, q: seq<nat>)
    requires NodeAt(Convert(v, None, []), p).Some? && NodeAt(Convert(v, None, []), q).Some?
    ensures var w := UpWalk(p) + DownWalk(q)[1..];
      IsWalk(Convert(v, None, []), w) && w[0] == p && w[|w| - 1] == q
  {
    var root := Convert(v, None, []);
    UpWalkIsWalk(v, p);
    DownWalkIsWalk(root, q);
    var up := UpWalk(p);
    var down := DownWalk(q);
    var w := up + down[1..];
    forall i | 0 <= i < |w| - 1 ensures Edge(root, w[i], w[i + 1]) {
      if i < |up| - 1 {
        assert w[i] == up[i] && w[i + 1] == up[i + 1];
      } else if i == |up| - 1 {
        assert w[i] == down[0] && w[i + 1] == down[1];
      } else {
        assert w[i] == down[i - |up| + 1] && w[i + 1] == down[i - |up| + 2];
      }
    }
    if |q| == 0 {
      assert w[|w| - 1] == up[|p|];
    }
  }

  /** `findClosest` on a correctly converted layout: it finds nothing
      exactly when no leaf of the whole tree has one of the ids. */
  method FindClosestInLayout(v: VimNode, begin: seq<nat>, matchWinids: seq<int>) returns (r: Option<seq<nat>>)
    requires NodeAt(Convert(v, None, []), begin).Some?
    ensures r.Some? ==> MatchingLeaf(Convert(v, None, []), r.value, matchWinids)
    ensures r.None? <==> forall p :: !MatchingLeaf(Convert(v, None, []), p, matchWinids)
  {
    var root := Convert(v, None, []);
    BothConversionsWellLinked(v);
    r := FindClosest(root, begin, matchWinids);
    if r.None? {
      forall p | NodeAt(root, p).Some? ensures !MatchingLeaf(root, p, matchWinids) {
        Connected(v, begin, p);
        var w := UpWalk(begin) + DownWalk(p)[1..];
        assert IsWalk(root, w) && w[0] == begin;
      }
    }
  }

  // ---------------------------------------------------------------------
  // The as-written conversion loses the other branches

  /** `col[row[leaf 1, leaf 2], leaf 3]`. */
  function Example(): VimNode {
    VimSplit(Col, [VimSplit(Row, [VimLeaf(1), VimLeaf(2)]), VimLeaf(3)])
  }

  /** The example as written converts to a row without a parent link. */
  lemma AsWrittenExample()
    ensures ConvertAsWritten(Example(), None, []) ==
      Group(Col, [Group(Row, [Leaf(1, Some(ParentRef([0], 0))), Leaf(2, Some(ParentRef([0], 1)))], None),
                  Leaf(3, Some(ParentRef([], 1)))], None)
  {
    var row := ConvertAsWritten(VimSplit(Row, [VimLeaf(1), VimLeaf(2)]), Some(ParentRef([], 0)), [0]);
    assert [] + [0] == [0] && [] + [1] == [1];
    assert row.children == [Leaf(1, Some(ParentRef([0], 0))), Leaf(2, Some(ParentRef([0], 1)))];
  }

  /** The example converted as documented links the row to the column. */
  lemma ConvertExample()
    ensures Convert(Example(), None, []) ==
      Group(Col, [Group(Row, [Leaf(1, Some(ParentRef([0], 0))), Leaf(2, Some(ParentRef([0], 1)))], Some(ParentRef([], 0))),
                  Leaf(3, Some(ParentRef([], 1)))], None)
  {
    var row := Convert(VimSplit(Row, [VimLeaf(1), VimLeaf(2)]), Some(ParentRef([], 0)), [0]);
    assert [] + [0] == [0] && [] + [1] == [1];
    assert row.children == [Leaf(1, Some(ParentRef([0], 0))), Leaf(2, Some(ParentRef([0], 1)))];
  }

  /** As written, the moves from leaf 1 never leave the inner row: the row
      has no parent link, so the search cannot climb to the column. */
  lemma AsWrittenStaysInRow(walk: seq<seq<nat>>, k: nat)
    requires IsWalk(ConvertAsWritten(Example(), None, []), walk) && walk[0] == [0, 0]
    requires k < |walk|
    ensures walk[k] in {[0], [0, 0], [0, 1]}
  {
    var root := ConvertAsWritten(Example(), None, []);
    AsWrittenExample();
    var row := root.children[0];
    var s: set<seq<nat>> := {[0], [0, 0], [0, 1]};
    assert NodeAt(root, [0]) == Some(row) by {
      assert [0][1..] == [];
    }
    assert NodeAt(root, [0, 0]) == Some(row.children[0]) by {
      assert [0, 0][1..] == [0];
      assert [0][1..] == [];
    }
    assert NodeAt(root, [0, 1]) == Some(row.children[1]) by {
      assert [0, 1][1..] == [1];
      assert [1][1..] == [];
    }
    forall q, p | q in s && Edge(root, q, p) ensures p in s {
      if q == [0] {
        assert |p| == 2 && p[..1] == [0] && p[1] < 2;
        assert p == [0, p[1]];
      }
    }
    WalkStaysIn(root, walk, s, k);
  }

  /** As written, no walk from leaf 1 ends at a leaf with window id 3. */
  lemma AsWrittenNeverReachesThree(walk: seq<seq<nat>>)
    requires IsWalk(ConvertAsWritten(Example(), None, []), walk) && walk[0] == [0, 0]
    ensures !MatchingLeaf(ConvertAsWritten(Example(), None, []), walk[|walk| - 1], [3])
  {
    var root := ConvertAsWritten(Example(), None, []);
    AsWrittenExample();
    AsWrittenStaysInRow(walk, |walk| - 1);
    var row := root.children[0];
    assert NodeAt(root, [0]) == Some(row) by {
      assert [0][1..] == [];
    }
    assert NodeAt(root, [0, 0]) == Some(row.children[0]) by {
      assert [0, 0][1..] == [0];
      assert [0][1..] == [];
    }
    assert NodeAt(root, [0, 1]) == Some(row.children[1]) by {
      assert [0, 1][1..] == [1];
      assert [1][1..] == [];
    }
  }

  /** The search from leaf 1 for window 3 finds nothing, though leaf 3 is
      in the layout. */
  method AsWrittenMissesSibling() returns (r: Option<seq<nat>>)
    ensures r.None?
    ensures MatchingLeaf(ConvertAsWritten(Example(), None, []), [1], [3])
  {
    var root := ConvertAsWritten(Example(), None, []);
    AsWrittenExample();
    BothConversionsWellLinked(Example());
    assert NodeAt(root, [0, 0]).Some? by {
      assert [0, 0][1..] == [0];
      assert [0][1..] == [];
    }
    assert NodeAt(root, [1]) == Some(root.children[1]) by {
      assert [1][1..] == [];
    }
    r := FindClosest(root, [0, 0], [3]);
    forall walk | IsWalk(root, walk) && walk[0] == [0, 0]
      ensures !MatchingLeaf(root, walk[|walk| - 1], [3])
    {
      AsWrittenNeverReachesThree(walk);
    }
  }

  /** In the documented conversion of the example only the leaf at `[1]`
      has window id 3. */
  lemma OnlyLeafThree(p: seq<nat>)
    ensures MatchingLeaf(Convert(Example(), None, []), p, [3]) <==> p == [1]
  {
    var root := Convert(Example(), None, []);
    ConvertExample();
    var row := root.children[0];
    if |p| == 0 {
    } else if p[0] == 0 {
      assert NodeAt(root, p) == NodeAt(row, p[1..]);
      var rest := p[1..];
      if |rest| > 0 && rest[0] < 2 {
        assert NodeAt(row, rest) == NodeAt(row.children[rest[0]], rest[1..]);
      }
    } else if p[0] == 1 {
      assert NodeAt(root, p) == NodeAt(root.children[1], p[1..]);
      if |p| == 1 {
        assert p == [1];
      }
    }
  }

  /** With every node linked, the same search finds leaf 3. */
  method CorrectedFindsSibling() returns (r: Option<seq<nat>>)
    ensures r == Some([1])
  {
    var root := Convert(Example(), None, []);
    ConvertExample();
    assert NodeAt(root, [0, 0]).Some? by {
      assert [0, 0][1..] == [0];
      assert [0][1..] == [];
    }
    r := FindClosestInLayout(Example(), [0, 0], [3]);
    OnlyLeafThree([1]);
    if r.Some? {
      OnlyLeafThree(r.value);
    }
  }
}

/**
  `MultiFloatingWindow`: several floating windows laid out inside one frame.
  The frame is a border-only floating window; its content box is the
  union of the children's extents, and each child is placed relative to
  that content box. One call issues every window's batch together.
 */
module MultiFloatingWindow {
  import opened Common
  import opened Collection
  import opened FloatTypes
  import opened Notifier
  import opened FloatingUtil
  import opened FloatingWindow

  /** A child window under its key, in the key order of the window record. */
  datatype Child = Child(key: string, win: Win)

  /** The frame window, the children, and the cursor the frame's own layout
      helper stores. */
  datatype Multi = Multi(frame: Win, children: seq<Child>, store: Option<Position>)

  /** `MultiFloatingWindow.OpenOptions`: the frame's options (whose own
      `width` and `height` are ignored), an optional overall size, and the
      children's options by key, in record order. */
  datatype MultiOpenOptions = MultiOpenOptions(base: OpenOptions, width: Option<int>, height: Option<int>,
                                               wins: seq<(string, OpenOptions)>)

  datatype Action = OpenAction | ResumeAction | ResizeAction

  // ---------------------------------------------------------------------
  // Creation and teardown

  /** The create options of the frame: a border buffer only when asked for,
      the `show` mode unless another is given. */
  function FrameCreateOptions(options: CreateOptions): (r: CreateOptions)
    ensures CreateRequest(r).1 <==> options.hasBorderBuf == Some(true)
    ensures CreateRequest(r).2 == options.mode.GetOr(Show)
    ensures r.name == options.name
  {
    CreateOptions(options.name, Some(options.mode.GetOr(Show)), Some(options.hasBorderBuf.GetOr(false)))
  }

  /** The create options of a child: a border buffer only when asked for. */
  function ChildCreateOptions(options: CreateOptions): (r: CreateOptions)
    ensures CreateRequest(r).1 <==> options.hasBorderBuf == Some(true)
    ensures r.name == options.name && r.mode == options.mode
  {
    options.(hasBorderBuf := Some(options.hasBorderBuf.GetOr(false)))
  }

  /** The buffers of all windows: the frame's first, then the children's. */
  function Bufnrs(m: Multi): (bs: seq<int>)
    ensures |bs| == 1 + |m.children|
    ensures bs[0] == m.frame.bufnr
    ensures forall i :: 0 <= i < |m.children| ==> bs[i + 1] == m.children[i].win.bufnr
  {
    [m.frame.bufnr] + seq(|m.children|, i requires 0 <= i < |m.children| => m.children[i].win.bufnr)
  }

  /** `close`: closes the frame first, then every child in order. */
  function Close(m: Multi): (acts: seq<HostAction>)
    ensures |acts| == |Bufnrs(m)|
    ensures forall i :: 0 <= i < |acts| ==> acts[i] == FloatClose(Bufnrs(m)[i])
  {
    var bs := Bufnrs(m);
    seq(|bs|, i requires 0 <= i < |bs| => FloatClose(bs[i]))
  }

  /** Every window of the group is closed by `close`. */
  lemma CloseClosesEveryWindow(m: Multi, b: int)
    requires b in Bufnrs(m)
    ensures FloatClose(b) in Close(m)
  {
    var bs := Bufnrs(m);
    var i :| 0 <= i < |bs| && bs[i] == b;
    assert Close(m)[i] == FloatClose(b);
  }

  /** The `BufWinLeave` handler: any of the group's buffers leaving its
      window closes the whole group. */
  function OnBufWinLeave(m: Multi, bufnr: int): (acts: seq<HostAction>)
    ensures bufnr in Bufnrs(m) ==> acts == Close(m)
    ensures bufnr !in Bufnrs(m) ==> acts == []
  {
    if bufnr in Bufnrs(m) then Close(m) else []
  }

  // ---------------------------------------------------------------------
  // Sizes

  /** How far a child reaches from the frame's content origin: its offset
      plus its border box. */
  function Extent(o: OpenOptions, host: Host): Size {
    var b := GetBoxSizes(CreateContext(o, host.env, host.displayWidth), o, false, None).0.borderBox;
    Size(o.left.GetOr(0) + b.width, o.top.GetOr(0) + b.height)
  }

  /** The size of a border box does not depend on the stored cursor. */
  lemma BorderSizeIgnoresStore(ctx: Context, o: OpenOptions, u1: bool, s1: Option<Position>, u2: bool, s2: Option<Position>)
    ensures var b1 := GetBoxSizes(ctx, o, u1, s1).0.borderBox; var b2 := GetBoxSizes(ctx, o, u2, s2).0.borderBox;
      b1.width == b2.width && b1.height == b2.height
  {
  }

  /** The live cursor a child's layout would store into an empty store:
      none for a centred child. */
  function LiveCursorIfPlaced(o: OpenOptions, host: Host): Option<Position> {
    if RelativeOf(o) == Center then None else Some(CreateContext(o, host.env, host.displayWidth).globalCursorPosition)
  }

  /** The first live cursor any of the children would store. */
  function FirstLiveCursor(wins: seq<OpenOptions>, host: Host): Option<Position>
    decreases |wins|
  {
    if |wins| == 0 then None
    else if LiveCursorIfPlaced(wins[0], host).Some? then LiveCursorIfPlaced(wins[0], host)
    else FirstLiveCursor(wins[1..], host)
  }

  /** One child's extent, with the cursor the frame's layout helper stores
      while measuring it. */
  function Measure(o: OpenOptions, host: Host, store: Option<Position>): (r: (Size, Option<Position>))
    ensures r.0 == Extent(o, host)
    ensures store.Some? ==> r.1 == store
    ensures store.None? ==> r.1 == LiveCursorIfPlaced(o, host)
  {
    var ctx := CreateContext(o, host.env, host.displayWidth);
    var (boxes, store') := GetBoxSizes(ctx, o, false, store);
    LayoutStore(ctx, o, false, store);
    BorderSizeIgnoresStore(ctx, o, false, store, false, None);
    (Size(o.left.GetOr(0) + boxes.borderBox.width, o.top.GetOr(0) + boxes.borderBox.height), store')
  }

  /** The children's extents in order, measured one after the other by the
      frame's layout helper, which stores the cursor each time. */
  function Extents(wins: seq<OpenOptions>, host: Host, store: Option<Position>): (r: (seq<Size>, Option<Position>))
    ensures |r.0| == |wins|
    ensures forall k :: 0 <= k < |wins| ==> r.0[k] == Extent(wins[k], host)
    ensures store.Some? ==> r.1 == store
    ensures store.None? ==> r.1 == FirstLiveCursor(wins, host)
    decreases |wins|
  {
    if |wins| == 0 then ([], store)
    else
      var (e, store') := Measure(wins[0], host, store);
      var (es, store'') := Extents(wins[1..], host, store');
      assert forall k :: 1 <= k < |wins| ==> wins[k] == wins[1..][k - 1];
      ([e] + es, store'')
  }

  /** The running maximum of `sizeByWinsOptions` from `acc`: the least size
      that is at least `acc` and covers every extent. */
  function MaxSize(acc: Size, es: seq<Size>): (r: Size)
    ensures r.width >= acc.width && r.height >= acc.height
    ensures forall k :: 0 <= k < |es| ==> r.width >= es[k].width && r.height >= es[k].height
    ensures r.width == acc.width || exists k :: 0 <= k < |es| && r.width == es[k].width
    ensures r.height == acc.height || exists k :: 0 <= k < |es| && r.height == es[k].height
    decreases |es|
  {
    if |es| == 0 then acc
    else
      var e := es[0];
      var r := MaxSize(Size(if e.width > acc.width then e.width else acc.width,
                            if e.height > acc.height then e.height else acc.height), es[1..]);
      assert forall k :: 1 <= k < |es| ==> es[k] == es[1..][k - 1];
      r
  }

  function Values(wins: seq<(string, OpenOptions)>): (vs: seq<OpenOptions>)
    ensures |vs| == |wins|
    ensures forall k :: 0 <= k < |wins| ==> vs[k] == wins[k].1
  {
    seq(|wins|, k requires 0 <= k < |wins| => wins[k].1)
  }

  /** `sizeByWinsOptions`: the least size covering every child's extent,
      seeded with zero, and the cursor the frame's layout helper stores. */
  function SizeByWinsOptions(wins: seq<(string, OpenOptions)>, host: Host, store: Option<Position>): (r: (Size, Option<Position>))
    ensures r.0.width >= 0 && r.0.height >= 0
    ensures forall k :: 0 <= k < |wins| ==>
      r.0.width >= Extent(wins[k].1, host).width && r.0.height >= Extent(wins[k].1, host).height
    ensures r.0.width == 0 || exists k :: 0 <= k < |wins| && r.0.width == Extent(wins[k].1, host).width
    ensures r.0.height == 0 || exists k :: 0 <= k < |wins| && r.0.height == Extent(wins[k].1, host).height
    ensures store.Some? ==> r.1 == store
    ensures store.None? ==> r.1 == FirstLiveCursor(Values(wins), host)
  {
    var vs := Values(wins);
    var (es, store') := Extents(vs, host, store);
    var size := MaxSize(Size(0, 0), es);
    assert forall k :: 0 <= k < |wins| ==> es[k] == Extent(wins[k].1, host);
    (size, store')
  }

  /** The options of a child's first entry under `key`. */
  function Lookup(wins: seq<(string, OpenOptions)>, key: string): (r: Option<OpenOptions>)
    ensures r.Some? ==> exists k :: 0 <= k < |wins| && wins[k] == (key, r.value)
    ensures r.None? ==> forall k :: 0 <= k < |wins| ==> wins[k].0 != key
    decreases |wins|
  {
    if |wins| == 0 then None
    else if wins[0].0 == key then Some(wins[0].1)
    else
      var r := Lookup(wins[1..], key);
      assert forall k :: 1 <= k < |wins| ==> wins[k] == wins[1..][k - 1];
      r
  }

  /** The frame's options: the given size, else the size the children need. */
  function FrameOptions(options: MultiOpenOptions, size: Size): OpenOptions {
    options.base.(width := options.width.GetOr(size.width), height := options.height.GetOr(size.height))
  }

  /** A child's options in the batch: absolute, offset from the frame's
      content box. */
  function ChildOptions(o: OpenOptions, content: Box): (r: OpenOptions)
    ensures RelativeOf(r) == Editor
    ensures r.top == Some(content.top + o.top.GetOr(0)) && r.left == Some(content.left + o.left.GetOr(0))
    ensures r.(relative := o.relative, top := o.top, left := o.left) == o
  {
    o.(relative := Some(Editor), top := Some(content.top + o.top.GetOr(0)), left := Some(content.left + o.left.GetOr(0)))
  }

  /** Only the position options of a child differ in the batch, and the
      context does not read them. */
  lemma ChildContextUnchanged(o: OpenOptions, content: Box, host: Host)
    ensures CreateContext(ChildOptions(o, content), host.env, host.displayWidth) == CreateContext(o, host.env, host.displayWidth)
  {
  }

  /** With no overall size given and non-negative child offsets, every
      child's border box lies inside the frame's content box, whatever the
      frame's anchoring. */
  lemma ChildInsideFrame(options: MultiOpenOptions, host: Host, store: Option<Position>, update: bool,
                         k: int, childStore: Option<Position>, childUpdate: bool)
    requires options.width.None? && options.height.None?
    requires 0 <= k < |options.wins|
    requires options.wins[k].1.top.GetOr(0) >= 0 && options.wins[k].1.left.GetOr(0) >= 0
    ensures var (size, store1) := SizeByWinsOptions(options.wins, host, store);
      var final := FrameOptions(options, size);
      var content := GetBoxSizes(CreateContext(final, host.env, host.displayWidth), final, update, store1).0.contentBox;
      var child := ChildOptions(options.wins[k].1, content);
      var b := GetBoxSizes(CreateContext(child, host.env, host.displayWidth), child, childUpdate, childStore).0.borderBox;
      Inside(b, content)
  {
    var (size, store1) := SizeByWinsOptions(options.wins, host, store);
    var final := FrameOptions(options, size);
    var fctx := CreateContext(final, host.env, host.displayWidth);
    var content := GetBoxSizes(fctx, final, update, store1).0.contentBox;
    var o := options.wins[k].1;
    var child := ChildOptions(o, content);
    ChildContextUnchanged(o, content, host);
    var ctx := CreateContext(o, host.env, host.displayWidth);
    BorderSizeIgnoresStore(ctx, o, false, None, childUpdate, childStore);
    BorderSizeIgnoresStore(ctx, child, childUpdate, childStore, childUpdate, childStore);
    var b := GetBoxSizes(ctx, child, childUpdate, childStore).0.borderBox;
    var e := Extent(o, host);
    assert b.width == e.width - o.left.GetOr(0) && b.height == e.height - o.top.GetOr(0);
    assert b.top == content.top + o.top.GetOr(0) && b.left == content.left + o.left.GetOr(0);
    assert content.width >= size.width && content.height == size.height;
  }

  // ---------------------------------------------------------------------
  // Batches

  /** One window's notifier for the action, with the window's next state. */
  function WinAction(action: Action, w: Win, o: OpenOptions, host: Host): (r: (Result<Notifier<HostAction>>, Win))
    ensures action == OpenAction ==> r == OpenNotifier(w, o, host)
    ensures action == ResizeAction ==> r == ResizeNotifier(w, o, host)
    ensures action == ResumeAction ==> r == (Ok(ResumeNotifier(w, o, host).0), ResumeNotifier(w, o, host).1)
  {
    match action
    case OpenAction => OpenNotifier(w, o, host)
    case ResizeAction => ResizeNotifier(w, o, host)
    case ResumeAction =>
      var (n, w') := ResumeNotifier(w, o, host);
      (Ok(n), w')
  }

  /** How many children have options in this call. */
  function ChildCount(children: seq<Child>, wins: seq<(string, OpenOptions)>): nat
    decreases |children|
  {
    if |children| == 0 then 0
    else (if Lookup(wins, children[0].key).Some? then 1 else 0) + ChildCount(children[1..], wins)
  }

  /** What the batch does to one child: its notifier and next state, from
      its options in the call. */
  type ChildStep = (OpenOptions, Win) -> (Result<Notifier<HostAction>>, Win)

  /** The action on a child, at its translated position. */
  function StepOf(action: Action, host: Host, content: Box): (f: ChildStep)
    ensures forall o, w :: f(o, w) == WinAction(action, w, ChildOptions(o, content), host)
  {
    (o, w) => WinAction(action, w, ChildOptions(o, content), host)
  }

  /** The children that have options in the call, in key order, each with
      those options. */
  function WithOptions(children: seq<Child>, wins: seq<(string, OpenOptions)>): (r: seq<(Child, OpenOptions)>)
    ensures |r| == ChildCount(children, wins)
    ensures forall i :: 0 <= i < |r| ==> r[i].0 in children && Lookup(wins, r[i].0.key) == Some(r[i].1)
    decreases |children|
  {
    if |children| == 0 then []
    else
      var rest := WithOptions(children[1..], wins);
      match Lookup(wins, children[0].key)
      case None => rest
      case Some(o) => [(children[0], o)] + rest
  }

  /** The children's notifiers in key order; a child without options is
      skipped and left as it was. The first failing child fails the batch. */
  function ChildNotifiers(step: ChildStep, children: seq<Child>, wins: seq<(string, OpenOptions)>)
    : (r: (Result<seq<Notifier<HostAction>>>, seq<Child>))
    ensures |r.1| == |children|
    ensures forall i :: 0 <= i < |children| ==> r.1[i].key == children[i].key
    ensures forall i :: 0 <= i < |children| && Lookup(wins, children[i].key).None? ==> r.1[i] == children[i]
    ensures r.0.Ok? ==> |r.0.value| == ChildCount(children, wins)
    ensures r.0.Ok? ==> forall i :: 0 <= i < |children| && Lookup(wins, children[i].key).Some? ==>
      r.1[i].win == step(Lookup(wins, children[i].key).value, children[i].win).1
    decreases |children|
  {
    if |children| == 0 then (Ok([]), [])
    else
      var c := children[0];
      match Lookup(wins, c.key)
      case None =>
        var (rest, cs) := ChildNotifiers(step, children[1..], wins);
        (rest, [c] + cs)
      case Some(o) =>
        var (n, w') := step(o, c.win);
        if n.Throw? then (Throw(n.error), [Child(c.key, w')] + children[1..])
        else
          var (rest, cs) := ChildNotifiers(step, children[1..], wins);
          (if rest.Throw? then rest else Ok([n.value] + rest.value), [Child(c.key, w')] + cs)
  }

  /** The step applied to each child with options, in order, stopping at
      the first failure. */
  function StepAll(step: ChildStep, ws: seq<(Child, OpenOptions)>): (r: Result<seq<Notifier<HostAction>>>)
    decreases |ws|
  {
    if |ws| == 0 then Ok([])
    else
      var n := step(ws[0].1, ws[0].0.win).0;
      if n.Throw? then Throw(n.error)
      else
        var rest := StepAll(step, ws[1..]);
        if rest.Throw? then rest else Ok([n.value] + rest.value)
  }

  /** A successful `StepAll` holds each step's notifier, in order, and it
      succeeds whenever every step does. */
  lemma {:induction false} StepAllPointwise(step: ChildStep, ws: seq<(Child, OpenOptions)>)
    ensures var r := StepAll(step, ws);
      && (r.Ok? ==> |r.value| == |ws| && forall i :: 0 <= i < |ws| ==> step(ws[i].1, ws[i].0.win).0 == Ok(r.value[i]))
      && ((forall i :: 0 <= i < |ws| ==> step(ws[i].1, ws[i].0.win).0.Ok?) ==> r.Ok?)
    decreases |ws|
  {
    if |ws| > 0 {
      StepAllPointwise(step, ws[1..]);
      var r := StepAll(step, ws);
      var rest := StepAll(step, ws[1..]);
      if r.Ok? {
        assert r.value == [step(ws[0].1, ws[0].0.win).0.value] + rest.value;
        assert forall i :: 1 <= i < |ws| ==> ws[i] == ws[1..][i - 1];
      }
      if forall i :: 0 <= i < |ws| ==> step(ws[i].1, ws[i].0.win).0.Ok? {
        assert forall i :: 0 <= i < |ws| - 1 ==> ws[1..][i] == ws[i + 1];
      }
    }
  }

  /** The children's notifiers are the step applied to each child with
      options, in key order, failing with the first failing step's error. */
  lemma {:induction false} ChildNotifiersFollowSteps(step: ChildStep, children: seq<Child>, wins: seq<(string, OpenOptions)>)
    ensures ChildNotifiers(step, children, wins).0 == StepAll(step, WithOptions(children, wins))
    decreases |children|
  {
    if |children| > 0 {
      ChildNotifiersFollowSteps(step, children[1..], wins);
      var c := children[0];
      var wsRest := WithOptions(children[1..], wins);
      match Lookup(wins, c.key)
      case None =>
        assert WithOptions(children, wins) == wsRest;
      case Some(o) =>
        var ws := WithOptions(children, wins);
        assert ws == [(c, o)] + wsRest;
        assert ws[1..] == wsRest;
    }
  }

  /** `batchAction`: sizes the frame by the children, lays it out, builds
      each child's notifier and then the frame's border-only one, optionally
      reverses that order, and returns the notifiers that are run together. */
  function BatchAction(m: Multi, action: Action, options: MultiOpenOptions, host: Host, reverse: bool, update: bool)
    : (r: (Result<seq<Notifier<HostAction>>>, Multi))
    ensures var (size, store1) := SizeByWinsOptions(options.wins, host, m.store);
      var final := FrameOptions(options, size);
      var layout := GetBoxSizes(CreateContext(final, host.env, host.displayWidth), final, update, store1);
      var frame := WinAction(action, m.frame, final.(borderOnly := Some(true)), host);
      var kids := StepAll(StepOf(action, host, layout.0.contentBox), WithOptions(m.children, options.wins));
      && r.1.store == layout.1
      && r.1.children == ChildNotifiers(StepOf(action, host, layout.0.contentBox), m.children, options.wins).1
      && (r.0.Throw? <==> kids.Throw? || frame.0.Throw?)
      && (r.0.Throw? ==> r.0.error == (if kids.Throw? then kids.error else frame.0.error))
      && (r.0.Ok? ==>
            && |r.0.value| == ChildCount(m.children, options.wins) + 1
            && r.0.value == (if reverse then Reverse(kids.value + [frame.0.value]) else kids.value + [frame.0.value])
            && r.1.frame == frame.1)
  {
    var (size, store1) := SizeByWinsOptions(options.wins, host, m.store);
    var final := FrameOptions(options, size);
    var (boxes, store2) := GetBoxSizes(CreateContext(final, host.env, host.displayWidth), final, update, store1);
    ChildNotifiersFollowSteps(StepOf(action, host, boxes.contentBox), m.children, options.wins);
    var (kids, children') := ChildNotifiers(StepOf(action, host, boxes.contentBox), m.children, options.wins);
    match kids
    case Throw(e) => (Throw(e), Multi(m.frame, children', store2))
    case Ok(ns) =>
      var (frameN, frame') := WinAction(action, m.frame, final.(borderOnly := Some(true)), host);
      match frameN
      case Throw(e) => (Throw(e), Multi(frame', children', store2))
      case Ok(f) =>
        var all := ns + [f];
        (Ok(if reverse then Reverse(all) else all), Multi(frame', children', store2))
  }

  /** What a batch leaves in each child: a child without options is as it
      was, and after a batch that could be built each child with options
      holds the window its action leaves, at the frame's content corner. */
  lemma BatchLeavesChildren(m: Multi, action: Action, options: MultiOpenOptions, host: Host, reverse: bool, update: bool)
    ensures var r := BatchAction(m, action, options, host, reverse, update);
      var (size, store1) := SizeByWinsOptions(options.wins, host, m.store);
      var final := FrameOptions(options, size);
      var content := GetBoxSizes(CreateContext(final, host.env, host.displayWidth), final, update, store1).0.contentBox;
      && |r.1.children| == |m.children|
      && (forall i :: 0 <= i < |m.children| ==> r.1.children[i].key == m.children[i].key)
      && (forall i :: 0 <= i < |m.children| && Lookup(options.wins, m.children[i].key).None? ==>
            r.1.children[i] == m.children[i])
      && (r.0.Ok? ==> forall i :: 0 <= i < |m.children| && Lookup(options.wins, m.children[i].key).Some? ==>
            r.1.children[i].win
              == WinAction(action, m.children[i].win, ChildOptions(Lookup(options.wins, m.children[i].key).value, content), host).1)
  {
    var r := BatchAction(m, action, options, host, reverse, update);
    var (size, store1) := SizeByWinsOptions(options.wins, host, m.store);
    var final := FrameOptions(options, size);
    var content := GetBoxSizes(CreateContext(final, host.env, host.displayWidth), final, update, store1).0.contentBox;
    var step := StepOf(action, host, content);
    var cn := ChildNotifiers(step, m.children, options.wins);
    assert r.1.children == cn.1;
    if r.0.Ok? {
      assert cn.0.Ok?;
    }
  }

  function Reverse<T>(s: seq<T>): (r: seq<T>)
    ensures |r| == |s|
    ensures forall i :: 0 <= i < |s| ==> r[i] == s[|s| - 1 - i]
  {
    seq(|s|, i requires 0 <= i < |s| => s[|s| - 1 - i])
  }

  /** Reversing changes only the order of the notifiers. */
  lemma ReverseOnlyReorders(m: Multi, action: Action, options: MultiOpenOptions, host: Host, update: bool)
    ensures var r1 := BatchAction(m, action, options, host, false, update);
      var r2 := BatchAction(m, action, options, host, true, update);
      && r1.1 == r2.1 && (r1.0.Ok? <==> r2.0.Ok?)
      && (r1.0.Ok? ==> r2.0.value == Reverse(r1.0.value))
  {
  }

  /** The host calls a batch asks for: every notifier, in order. */
  function Calls(ns: seq<Notifier<HostAction>>): seq<HostAction> {
    NotifyAll(Present(ns))
  }

  /** The calls actually issued: a callback that throws ends the batch, so
      the run stops right after the first raise. */
  function Performed(acts: seq<HostAction>): (r: seq<HostAction>)
    ensures |r| <= |acts| && r == acts[..|r|]
    ensures forall i :: 0 <= i < |r| - 1 ==> !r[i].Raise?
    ensures |r| < |acts| ==> 0 < |r| && r[|r| - 1].Raise?
    ensures (forall i :: 0 <= i < |acts| ==> !acts[i].Raise?) ==> r == acts
    decreases |acts|
  {
    if |acts| == 0 then []
    else if acts[0].Raise? then [acts[0]]
    else [acts[0]] + Performed(acts[1..])
  }

  /** The host calls a batch issues when it runs. */
  function Run(ns: seq<Notifier<HostAction>>): seq<HostAction> {
    Performed(Calls(ns))
  }

  /** `open`, `resume` and `resize`: batches in key order with the frame
      last; only `resize` keeps the stored cursor. */
  function Open(m: Multi, options: MultiOpenOptions, host: Host): (r: (Result<seq<HostAction>>, Multi))
    ensures var b := BatchAction(m, OpenAction, options, host, false, true);
      r.1 == b.1 && (r.0.Ok? <==> b.0.Ok?) && (r.0.Ok? ==> r.0.value == Run(b.0.value))
  {
    var (ns, m') := BatchAction(m, OpenAction, options, host, false, true);
    (if ns.Throw? then Throw(ns.error) else Ok(Run(ns.value)), m')
  }

  function Resume(m: Multi, options: MultiOpenOptions, host: Host): (r: (Result<seq<HostAction>>, Multi))
    ensures var b := BatchAction(m, ResumeAction, options, host, false, true);
      r.1 == b.1 && (r.0.Ok? <==> b.0.Ok?) && (r.0.Ok? ==> r.0.value == Run(b.0.value))
  {
    var (ns, m') := BatchAction(m, ResumeAction, options, host, false, true);
    (if ns.Throw? then Throw(ns.error) else Ok(Run(ns.value)), m')
  }

  function Resize(m: Multi, options: MultiOpenOptions, host: Host): (r: (Result<seq<HostAction>>, Multi))
    ensures var b := BatchAction(m, ResizeAction, options, host, false, false);
      r.1 == b.1 && (r.0.Ok? <==> b.0.Ok?) && (r.0.Ok? ==> r.0.value == Run(b.0.value))
  {
    var (ns, m') := BatchAction(m, ResizeAction, options, host, false, false);
    (if ns.Throw? then Throw(ns.error) else Ok(Run(ns.value)), m')
  }

  /** Building a resume batch never fails: resume notifiers render inside
      their callbacks, where a failure becomes a raise that ends the run. */
  lemma {:induction false} ResumeChildrenNeverFail(step: ChildStep, children: seq<Child>, wins: seq<(string, OpenOptions)>)
    requires forall o, w :: step(o, w).0.Ok?
    ensures ChildNotifiers(step, children, wins).0.Ok?
    decreases |children|
  {
    if |children| > 0 {
      ResumeChildrenNeverFail(step, children[1..], wins);
    }
  }

  lemma ResumeNeverFails(m: Multi, options: MultiOpenOptions, host: Host)
    ensures Resume(m, options, host).0.Ok?
  {
    var (size, store1) := SizeByWinsOptions(options.wins, host, m.store);
    var final := FrameOptions(options, size);
    var (boxes, store2) := GetBoxSizes(CreateContext(final, host.env, host.displayWidth), final, true, store1);
    ResumeChildrenNeverFail(StepOf(ResumeAction, host, boxes.contentBox), m.children, options.wins);
  }

  /** The frame's notifier ends a batch: its host calls are the last ones
      asked for. */
  lemma FrameRunsLast(m: Multi, action: Action, options: MultiOpenOptions, host: Host, update: bool)
    ensures var b := BatchAction(m, action, options, host, false, update).0;
      b.Ok? ==> var ns := b.value;
      |ns| > 0 && Calls(ns) == Calls(ns[..|ns| - 1]) + Notify(ns[|ns| - 1])
  {
    var b := BatchAction(m, action, options, host, false, update).0;
    if b.Ok? {
      RunSplitLast(b.value);
    }
  }

  /** Running a non-empty list of notifiers ends with its last one. */
  lemma RunSplitLast(ns: seq<Notifier<HostAction>>)
    requires |ns| > 0
    ensures Calls(ns) == Calls(ns[..|ns| - 1]) + Notify(ns[|ns| - 1])
  {
    var init := ns[..|ns| - 1];
    assert ns == init + [ns[|ns| - 1]];
    PresentAppend(init, [ns[|ns| - 1]]);
    NotifyAllAppend(Present(init), Present([ns[|ns| - 1]]));
    var one := Present([ns[|ns| - 1]]);
    assert one[1..] == [];
  }

  lemma PresentAppend<T>(a: seq<T>, b: seq<T>)
    ensures Present(a + b) == Present(a) + Present(b)
  {
  }
}

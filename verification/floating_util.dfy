/**
  `FloatingUtil`: the box model of a floating window. A content box is grown
  by padding into a padding box and by border into a border box; the border
  box is anchored at the centre of the screen, at the cursor, next to the
  cursor, or at an absolute position; and the boxes become host window
  descriptors in the Vim (popup) or Neovim (floating window) dialect.

  The one piece of mutable state of a `FloatingUtil`, `storeCursorPosition`,
  is threaded explicitly: operations that read or write it take the current
  value and return the next one.
 */
module FloatingUtil {
  import opened Common
  import opened FloatTypes
  import opened Notifier

  const DefaultBorderChars: seq<string> := ["─", "│", "─", "│", "┌", "┐", "┘", "└"]
  const DefaultWinHl := "CocHelperNormalFloat"
  const DefaultWinHlNC := "CocHelperNormalFloatNC"
  const DefaultBorderWinHl := "CocHelperNormalFloatBorder"

  /** What `createContext` reads from the host: `workspace.env.lines`,
      `columns` and `cmdheight`, and the global cursor position. */
  datatype HostEnv = HostEnv(lines: int, columns: int, cmdheight: int, cursor: Position)

  /** `arr[i]`, which is `undefined` past the end. */
  function At<T>(s: seq<T>, i: nat): (r: Option<T>)
    ensures r.Some? <==> i < |s|
    ensures i < |s| ==> r.value == s[i]
  {
    if i < |s| then Some(s[i]) else None
  }

  // ---------------------------------------------------------------------
  // Edges and boxes

  /** `extendEdges`: CSS-like shorthand. Absent means no edges; otherwise
      `top = e[0] ?? 1`, `right = e[1] ?? top`, `bottom = e[2] ?? top`,
      `left = e[3] ?? right`, and entries past the fourth are ignored. */
  function ExtendEdges(edges: Option<seq<int>>): (r: Edges)
    ensures edges.None? ==> r == Edges(0, 0, 0, 0)
    ensures edges.Some? ==> var e := edges.value;
      && (|e| == 0 ==> r == Edges(1, 1, 1, 1))
      && (|e| == 1 ==> r == Edges(e[0], e[0], e[0], e[0]))
      && (|e| == 2 ==> r == Edges(e[0], e[1], e[0], e[1]))
      && (|e| == 3 ==> r == Edges(e[0], e[1], e[2], e[1]))
      && (|e| >= 4 ==> r == Edges(e[0], e[1], e[2], e[3]))
  {
    match edges
    case None => Edges(0, 0, 0, 0)
    case Some(e) =>
      var top := At(e, 0).GetOr(1);
      var right := At(e, 1).GetOr(top);
      var bottom := At(e, 2).GetOr(top);
      var left := At(e, 3).GetOr(right);
      Edges(top, right, bottom, left)
  }

  /** The unit-test vectors of `extendEdges`. */
  lemma ExtendEdgesVectors()
    ensures ExtendEdges(None) == Edges(0, 0, 0, 0)
    ensures ExtendEdges(Some([])) == Edges(1, 1, 1, 1)
    ensures ExtendEdges(Some([2])) == Edges(2, 2, 2, 2)
    ensures ExtendEdges(Some([2, 1])) == Edges(2, 1, 2, 1)
    ensures ExtendEdges(Some([3, 2, 1])) == Edges(3, 2, 1, 2)
  {
  }

  /** `changeBoxByEdges`: grows the box outward by the edges; no edges leave
      it as it is. */
  function ChangeBoxByEdges(box: Box, edges: Option<Edges>): (r: Box)
    ensures edges.None? ==> r == box
    ensures edges.Some? ==> var e := edges.value;
      && r.top + e.top == box.top && r.left + e.left == box.left
      && r.width == box.width + e.left + e.right
      && r.height == box.height + e.top + e.bottom
  {
    match edges
    case None => box
    case Some(e) => Box(box.top - e.top, box.left - e.left, box.width + e.left + e.right, box.height + e.top + e.bottom)
  }

  /** `changeBoxByEdgesList`: applies the edges in list order. */
  function ChangeBoxByEdgesList(box: Box, edgesList: seq<Option<Edges>>): Box
    decreases |edgesList|
  {
    if |edgesList| == 0 then box
    else ChangeBoxByEdgesList(ChangeBoxByEdges(box, edgesList[0]), edgesList[1..])
  }

  function AddEdges(a: Edges, b: Edges): Edges {
    Edges(a.top + b.top, a.right + b.right, a.bottom + b.bottom, a.left + b.left)
  }

  function NegateEdges(e: Edges): Edges {
    Edges(-e.top, -e.right, -e.bottom, -e.left)
  }

  /** The side-by-side sum of every present edge set of the list. */
  function TotalEdges(edgesList: seq<Option<Edges>>): Edges
    decreases |edgesList|
  {
    if |edgesList| == 0 then Edges(0, 0, 0, 0)
    else AddEdges(edgesList[0].GetOr(Edges(0, 0, 0, 0)), TotalEdges(edgesList[1..]))
  }

  /** Growing by `e` and then by `-e` gives back the original box. */
  lemma ChangeBoxInverse(box: Box, e: Edges)
    ensures ChangeBoxByEdges(ChangeBoxByEdges(box, Some(e)), Some(NegateEdges(e))) == box
  {
  }

  /** Applying a list of edges is growing once by their side-by-side sum;
      in particular an empty list changes nothing. */
  lemma {:induction false} ChangeBoxListIsTotal(box: Box, edgesList: seq<Option<Edges>>)
    ensures ChangeBoxByEdgesList(box, edgesList) == ChangeBoxByEdges(box, Some(TotalEdges(edgesList)))
    decreases |edgesList|
  {
    if |edgesList| > 0 {
      ChangeBoxListIsTotal(ChangeBoxByEdges(box, edgesList[0]), edgesList[1..]);
      ChangeBoxCompose(box, edgesList[0], TotalEdges(edgesList[1..]));
    }
  }

  lemma ChangeBoxCompose(box: Box, e: Option<Edges>, t: Edges)
    ensures ChangeBoxByEdges(ChangeBoxByEdges(box, e), Some(t))
         == ChangeBoxByEdges(box, Some(AddEdges(e.GetOr(Edges(0, 0, 0, 0)), t)))
  {
  }

  /** The list form is a left fold: a concatenated list is applied part by part. */
  lemma {:induction false} ChangeBoxListAppend(box: Box, xs: seq<Option<Edges>>, ys: seq<Option<Edges>>)
    ensures ChangeBoxByEdgesList(box, xs + ys) == ChangeBoxByEdgesList(ChangeBoxByEdgesList(box, xs), ys)
    decreases |xs|
  {
    if |xs| == 0 {
      assert xs + ys == ys;
    } else {
      assert (xs + ys)[0] == xs[0];
      assert (xs + ys)[1..] == xs[1..] + ys;
      ChangeBoxListAppend(ChangeBoxByEdges(box, xs[0]), xs[1..], ys);
    }
  }

  /** The unit-test vectors of `changeBoxByEdges` and its list form. */
  lemma ChangeBoxVectors()
    ensures ChangeBoxByEdges(Box(1, 2, 3, 4), Some(Edges(1, 1, 1, 1))) == Box(0, 1, 5, 6)
    ensures ChangeBoxByEdgesList(Box(1, 2, 3, 4), [Some(Edges(1, 1, 1, 1)), Some(Edges(1, 1, 1, 1))]) == Box(-1, 0, 7, 8)
    ensures ChangeBoxByEdges(Box(1, 2, 3, 4), Some(Edges(1, 3, 3, 2))) == Box(0, 0, 8, 8)
  {
    ChangeBoxListIsTotal(Box(1, 2, 3, 4), [Some(Edges(1, 1, 1, 1)), Some(Edges(1, 1, 1, 1))]);
  }

  // ---------------------------------------------------------------------
  // Anchors

  /** `getCenterPos`: the box's position when centred on the screen
      (`Math.floor((lines - height) / 2)`, likewise for the columns). The
      space above is never more than the space below, and they differ by at
      most one row; the same holds left and right. */
  function GetCenterPos(ctx: Context, box: Box): (p: Position)
    ensures 2 * p.top <= ctx.lines - box.height <= 2 * p.top + 1
    ensures 2 * p.left <= ctx.columns - box.width <= 2 * p.left + 1
  {
    Position((ctx.lines - box.height) / 2, (ctx.columns - box.width) / 2)
  }

  /** Centring looks only at the box's size, not at where it was. */
  lemma CenterIgnoresBoxPosition(ctx: Context, box: Box, top: int, left: int)
    ensures GetCenterPos(ctx, box) == GetCenterPos(ctx, box.(top := top, left := left))
  {
  }

  /** `getPosForAround`: next to the cursor. Below the cursor row (or above
      it when `preferAbove`), flipping to the other side when the preferred
      side does not fit in `lines - 1` rows; starting at the cursor column,
      or ending on it when the box would reach the last column. */
  function GetPosForAround(ctx: Context, size: Size, cursor: Position, preferAbove: bool): (p: Position)
    ensures var usable := ctx.lines - 1;
      !preferAbove ==>
        if cursor.top + size.height >= usable then p.top + size.height == cursor.top
        else p.top == cursor.top + 1
    ensures preferAbove ==>
        if cursor.top - size.height < 0 then p.top == cursor.top + 1
        else p.top + size.height == cursor.top
    ensures cursor.left + size.width >= ctx.columns ==> p.left + size.width - 1 == cursor.left
    ensures cursor.left + size.width < ctx.columns ==> p.left == cursor.left
  {
    var usable := ctx.lines - 1;
    var top :=
      if preferAbove then (if cursor.top - size.height < 0 then cursor.top + 1 else cursor.top - size.height)
      else (if cursor.top + size.height >= usable then cursor.top - size.height else cursor.top + 1);
    var left := if cursor.left + size.width >= ctx.columns then cursor.left - (size.width - 1) else cursor.left;
    Position(top, left)
  }

  /** With the cursor on screen and a box that fits on at least one side of
      it in each direction, the around-placement keeps the box on screen:
      within the `lines - 1` usable rows and the `columns` columns. */
  lemma AroundPlacementOnScreen(ctx: Context, size: Size, cursor: Position)
    requires 0 <= cursor.top < ctx.lines && 0 <= cursor.left < ctx.columns
    requires 0 <= size.height && 0 <= size.width
    requires cursor.top + 1 + size.height <= ctx.lines - 1 || size.height <= cursor.top
    requires cursor.left + size.width < ctx.columns || size.width <= cursor.left + 1
    ensures var p := GetPosForAround(ctx, size, cursor, false);
      && 0 <= p.top && p.top + size.height <= ctx.lines - 1
      && 0 <= p.left && p.left + size.width <= ctx.columns
  {
  }

  /** The unit-test vectors of `getPosForAround` on a 50 by 50 screen. */
  lemma GetPosForAroundVectors(ctx: Context)
    requires ctx.lines == 50 && ctx.columns == 50
    ensures GetPosForAround(ctx, Size(9, 9), Position(0, 0), false) == Position(1, 0)
    ensures GetPosForAround(ctx, Size(9, 9), Position(41, 0), false) == Position(32, 0)
    ensures GetPosForAround(ctx, Size(9, 9), Position(0, 41), false) == Position(1, 33)
    ensures GetPosForAround(ctx, Size(9, 9), Position(41, 41), false) == Position(32, 33)
    ensures GetPosForAround(ctx, Size(9, 9), Position(0, 0), true) == Position(1, 0)
    ensures GetPosForAround(ctx, Size(9, 9), Position(10, 10), true) == Position(1, 10)
    ensures GetCenterPos(ctx, Box(3, 3, 9, 9)) == Position(20, 20)
  {
  }

  // ---------------------------------------------------------------------
  // Box sizes

  datatype BoxSizes = BoxSizes(contentBox: Box, paddingBox: Box, borderBox: Box)

  /** The cursor a non-centred layout uses: the stored one when the caller
      does not ask for a fresh one and one is stored, else the live one. */
  function ChosenCursor(ctx: Context, updateCursorPosition: bool, store: Option<Position>): (c: Position)
    ensures !updateCursorPosition && store.Some? ==> c == store.value
    ensures updateCursorPosition || store.None? ==> c == ctx.globalCursorPosition
  {
    if !updateCursorPosition && store.Some? then store.value else ctx.globalCursorPosition
  }

  function RelativeOf(options: OpenOptions): Relative {
    options.relative.GetOr(Editor)
  }

  /** `getBoxSizes`: the three nested boxes and the next stored cursor. */
  function GetBoxSizes(ctx: Context, options: OpenOptions, updateCursorPosition: bool,
                       store: Option<Position>): (r: (BoxSizes, Option<Position>))
    ensures var b := r.0;
      && b.contentBox.width == Max(options.width, ctx.title.width)
      && b.contentBox.height == options.height
      && b.paddingBox == ChangeBoxByEdges(b.contentBox, Some(ctx.padding))
      && b.borderBox == ChangeBoxByEdges(b.paddingBox, Some(ctx.border))
    ensures var b := r.0.borderBox; var anchor := Position(b.top, b.left);
      var cursor := ChosenCursor(ctx, updateCursorPosition, store);
      match RelativeOf(options)
      case Center => anchor == GetCenterPos(ctx, b) && r.1 == store
      case Cursor => anchor == cursor && r.1 == Some(cursor)
      case CursorAround => anchor == GetPosForAround(ctx, Size(b.width, b.height), cursor, false) && r.1 == Some(cursor)
      case Editor => anchor == Position(options.top.GetOr(0), options.left.GetOr(0)) && r.1 == Some(cursor)
  {
    var width := Max(options.width, ctx.title.width);
    var content0 := Box(0, 0, width, options.height);
    var padding0 := ChangeBoxByEdges(content0, Some(ctx.padding));
    var border0 := ChangeBoxByEdges(padding0, Some(ctx.border));
    var rel := RelativeOf(options);
    var cursor := ChosenCursor(ctx, updateCursorPosition, store);
    var fullPos :=
      if rel == Center then GetCenterPos(ctx, border0)
      else if rel == Cursor then cursor
      else if rel == CursorAround then GetPosForAround(ctx, Size(border0.width, border0.height), cursor, false)
      else Position(options.top.GetOr(0), options.left.GetOr(0));
    var store' := if rel == Center then store else Some(cursor);
    var borderBox := border0.(top := fullPos.top, left := fullPos.left);
    var paddingBox := padding0.(top := borderBox.top + ctx.border.top, left := borderBox.left + ctx.border.left);
    var contentBox := content0.(top := paddingBox.top + ctx.padding.top, left := paddingBox.left + ctx.padding.left);
    (BoxSizes(contentBox, paddingBox, borderBox), store')
  }

  /** `b` lies within `outer`. */
  predicate Inside(b: Box, outer: Box) {
    && outer.top <= b.top && b.top + b.height <= outer.top + outer.height
    && outer.left <= b.left && b.left + b.width <= outer.left + outer.width
  }

  predicate NonNegativeEdges(e: Edges) {
    e.top >= 0 && e.right >= 0 && e.bottom >= 0 && e.left >= 0
  }

  /** With non-negative padding and border, the content box lies in the
      padding box, which lies in the border box. */
  lemma NestedBoxesContain(ctx: Context, options: OpenOptions, updateCursorPosition: bool, store: Option<Position>)
    requires NonNegativeEdges(ctx.padding) && NonNegativeEdges(ctx.border)
    ensures var b := GetBoxSizes(ctx, options, updateCursorPosition, store).0;
      Inside(b.contentBox, b.paddingBox) && Inside(b.paddingBox, b.borderBox)
  {
  }

  /** A resize without a fresh cursor is stable: repeating the same call
      gives the same boxes and keeps the same stored cursor. */
  lemma ResizeIsStable(ctx: Context, options: OpenOptions, store: Option<Position>)
    ensures var (b1, s1) := GetBoxSizes(ctx, options, false, store);
      GetBoxSizes(ctx, options, false, s1) == (b1, s1)
  {
    var (b1, s1) := GetBoxSizes(ctx, options, false, store);
    if RelativeOf(options) != Center {
      assert s1 == Some(ChosenCursor(ctx, false, store));
      assert ChosenCursor(ctx, false, s1) == ChosenCursor(ctx, false, store);
    }
  }

  /** After a non-centred call, a call that does not ask for a fresh cursor
      ignores the live cursor. */
  lemma StoredCursorWins(ctx: Context, ctx2: Context, options: OpenOptions, store: Option<Position>)
    requires RelativeOf(options) != Center
    requires ctx2 == ctx.(globalCursorPosition := ctx2.globalCursorPosition)
    ensures var (b1, s1) := GetBoxSizes(ctx, options, true, store);
      GetBoxSizes(ctx2, options, false, s1) == (b1, s1)
  {
  }

  /** The unit-test vectors of `getBoxSizes`. */
  lemma GetBoxSizesVectors(ctx: Context)
    requires ctx.title.width == 4
    ensures var o := SizeOnly(100, 100).(top := Some(0), left := Some(0));
      var c0 := ctx.(border := Edges(0, 0, 0, 0), padding := Edges(0, 0, 0, 0));
      var c1 := ctx.(border := Edges(1, 1, 1, 1), padding := Edges(0, 0, 0, 0));
      var c2 := ctx.(border := Edges(1, 1, 1, 1), padding := Edges(1, 1, 1, 1));
      && GetBoxSizes(c0, o, true, None).0.borderBox == Box(0, 0, 100, 100)
      && GetBoxSizes(c0, o, true, None).0.contentBox == Box(0, 0, 100, 100)
      && GetBoxSizes(c1, o, true, None).0.borderBox == Box(0, 0, 102, 102)
      && GetBoxSizes(c1, o, true, None).0.contentBox == Box(1, 1, 100, 100)
      && GetBoxSizes(c2, o, true, None).0.borderBox == Box(0, 0, 104, 104)
      && GetBoxSizes(c2, o, true, None).0.paddingBox == Box(1, 1, 102, 102)
      && GetBoxSizes(c2, o, true, None).0.contentBox == Box(2, 2, 100, 100)
  {
  }

  // ---------------------------------------------------------------------
  // Context

  /** `border` entries that are flags (true or false alike) count as 1. */
  function BorderWidths(border: seq<BorderEntry>): (r: seq<int>)
    ensures |r| == |border|
    ensures forall i :: 0 <= i < |border| ==> r[i] == (if border[i].Flag? then 1 else border[i].n)
  {
    seq(|border|, i requires 0 <= i < |border| => if border[i].Flag? then 1 else border[i].n)
  }

  /** The pure part of `createContext`: a context given in the options wins;
      otherwise the screen size comes from the host (the command line and
      one more row taken off the columns, as the source does), the title is
      measured with the host's display width, and an edge option that is
      present at all enables that layer. */
  function CreateContext(options: OpenOptions, env: HostEnv, displayWidth: string -> nat): (ctx: Context)
    ensures options.context.Some? ==> ctx == options.context.value
    ensures options.context.None? ==>
      && ctx.lines == env.lines
      && ctx.columns == env.columns - env.cmdheight - 1
      && ctx.globalCursorPosition == env.cursor
      && (ctx.borderEnabled <==> options.border.Some?)
      && (ctx.paddingEnabled <==> options.padding.Some?)
      && ctx.padding == ExtendEdges(options.padding)
      && (options.border.None? ==> ctx.border == Edges(0, 0, 0, 0))
      && (options.border.Some? ==> ctx.border == ExtendEdges(Some(BorderWidths(options.border.value))))
      && (options.title.None? || options.title == Some("") ==> ctx.title == Title("", 0))
      && (options.title.Some? && options.title.value != "" ==>
            ctx.title == Title(options.title.value, displayWidth(options.title.value)))
  {
    if options.context.Some? then options.context.value
    else
      var title :=
        if options.title.Some? && options.title.value != "" then Title(options.title.value, displayWidth(options.title.value))
        else Title("", 0);
      var border := match options.border
        case None => None
        case Some(b) => Some(BorderWidths(b));
      Context(env.lines, env.columns - env.cmdheight - 1, env.cursor, title,
              options.border.Some?, ExtendEdges(border),
              options.padding.Some?, ExtendEdges(options.padding))
  }

  /** A border given only as flags draws every side one cell wide, even when
      the flags are `false`; an empty list does too. */
  lemma FlagBordersAreOneWide(options: OpenOptions, env: HostEnv, displayWidth: string -> nat)
    requires options.context.None? && options.border.Some?
    requires forall i :: 0 <= i < |options.border.value| ==> options.border.value[i].Flag?
    ensures var ctx := CreateContext(options, env, displayWidth);
      ctx.borderEnabled && ctx.border == Edges(1, 1, 1, 1)
  {
    var w := BorderWidths(options.border.value);
    assert forall i :: 0 <= i < |w| ==> w[i] == 1;
  }

  // ---------------------------------------------------------------------
  // Window descriptors

  /** The size Vim's popup takes on screen when placed around the cursor:
      the requested content size, not widened for the title, grown by
      padding and border. */
  function PopupSize(ctx: Context, options: OpenOptions): Size {
    Size(options.width + ctx.padding.left + ctx.padding.right + ctx.border.left + ctx.border.right,
         options.height + ctx.padding.top + ctx.padding.bottom + ctx.border.top + ctx.border.bottom)
  }

  /** The zero-based cell a non-centred Vim popup is placed at. */
  function VimAnchor(ctx: Context, options: OpenOptions, cursor: Position): (p: Position)
    ensures RelativeOf(options) == Cursor ==> p == cursor
    ensures RelativeOf(options) == CursorAround ==> p == GetPosForAround(ctx, PopupSize(ctx, options), cursor, false)
    ensures RelativeOf(options) != Cursor && RelativeOf(options) != CursorAround ==>
      p == Position(options.top.GetOr(0), options.left.GetOr(0))
  {
    var top := options.top.GetOr(0);
    var left := options.left.GetOr(0);
    var rel := RelativeOf(options);
    if rel == Cursor then cursor
    else if rel == CursorAround then
      var list := [Some(ctx.padding), Some(ctx.border)];
      var box := ChangeBoxByEdgesList(Box(top, left, options.width, options.height), list);
      var b0 := Box(top, left, options.width, options.height);
      var b1 := ChangeBoxByEdges(b0, Some(ctx.padding));
      assert list[1..] == [Some(ctx.border)];
      assert list[1..][1..] == [];
      assert box == ChangeBoxByEdgesList(b1, [Some(ctx.border)]);
      assert box == ChangeBoxByEdges(b1, Some(ctx.border));
      GetPosForAround(ctx, Size(box.width, box.height), cursor, false)
    else Position(top, left)
  }

  /** Every non-centred layout stores the cursor it used; a centred one
      keeps the store. */
  lemma LayoutStore(ctx: Context, options: OpenOptions, updateCursorPosition: bool, store: Option<Position>)
    ensures GetBoxSizes(ctx, options, updateCursorPosition, store).1 ==
      if RelativeOf(options) == Center then store else Some(ChosenCursor(ctx, updateCursorPosition, store))
  {
  }

  /** `vimWinConfig`: the popup descriptor and the next stored cursor. */
  function VimWinConfigOf(ctx: Context, options: OpenOptions, updateCursorPosition: bool,
                          store: Option<Position>): (r: (VimWinConfig, Option<Position>))
    ensures var c := r.0;
      && c.zindex == (if options.borderOnly.GetOr(false) then 1 else 100)
      && c.minwidth == options.width && c.minheight == options.height
      && c.maxwidth == (if options.maxWidth.Some? && options.maxWidth.value != 0 then options.maxWidth.value else options.width)
      && c.maxheight == (if options.maxHeight.Some? && options.maxHeight.value != 0 then options.maxHeight.value else options.height)
      && c.highlight == Some(options.winHl.GetOr(DefaultWinHl))
      && c.padding == options.padding
      && (c.border.Some? <==> ctx.borderEnabled)
      && (ctx.borderEnabled ==>
            (&& c.border == Some(ctx.border)
             && c.borderchars == Some(options.borderChars.GetOr(DefaultBorderChars))
             && c.borderhighlight == Some([options.borderWinHl.GetOr(DefaultBorderWinHl)])))
      && (c.close.Some? <==> ctx.borderEnabled && ctx.border.top != 0)
      && (c.close.Some? ==> c.close == Some(CloseButton))
      && (c.title.Some? <==> c.close.Some? && ctx.title.width != 0)
      && (c.title.Some? ==> c.title == Some(ctx.title.text))
    ensures RelativeOf(options) == Center ==>
      r.0.pos == Some("center") && r.0.line == options.topOffset.GetOr(0) && r.0.col == options.leftOffset.GetOr(0)
    ensures RelativeOf(options) != Center ==> r.0.pos.None?
    ensures RelativeOf(options) != Center ==>
      var p := VimAnchor(ctx, options, ChosenCursor(ctx, updateCursorPosition, store));
      r.0.line == p.top + 1 + options.topOffset.GetOr(0) && r.0.col == p.left + 1 + options.leftOffset.GetOr(0)
    ensures r.1 == GetBoxSizes(ctx, options, updateCursorPosition, store).1
  {
    var width := options.width;
    var height := options.height;
    var rel := RelativeOf(options);
    var cursor := ChosenCursor(ctx, updateCursorPosition, store);
    var anchor := VimAnchor(ctx, options, cursor);
    LayoutStore(ctx, options, updateCursorPosition, store);
    var line0 := if rel == Center then 0 else anchor.top + 1;
    var col0 := if rel == Center then 0 else anchor.left + 1;
    var store' := if rel == Center then store else Some(cursor);
    var hasTopBorder := ctx.borderEnabled && ctx.border.top != 0;
    var config := VimWinConfig(
      line0 + options.topOffset.GetOr(0),
      col0 + options.leftOffset.GetOr(0),
      if options.borderOnly.GetOr(false) then 1 else 100,
      width, height,
      if options.maxWidth.Some? && options.maxWidth.value != 0 then options.maxWidth.value else width,
      if options.maxHeight.Some? && options.maxHeight.value != 0 then options.maxHeight.value else height,
      if rel == Center then Some("center") else None,
      Some(options.winHl.GetOr(DefaultWinHl)),
      if hasTopBorder && ctx.title.width != 0 then Some(ctx.title.text) else None,
      options.padding,
      if ctx.borderEnabled then Some(ctx.border) else None,
      if ctx.borderEnabled then Some(options.borderChars.GetOr(DefaultBorderChars)) else None,
      if ctx.borderEnabled then Some([options.borderWinHl.GetOr(DefaultBorderWinHl)]) else None,
      if hasTopBorder then Some(CloseButton) else None);
    (config, store')
  }

  /** `nvimWinConfig`: the content window and the border window (always
      present, since a border box always exists), and the next stored cursor. */
  function NvimWinConfigOf(ctx: Context, options: OpenOptions, updateCursorPosition: bool,
                           store: Option<Position>): (r: (NvimWinConfig, Option<NvimWinConfig>, Option<Position>))
    ensures var (b, s) := GetBoxSizes(ctx, options, updateCursorPosition, store);
      var dt := options.topOffset.GetOr(0); var dl := options.leftOffset.GetOr(0);
      && r.0 == NvimWinConfig(b.contentBox.top + dt, b.contentBox.left + dl, b.contentBox.width, b.contentBox.height,
                              options.focusable.GetOr(true))
      && r.1 == Some(NvimWinConfig(b.borderBox.top + dt, b.borderBox.left + dl, b.borderBox.width, b.borderBox.height, false))
      && r.2 == s
  {
    var (b, s) := GetBoxSizes(ctx, options, updateCursorPosition, store);
    var dt := options.topOffset.GetOr(0);
    var dl := options.leftOffset.GetOr(0);
    var winConfig := NvimWinConfig(b.contentBox.top + dt, b.contentBox.left + dl, b.contentBox.width, b.contentBox.height,
                                   options.focusable.GetOr(true));
    var borderConfig := NvimWinConfig(b.borderBox.top + dt, b.borderBox.left + dl, b.borderBox.width, b.borderBox.height, false);
    (winConfig, Some(borderConfig), s)
  }

  function NvimBox(c: NvimWinConfig): Box {
    Box(c.row, c.col, c.width, c.height)
  }

  /** The Neovim content window sits inside its non-focusable border window
      when padding and border are non-negative. */
  lemma NvimContentInsideBorder(ctx: Context, options: OpenOptions, updateCursorPosition: bool, store: Option<Position>)
    requires NonNegativeEdges(ctx.padding) && NonNegativeEdges(ctx.border)
    ensures var r := NvimWinConfigOf(ctx, options, updateCursorPosition, store);
      r.1.Some? && !r.1.value.focusable && Inside(NvimBox(r.0), NvimBox(r.1.value))
  {
    NestedBoxesContain(ctx, options, updateCursorPosition, store);
  }

    /** Placed at the cursor or at an editor position, Vim's popup and
      Neovim's border window start at the same screen cell: Vim counts
      lines and columns from 1, Neovim rows and columns from 0. */
  lemma VimIsOneIndexedNvim(ctx: Context, options: OpenOptions, updateCursorPosition: bool, store: Option<Position>)
    requires RelativeOf(options) == Cursor || RelativeOf(options) == Editor
    ensures var v := VimWinConfigOf(ctx, options, updateCursorPosition, store).0;
      var n := NvimWinConfigOf(ctx, options, updateCursorPosition, store).1.value;
      v.line == n.row + 1 && v.col == n.col + 1
  {
  }

  /** Placed around the cursor, the two agree as well when the title is no
      wider than the content, so that both place a box of the same size. */
  lemma VimIsOneIndexedNvimAround(ctx: Context, options: OpenOptions, updateCursorPosition: bool, store: Option<Position>)
    requires RelativeOf(options) == CursorAround
    requires ctx.title.width <= options.width
    ensures var v := VimWinConfigOf(ctx, options, updateCursorPosition, store).0;
      var n := NvimWinConfigOf(ctx, options, updateCursorPosition, store).1.value;
      v.line == n.row + 1 && v.col == n.col + 1
  {
    var b := GetBoxSizes(ctx, options, updateCursorPosition, store).0;
    assert Size(b.borderBox.width, b.borderBox.height) == PopupSize(ctx, options);
  }

  /** A title wider than the content widens Neovim's box but not the size
      Vim places, so around the cursor near the right edge the two dialects
      put the window in different columns: here Vim's column 11 is the
      zero-based column 10, while Neovim's border window starts at column -1. */
  lemma AroundWideTitleDiverges(ctx: Context, options: OpenOptions)
    requires ctx == Context(30, 20, Position(5, 10), Title("twelve chars", 12), false, Edges(0, 0, 0, 0), false, Edges(0, 0, 0, 0))
    requires options == SizeOnly(5, 3).(relative := Some(CursorAround))
    ensures VimWinConfigOf(ctx, options, true, None).0.col == 11
    ensures NvimWinConfigOf(ctx, options, true, None).1 == Some(NvimWinConfig(6, -1, 12, 3, false))
  {
    assert PopupSize(ctx, options) == Size(5, 3);
    var b := GetBoxSizes(ctx, options, true, None).0;
    assert b.borderBox == Box(6, -1, 12, 3);
  }

  /** `winConfig`: the backend's descriptor, the Neovim border descriptor
      (never for Vim), and the next stored cursor, which both dialects
      update the same way. */
  function WinConfigOf(ctx: Context, options: OpenOptions, updateCursorPosition: bool,
                       store: Option<Position>, isVim: bool): (r: (WinConfig, Option<NvimWinConfig>, Option<Position>))
    ensures isVim <==> r.0.VimCfg?
    ensures r.1.Some? <==> !isVim
    ensures r.2 == GetBoxSizes(ctx, options, updateCursorPosition, store).1
  {
    if isVim then
      var (c, s) := VimWinConfigOf(ctx, options, updateCursorPosition, store);
      (VimCfg(c), None, s)
    else
      var (c, b, s) := NvimWinConfigOf(ctx, options, updateCursorPosition, store);
      (NvimCfg(c), b, s)
  }

  /** `nvimWinHl`: the Neovim `winhighlight` value; empty for Vim. */
  function NvimWinHl(options: OpenOptions, isVim: bool): (r: string)
    ensures isVim ==> r == ""
    ensures !isVim ==> r == "Normal:" + options.winHl.GetOr(DefaultWinHl) + ",NormalNC:" + options.winHlNC.GetOr(DefaultWinHlNC)
  {
    if isVim then ""
    else "Normal:" + options.winHl.GetOr(DefaultWinHl) + ",NormalNC:" + options.winHlNC.GetOr(DefaultWinHlNC)
  }

  /** The position of the first comma of `s`, or `|s|` when there is none. */
  function FirstComma(s: string): (i: nat)
    ensures i <= |s|
    ensures forall k :: 0 <= k < i ==> s[k] != ','
    ensures i < |s| ==> s[i] == ','
    decreases |s|
  {
    if |s| == 0 || s[0] == ',' then 0 else 1 + FirstComma(s[1..])
  }

  /** How Neovim reads a `winhighlight` value of the two entries written by
      `nvimWinHl`: the group for `Normal`, up to the first comma, and the
      group for `NormalNC` after it. */
  function WinHlGroups(s: string): (r: Option<(string, string)>)
  {
    var p := "Normal:";
    var q := ",NormalNC:";
    if |s| < |p| || s[..|p|] != p then None
    else
      var rest := s[|p|..];
      var i := FirstComma(rest);
      if |rest| - i < |q| || rest[i..i + |q|] != q then None
      else Some((rest[..i], rest[i + |q|..]))
  }

  /** On Neovim the `winhighlight` value reads back as the configured
      groups (or their defaults) for `Normal` and `NormalNC`, provided the
      `Normal` group has no comma. */
  lemma NvimWinHlReadsBack(options: OpenOptions)
    requires ',' !in options.winHl.GetOr(DefaultWinHl)
    ensures WinHlGroups(NvimWinHl(options, false)) ==
      Some((options.winHl.GetOr(DefaultWinHl), options.winHlNC.GetOr(DefaultWinHlNC)))
  {
    var a := options.winHl.GetOr(DefaultWinHl);
    var b := options.winHlNC.GetOr(DefaultWinHlNC);
    var p := "Normal:";
    var q := ",NormalNC:";
    var s := NvimWinHl(options, false);
    assert s == p + (a + q + b);
    assert s[..|p|] == p;
    var rest := s[|p|..];
    assert rest == a + q + b;
    FirstCommaAfter(a, q + b);
    assert a + q + b == a + (q + b);
    assert rest[..|a|] == a;
    assert rest[|a|..|a| + |q|] == q;
    assert rest[|a| + |q|..] == b;
  }

  lemma {:induction false} FirstCommaAfter(a: string, x: string)
    requires ',' !in a && |x| > 0 && x[0] == ','
    ensures FirstComma(a + x) == |a|
    decreases |a|
  {
    if |a| == 0 {
      assert a + x == x;
    } else {
      assert (a + x)[1..] == a[1..] + x;
      FirstCommaAfter(a[1..], x);
    }
  }

  // ---------------------------------------------------------------------
  // Border rendering

  /** The eight border glyphs after blanking; `None` is a glyph missing from
      a short `borderChars` list (JavaScript `undefined`). */
  datatype Glyphs = Glyphs(top: Option<string>, right: Option<string>, bottom: Option<string>, left: Option<string>,
                           topleft: Option<string>, topright: Option<string>,
                           botright: Option<string>, botleft: Option<string>)

  /** A side glyph is blanked when its side is 0; a corner glyph is blanked
      unless both of its sides are non-zero. */
  function EffectiveGlyphs(b: Edges, chars: seq<string>): (g: Glyphs)
    ensures b.top == 0 ==> g.top == Some("")
    ensures b.top != 0 ==> g.top == At(chars, 0)
    ensures b.right == 0 ==> g.right == Some("")
    ensures b.bottom == 0 ==> g.bottom == Some("")
    ensures b.left == 0 ==> g.left == Some("")
    ensures b.top == 0 || b.left == 0 ==> g.topleft == Some("")
    ensures b.top == 0 || b.right == 0 ==> g.topright == Some("")
    ensures b.bottom == 0 || b.right == 0 ==> g.botright == Some("")
    ensures b.bottom == 0 || b.left == 0 ==> g.botleft == Some("")
    ensures b.top != 0 && b.left != 0 ==> g.topleft == At(chars, 4)
    ensures b.top != 0 && b.right != 0 ==> g.topright == At(chars, 5)
    ensures b.bottom != 0 && b.right != 0 ==> g.botright == At(chars, 6)
    ensures b.bottom != 0 && b.left != 0 ==> g.botleft == At(chars, 7)
    ensures b.right != 0 ==> g.right == At(chars, 1)
    ensures b.bottom != 0 ==> g.bottom == At(chars, 2)
    ensures b.left != 0 ==> g.left == At(chars, 3)
  {
    var blank: Option<string> := Some("");
    Glyphs(
      if b.top == 0 then blank else At(chars, 0),
      if b.right == 0 then blank else At(chars, 1),
      if b.bottom == 0 then blank else At(chars, 2),
      if b.left == 0 then blank else At(chars, 3),
      if b.top == 0 || b.left == 0 then blank else At(chars, 4),
      if b.top == 0 || b.right == 0 then blank else At(chars, 5),
      if b.bottom == 0 || b.right == 0 then blank else At(chars, 6),
      if b.bottom == 0 || b.left == 0 then blank else At(chars, 7))
  }

  /** String concatenation of a glyph: an `undefined` glyph prints as "undefined". */
  function Str(g: Option<string>): string {
    g.GetOr("undefined")
  }

  /** `glyph.repeat(n)`: a `TypeError` on `undefined`, a `RangeError` on a
      negative count. */
  function GlyphRepeat(g: Option<string>, n: int): (r: Result<string>)
    ensures r.Ok? <==> g.Some? && n >= 0
    ensures r.Ok? ==> r.value == RepeatStr(g.value, n)
    ensures g.None? ==> r == Throw(TypeError)
    ensures g.Some? && n < 0 ==> r == Throw(RangeError)
  {
    match g
    case None => Throw(TypeError)
    case Some(s) => Repeat(s, n)
  }

  datatype BorderHl = BorderHl(srcId: int, hlGroup: string, line: int, colStart: int, colEnd: int)

  datatype RenderData = RenderData(lines: seq<string>, highlights: seq<BorderHl>)

  function Flag01(n: int): nat {
    if n != 0 then 1 else 0
  }

  /** The side spans of interior line `l`: `[0, bLeft)` when the left side
      is drawn, then `[bLeft + spaceWidth, width)` when the right one is. */
  function SideSpans(srcId: int, group: string, b: Edges, spaceWidth: int, width: int, l: int): (hs: seq<BorderHl>)
    ensures |hs| == Flag01(b.left) + Flag01(b.right)
    ensures b.left != 0 ==> hs[0] == BorderHl(srcId, group, l, 0, b.left)
    ensures b.right != 0 ==> hs[|hs| - 1] == BorderHl(srcId, group, l, b.left + spaceWidth, width)
  {
    (if b.left != 0 then [BorderHl(srcId, group, l, 0, b.left)] else [])
    + (if b.right != 0 then [BorderHl(srcId, group, l, b.left + spaceWidth, width)] else [])
  }

  /** The side spans of interior lines `1..count`, line by line. */
  function InteriorSpans(srcId: int, group: string, b: Edges, spaceWidth: int, width: int, count: nat): (hs: seq<BorderHl>)
    ensures |hs| == count * (Flag01(b.left) + Flag01(b.right))
    ensures forall i :: 0 <= i < |hs| ==> 1 <= hs[i].line <= count && hs[i].hlGroup == group && hs[i].srcId == srcId
    decreases count
  {
    if count == 0 then []
    else
      var rest := InteriorSpans(srcId, group, b, spaceWidth, width, count - 1);
      rest + SideSpans(srcId, group, b, spaceWidth, width, count)
  }

  /** Where each line's spans sit when one side is drawn: line `l` has
      span `l - 1`. */
  lemma {:induction false} OneSideSpansByLine(srcId: int, group: string, b: Edges, spaceWidth: int, width: int, count: nat)
    requires Flag01(b.left) + Flag01(b.right) == 1
    ensures var hs := InteriorSpans(srcId, group, b, spaceWidth, width, count);
      forall l :: 1 <= l <= count ==> hs[l - 1] == SideSpans(srcId, group, b, spaceWidth, width, l)[0]
    decreases count
  {
    if count > 0 {
      OneSideSpansByLine(srcId, group, b, spaceWidth, width, count - 1);
      var rest := InteriorSpans(srcId, group, b, spaceWidth, width, count - 1);
      var side := SideSpans(srcId, group, b, spaceWidth, width, count);
      var hs := rest + side;
      assert |rest| == count - 1;
      forall l | 1 <= l <= count
        ensures hs[l - 1] == SideSpans(srcId, group, b, spaceWidth, width, l)[0]
      {
        if l < count {
          assert hs[l - 1] == rest[l - 1];
        }
      }
    }
  }

  /** Where each line's spans sit when both sides are drawn: line `l` has
      spans `2l - 2` and `2l - 1`. */
  lemma {:induction false} TwoSideSpansByLine(srcId: int, group: string, b: Edges, spaceWidth: int, width: int, count: nat)
    requires Flag01(b.left) + Flag01(b.right) == 2
    ensures var hs := InteriorSpans(srcId, group, b, spaceWidth, width, count);
      forall l :: 1 <= l <= count ==>
        && hs[2 * l - 2] == SideSpans(srcId, group, b, spaceWidth, width, l)[0]
        && hs[2 * l - 1] == SideSpans(srcId, group, b, spaceWidth, width, l)[1]
    decreases count
  {
    if count > 0 {
      TwoSideSpansByLine(srcId, group, b, spaceWidth, width, count - 1);
      var rest := InteriorSpans(srcId, group, b, spaceWidth, width, count - 1);
      var side := SideSpans(srcId, group, b, spaceWidth, width, count);
      var hs := rest + side;
      assert |rest| == 2 * count - 2;
      forall l | 1 <= l <= count
        ensures hs[2 * l - 2] == SideSpans(srcId, group, b, spaceWidth, width, l)[0]
        ensures hs[2 * l - 1] == SideSpans(srcId, group, b, spaceWidth, width, l)[1]
      {
        if l < count {
          assert hs[2 * l - 2] == rest[2 * l - 2];
          assert hs[2 * l - 1] == rest[2 * l - 1];
        }
      }
    }
  }

  /** The columns of each interior line's span when one side is drawn:
      `[0, bLeft)` for the left side, `[bLeft + spaceWidth, width)` for the
      right one. */
  lemma OneSideSpanColumns(srcId: int, group: string, b: Edges, spaceWidth: int, width: int, count: nat)
    requires Flag01(b.left) + Flag01(b.right) == 1
    ensures var hs := InteriorSpans(srcId, group, b, spaceWidth, width, count);
      forall l :: 1 <= l <= count ==>
        hs[l - 1] == if b.left != 0 then BorderHl(srcId, group, l, 0, b.left)
                     else BorderHl(srcId, group, l, b.left + spaceWidth, width)
  {
    OneSideSpansByLine(srcId, group, b, spaceWidth, width, count);
    forall l | 1 <= l <= count
      ensures SideSpans(srcId, group, b, spaceWidth, width, l)[0]
        == if b.left != 0 then BorderHl(srcId, group, l, 0, b.left)
           else BorderHl(srcId, group, l, b.left + spaceWidth, width)
    {
      var side := SideSpans(srcId, group, b, spaceWidth, width, l);
      assert |side| == 1;
    }
  }

  /** The columns of each interior line's spans when both sides are drawn:
      the left span `[0, bLeft)` first, then the right span
      `[bLeft + spaceWidth, width)`. */
  lemma TwoSideSpanColumns(srcId: int, group: string, b: Edges, spaceWidth: int, width: int, count: nat)
    requires Flag01(b.left) + Flag01(b.right) == 2
    ensures var hs := InteriorSpans(srcId, group, b, spaceWidth, width, count);
      forall l :: 1 <= l <= count ==>
        && hs[2 * l - 2] == BorderHl(srcId, group, l, 0, b.left)
        && hs[2 * l - 1] == BorderHl(srcId, group, l, b.left + spaceWidth, width)
  {
    TwoSideSpansByLine(srcId, group, b, spaceWidth, width, count);
    forall l | 1 <= l <= count
      ensures var side := SideSpans(srcId, group, b, spaceWidth, width, l);
        side[0] == BorderHl(srcId, group, l, 0, b.left) && side[1] == BorderHl(srcId, group, l, b.left + spaceWidth, width)
    {
      var side := SideSpans(srcId, group, b, spaceWidth, width, l);
      assert |side| == 2;
    }
  }

  /** The highlight spans of the border text. */
  function BorderHighlights(srcId: int, group: string, b: Edges, width: int, height: int): (hs: seq<BorderHl>)
    ensures group == "" ==> hs == []
    ensures group != "" ==>
      var spaceHeight := height - b.top - b.bottom;
      && |hs| == 1 + Max(0, spaceHeight) * (Flag01(b.left) + Flag01(b.right)) + Flag01(b.bottom)
      && hs[0] == BorderHl(srcId, group, 0, 0, width)
      && (b.bottom != 0 ==> hs[|hs| - 1] == BorderHl(srcId, group, height - 1, 0, width))
      && hs[1..|hs| - Flag01(b.bottom)] == InteriorSpans(srcId, group, b, width - b.left - b.right, width, Max(0, spaceHeight))
      && forall i :: 0 <= i < |hs| ==> hs[i].hlGroup == group && hs[i].srcId == srcId
  {
    if group == "" then []
    else
      var spaceWidth := width - b.left - b.right;
      var spaceHeight := height - b.top - b.bottom;
      var count: nat := Max(0, spaceHeight);
      var first := [BorderHl(srcId, group, 0, 0, width)];
      var mid := InteriorSpans(srcId, group, b, spaceWidth, width, count);
      var last := if b.bottom != 0 then [BorderHl(srcId, group, height - 1, 0, width)] else [];
      assert |last| == Flag01(b.bottom);
      MiddleSlice(first, mid, last);
      first + mid + last
  }

  lemma MiddleSlice<T>(a: seq<T>, m: seq<T>, c: seq<T>)
    ensures |a + m + c| == |a| + |m| + |c|
    ensures (a + m + c)[|a|..|a| + |m|] == m
  {
  }

  /** The top line, when the top side is drawn: the top-left corner, the
      title, the top glyph repeated over the rest of the width, and the
      top-right corner. */
  function TopLine(g: Glyphs, title: Title, n: int, drawn: bool): (r: Result<seq<string>>)
    ensures !drawn ==> r == Ok([])
    ensures drawn ==> (r.Throw? <==> g.top.None? || n < 0)
    ensures drawn && r.Throw? ==> r.error == (if g.top.None? then TypeError else RangeError)
    ensures drawn && r.Ok? ==>
      g.top.Some? && n >= 0 && r.value == [Str(g.topleft) + title.text + RepeatStr(g.top.value, n) + Str(g.topright)]
  {
    if !drawn then Ok([])
    else
      match GlyphRepeat(g.top, n)
      case Throw(e) => Throw(e)
      case Ok(run) => Ok([Str(g.topleft) + title.text + run + Str(g.topright)])
  }

  /** The interior lines: `count` copies of the left glyph, `spaceWidth`
      spaces and the right glyph; the spaces are only built when there is
      at least one line. */
  function InteriorText(g: Glyphs, spaceWidth: int, count: nat): (r: Result<seq<string>>)
    ensures r.Throw? <==> count > 0 && spaceWidth < 0
    ensures r.Throw? ==> r.error == RangeError
    ensures r.Ok? ==> |r.value| == count
    ensures r.Ok? && count > 0 ==>
      spaceWidth >= 0 && forall i :: 0 <= i < count ==> r.value[i] == Str(g.left) + RepeatStr(" ", spaceWidth) + Str(g.right)
  {
    if count == 0 then Ok([])
    else
      match Repeat(" ", spaceWidth)
      case Throw(e) => Throw(e)
      case Ok(spaces) => Ok(seq(count, _ => Str(g.left) + spaces + Str(g.right)))
  }

  /** The bottom line, when the bottom side is drawn: the bottom-left
      corner, the bottom glyph repeated over the width and the bottom-right
      corner. */
  function BottomLine(g: Glyphs, n: int, drawn: bool): (r: Result<seq<string>>)
    ensures !drawn ==> r == Ok([])
    ensures drawn ==> (r.Throw? <==> g.bottom.None? || n < 0)
    ensures drawn && r.Throw? ==> r.error == (if g.bottom.None? then TypeError else RangeError)
    ensures drawn && r.Ok? ==>
      g.bottom.Some? && n >= 0 && r.value == [Str(g.botleft) + RepeatStr(g.bottom.value, n) + Str(g.botright)]
  {
    if !drawn then Ok([])
    else
      match GlyphRepeat(g.bottom, n)
      case Throw(e) => Throw(e)
      case Ok(run) => Ok([Str(g.botleft) + run + Str(g.botright)])
  }

  /** The border text: the top line, the interior lines and the bottom
      line, built in that order so the first failing repeat is the one
      reported. */
  function BorderText(b: Edges, g: Glyphs, title: Title, size: Size): (r: Result<seq<string>>)
    ensures var spaceWidth := size.width - b.left - b.right;
      var count := Max(0, size.height - b.top - b.bottom);
      var t := TopLine(g, title, spaceWidth - title.width, b.top != 0);
      var m := InteriorText(g, spaceWidth, count);
      var e := BottomLine(g, spaceWidth, b.bottom != 0);
      && (r.Throw? <==> t.Throw? || m.Throw? || e.Throw?)
      && (r.Throw? ==> r.error == if t.Throw? then t.error else if m.Throw? then m.error else e.error)
      && (r.Ok? ==>
            && |r.value| == Flag01(b.top) + count + Flag01(b.bottom)
            && r.value[..Flag01(b.top)] == t.value
            && r.value[Flag01(b.top)..Flag01(b.top) + count] == m.value
            && r.value[Flag01(b.top) + count..] == e.value)
  {
    var spaceWidth := size.width - b.left - b.right;
    var count: nat := Max(0, size.height - b.top - b.bottom);
    match TopLine(g, title, spaceWidth - title.width, b.top != 0)
    case Throw(err) => Throw(err)
    case Ok(t) =>
      match InteriorText(g, spaceWidth, count)
      case Throw(err) => Throw(err)
      case Ok(m) =>
        match BottomLine(g, spaceWidth, b.bottom != 0)
        case Throw(err) => Throw(err)
        case Ok(e) =>
          MiddleSlice(t, m, e);
          assert (t + m + e)[..|t|] == t && (t + m + e)[|t| + |m|..] == e;
          Ok(t + m + e)
  }

  /** `getRenderBorderData`: nothing when the border is disabled; otherwise
      the border text and its highlight spans, failing exactly when the
      text does. */
  function GetRenderBorderData(ctx: Context, options: OpenOptions, size: Size, srcId: int): (r: Result<Option<RenderData>>)
    ensures !ctx.borderEnabled ==> r == Ok(None)
    ensures ctx.borderEnabled ==>
      var text := BorderText(ctx.border, EffectiveGlyphs(ctx.border, options.borderChars.GetOr(DefaultBorderChars)), ctx.title, size);
      && (r.Throw? <==> text.Throw?)
      && (r.Throw? ==> r.error == text.error)
      && (r.Ok? ==> r.value == Some(RenderData(text.value,
            BorderHighlights(srcId, options.borderWinHl.GetOr(DefaultBorderWinHl), ctx.border, size.width, size.height))))
  {
    if !ctx.borderEnabled then Ok(None)
    else
      var glyphs := EffectiveGlyphs(ctx.border, options.borderChars.GetOr(DefaultBorderChars));
      match BorderText(ctx.border, glyphs, ctx.title, size)
      case Throw(e) => Throw(e)
      case Ok(lines) =>
        Ok(Some(RenderData(lines, BorderHighlights(srcId, options.borderWinHl.GetOr(DefaultBorderWinHl), ctx.border, size.width, size.height))))
  }

  /** With one-character glyphs, sides at most one cell wide and a title
      whose width is its length, every line of the border text is exactly
      as long as the window is wide. */
  lemma BorderLinesFillWidth(ctx: Context, options: OpenOptions, size: Size, srcId: int)
    requires 0 <= ctx.border.left <= 1 && 0 <= ctx.border.right <= 1
    requires |ctx.title.text| == ctx.title.width
    requires var chars := options.borderChars.GetOr(DefaultBorderChars);
      |chars| >= 8 && forall i :: 0 <= i < 8 ==> |chars[i]| == 1
    requires GetRenderBorderData(ctx, options, size, srcId).Ok?
    requires GetRenderBorderData(ctx, options, size, srcId).value.Some?
    ensures var lines := GetRenderBorderData(ctx, options, size, srcId).value.value.lines;
      forall i :: 0 <= i < |lines| ==> |lines[i]| == size.width
  {
    var b := ctx.border;
    var g := EffectiveGlyphs(b, options.borderChars.GetOr(DefaultBorderChars));
    GlyphWidths(b, options.borderChars.GetOr(DefaultBorderChars));
    var text := BorderText(b, g, ctx.title, size);
    var spaceWidth := size.width - b.left - b.right;
    var count := Max(0, size.height - b.top - b.bottom);
    var t := TopLine(g, ctx.title, spaceWidth - ctx.title.width, b.top != 0);
    var m := InteriorText(g, spaceWidth, count);
    var e := BottomLine(g, spaceWidth, b.bottom != 0);
    TopLineWidth(g, ctx.title, spaceWidth - ctx.title.width, b.top != 0, b.left, b.right);
    InteriorWidth(g, spaceWidth, count, b.left, b.right);
    BottomLineWidth(g, spaceWidth, b.bottom != 0, b.left, b.right);
    PartsHaveLength(text.value, Flag01(b.top), Flag01(b.top) + count, t.value, m.value, e.value, size.width);
  }

  lemma TopLineWidth(g: Glyphs, title: Title, n: int, drawn: bool, l: int, r: int)
    requires TopLine(g, title, n, drawn).Ok? && |title.text| == title.width
    requires drawn ==> |Str(g.topleft)| == l && |Str(g.topright)| == r && |g.top.value| == 1
    ensures var t := TopLine(g, title, n, drawn).value;
      forall i :: 0 <= i < |t| ==> |t[i]| == l + title.width + n + r
  {
  }

  lemma InteriorWidth(g: Glyphs, n: int, count: nat, l: int, r: int)
    requires InteriorText(g, n, count).Ok?
    requires |Str(g.left)| == l && |Str(g.right)| == r
    ensures var m := InteriorText(g, n, count).value;
      forall i :: 0 <= i < |m| ==> |m[i]| == l + n + r
  {
  }

  lemma BottomLineWidth(g: Glyphs, n: int, drawn: bool, l: int, r: int)
    requires BottomLine(g, n, drawn).Ok?
    requires drawn ==> |Str(g.botleft)| == l && |Str(g.botright)| == r && |g.bottom.value| == 1
    ensures var e := BottomLine(g, n, drawn).value;
      forall i :: 0 <= i < |e| ==> |e[i]| == l + n + r
  {
  }

  /** The glyph widths with one-character glyphs: a side glyph is as wide
      as its side, and a drawn line's corners are as wide as the sides
      they join. */
  lemma GlyphWidths(b: Edges, chars: seq<string>)
    requires 0 <= b.left <= 1 && 0 <= b.right <= 1
    requires |chars| >= 8 && forall i :: 0 <= i < 8 ==> |chars[i]| == 1
    ensures var g := EffectiveGlyphs(b, chars);
      && |Str(g.left)| == b.left && |Str(g.right)| == b.right
      && (b.top != 0 ==> |Str(g.topleft)| == b.left && |Str(g.topright)| == b.right && |g.top.value| == 1)
      && (b.bottom != 0 ==> |Str(g.botleft)| == b.left && |Str(g.botright)| == b.right && |g.bottom.value| == 1)
  {
    assert |chars[0]| == 1 && |chars[1]| == 1 && |chars[2]| == 1 && |chars[3]| == 1;
    assert |chars[4]| == 1 && |chars[5]| == 1 && |chars[6]| == 1 && |chars[7]| == 1;
  }

  /** A list cut into three parts of `w`-long strings has only `w`-long
      strings. */
  lemma PartsHaveLength(r: seq<string>, i: nat, j: nat, a: seq<string>, m: seq<string>, e: seq<string>, w: int)
    requires i <= j <= |r| && r[..i] == a && r[i..j] == m && r[j..] == e
    requires forall k :: 0 <= k < |a| ==> |a[k]| == w
    requires forall k :: 0 <= k < |m| ==> |m[k]| == w
    requires forall k :: 0 <= k < |e| ==> |e[k]| == w
    ensures forall k :: 0 <= k < |r| ==> |r[k]| == w
  {
    forall k | 0 <= k < |r| ensures |r[k]| == w {
      if k < i {
        assert r[k] == a[k];
      } else if k < j {
        assert r[k] == m[k - i];
      } else {
        assert r[k] == e[k - j];
      }
    }
  }

  /** With sides at most one cell wide and room for the interior, the border
      text has exactly as many lines as the window is high. */
  lemma BorderLinesFillHeight(ctx: Context, options: OpenOptions, size: Size, srcId: int)
    requires ctx.borderEnabled
    requires 0 <= ctx.border.top <= 1 && 0 <= ctx.border.bottom <= 1
    requires size.height >= ctx.border.top + ctx.border.bottom
    requires GetRenderBorderData(ctx, options, size, srcId).Ok?
    ensures |GetRenderBorderData(ctx, options, size, srcId).value.value.lines| == size.height
  {
  }

  /** The border of a window laid out by `GetBoxSizes` always renders when
      the edges and the title width are non-negative, the height is
      non-negative and all eight glyphs are given. */
  lemma OwnBorderBoxRenders(ctx: Context, options: OpenOptions, updateCursorPosition: bool,
                            store: Option<Position>, srcId: int)
    requires NonNegativeEdges(ctx.padding) && NonNegativeEdges(ctx.border)
    requires ctx.title.width >= 0 && options.height >= 0
    requires |options.borderChars.GetOr(DefaultBorderChars)| >= 8
    ensures var b := GetBoxSizes(ctx, options, updateCursorPosition, store).0.borderBox;
      GetRenderBorderData(ctx, options, Size(b.width, b.height), srcId).Ok?
  {
  }

  /** A span `addHighlightsNotify` draws: one with a non-zero `srcId` and a
      non-empty group. */
  predicate Drawn(h: BorderHl) {
    h.srcId != 0 && h.hlGroup != ""
  }

  /** The drawn spans, in their order. */
  function DrawnSpans(hls: seq<BorderHl>): (r: seq<BorderHl>)
    ensures |r| <= |hls|
    ensures forall i :: 0 <= i < |r| ==> Drawn(r[i])
    ensures (forall i :: 0 <= i < |hls| ==> Drawn(hls[i])) ==> r == hls
    ensures (forall i :: 0 <= i < |hls| ==> !Drawn(hls[i])) ==> r == []
    decreases |hls|
  {
    if |hls| == 0 then []
    else if Drawn(hls[0]) then [hls[0]] + DrawnSpans(hls[1..])
    else DrawnSpans(hls[1..])
  }

  /** A span is among the drawn ones exactly when it is an input span that
      is drawn. */
  lemma {:induction false} DrawnSpansMembers(hls: seq<BorderHl>, h: BorderHl)
    ensures h in DrawnSpans(hls) <==> h in hls && Drawn(h)
    decreases |hls|
  {
    if |hls| > 0 {
      DrawnSpansMembers(hls[1..], h);
      assert hls == [hls[0]] + hls[1..];
    }
  }

  lemma {:induction false} DrawnSpansAppend(a: seq<BorderHl>, b: seq<BorderHl>)
    ensures DrawnSpans(a + b) == DrawnSpans(a) + DrawnSpans(b)
    decreases |a|
  {
    if |a| > 0 {
      assert (a + b)[1..] == a[1..] + b;
      DrawnSpansAppend(a[1..], b);
    } else {
      assert a + b == b;
    }
  }

  /** The highlight call for one span, on the library's namespace. */
  function HighlightCall(bufnr: int, srcId: int, h: BorderHl): HostAction {
    HighlightRanges(bufnr, srcId, h.hlGroup, h.line, h.colStart, h.colEnd)
  }

  /** One highlight call per span, in order. */
  function HighlightCalls(bufnr: int, srcId: int, hls: seq<BorderHl>): (acts: seq<HostAction>)
    ensures |acts| == |hls|
    ensures forall i :: 0 <= i < |hls| ==> acts[i] == HighlightCall(bufnr, srcId, hls[i])
    decreases |hls|
  {
    if |hls| == 0 then [] else [HighlightCall(bufnr, srcId, hls[0])] + HighlightCalls(bufnr, srcId, hls[1..])
  }

  /** The highlight calls of `addHighlightsNotify`: one per drawn span, in
      order; spans whose `srcId` is 0 or whose group is empty are skipped. */
  function AddHighlightsNotify(bufnr: int, srcId: int, hls: seq<BorderHl>): (acts: seq<HostAction>)
    ensures var kept := DrawnSpans(hls);
      |acts| == |kept| && forall i :: 0 <= i < |kept| ==> acts[i] == HighlightCall(bufnr, srcId, kept[i])
    ensures (forall i :: 0 <= i < |hls| ==> !Drawn(hls[i])) ==> acts == []
  {
    HighlightCalls(bufnr, srcId, DrawnSpans(hls))
  }

  /** The host calls that write rendered border text into a buffer: unlock,
      replace the lines, lock again, then highlight. */
  function RenderActions(bufnr: int, d: RenderData, srcId: int): seq<HostAction> {
    [ SetOption(bufnr, "modifiable", BoolVal(true)),
      SetOption(bufnr, "readonly", BoolVal(false)),
      SetLines(bufnr, d.lines),
      SetOption(bufnr, "modifiable", BoolVal(false)),
      SetOption(bufnr, "readonly", BoolVal(true)) ]
    + AddHighlightsNotify(bufnr, srcId, d.highlights)
  }

  /** The size a descriptor gives the border: width and height for Neovim,
      the minimum size for Vim. */
  function ConfigSize(c: WinConfig): Size {
    match c
    case NvimCfg(n) => Size(n.width, n.height)
    case VimCfg(v) => Size(v.minwidth, v.minheight)
  }

  /** `renderBorderNotifier`: a no-op when there is no border to draw, else
      one callback that writes the border text into the buffer and leaves it
      locked. The text is computed when the notifier is built, so a failing
      repeat throws then. */
  function RenderBorderNotifier(bufnr: int, ctx: Context, options: OpenOptions, config: WinConfig, srcId: int)
    : (r: Result<Notifier<HostAction>>)
    ensures var d := GetRenderBorderData(ctx, options, ConfigSize(config), srcId);
      && (d.Throw? <==> r.Throw?)
      && (d == Ok(None) ==> r == Ok(Noop()))
      && (d.Ok? && d.value.Some? ==> r == Ok(Create(RenderActions(bufnr, d.value.value, srcId))))
    ensures r.Ok? ==> |r.value.fns| == 1
    ensures r.Ok? && ctx.borderEnabled ==>
      var acts := Notify(r.value);
      |acts| >= 5 && acts[2].SetLines? && acts[3] == SetOption(bufnr, "modifiable", BoolVal(false))
        && acts[4] == SetOption(bufnr, "readonly", BoolVal(true))
  {
    var data := GetRenderBorderData(ctx, options, ConfigSize(config), srcId);
    match data
    case Throw(e) => Throw(e)
    case Ok(None) => Ok(Noop())
    case Ok(Some(d)) =>
      var acts := RenderActions(bufnr, d, srcId);
      assert acts[2] == SetLines(bufnr, d.lines) && acts[3] == SetOption(bufnr, "modifiable", BoolVal(false))
        && acts[4] == SetOption(bufnr, "readonly", BoolVal(true));
      Ok(Create(acts))
  }
}

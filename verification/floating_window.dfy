/**
  `FloatingWindow`: the controller of one floating window (a content buffer
  and, optionally, a border buffer). Its `*Notifier` operations build a
  batch of host calls; the model returns the batch as a `Notifier` of host
  actions, together with the window's next cursor store. The host itself
  (the editor behind the Vim-script helpers) is a parameter.
 */
module FloatingWindow {
  import opened Common
  import opened FloatTypes
  import opened Notifier
  import opened FloatingUtil

  datatype Mode = Default | Base | Show

  /** The `modifiable` and `focus` defaults of a mode; `None` is unset.
      The Vim-script initialisers of the presets are not part of this model. */
  datatype Preset = Preset(modifiable: Option<bool>, focus: Option<bool>)

  function ModePreset(m: Mode): Preset {
    match m
    case Default => Preset(Some(false), Some(false))
    case Base => Preset(None, None)
    case Show => Preset(Some(false), None)
  }

  /** What the controller reads from the editor: the backend, the screen,
      the display width of a string, and the namespace id of the library. */
  datatype Host = Host(isVim: bool, env: HostEnv, displayWidth: string -> nat, srcId: int)

  /** A window: its buffers, its mode and the cursor its layout helper stores. */
  datatype Win = Win(bufnr: int, borderBufnr: Option<int>, mode: Mode, store: Option<Position>)

  /** `FloatingWindow.CreateOptions`, without the Vim-script initialisers. */
  datatype CreateOptions = CreateOptions(name: Option<string>, mode: Option<Mode>, hasBorderBuf: Option<bool>)

  /** The arguments `create` passes to the host's buffer creation: the
      buffer name, whether a border buffer is wanted, and the mode. */
  function CreateRequest(options: CreateOptions): (r: (string, bool, Mode))
    ensures r.0 == options.name.GetOr("")
    ensures r.1 <==> options.hasBorderBuf != Some(false)
    ensures r.2 == options.mode.GetOr(Default)
  {
    (options.name.GetOr(""), options.hasBorderBuf.GetOr(true), options.mode.GetOr(Default))
  }

  /** The constructor, given the buffers the host created: a border buffer
      number that is absent or 0 gives no border buffer and no
      `BufWinLeave` subscription. */
  function Construct(bufnr: int, borderBufnr: Option<int>, mode: Mode): (r: (Win, bool))
    ensures r.0.bufnr == bufnr && r.0.borderBufnr == borderBufnr && r.0.mode == mode && r.0.store.None?
    ensures r.1 <==> BorderBuffer(r.0).Some?
  {
    var w := Win(bufnr, borderBufnr, mode, None);
    (w, BorderBuffer(w).Some?)
  }

  /** The border buffer, which exists when the border buffer number is truthy. */
  function BorderBuffer(w: Win): (b: Option<int>)
    ensures b.Some? <==> w.borderBufnr.Some? && w.borderBufnr.value != 0
    ensures b.Some? ==> b == w.borderBufnr
  {
    if w.borderBufnr.Some? && w.borderBufnr.value != 0 then w.borderBufnr else None
  }

  /** The `BufWinLeave` handler: when the content buffer leaves its window,
      the border window goes too. */
  function OnBufWinLeave(w: Win, curBufnr: int): (acts: seq<HostAction>)
    ensures acts != [] <==> BorderBuffer(w).Some? && curBufnr == w.bufnr
    ensures acts != [] ==> acts == [CloseWinByBufnr([w.borderBufnr.value])]
  {
    if BorderBuffer(w).Some? && curBufnr == w.bufnr then [CloseWinByBufnr([w.borderBufnr.value])] else []
  }

  /** `getFocus`: the option, else the mode's preset, else `false`. */
  function GetFocus(w: Win, options: OpenOptions): (r: bool)
    ensures options.focus.Some? ==> r == options.focus.value
    ensures options.focus.None? ==> r == ModePreset(w.mode).focus.GetOr(false)
  {
    match options.focus
    case Some(f) => f
    case None => ModePreset(w.mode).focus.GetOr(false)
  }

  /** `getModifiable`: the option, else the mode's preset, else `false`. */
  function GetModifiable(w: Win, options: OpenOptions): (r: bool)
    ensures options.modifiable.Some? ==> r == options.modifiable.value
    ensures options.modifiable.None? ==> r == ModePreset(w.mode).modifiable.GetOr(false)
  {
    match options.modifiable
    case Some(m) => m
    case None => ModePreset(w.mode).modifiable.GetOr(false)
  }

  /** No preset switches focus or modifiability on: in every mode a window
      takes focus, or is left modifiable, exactly when the options ask for it. */
  lemma PresetsNeverEnable(w: Win, options: OpenOptions)
    ensures GetFocus(w, options) <==> options.focus == Some(true)
    ensures GetModifiable(w, options) <==> options.modifiable == Some(true)
  {
  }

  // ---------------------------------------------------------------------
  // Buffer-option bookkeeping

  /** The value the last host call in `acts` gave option `opt` of buffer
      `bufnr`, if any call did. */
  function FinalOption(acts: seq<HostAction>, bufnr: int, opt: string): Option<OptValue>
    decreases |acts|
  {
    if |acts| == 0 then None
    else
      var a := acts[|acts| - 1];
      if a.SetOption? && a.bufnr == bufnr && a.option == opt then Some(a.value)
      else FinalOption(acts[..|acts| - 1], bufnr, opt)
  }

  lemma {:induction false} FinalOptionAppend(a: seq<HostAction>, b: seq<HostAction>, bufnr: int, opt: string)
    ensures FinalOption(a + b, bufnr, opt) ==
      (if FinalOption(b, bufnr, opt).Some? then FinalOption(b, bufnr, opt) else FinalOption(a, bufnr, opt))
    decreases |b|
  {
    if |b| == 0 {
      assert a + b == a;
    } else {
      assert (a + b)[..|a + b| - 1] == a + b[..|b| - 1];
      assert (a + b)[|a + b| - 1] == b[|b| - 1];
      FinalOptionAppend(a, b[..|b| - 1], bufnr, opt);
    }
  }

  /** Host calls that set no buffer option leave every option as it was. */
  lemma {:induction false} FinalOptionNone(acts: seq<HostAction>, bufnr: int, opt: string)
    requires forall i :: 0 <= i < |acts| ==> !acts[i].SetOption?
    ensures FinalOption(acts, bufnr, opt).None?
    decreases |acts|
  {
    if |acts| > 0 {
      FinalOptionNone(acts[..|acts| - 1], bufnr, opt);
    }
  }

  /** Writing rendered border text always leaves the buffer locked:
      not modifiable and read-only. */
  lemma RenderLeavesBufferLocked(bufnr: int, d: RenderData, srcId: int)
    ensures FinalOption(RenderActions(bufnr, d, srcId), bufnr, "modifiable") == Some(BoolVal(false))
    ensures FinalOption(RenderActions(bufnr, d, srcId), bufnr, "readonly") == Some(BoolVal(true))
  {
    var head := [ SetOption(bufnr, "modifiable", BoolVal(true)),
                  SetOption(bufnr, "readonly", BoolVal(false)),
                  SetLines(bufnr, d.lines),
                  SetOption(bufnr, "modifiable", BoolVal(false)),
                  SetOption(bufnr, "readonly", BoolVal(true)) ];
    var hls := AddHighlightsNotify(bufnr, srcId, d.highlights);
    HighlightsSetNoOption(bufnr, srcId, d.highlights);
    assert forall i :: 0 <= i < |hls| ==> !hls[i].SetOption?;
    FinalOptionNone(hls, bufnr, "modifiable");
    FinalOptionNone(hls, bufnr, "readonly");
    FinalOptionAppend(head, hls, bufnr, "modifiable");
    FinalOptionAppend(head, hls, bufnr, "readonly");
    assert head[..4][3] == SetOption(bufnr, "modifiable", BoolVal(false));
  }

  /** Highlighting only adds highlight ranges. */
  lemma HighlightsSetNoOption(bufnr: int, srcId: int, hls: seq<BorderHl>)
    ensures forall i :: 0 <= i < |AddHighlightsNotify(bufnr, srcId, hls)| ==>
      AddHighlightsNotify(bufnr, srcId, hls)[i].HighlightRanges?
  {
  }

  // ---------------------------------------------------------------------
  // Notifiers

  /** A caller highlight with an absent or `-1` source id moved to source 0. */
  function NormalizeHighlight(hl: Highlight): (r: Highlight)
    ensures r.srcId.Some?
    ensures hl.srcId.None? || hl.srcId == Some(-1) ==> r.srcId == Some(0)
    ensures hl.srcId.Some? && hl.srcId != Some(-1) ==> r == hl
    ensures r.(srcId := hl.srcId) == hl
  {
    if hl.srcId.None? || hl.srcId == Some(-1) then hl.(srcId := Some(0)) else hl
  }

  function AddHighlights(bufnr: int, hls: seq<Highlight>): (acts: seq<HostAction>)
    ensures |acts| == |hls|
    ensures forall i :: 0 <= i < |hls| ==> acts[i] == AddHighlight(bufnr, NormalizeHighlight(hls[i]))
  {
    seq(|hls|, i requires 0 <= i < |hls| => AddHighlight(bufnr, NormalizeHighlight(hls[i])))
  }

  /** Whether `setLinesNotifier` does anything: when lines are given (even
      an empty list) or the window is asked to be modifiable. */
  predicate SetsLines(options: OpenOptions) {
    options.lines.Some? || options.modifiable == Some(true)
  }

  /** The callback of `setLinesNotifier`: unlocks the buffer, replaces the
      lines when given, locks it again unless it is to stay modifiable, adds
      the caller's highlights and, on Vim, redraws. */
  function SetLinesActions(w: Win, options: OpenOptions, isVim: bool): (acts: seq<HostAction>)
    ensures !SetsLines(options) ==> acts == []
    ensures SetsLines(options) ==>
      && |acts| >= 2
      && acts[0] == SetOption(w.bufnr, "modifiable", BoolVal(true))
      && acts[1] == SetOption(w.bufnr, "readonly", BoolVal(false))
      && (options.lines.Some? ==> |acts| >= 3 && acts[2] == SetLines(w.bufnr, options.lines.value))
      && (isVim <==> acts[|acts| - 1] == Redraw)
  {
    if !SetsLines(options) then []
    else
      var modifiable := GetModifiable(w, options);
      [SetOption(w.bufnr, "modifiable", BoolVal(true)), SetOption(w.bufnr, "readonly", BoolVal(false))]
      + (if options.lines.Some? then [SetLines(w.bufnr, options.lines.value)] else [])
      + (if !modifiable then [SetOption(w.bufnr, "modifiable", BoolVal(false)), SetOption(w.bufnr, "readonly", BoolVal(true))] else [])
      + AddHighlights(w.bufnr, options.highlights.GetOr([]))
      + (if isVim then [Redraw] else [])
  }

  /** After the lines are set, the buffer is modifiable, and not read-only,
      exactly when `getModifiable` says so. */
  lemma SetLinesLeavesModifiable(w: Win, options: OpenOptions, isVim: bool)
    requires SetsLines(options)
    ensures var acts := SetLinesActions(w, options, isVim);
      && FinalOption(acts, w.bufnr, "modifiable") == Some(BoolVal(GetModifiable(w, options)))
      && FinalOption(acts, w.bufnr, "readonly") == Some(BoolVal(!GetModifiable(w, options)))
  {
    var modifiable := GetModifiable(w, options);
    var a := [SetOption(w.bufnr, "modifiable", BoolVal(true)), SetOption(w.bufnr, "readonly", BoolVal(false))];
    var b: seq<HostAction> := if options.lines.Some? then [SetLines(w.bufnr, options.lines.value)] else [];
    var c: seq<HostAction> := if !modifiable then [SetOption(w.bufnr, "modifiable", BoolVal(false)), SetOption(w.bufnr, "readonly", BoolVal(true))] else [];
    var d := AddHighlights(w.bufnr, options.highlights.GetOr([]));
    var e: seq<HostAction> := if isVim then [Redraw] else [];
    assert SetLinesActions(w, options, isVim) == a + b + c + (d + e);
    assert forall i :: 0 <= i < |d + e| ==> !(d + e)[i].SetOption?;
    assert forall i :: 0 <= i < |b| ==> !b[i].SetOption?;
    forall opt | opt == "modifiable" || opt == "readonly"
      ensures FinalOption(a + b + c + (d + e), w.bufnr, opt) == FinalOption(a + c, w.bufnr, opt)
    {
      FinalOptionNone(d + e, w.bufnr, opt);
      FinalOptionNone(b, w.bufnr, opt);
      FinalOptionAppend(a + b + c, d + e, w.bufnr, opt);
      FinalOptionAppend(a + b, c, w.bufnr, opt);
      FinalOptionAppend(a, b, w.bufnr, opt);
      FinalOptionAppend(a, c, w.bufnr, opt);
    }
    assert a[..1] == [SetOption(w.bufnr, "modifiable", BoolVal(true))];
    assert FinalOption(a, w.bufnr, "modifiable") == Some(BoolVal(true)) by {
      assert FinalOption(a, w.bufnr, "modifiable") == FinalOption(a[..1], w.bufnr, "modifiable");
    }
    if !modifiable {
      assert c[..1][0] == SetOption(w.bufnr, "modifiable", BoolVal(false));
      assert FinalOption(c, w.bufnr, "modifiable") == Some(BoolVal(false));
      FinalOptionAppend(a, c, w.bufnr, "modifiable");
    } else {
      assert a + c == a;
    }
  }

  function SetLinesNotifier(w: Win, options: OpenOptions, isVim: bool): (n: Notifier<HostAction>)
    ensures Notify(n) == SetLinesActions(w, options, isVim)
  {
    Create(SetLinesActions(w, options, isVim))
  }

  /** The callback that sets the buffer's file type when one is given. */
  function FiletypeActions(w: Win, options: OpenOptions): seq<HostAction> {
    if options.filetype.Some? && options.filetype.value != "" then [SetOption(w.bufnr, "&filetype", StrVal(options.filetype.value))]
    else []
  }

  /** `closeNotifier`: closes the window showing the content buffer. */
  function CloseNotifier(w: Win): (n: Notifier<HostAction>)
    ensures Notify(n) == [FloatClose(w.bufnr)]
  {
    Create([FloatClose(w.bufnr)])
  }

  /** The layout of one call: the context, both descriptors, the
      `winhighlight` value, and the window with its next cursor store. */
  datatype Layout = Layout(ctx: Context, config: WinConfig, borderConfig: Option<NvimWinConfig>, winHl: string, next: Win)

  function LayoutOf(w: Win, options: OpenOptions, host: Host, updateCursorPosition: bool): (l: Layout)
    ensures l.ctx == CreateContext(options, host.env, host.displayWidth)
    ensures l.next == w.(store := GetBoxSizes(l.ctx, options, updateCursorPosition, w.store).1)
    ensures l.borderConfig.Some? <==> !host.isVim
    ensures host.isVim <==> l.config.VimCfg?
    ensures l.winHl == NvimWinHl(options, host.isVim)
  {
    var ctx := CreateContext(options, host.env, host.displayWidth);
    var (config, borderConfig, store') := WinConfigOf(ctx, options, updateCursorPosition, w.store, host.isVim);
    Layout(ctx, config, borderConfig, NvimWinHl(options, host.isVim), w.(store := store'))
  }

  /** Whether this call shows only a border (on Neovim) in the content buffer. */
  predicate BorderOnly(options: OpenOptions, l: Layout) {
    options.borderOnly == Some(true) && l.borderConfig.Some?
  }

  /** The border render into the content buffer, made only by a
      border-only call on Neovim. */
  function OwnBorderRender(w: Win, options: OpenOptions, host: Host, l: Layout): (r: Result<Option<Notifier<HostAction>>>)
    ensures !BorderOnly(options, l) ==> r == Ok(None)
    ensures BorderOnly(options, l) ==>
      var rn := RenderBorderNotifier(w.bufnr, l.ctx, options, NvimCfg(l.borderConfig.value), host.srcId);
      && (rn.Throw? ==> r == Throw(rn.error))
      && (rn.Ok? ==> r == Ok(Some(rn.value)))
  {
    if BorderOnly(options, l) then
      match RenderBorderNotifier(w.bufnr, l.ctx, options, NvimCfg(l.borderConfig.value), host.srcId)
      case Throw(e) => Throw(e)
      case Ok(n) => Ok(Some(n))
    else Ok(None)
  }

  /** The border render into the border buffer, made only on Neovim when
      the window has a border buffer and the layout a border window. */
  function BorderBufferRender(w: Win, options: OpenOptions, host: Host, l: Layout): (r: Result<Option<Notifier<HostAction>>>)
    ensures host.isVim || BorderBuffer(w).None? || l.borderConfig.None? ==> r == Ok(None)
    ensures !host.isVim && BorderBuffer(w).Some? && l.borderConfig.Some? ==>
      var rn := RenderBorderNotifier(BorderBuffer(w).value, l.ctx, options, NvimCfg(l.borderConfig.value), host.srcId);
      && (rn.Throw? ==> r == Throw(rn.error))
      && (rn.Ok? ==> r == Ok(Some(rn.value)))
  {
    if !host.isVim && BorderBuffer(w).Some? && l.borderConfig.Some? then
      match RenderBorderNotifier(BorderBuffer(w).value, l.ctx, options, NvimCfg(l.borderConfig.value), host.srcId)
      case Throw(e) => Throw(e)
      case Ok(n) => Ok(Some(n))
    else Ok(None)
  }

  /** The host calls of a render that was built; none when no render is due
      or building it threw. */
  function RenderedCalls(rn: Result<Option<Notifier<HostAction>>>): seq<HostAction> {
    if rn.Ok? && rn.value.Some? then Notify(rn.value.value) else []
  }

  lemma NotifyAllCell(c: Option<Notifier<HostAction>>)
    ensures NotifyAll([c]) == RenderedCalls(Ok(c))
  {
    var cells := [c];
    assert cells[1..] == [];
  }

  /** The open call, then the border-only render. */
  function OpenCells(w: Win, options: OpenOptions, host: Host, l: Layout): Result<seq<Option<Notifier<HostAction>>>> {
    var own := OwnBorderRender(w, options, host, l);
    if own.Throw? then Throw(own.error)
    else Ok([Some(Create([OpenAction(w, options, l)])), own.value])
  }

  /** The host call that opens the window in this layout. */
  function OpenAction(w: Win, options: OpenOptions, l: Layout): HostAction {
    if BorderOnly(options, l) then FloatOpen(w.bufnr, NvimCfg(l.borderConfig.value), None, None, false, l.winHl)
    else FloatOpen(w.bufnr, l.config, w.borderBufnr, l.borderConfig, GetFocus(w, options), l.winHl)
  }

  /** `openNotifier`: nothing for an empty size; otherwise close any
      previous window of the buffer, open it, draw the border, set the lines
      and the file type. The border text is computed while the batch is
      built, so a failing render fails the whole call before any host call,
      though the layout helper has already stored the cursor. */
  function OpenNotifier(w: Win, options: OpenOptions, host: Host): (r: (Result<Notifier<HostAction>>, Win))
    ensures options.width <= 0 || options.height <= 0 ==> r == (Ok(Noop()), w)
    ensures options.width > 0 && options.height > 0 ==> r.1 == LayoutOf(w, options, host, true).next
    ensures options.width > 0 && options.height > 0 ==>
      var l := LayoutOf(w, options, host, true);
      var own := OwnBorderRender(w, options, host, l);
      var bb := BorderBufferRender(w, options, host, l);
      && (r.0.Throw? <==> own.Throw? || bb.Throw?)
      && (r.0.Throw? ==> r.0.error == (if own.Throw? then own.error else bb.error))
    ensures r.0.Throw? ==> LayoutOf(w, options, host, true).ctx.borderEnabled
  {
    if options.width <= 0 || options.height <= 0 then (Ok(Noop()), w)
    else
      var l := LayoutOf(w, options, host, true);
      match OpenCells(w, options, host, l)
      case Throw(e) => (Throw(e), l.next)
      case Ok(opening) =>
        match BorderBufferRender(w, options, host, l)
        case Throw(e) => (Throw(e), l.next)
        case Ok(border) =>
          (Ok(Combine(OpenBatch(w, options, host, opening, border))), l.next)
  }

  /** The cells of an open batch. */
  function OpenBatch(w: Win, options: OpenOptions, host: Host, opening: seq<Option<Notifier<HostAction>>>,
                     border: Option<Notifier<HostAction>>): seq<Option<Notifier<HostAction>>> {
    [Some(CloseNotifier(w))] + opening + [border]
    + [Some(SetLinesNotifier(w, options, host.isVim)), Some(Create(FiletypeActions(w, options)))]
  }

  lemma NotifyOpenBatch(w: Win, options: OpenOptions, host: Host, opening: seq<Option<Notifier<HostAction>>>,
                        border: Option<Notifier<HostAction>>)
    ensures NotifyAll(OpenBatch(w, options, host, opening, border)) ==
      [FloatClose(w.bufnr)] + NotifyAll(opening) + NotifyAll([border])
      + SetLinesActions(w, options, host.isVim) + FiletypeActions(w, options)
  {
    var head: seq<Option<Notifier<HostAction>>> := [Some(CloseNotifier(w))];
    var tail: seq<Option<Notifier<HostAction>>> := [Some(SetLinesNotifier(w, options, host.isVim)), Some(Create(FiletypeActions(w, options)))];
    NotifyAllAppend(head + opening + [border], tail);
    NotifyAllAppend(head + opening, [border]);
    NotifyAllAppend(head, opening);
    NotifyAllOne(CloseNotifier(w));
    NotifyAllTwo(SetLinesNotifier(w, options, host.isVim), Create(FiletypeActions(w, options)));
  }

  /** What an open does, in order: close the old window, open the new one,
      make the border-only render and the border-buffer render, set the
      lines, set the file type. */
  lemma OpenActions(w: Win, options: OpenOptions, host: Host)
    requires options.width > 0 && options.height > 0
    requires OpenNotifier(w, options, host).0.Ok?
    ensures var l := LayoutOf(w, options, host, true);
      Notify(OpenNotifier(w, options, host).0.value) ==
        [FloatClose(w.bufnr), OpenAction(w, options, l)]
        + RenderedCalls(OwnBorderRender(w, options, host, l)) + RenderedCalls(BorderBufferRender(w, options, host, l))
        + SetLinesActions(w, options, host.isVim) + FiletypeActions(w, options)
  {
    var l := LayoutOf(w, options, host, true);
    var own := OwnBorderRender(w, options, host, l);
    var bb := BorderBufferRender(w, options, host, l);
    OpenNotifierIsBatch(w, options, host);
    OpenBatchCalls(w, options, host, l, own.value, bb.value);
  }

  /** Notifying an open batch with the given render cells. */
  lemma OpenBatchCalls(w: Win, options: OpenOptions, host: Host, l: Layout,
                       own: Option<Notifier<HostAction>>, bb: Option<Notifier<HostAction>>)
    ensures Notify(Combine(OpenBatch(w, options, host, [Some(Create([OpenAction(w, options, l)])), own], bb))) ==
      [FloatClose(w.bufnr), OpenAction(w, options, l)] + RenderedCalls(Ok(own)) + RenderedCalls(Ok(bb))
      + SetLinesActions(w, options, host.isVim) + FiletypeActions(w, options)
  {
    var openN := Create([OpenAction(w, options, l)]);
    var opening := [Some(openN), own];
    var sl := SetLinesActions(w, options, host.isVim);
    var ft := FiletypeActions(w, options);
    CombineThenNotify(OpenBatch(w, options, host, opening, bb));
    NotifyOpenBatch(w, options, host, opening, bb);
    NotifyAllPair(Some(openN), own);
    NotifyAllOne(openN);
    NotifyAllCell(own);
    NotifyAllCell(bb);
    Regroup(FloatClose(w.bufnr), OpenAction(w, options, l), RenderedCalls(Ok(own)), RenderedCalls(Ok(bb)), sl, ft);
  }

  /** Sequence bookkeeping for `OpenBatchCalls`. */
  lemma Regroup<A>(c: A, o: A, x: seq<A>, y: seq<A>, sl: seq<A>, ft: seq<A>)
    ensures [c] + ([o] + x) + y + sl + ft == [c, o] + x + y + sl + ft
  {
  }

  lemma OpenNotifierIsBatch(w: Win, options: OpenOptions, host: Host)
    requires options.width > 0 && options.height > 0
    requires OpenNotifier(w, options, host).0.Ok?
    ensures var l := LayoutOf(w, options, host, true);
      && OpenCells(w, options, host, l).Ok? && BorderBufferRender(w, options, host, l).Ok?
      && OpenNotifier(w, options, host).0.value ==
           Combine(OpenBatch(w, options, host, OpenCells(w, options, host, l).value, BorderBufferRender(w, options, host, l).value))
  {
  }

  lemma NotifyAllOne(n: Notifier<HostAction>)
    ensures NotifyAll([Some(n)]) == Notify(n)
  {
    var cells := [Some(n)];
    assert cells[1..] == [];
  }

  lemma NotifyAllTwo(a: Notifier<HostAction>, b: Notifier<HostAction>)
    ensures NotifyAll([Some(a), Some(b)]) == Notify(a) + Notify(b)
  {
    var cells := [Some(a), Some(b)];
    assert cells[1..] == [Some(b)];
    NotifyAllOne(b);
  }

  /** An open with a positive size on the window's own layout always
      succeeds when padding and border are non-negative and all eight
      border glyphs are given. */
  lemma OpenSucceeds(w: Win, options: OpenOptions, host: Host)
    requires options.width > 0 && options.height > 0
    requires var ctx := LayoutOf(w, options, host, true).ctx;
      NonNegativeEdges(ctx.padding) && NonNegativeEdges(ctx.border) && ctx.title.width >= 0
    requires |options.borderChars.GetOr(DefaultBorderChars)| >= 8
    ensures OpenNotifier(w, options, host).0.Ok?
  {
    var l := LayoutOf(w, options, host, true);
    OwnBorderBoxRenders(l.ctx, options, true, w.store, host.srcId);
  }

  /** `resumeNotifier`: one callback that shows the window again with a
      fresh layout, redraws the border in the border buffer on Neovim, and
      redraws the screen on Vim. Here the border text is computed inside the
      callback, so a failing render raises there and ends the callback. */
  function ResumeNotifier(w: Win, options: OpenOptions, host: Host): (r: (Notifier<HostAction>, Win))
    ensures r.1 == LayoutOf(w, options, host, true).next
    ensures |r.0.fns| == 1
    ensures var l := LayoutOf(w, options, host, true);
      var resume := FloatResume(w.bufnr, l.config, w.borderBufnr, l.borderConfig, GetFocus(w, options), l.winHl);
      var bb := BorderBufferRender(w, options, host, l);
      && (bb.Throw? ==> Notify(r.0) == [resume, Raise(bb.error)])
      && (bb.Ok? ==> Notify(r.0) == [resume] + RenderedCalls(bb) + (if host.isVim then [Redraw] else []))
    ensures var acts := Notify(r.0);
      forall i :: 0 <= i < |acts| - 1 ==> !acts[i].Raise?
  {
    var l := LayoutOf(w, options, host, true);
    var resume := FloatResume(w.bufnr, l.config, w.borderBufnr, l.borderConfig, GetFocus(w, options), l.winHl);
    var bb := BorderBufferRender(w, options, host, l);
    var acts :=
      if bb.Throw? then [resume, Raise(bb.error)]
      else
        (RenderedRaisesNothing(w, options, host, l);
         [resume] + RenderedCalls(bb) + (if host.isVim then [Redraw] else []));
    (Create(acts), l.next)
  }

  /** The calls of a border-buffer render raise nothing. */
  lemma RenderedRaisesNothing(w: Win, options: OpenOptions, host: Host, l: Layout)
    ensures var acts := RenderedCalls(BorderBufferRender(w, options, host, l));
      forall i :: 0 <= i < |acts| ==> !acts[i].Raise?
  {
    var bb := BorderBufferRender(w, options, host, l);
    if bb.Ok? && bb.value.Some? {
      RenderRaisesNothing(BorderBuffer(w).value, l.ctx, options, NvimCfg(l.borderConfig.value), host.srcId);
    }
  }

  /** A border render that could be built raises nothing when it runs. */
  lemma RenderRaisesNothing(bufnr: int, ctx: Context, options: OpenOptions, config: WinConfig, srcId: int)
    requires RenderBorderNotifier(bufnr, ctx, options, config, srcId).Ok?
    ensures var acts := Notify(RenderBorderNotifier(bufnr, ctx, options, config, srcId).value);
      forall i :: 0 <= i < |acts| ==> !acts[i].Raise?
  {
    var d := GetRenderBorderData(ctx, options, ConfigSize(config), srcId);
    if d.value.Some? {
      var n := Create(RenderActions(bufnr, d.value.value, srcId));
      assert Notify(n) == n.fns[0];
      HighlightsSetNoOption(bufnr, srcId, d.value.value.highlights);
    }
  }

  /** The update call of a resize. */
  function UpdateAction(w: Win, options: OpenOptions, l: Layout): HostAction {
    if BorderOnly(options, l) then FloatUpdate(w.bufnr, NvimCfg(l.borderConfig.value), None, None, l.winHl)
    else FloatUpdate(w.bufnr, l.config, w.borderBufnr, l.borderConfig, l.winHl)
  }

  /** `resizeNotifier`: like an open without the close, the lines and the
      file type, but on the stored cursor rather than a fresh one. */
  function ResizeNotifier(w: Win, options: OpenOptions, host: Host): (r: (Result<Notifier<HostAction>>, Win))
    ensures r.1 == LayoutOf(w, options, host, false).next
    ensures r.0 == ResizeCalls(w, options, host, LayoutOf(w, options, host, false))
  {
    var l := LayoutOf(w, options, host, false);
    (ResizeCalls(w, options, host, l), l.next)
  }

  /** The notifier of a resize on a given layout: the update call, the
      border-only render, the border-buffer render, and on Vim a redraw. It
      fails, before any host call, exactly when one of the renders throws. */
  function ResizeCalls(w: Win, options: OpenOptions, host: Host, l: Layout): (r: Result<Notifier<HostAction>>)
    requires l.ctx == CreateContext(options, host.env, host.displayWidth)
    ensures var own := OwnBorderRender(w, options, host, l);
      var bb := BorderBufferRender(w, options, host, l);
      && (r.Throw? <==> own.Throw? || bb.Throw?)
      && (r.Throw? ==> r.error == (if own.Throw? then own.error else bb.error))
      && (r.Ok? ==>
            Notify(r.value) ==
              [UpdateAction(w, options, l)] + RenderedCalls(own) + RenderedCalls(bb) + (if host.isVim then [Redraw] else []))
    ensures r.Throw? ==> l.ctx.borderEnabled
  {
    var own := OwnBorderRender(w, options, host, l);
    var bb := BorderBufferRender(w, options, host, l);
    if own.Throw? then Throw(own.error)
    else if bb.Throw? then Throw(bb.error)
    else
      var redraw: seq<HostAction> := if host.isVim then [Redraw] else [];
      var cells := [Some(Create([UpdateAction(w, options, l)])), own.value, bb.value, Some(Create(redraw))];
      FourCellCalls(UpdateAction(w, options, l), own.value, bb.value, redraw);
      Ok(Combine(cells))
  }

  /** Notifying the four cells of a resize batch. */
  lemma FourCellCalls(u: HostAction, own: Option<Notifier<HostAction>>, bb: Option<Notifier<HostAction>>, redraw: seq<HostAction>)
    ensures Notify(Combine([Some(Create([u])), own, bb, Some(Create(redraw))])) ==
      [u] + RenderedCalls(Ok(own)) + RenderedCalls(Ok(bb)) + redraw
  {
    var update := Create([u]);
    var cells := [Some(update), own, bb, Some(Create(redraw))];
    CombineThenNotify(cells);
    NotifyAllFour(Some(update), own, bb, Some(Create(redraw)));
    NotifyAllOne(update);
    NotifyAllOne(Create(redraw));
    NotifyAllCell(own);
    NotifyAllCell(bb);
  }

  /** A resize's calls do not depend on the window's stored cursor. */
  lemma ResizeCallsIgnoreStore(w: Win, store: Option<Position>, options: OpenOptions, host: Host, l: Layout)
    requires l.ctx == CreateContext(options, host.env, host.displayWidth)
    ensures ResizeCalls(w.(store := store), options, host, l) == ResizeCalls(w, options, host, l)
  {
    var w' := w.(store := store);
    assert BorderBuffer(w') == BorderBuffer(w);
    assert OwnBorderRender(w', options, host, l) == OwnBorderRender(w, options, host, l);
    assert BorderBufferRender(w', options, host, l) == BorderBufferRender(w, options, host, l);
    assert UpdateAction(w', options, l) == UpdateAction(w, options, l);
  }

  /** The layout of a resize is a fixed point: laying out again from the
      window it leaves gives the same layout. */
  lemma LayoutTwiceSame(w: Win, options: OpenOptions, host: Host)
    ensures var l := LayoutOf(w, options, host, false);
      LayoutOf(l.next, options, host, false) == l
  {
    var l := LayoutOf(w, options, host, false);
    var w1 := l.next;
    ResizeIsStable(l.ctx, options, w.store);
    assert ChosenCursor(l.ctx, false, w1.store) == ChosenCursor(l.ctx, false, w.store);
    assert WinConfigOf(l.ctx, options, false, w1.store, host.isVim) == WinConfigOf(l.ctx, options, false, w.store, host.isVim);
  }

  /** Resizing is repeatable: a second resize with the same options issues
      the same host calls and keeps the same store. */
  lemma ResizeTwiceSame(w: Win, options: OpenOptions, host: Host)
    ensures var (r1, w1) := ResizeNotifier(w, options, host);
      ResizeNotifier(w1, options, host) == (r1, w1)
  {
    var l := LayoutOf(w, options, host, false);
    LayoutTwiceSame(w, options, host);
    ResizeCallsIgnoreStore(w, l.next.store, options, host, l);
  }
}

/**
  The data of the floating-window engine: edges, boxes, positions and sizes
  in screen cells (0-indexed), the layout context, the options a caller
  passes to `open`, the two host window descriptors, and the host calls the
  controllers issue, as labels in an action log.
 */
module FloatTypes {
  import opened Common

  /** Thickness of the four sides: above, right, below, left. */
  datatype Edges = Edges(top: int, right: int, bottom: int, left: int)

  /** A rectangle; `top` and `left` are 0-indexed. */
  datatype Box = Box(top: int, left: int, width: int, height: int)

  datatype Position = Position(top: int, left: int)

  datatype Size = Size(width: int, height: int)

  datatype Title = Title(text: string, width: int)

  /** The environment snapshot a layout is computed from. */
  datatype Context = Context(
    lines: int,
    columns: int,
    globalCursorPosition: Position,
    title: Title,
    borderEnabled: bool,
    border: Edges,
    paddingEnabled: bool,
    padding: Edges)

  /** The `relative` option; an absent one behaves as `Editor`. */
  datatype Relative = Center | Cursor | CursorAround | Editor

  /** An entry of the `border` option, which may be a flag or a width. */
  datatype BorderEntry = Flag(b: bool) | Width(n: int)

  /** A caller-supplied highlight, as the host's `BufferHighlight`. */
  datatype Highlight = Highlight(srcId: Option<int>, hlGroup: string, line: int, colStart: int, colEnd: int)

  /** `FloatingWindow.OpenOptions`; `None` is an absent property. The
      Vim-script `initedExecute` hooks are not part of this model. */
  datatype OpenOptions = OpenOptions(
    relative: Option<Relative>,
    top: Option<int>,
    left: Option<int>,
    topOffset: Option<int>,
    leftOffset: Option<int>,
    width: int,
    height: int,
    maxWidth: Option<int>,
    maxHeight: Option<int>,
    padding: Option<seq<int>>,
    border: Option<seq<BorderEntry>>,
    borderChars: Option<seq<string>>,
    borderOnly: Option<bool>,
    name: Option<string>,
    title: Option<string>,
    filetype: Option<string>,
    focus: Option<bool>,
    focusable: Option<bool>,
    lines: Option<seq<string>>,
    highlights: Option<seq<Highlight>>,
    modifiable: Option<bool>,
    winHl: Option<string>,
    winHlNC: Option<string>,
    borderWinHl: Option<string>,
    context: Option<Context>)

  /** An options value with only a size, every other property absent. */
  function SizeOnly(width: int, height: int): OpenOptions {
    OpenOptions(None, None, None, None, None, width, height, None, None, None, None, None,
                None, None, None, None, None, None, None, None, None, None, None, None, None)
  }

  datatype CloseKind = CloseButton | CloseClick | CloseNone

  /** The popup descriptor of the Vim backend (1-indexed line and column). */
  datatype VimWinConfig = VimWinConfig(
    line: int,
    col: int,
    zindex: int,
    minwidth: int,
    minheight: int,
    maxwidth: int,
    maxheight: int,
    pos: Option<string>,
    highlight: Option<string>,
    title: Option<string>,
    padding: Option<seq<int>>,
    border: Option<Edges>,
    borderchars: Option<seq<string>>,
    borderhighlight: Option<seq<string>>,
    close: Option<CloseKind>)

  /** The floating-window descriptor of the Neovim backend; it is always
      relative to the whole editor. */
  datatype NvimWinConfig = NvimWinConfig(row: int, col: int, width: int, height: int, focusable: bool)

  datatype WinConfig = VimCfg(vim: VimWinConfig) | NvimCfg(nvim: NvimWinConfig)

  datatype OptValue = BoolVal(b: bool) | StrVal(s: string)

  /** The host calls the library issues, in the order they are issued. */
  datatype HostAction =
    | SetOption(bufnr: int, option: string, value: OptValue)
    | SetLines(bufnr: int, content: seq<string>)
    | HighlightRanges(bufnr: int, srcId: int, hlGroup: string, line: int, colStart: int, colEnd: int)
    | AddHighlight(bufnr: int, hl: Highlight)
    | Redraw
    | FloatOpen(bufnr: int, config: WinConfig, borderBufnr: Option<int>,
                borderConfig: Option<NvimWinConfig>, focus: bool, winHl: string)
    | FloatResume(bufnr: int, config: WinConfig, borderBufnr: Option<int>,
                  borderConfig: Option<NvimWinConfig>, focus: bool, winHl: string)
    | FloatUpdate(bufnr: int, config: WinConfig, borderBufnr: Option<int>,
                  borderConfig: Option<NvimWinConfig>, winHl: string)
    | FloatClose(bufnr: int)
    | CloseWinByBufnr(bufnrs: seq<int>)
    | Raise(error: JsError)   // the callback threw; nothing after it in the batch runs
}

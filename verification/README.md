# coc-helper floating windows, in Dafny

A model of the core of coc-helper, a helper library for coc.nvim extensions.
Its centre is the floating-window engine:

- the box model of a floating window: content, padding and border boxes, and
  the anchor for the `center`, `cursor`, `cursor-around` and `editor` modes,
  including the cursor position that a resize reuses;
- the window descriptors handed to Vim (`popup_create` options) and Neovim
  (content plus border window);
- the border text and highlight spans;
- the single-window controller that turns `open`, `resume`, `resize` and
  `close` into batches of host calls;
- the multi-window group that sizes a frame around its children and issues
  all their batches together.

Around it sit the small pieces the engine relies on:

- the notifier batches;
- the window-layout tree and its searches;
- the event-listener registry;
- `generateUri` and `displayHeight`;
- `compactI` and `sum`;
- `VimModule`'s init queue, memoised module body and generated names;
- the per-key module-id counter.

The editor is never called. Each host call that the library would make is a
`HostAction` value, and a notifier is a sequence of callbacks, each of which
is the list of host calls it makes. Host queries are parameters:

- the screen size, command-line height and cursor (`HostEnv`);
- the display width of a string (a function);
- whether the backend is Vim (a flag);
- the library's namespace id.

Exceptions the code can raise are modelled as `Result.Throw`:

- a `RangeError` from `String.prototype.repeat`;
- a `TypeError` from a call on `undefined` or from `reduce` over an empty
  array.

A throw inside a notifier's callback, when the batch runs, is the host
action `Raise`. Running a batch stops right after the first one, and the
promise of the run rejects with that error.

Modules, one per source file:

- `Common`: `Option`, `Result` and small string helpers;
- `Collection`: `src/util/collection.ts` and `src/util.ts`;
- `Text`: `src/util/text.ts`;
- `ModuleId`: `src/util/module.ts`;
- `Notifier`: `src/notifier.ts`;
- `Events`: `src/events.ts`;
- `FloatTypes`: the shared records;
- `FloatingUtil`: `src/FloatingUtil.ts`;
- `FloatingWindow`: `src/FloatingWindow.ts`;
- `MultiFloatingWindow`: `src/MultiFloatingWindow.ts`;
- `WinLayout`: `src/WinLayoutFinder.ts`;
- `VimModule`: `src/VimModule.ts`.

Where a layout node is an object in the source, here it is addressed by its
path of child indexes from the root, so a parent link is the parent's path
plus the index.

The layout types give every node, group or leaf, an optional `parent`
link (`Group` and `Leaf` both extend `Base`, src/WinLayoutFinder.ts:8-22),
and `findClosest` climbs that link from any node it visits
(src/WinLayoutFinder.ts:136-139). The conversion from Vim's layout, as
written, sets the link only on leaves. The model follows the code, and
records the gap under "## Findings": the search can climb at most one
level.

## Model

| member | source | states |
|---|---|---|
| Common.Repeat | src/FloatingUtil.ts:417-427 | `String.prototype.repeat`: throws exactly when the count is negative, otherwise the result is the string repeated that many times |
| Collection.CompactI | src/util/collection.ts:1-2 | the result has no more elements than the input; every kept value occurs in the input as a present cell; every present value of the input is kept, falsy ones included |
| Collection.CompactIPresent | src/util.ts:39-40 | a list with no missing cells comes back unchanged, order included |
| Collection.CompactIAppend | src/util.ts:39-40 | compacting distributes over concatenation, so the relative order of the kept values is the input order |
| Collection.CompactIIdempotent | src/util/collection.ts:1-2 | compacting an already compacted list changes nothing |
| Collection.CompactIMultiplicity | src/util.ts:39-40 | each value appears in the result exactly as many times as it appears present in the input |
| Collection.Sum | src/util/collection.ts:4 | `sum` throws a `TypeError` exactly on the empty array |
| Collection.SumIsTotal | src/util/collection.ts:4 | on a non-empty array, the seedless left fold equals the arithmetic total |
| Collection.SumAppend | src/util/collection.ts:4 | `sum([x]) = x`, and `sum(a ++ b) = sum(a) + sum(b)` for non-empty `a` and `b` |
| Text.GenerateUri | src/util/text.ts:5-10 | the URI is the scheme (default `file`), then `://`, then the path; a `/` is put before the path exactly when the scheme is `file`, the platform is Windows and the path starts with a drive letter |
| Text.AdjustedWidth | src/util/text.ts:36-44 | a line's width gains at most one column, and only in insert mode with a cursor given |
| Text.LineHeights | src/util/text.ts:34-47 | one height per line, each the least number of rows of the given width that hold that line's adjusted width |
| Text.DisplayHeight | src/util/text.ts:25-49 | throws exactly when there are no lines; otherwise the height is the total of the lines' row counts `LineHeights`, each the ceiling of the line's adjusted width over the width, and so non-negative |
| Text.CursorOnlyMattersInInsertMode | src/util/text.ts:37-44 | outside insert mode the cursor does not change the height |
| Text.FittingLinesTakeOneRowEach | src/util/text.ts:34-48 | when every line is non-empty and fits the width, the height is the number of lines |
| ModuleId.GetModuleId | src/util/module.ts:2-9 | the returned id is the key's previous counter plus one (1 on the first call); the counter is left at the returned id; every other key's counter is untouched; the global gains only this key's property |
| ModuleId.GlobalKeyInjective | src/util/module.ts:3 | distinct keys use distinct global properties, so their counters are independent |
| ModuleId.IdsArePositive | src/util/module.ts:4-8 | from positive counters (the empty global included), every id is at least 1 and the counters stay positive |
| ModuleId.IssueIds | src/util/module.ts:2-9 | `n` calls for one key from an empty global return 1, 2, …, n and leave the counter at `n` |
| Notifier.Create | src/notifier.ts:58-66 | a created notifier holds exactly the given callback, and notifying it runs that callback |
| Notifier.Noop | src/notifier.ts:54-56 | `noop` holds one callback that does nothing |
| Notifier.Concat | src/notifier.ts:78-81 | the result holds the receiver's callbacks followed by the argument's; notifying it runs the receiver's calls then the argument's |
| Notifier.FoldConcat | src/notifier.ts:48-51 | folding `concat` over a list appends every notifier's callbacks in list order |
| Notifier.Combine | src/notifier.ts:40-52 | after dropping missing cells: none left gives a no-op; one left gives that same notifier; more gives a no-op callback followed by all their callbacks in order |
| Notifier.NotifyAllCompacted | src/notifier.ts:23-29 | `notifyAll` runs the present notifiers' callbacks in list order and skips missing cells |
| Notifier.CombineThenNotify | src/notifier.ts:23-52 | notifying `combine(cells)` makes the same host calls as `notifyAll(cells)` |
| Notifier.CombineIgnoresMissingCells | src/notifier.ts:40-47 | a trailing missing cell does not change the calls, and combining a single notifier runs exactly its calls |
| Notifier.NotifyAllAppend | src/notifier.ts:23-29 | `notifyAll` of a concatenation is the concatenation of the two runs |
| Events.Listeners | src/events.ts:30-37 | the first lookup of an event stores an empty list and returns it; later lookups return the stored list unchanged |
| Events.IndexOf | src/events.ts:76 | `indexOf`: -1 exactly when absent, otherwise the position of the first occurrence |
| Events.RemoveFirst | src/events.ts:75-79 | removes the first occurrence only, leaving the rest in order; an absent listener leaves the list unchanged |
| Events.On | src/events.ts:56-67 | the listener is appended to its event's list; other events are untouched; the disposable unregisters the same listener and is pushed onto `disposables` when a list is given |
| Events.Once | src/events.ts:39-54 | a wrapper is appended to the event's list, but the disposable names the original listener |
| Events.Off | src/events.ts:69-80 | the first direct registration of the listener is removed from its event's list, other events are untouched, and `cancel` is called exactly when the listener has one |
| Events.OnceDisposeKeepsWrapper | src/events.ts:39-54 | disposing a `once` registration leaves its wrapper in the list, because `off` looks for the original listener |
| Events.OnThenDispose | src/events.ts:56-80 | registering a listener with `on` and disposing it restores the registry |
| Events.PlainTraceAppend | src/events.ts:94-100 | the sequential trace of a list is the trace of its prefix followed by that of its last listener |
| Events.Fire | src/events.ts:93-101 | sequential `fire` leaves other events alone and never removes a `once` wrapper; on a list of plain listeners every listener runs once in list order, a throwing one is logged and the walk goes on, and the list is unchanged |
| FloatingUtil.At | src/FloatingUtil.ts:374-383 | array destructuring reads `undefined` past the end |
| FloatingUtil.ExtendEdges | src/FloatingUtil.ts:141-150 | no edges give zeros; otherwise top defaults to 1, right and bottom to top, left to right, and entries past the fourth are ignored |
| FloatingUtil.ExtendEdgesVectors | src/FloatingUtil.test.ts:51-64 | the unit-test vectors for `extendEdges` |
| FloatingUtil.ChangeBoxByEdges | src/FloatingUtil.ts:169-183 | growing by edges moves the corner up and left by the top and left edges and widens and heightens by the opposite pairs; no edges leave the box alone |
| FloatingUtil.ChangeBoxInverse | src/FloatingUtil.ts:169-183 | growing by edges and then by their negation restores the box |
| FloatingUtil.ChangeBoxListIsTotal | src/FloatingUtil.ts:155-164 | growing by a list of edge sets equals growing once by their side-by-side sum |
| FloatingUtil.ChangeBoxCompose | src/FloatingUtil.ts:169-183 | two growths compose into one growth by the summed edges |
| FloatingUtil.ChangeBoxListAppend | src/FloatingUtil.ts:155-164 | growing by `xs ++ ys` is growing by `xs` and then by `ys`, so the empty list is the identity |
| FloatingUtil.ChangeBoxVectors | src/FloatingUtil.test.ts:66-81 | the unit-test vectors for `changeBoxByEdges` and `changeBoxByEdgesList` |
| FloatingUtil.GetCenterPos | src/FloatingUtil.ts:99-107 | the box is centred: each offset is the floor of half the free space on that axis |
| FloatingUtil.CenterIgnoresBoxPosition | src/FloatingUtil.ts:99-107 | the centre depends on the box's size only, not on its position |
| FloatingUtil.GetPosForAround | src/FloatingUtil.ts:109-136 | below the cursor unless that overflows the usable lines, then above; when above is preferred, above unless that goes off the top, then below; aligned with the cursor column unless that overflows, then shifted left so the last column is the cursor's |
| FloatingUtil.AroundPlacementOnScreen | src/FloatingUtil.ts:109-136 | when the box fits on one side of the cursor on each axis, the placed box lies on the screen |
| FloatingUtil.GetPosForAroundVectors | src/FloatingUtil.test.ts:26-49 | the unit-test vectors for `getPosForAround` and `getCenterPos` |
| FloatingUtil.GetBoxSizes | src/FloatingUtil.ts:185-233 | the content box has the larger of the requested and title widths and the requested height; the padding box is it grown by the padding, the border box that grown by the border; the border box's corner is the anchor of the mode; `center` leaves the stored cursor alone, every other mode stores the cursor it used |
| FloatingUtil.NestedBoxesContain | src/FloatingUtil.ts:185-233 | with non-negative padding and border, content lies in padding, which lies in border |
| FloatingUtil.ResizeIsStable | src/FloatingUtil.ts:196-216 | repeating a layout without cursor update gives the same boxes and the same store |
| FloatingUtil.StoredCursorWins | src/FloatingUtil.ts:196-216 | after an open, a resize lays the window out at the same place even if the live cursor has moved |
| FloatingUtil.GetBoxSizesVectors | src/FloatingUtil.test.ts:83-137 | the unit-test vectors for `getBoxSizes` |
| FloatingUtil.CreateContext | src/FloatingUtil.ts:73-95 | a given context is used as is; otherwise the usable columns leave room for the command line, the border and padding are enabled exactly when given and expanded as edges, and an empty title has width 0 |
| FloatingUtil.FlagBordersAreOneWide | src/FloatingUtil.ts:87-90 | a border given as flags only is enabled and one cell wide on every side |
| FloatingUtil.VimAnchor | src/FloatingUtil.ts:255-275 | a Vim popup is placed at the cursor in `cursor` mode, at the position given in `editor` mode, and in `cursor-around` mode around the cursor for a box of the requested size grown by padding and border, not widened for the title |
| FloatingUtil.VimWinConfigOf | src/FloatingUtil.ts:235-307 | the Vim descriptor: zindex 1 for a border-only window and 100 otherwise; min size the requested size; max size the override when non-zero; border, glyphs and border highlight exactly when the border is enabled; close button exactly when the top border is drawn; title exactly then and when it is non-empty; `center` positioning by offsets only; outside `center`, line and column are the 1-based anchor `VimAnchor` plus the offsets; the store as `getBoxSizes` leaves it |
| FloatingUtil.NvimWinConfigOf | src/FloatingUtil.ts:309-347 | the Neovim content window is the content box moved by the offsets, focusable by default; a border window is always returned, built from the border box with the same offsets and not focusable |
| FloatingUtil.NvimContentInsideBorder | src/FloatingUtil.ts:309-347 | with non-negative padding and border, the content window lies inside its border window |
| FloatingUtil.VimIsOneIndexedNvim | src/FloatingUtil.ts:255-280 | in `cursor` and `editor` mode the Vim position is the Neovim border window's position plus one on each axis, whatever the title |
| FloatingUtil.VimIsOneIndexedNvimAround | src/FloatingUtil.ts:263-272 | in `cursor-around` mode the same holds when the title is no wider than the content, so that both dialects place a box of the same size |
| FloatingUtil.AroundWideTitleDiverges | src/FloatingUtil.ts:263-272 | with a title wider than the content near the right edge, Vim and Neovim place the window in different columns (Vim 11, that is zero-based 10; Neovim -1) |
| FloatingUtil.WinConfigOf | src/FloatingUtil.ts:349-360 | Vim gets a Vim descriptor and no border window; Neovim gets both windows |
| FloatingUtil.NvimWinHlReadsBack | src/FloatingUtil.ts:505-513 | the Neovim `winhighlight` value, read back as `Normal:<a>,NormalNC:<b>` split at its first comma, gives the configured `Normal` and `NormalNC` groups or their defaults, provided the `Normal` group has no comma |
| FloatingUtil.EffectiveGlyphs | src/FloatingUtil.ts:373-407 | a side glyph is blank when its side is 0, a corner glyph unless both its sides are non-zero; otherwise the glyph is the given one at its position |
| FloatingUtil.GlyphRepeat | src/FloatingUtil.ts:417-427 | repeating a glyph succeeds exactly when it exists and the count is non-negative, and then gives the repeated glyph; a missing glyph throws a `TypeError`, a negative count a `RangeError` |
| FloatingUtil.SideSpans | src/FloatingUtil.ts:441-458 | one span for each drawn side of an interior line: the left one `[0, bLeft)` first when the left side is drawn, the right one `[bLeft + spaceWidth, width)` last when the right side is drawn |
| FloatingUtil.InteriorSpans | src/FloatingUtil.ts:440-459 | the interior lines get as many spans as lines times drawn sides, all on lines 1 to the interior height, in the border group and namespace |
| FloatingUtil.OneSideSpansByLine | src/FloatingUtil.ts:440-459 | with one side drawn, the span at position `l - 1` is interior line `l`'s side span |
| FloatingUtil.TwoSideSpansByLine | src/FloatingUtil.ts:440-459 | with both sides drawn, positions `2l - 2` and `2l - 1` hold interior line `l`'s first and second side spans |
| FloatingUtil.OneSideSpanColumns | src/FloatingUtil.ts:440-459 | with one side drawn, interior line `l`'s span is at position `l - 1` and covers `[0, bLeft)` for a left side, `[bLeft + spaceWidth, width)` for a right one |
| FloatingUtil.TwoSideSpanColumns | src/FloatingUtil.ts:440-459 | with both sides drawn, interior line `l` has the left span `[0, bLeft)` at position `2l - 2` and the right span `[bLeft + spaceWidth, width)` at `2l - 1` |
| FloatingUtil.BorderHighlights | src/FloatingUtil.ts:430-469 | no spans for an empty group; otherwise a full span on line 0 even without a top border, then the interior spans over the interior width and height, then a full span on the last line exactly when the bottom border is drawn |
| FloatingUtil.TopLine | src/FloatingUtil.ts:415-419 | nothing when the top is not drawn; otherwise the top-left glyph, the title, the top glyph repeated to fill the rest and the top-right glyph, or a `TypeError` for a missing top glyph, or a `RangeError` when the title is wider than the interior |
| FloatingUtil.InteriorText | src/FloatingUtil.ts:420-425 | one line per interior row, each the left glyph, as many spaces as the interior width and the right glyph; a `RangeError` when there are rows and the interior width is negative |
| FloatingUtil.BottomLine | src/FloatingUtil.ts:426-428 | nothing when the bottom is not drawn; otherwise the bottom-left glyph, the bottom glyph repeated over the interior width and the bottom-right glyph, or the error the repeat throws |
| FloatingUtil.BorderText | src/FloatingUtil.ts:409-428 | the border text is the top part, the interior part and the bottom part in that order; it throws exactly when one of them throws, with the first one's error |
| FloatingUtil.GetRenderBorderData | src/FloatingUtil.ts:362-475 | nothing without a border; otherwise the border text drawn with the effective glyphs and the border highlight spans, or exactly the error the text throws |
| FloatingUtil.BorderLinesFillHeight | src/FloatingUtil.ts:409-428 | with side widths 0 or 1 and room for the border, there is one border line per row of the window |
| FloatingUtil.BorderLinesFillWidth | src/FloatingUtil.ts:409-428 | with side widths 0 or 1, one-cell glyphs and a title as wide as its text, every border line is exactly as wide as the window |
| FloatingUtil.OwnBorderBoxRenders | src/FloatingUtil.ts:362-475 | rendering the border of a window's own border box never throws when the glyphs are all given, the edges are non-negative, and the title width and the height are non-negative |
| FloatingUtil.DrawnSpans | src/FloatingUtil.ts:516-525 | every kept span has a non-zero namespace and a non-empty group; there are no more of them than input spans; all of the input is kept when every span is drawn, and nothing when none is |
| FloatingUtil.DrawnSpansMembers | src/FloatingUtil.ts:516-525 | a span is kept exactly when it is an input span with a non-zero namespace and a non-empty group |
| FloatingUtil.DrawnSpansAppend | src/FloatingUtil.ts:516-525 | the filter distributes over concatenation, so kept spans keep their order |
| FloatingUtil.AddHighlightsNotify | src/FloatingUtil.ts:515-530 | exactly one range highlight per drawn span, in order, with the library namespace; no call when no span is drawn |
| FloatingUtil.RenderBorderNotifier | src/FloatingUtil.ts:477-503 | a no-op without border data; otherwise one callback that unlocks the buffer, writes the border lines, locks it again and adds the highlights; a render failure throws when the notifier is built |
| FloatingWindow.CreateRequest | src/FloatingWindow.ts:207-219 | the buffer name defaults to empty, the mode to `default`, and a border buffer is requested unless it is turned off |
| FloatingWindow.Construct | src/FloatingWindow.ts:238-261 | a new window keeps its buffers and mode and has nothing stored; the `BufWinLeave` handler is registered exactly when the border buffer number is truthy |
| FloatingWindow.BorderBuffer | src/FloatingWindow.ts:247-248 | the border buffer exists exactly when its number is truthy |
| FloatingWindow.OnBufWinLeave | src/FloatingWindow.ts:250-258 | the border window is closed exactly when the window has a border buffer and the leaving buffer is the content buffer |
| FloatingWindow.GetFocus | src/FloatingWindow.ts:282-288 | the option, else the mode preset, else false |
| FloatingWindow.GetModifiable | src/FloatingWindow.ts:290-298 | the option, else the mode preset, else false |
| FloatingWindow.PresetsNeverEnable | src/FloatingWindow.ts:115-178 | no preset turns focus or modifiability on, so each is on exactly when the option says so |
| FloatingWindow.RenderLeavesBufferLocked | src/FloatingUtil.ts:495-502 | a border render leaves the buffer unmodifiable and read-only |
| FloatingWindow.NormalizeHighlight | src/FloatingWindow.ts:319-321 | a highlight's missing or -1 namespace becomes 0; nothing else changes |
| FloatingWindow.AddHighlights | src/FloatingWindow.ts:317-324 | each caller highlight is added once, in order, with its namespace normalised |
| FloatingWindow.SetLinesActions | src/FloatingWindow.ts:300-329 | nothing unless lines or modifiability are given; otherwise the buffer is unlocked first, the lines are written when given, and a redraw ends the calls exactly on Vim |
| FloatingWindow.SetLinesLeavesModifiable | src/FloatingWindow.ts:306-316 | after setting lines the buffer is modifiable and not read-only exactly when the window is to be modifiable |
| FloatingWindow.SetLinesNotifier | src/FloatingWindow.ts:300-329 | notifying it makes the set-lines calls |
| FloatingWindow.CloseNotifier | src/FloatingWindow.ts:523-525 | closes the window of the content buffer |
| FloatingWindow.LayoutOf | src/FloatingWindow.ts:348-350 | the layout uses a fresh context, a Vim descriptor exactly on Vim and a border window exactly on Neovim, the `winhighlight` value of `nvimWinHl`, and stores the cursor as `getBoxSizes` does |
| FloatingWindow.OwnBorderRender | src/FloatingWindow.ts:352-372 | the render into the content buffer is made exactly in border-only mode on Neovim, from the border window descriptor; otherwise there is none |
| FloatingWindow.BorderBufferRender | src/FloatingWindow.ts:388-397 | the render into the border buffer is made exactly on Neovim when the window has a border buffer; on Vim or without a border buffer there is none |
| FloatingWindow.OpenNotifier | src/FloatingWindow.ts:340-409 | an empty size gives a no-op and changes nothing; otherwise the store is updated by the layout, and building fails exactly when the border-only render or the border-buffer render throws, with the first one's error |
| FloatingWindow.NotifyOpenBatch | src/FloatingWindow.ts:345-408 | the open batch runs close, then the opening calls, then the border-buffer render, then set-lines, then the file type |
| FloatingWindow.OpenActions | src/FloatingWindow.ts:345-408 | a successful open makes the close call, the open call, the border-only render's calls, the border-buffer render's calls, the set-lines calls and the file-type call, in that order |
| FloatingWindow.OpenSucceeds | src/FloatingWindow.ts:340-409 | with non-negative edges and the full glyph set, a non-empty open never fails |
| FloatingWindow.ResumeNotifier | src/FloatingWindow.ts:415-441 | resume is one callback: the resume call, then the border-buffer render's calls, then a redraw exactly on Vim; when that render throws, the callback stops at the raise; the store is updated by the layout |
| FloatingWindow.RenderRaisesNothing | src/FloatingUtil.ts:490-502 | a border render that could be built raises nothing when its callback runs |
| FloatingWindow.ResizeNotifier | src/FloatingWindow.ts:447-507 | resize lays out on the stored cursor and issues the resize calls of that layout |
| FloatingWindow.ResizeCalls | src/FloatingWindow.ts:455-506 | on a given layout, the resize batch is the update call, the border-only render's calls, the border-buffer render's calls and a redraw exactly on Vim; it fails exactly when one of the renders throws, with the first one's error |
| FloatingWindow.LayoutTwiceSame | src/FloatingWindow.ts:446-452 | laying out a resize again from the window it leaves gives the same layout and store |
| FloatingWindow.ResizeTwiceSame | src/FloatingWindow.ts:447-507 | resizing twice with the same options gives the same batch and the same window state |
| MultiFloatingWindow.FrameCreateOptions | src/MultiFloatingWindow.ts:33-37 | the frame is created in `show` mode by default and with a border buffer only when asked for |
| MultiFloatingWindow.ChildCreateOptions | src/MultiFloatingWindow.ts:43-46 | a child keeps its name and mode and gets a border buffer only when asked for |
| MultiFloatingWindow.Bufnrs | src/MultiFloatingWindow.ts:69-71 | the frame's buffer first, then each child's in order |
| MultiFloatingWindow.Close | src/MultiFloatingWindow.ts:194-199 | closes the frame's window first and then each child's, in order |
| MultiFloatingWindow.CloseClosesEveryWindow | src/MultiFloatingWindow.ts:194-199 | every buffer of the group has its window closed |
| MultiFloatingWindow.OnBufWinLeave | src/MultiFloatingWindow.ts:73-77 | the whole group closes exactly when the leaving buffer belongs to it |
| MultiFloatingWindow.BorderSizeIgnoresStore | src/FloatingUtil.ts:190-194 | the size of a border box does not depend on the cursor or its store |
| MultiFloatingWindow.Measure | src/MultiFloatingWindow.ts:95-101 | a child's extent is its offset plus its border box; measuring keeps a stored cursor, and into an empty store puts the live cursor unless the child is centred |
| MultiFloatingWindow.Extents | src/MultiFloatingWindow.ts:94-105 | one extent per child, in order; a stored cursor stays, and an empty store ends with the live cursor of the first child that is not centred |
| MultiFloatingWindow.MaxSize | src/MultiFloatingWindow.ts:92-105 | the result is at least the seed and every extent, and each component is the seed's or some extent's |
| MultiFloatingWindow.SizeByWinsOptions | src/MultiFloatingWindow.ts:89-107 | the size is non-negative and covers every child's extent, and each component is zero or some child's extent; the store is left as measuring the children leaves it |
| MultiFloatingWindow.Lookup | src/MultiFloatingWindow.ts:134-144 | a child's options are found exactly when the options record has its key |
| MultiFloatingWindow.ChildOptions | src/MultiFloatingWindow.ts:146-152 | a child is positioned relative to the editor at the frame's content corner plus its own offsets; its other options are unchanged |
| MultiFloatingWindow.ChildContextUnchanged | src/MultiFloatingWindow.ts:146-152 | translating a child does not change its layout context |
| MultiFloatingWindow.ChildInsideFrame | src/MultiFloatingWindow.ts:97-154 | without an explicit overall size, each translated child's border box lies inside the frame's content box |
| MultiFloatingWindow.WinAction | src/MultiFloatingWindow.ts:146-160 | the action of the batch is the window's open, resume or resize notifier |
| MultiFloatingWindow.ChildNotifiers | src/MultiFloatingWindow.ts:133-154 | children are visited in key order; one without options is skipped and unchanged; on success there is one notifier per child with options, and each such child holds the window its step leaves |
| MultiFloatingWindow.WithOptions | src/MultiFloatingWindow.ts:133-145 | the children that have options, in key order, each with its own options |
| MultiFloatingWindow.StepAllPointwise | src/MultiFloatingWindow.ts:133-154 | a successful run of the steps holds each child's notifier at its position, and the run succeeds whenever every step does |
| MultiFloatingWindow.ChildNotifiersFollowSteps | src/MultiFloatingWindow.ts:133-154 | the children's notifiers are the window action applied to each child with options, in key order, failing with the first failing child's error |
| MultiFloatingWindow.BatchAction | src/MultiFloatingWindow.ts:109-167 | the frame is laid out at the children's size unless one is given, its store updated; building fails exactly when a child's or the frame's notifier fails, children first; on success the list is the children's notifiers in key order followed by the frame's border-only one, all reversed when asked; the children are left as their steps leave them |
| MultiFloatingWindow.BatchLeavesChildren | src/MultiFloatingWindow.ts:132-154 | after a batch every child keeps its key; a child without options is as it was; after a batch that could be built, each child with options holds the window its open, resume or resize leaves, placed at the frame's content corner plus its offsets |
| MultiFloatingWindow.Reverse | src/MultiFloatingWindow.ts:163-165 | reversing puts the last element first |
| MultiFloatingWindow.ReverseOnlyReorders | src/MultiFloatingWindow.ts:163-165 | `reverse` changes only the order of the notifiers |
| MultiFloatingWindow.Open | src/MultiFloatingWindow.ts:169-171 | open builds the open batch with cursor update, fails exactly when building fails, and issues the batch's calls up to the first raise |
| MultiFloatingWindow.Resume | src/MultiFloatingWindow.ts:173-175 | resume builds the resume batch with cursor update, fails exactly when building fails, and issues the batch's calls up to the first raise |
| MultiFloatingWindow.Resize | src/MultiFloatingWindow.ts:177-181 | resize builds the resize batch on the stored cursor, fails exactly when building fails, and issues the batch's calls up to the first raise |
| MultiFloatingWindow.ResumeChildrenNeverFail | src/MultiFloatingWindow.ts:133-154 | when every child's step succeeds, collecting the children's notifiers succeeds |
| MultiFloatingWindow.ResumeNeverFails | src/MultiFloatingWindow.ts:173-175 | building a group resume never fails, since each window renders its border inside its callback; a failing render surfaces as a raise that ends the run |
| MultiFloatingWindow.Performed | src/notifier.ts:23-29 | the calls issued are a prefix of those asked for that stops right after the first raise, and all of them when nothing raises |
| MultiFloatingWindow.FrameRunsLast | src/MultiFloatingWindow.ts:156-166 | without reversing, a built batch is non-empty and the frame's host calls come after all the children's |
| MultiFloatingWindow.RunSplitLast | src/notifier.ts:23-29 | the calls of a list of notifiers are those of all but the last, followed by the last one's |
| WinLayout.WinlayoutArgs | src/WinLayoutFinder.ts:74 | the tab number is passed only when truthy |
| WinLayout.ConversionKeepsShape | src/WinLayoutFinder.ts:41-64 | conversion keeps the shape of the layout: leaf ids, group kinds and child order |
| WinLayout.ConvertLinksEveryNode | src/WinLayoutFinder.ts:41-64 | in the corrected conversion every node but the root links to its enclosing group at its own index |
| WinLayout.AsWrittenLinksOnlyLeaves | src/WinLayoutFinder.ts:45-62 | as written, a leaf links to its enclosing group but a group has no parent |
| WinLayout.FirstMatch | src/WinLayoutFinder.ts:95-111 | no match exactly when no listed leaf has the id |
| WinLayout.FindWinidIsFirstInPreorder | src/WinLayoutFinder.ts:95-111 | `findWinid` returns the first leaf with the id in left-to-right pre-order, and nothing when none has it |
| WinLayout.LeavesAreLeaves | src/WinLayoutFinder.ts:95-111 | every listed leaf is a leaf of the tree at its path, with its id |
| WinLayout.FirstLeafIsFirstInPreorder | src/WinLayoutFinder.ts:82-88 | `getFirstLeafWinid` gives the first leaf in pre-order, and succeeds whenever no group is empty |
| WinLayout.FindClosest | src/WinLayoutFinder.ts:113-141 | a result is a matching leaf reachable from the start over child and parent links; no result means no reachable leaf matches; a matching start is returned itself |
| WinLayout.FindClosestInLayout | src/WinLayoutFinder.ts:113-141 | on a correctly linked tree a result is a matching leaf, and there is none exactly when no leaf of the tree matches |
| WinLayout.AsWrittenMissesSibling | src/WinLayoutFinder.ts:52-62 | as written, searching `col[row[1, 2], 3]` from leaf 1 for window 3 finds nothing although leaf 3 matches |
| WinLayout.CorrectedFindsSibling | src/WinLayoutFinder.ts:113-141 | with the corrected conversion the same search finds leaf 3 |
| VimModule.FilterLineCont | src/VimModule.ts:13-15 | removing line continuations never lengthens the text |
| VimModule.ContAtIsLineContinuation | src/VimModule.ts:14 | a match starts at a position exactly when a newline there is followed by whitespace and then a backslash |
| VimModule.FilterUnchangedIffNoMatch | src/VimModule.ts:13-15 | the text is unchanged exactly when it has no line continuation |
| VimModule.FilterShortens | src/VimModule.ts:13-15 | text with a line continuation gets shorter |
| VimModule.FilterKeepsVisible | src/VimModule.ts:13-15 | only newlines, whitespace and backslashes are removed: the other characters stay, in order |
| VimModule.FilterJoinsContinuedLine | src/VimModule.ts:13-15 | a continued line is joined to the previous one |
| VimModule.RegisterInit | src/VimModule.ts:108-114 | before `init` an initialiser joins the init queue, afterwards the after-queue |
| VimModule.RegisterAfterInitWaits | src/VimModule.ts:108-114 | once inited, a new initialiser goes to the end of the after-queue and the init queue is untouched |
| VimModule.ThrowingIsExactlyThrown | src/VimModule.ts:86-91 | the logged errors are exactly those of the initialisers that threw |
| VimModule.LevelOrderUnfold | src/VimModule.ts:84-96 | the reference run order: the queued initialisers, then everything they registered, level by level |
| VimModule.Init | src/VimModule.ts:49-97 | `inited` is set; the queued initialisers run first, in order; every initialiser, including those registered while running and those waiting in the after-queue, runs once; the after-queue ends empty when anything ran; with an empty after-queue the run is in level order; every throwing initialiser is logged and the others still run |
| VimModule.InitRunsRegisteredFirst | src/VimModule.ts:84-96 | initialisers registered while running run after all those already queued, in registration order |
| VimModule.InitedMod | src/VimModule.ts:125-130 | the module body runs exactly when no module is stored yet; the result is stored and a stored one is returned |
| VimModule.UseModule | src/VimModule.ts:123-157 | however often the module is used, its body runs at most once and every use sees its value |
| VimModule.Create | src/VimModule.ts:116-121 | the module key is a fresh id from the `VimModule.module` counter, an underscore and the module name |
| VimModule.CreateKeysDistinct | src/VimModule.ts:120-121 | two modules created one after the other get different keys, even under one name |
| VimModule.ModuleNames | src/VimModule.ts:7-11 | the global variable is `g:` followed by the global key |
| VimModule.ModuleNamesDistinct | src/VimModule.ts:7-11 | different library ids give different global keys and call functions |
| VimModule.MemberName | src/VimModule.ts:181 | a member's name starts with the global variable and a dot and ends with the member's own name |
| VimModule.MemberNameInjective | src/VimModule.ts:181 | different function names in a module give different names |
| VimModule.InlineCall | src/VimModule.ts:189-190 | an inline call is the call function applied to the module key, the function name and the argument list, which defaults to empty |
| VimModule.InlineCallArgs | src/VimModule.ts:189-190 | no arguments is the same as empty arguments, and different arguments give different calls |
| VimModule.Fn | src/VimModule.ts:176-186 | a function is registered under its member name with description `fn <name>`, and its script is the content with line continuations joined |
| VimModule.Var | src/VimModule.ts:212-226 | a variable is registered under its member name, also its inline form, with description `var <name>`, and is declared from its expression with line continuations joined |

## Left out

- Host I/O is not modelled:
  - every `workspace.nvim` call, buffer option, line and highlight call, and
    `redraw!` is a `HostAction` label, not an effect;
  - the Vim script that `src/modules/floating.ts`, `src/modules/util.ts` and
    `src/modules/buf.ts` run inside the editor is not part of this model;
  - `Notifier.run`, `runAll` and the `pauseNotification` and
    `resumeNotification` bracketing are host transport, so a batch is just
    the sequence of calls it makes, up to a callback that throws. What the
    host does with a batch whose run threw before `resumeNotification` is
    not modelled.
- Asynchrony is not modelled: the `Promise.all` in `create`, the concurrent
  branch of `fire`, and the awaits in `init`, `fire` and the controllers.
  Everything runs in order.
- The initialiser scripts (`initedExecute`, `borderInitedExecute`) are left
  out, and so are the presets' Vim-script strings. They are text for the
  host; only each preset's `focus` and `modifiable` are modelled.
- `opened`, `win`, `borderWin`, `wins` and `dispose` are host queries and
  cleanup.
- `createContext` does not query the host: the screen size, command-line
  height, cursor and display width are parameters.
- `Text.DisplayHeight`: the width must be positive. A zero width gives
  `Infinity` or `NaN` in JavaScript, and there is no floating point here.
- `byteIndex`, `byteLength` and `displayWidth` are left out. They are Node
  buffer lengths and a host call; display width is a function parameter.
- `Events.Fire`: the order and log of a list holding `once` wrappers are not
  stated, only that the wrappers stay. Removing a listener while the list is
  walked changes what the source visits next, and only the plain-listener
  case is pinned down.
- `Events`: disposing through a `Disposable` calls `off`, which is modelled;
  registries are values, not shared mutable maps.
- `FloatingWindow.OpenNotifier`:
  - a failing border render fails the whole open before any host call;
  - the window's stored cursor has already been updated by then, as in the
    source.
- `FloatingUtil.VimIsOneIndexedNvimAround`: in `cursor-around` mode the
  Vim and Neovim positions agree only when the title is no wider than the
  content. Vim places a box of the requested size, while Neovim places the
  box widened for the title, so near a screen edge they can differ
  (`FloatingUtil.AroundWideTitleDiverges`). The model keeps both as written
  and does not claim either is a defect.
- `FloatingWindow.NormalizeHighlight`: the source sets `srcId` to 0 on the
  caller's own highlight objects, so the caller's `options.highlights` are
  changed once the callback has run. The model returns a normalised copy
  and leaves the options as they were; there is no shared mutable state.
- `MultiFloatingWindow.ChildInsideFrame`: this is only proved when the
  overall width and height are not given and every child's offsets are
  non-negative. An explicit smaller size, or a negative offset, can put a
  child outside the frame.
- `MultiFloatingWindow.FrameCreateOptions`: an option key that is present
  but holds `undefined` is not told apart from an absent one. In the source,
  such a key overrides the default in the object spread.
- `WinLayout.FindClosest`:
  - it states which leaves the search can reach, not that the first one
    found is at minimal tree distance;
  - it requires the links to be consistent, which both conversions
    guarantee (`WinLayout.BothConversionsWellLinked`).
- `WinLayout`: the host call `winlayout` itself is not modelled. The layout
  tree is an input, and only the arguments are modelled
  (`WinLayout.WinlayoutArgs`).
- `VimModule.Init`:
  - the first `execute` of the library's Vim functions is a host call and
    is not modelled;
  - initialisers are modelled by what they register and whether they
    throw;
  - the run order is stated exactly only when the after-queue starts empty.
    Otherwise only which initialisers run is stated.
- `VimModule.InitedMod`: a falsy module value is impossible, because the
  module is an object, so "not yet stored" is modelled as `None`.
- `VimModule.Create`:
  - the `Proxy` traps only forward to the memoised module, and are modelled
    as uses of it (`VimModule.UseModule`);
  - the initialiser's own Vim script is a host call;
  - the deprecated one-argument `registerInit` overload is left out.
- `VimModule.Fn`: `call`, `callNotify` and `callNotifier` only forward to
  the host.
- `VimModule.Var`: `get`, `set`, `setNotify` and `setNotifier` only forward
  to the host.
- The logger (`src/util/log.ts`), `genOnError` and `genAsyncCatch` are
  error display, and are left out. A logged error is a trace entry.
- Test helpers, activation and demo code are left out.

## Findings

| source | as written | input that shows it | evidently intended | confidence | as-written member | corrected member |
|---|---|---|---|---|---|---|
| src/WinLayoutFinder.ts:52-62 | `convertVimLayoutNode` gives only leaves a `parent`; a group is built without one, so `findClosest` can climb from a leaf to its own group but no further | layout `col[row[1, 2], 3]`, search from leaf 1 for window 3: returns `undefined` although leaf 3 is in the tree | every child, leaf or group, links to its enclosing group, so the search covers the whole tree | not executed | WinLayout.AsWrittenMissesSibling | WinLayout.FindClosestInLayout |

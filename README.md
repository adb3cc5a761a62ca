# kyuri, modelled in Dafny

`kyuri` is a small Rust library that draws progress bars. A `Manager` owns
a registry of bars. Each bar has a length, a position, a message and a
compiled template. A `Bar` handle changes one bar and asks the manager to
redraw. The manager throttles redraws with a ticker flag, a minimum
interval and a dirty flag. On a terminal it erases the previous frame with
ANSI codes before it writes the new one. On a plain file it writes only the
bars that changed.

The model covers these parts of the library:

- the template compiler, `Template::new` (src/template.rs), in
  `template.dfy`. It has two forms:
  - a pure specification: `Fragments`, `PartsOf` and `Compile`;
  - the imperative scanner the source runs: `ScanFragments`, `OpenTag`,
    `ReadTag`, `FragmentsToParts` and `PushText`. Each is proved equal to
    the specification.
- the formatting helpers `duration_to_human`, `bytes_to_human` and
  `string_width`, in `format.dfy`.
- `BarState::render` and the pieces of it that need only integers, in
  `render.dfy`. These are the state emoji and the bar glyph.
- the bar registry (a `BTreeMap` keyed by increasing ids), in
  `registry.dfy`. It also defines what one `draw_inner` pass writes, which
  dirty flags it clears and how many terminal rows it counts.
- every operation of `ManagerInner`, `Manager` and `Bar`, in
  `scheduler.dfy`. Each is a pure function on a `ManagerState` value. This
  file also holds the lemmas about them: the draw gates, the terminal
  framing, the setters and getters, the teardown defaults, and one
  invariant kept by every public call.
- the objects themselves, in `manager.dfy`: classes `Manager` (the fields
  of `ManagerInner`, updated in place) and `Bar` (an id and a manager).
  Every method is proved to leave the manager exactly in the state the
  matching Scheduler function gives. The loops of `draw_inner` and
  `clear_existing` are kept as loops.
- the file-sink unit test of src/lib.rs, in `trace.dfy`. A client method
  runs the same calls on the objects. It is proved to produce exactly the
  text the test expects.

Time is a natural number of nanoseconds, passed to each call as `now`. The
sink is a datatype with two fields: whether it is a terminal, and its
column count, which is at least 1. Everything ever written is kept in the
string `out`. The Rust `u64` fields are the subset type `u64`.

The crate documents more than its code does. Where the two differ, the
model follows the code:

- the module documentation at src/lib.rs:28-41 lists `{len}`, `{bar}`,
  `{barNUM}` and `{state_emoji}` among the supported tags, but the tag
  table of `Template::new` (src/template.rs:96-113) knows none of them, so
  they stay literal text. `render` does handle `Bar(size)` and
  `StateEmoji` parts. `Template.TagTable` pins the table name by name, `Template.DocumentedTagsUnknown` shows those four names unknown, and
  `Template.CompileParsed` proves that the compiler never produces those
  two parts.
- the documentation of `set_ticker` (src/lib.rs:430-432) says the ticker
  draws at a fixed interval. The ticker's own redraw is an unforced
  `draw`, and `Scheduler.DrawGates` shows that such a draw is always
  dropped while the ticker is set.

## Model

| member | source | states |
|---|---|---|
| Strings.Split | src/template.rs:83 | `str::split` on one separator gives one piece more than the separator occurs, and no piece contains the separator |
| Strings.JoinSplit | src/template.rs:82-90 | joining the pieces of a split with the separator gives the text back |
| Strings.SplitJoin | src/template.rs:82-90 | splitting a join of separator-free pieces gives the pieces back |
| Strings.SplitAt | src/lib.rs:262 | splitting `x + sep + y` gives the pieces of `x` followed by the pieces of `y` |
| Strings.SplitPrefix | src/lib.rs:262 | a separator-free prefix followed by the separator becomes the first piece |
| Strings.SplitNoSep | src/lib.rs:262 | a text without the separator splits into itself alone |
| Strings.NatToString | src/lib.rs:139 | `to_string` of an integer: decimal digits whose value is n, without a leading zero, and "0" exactly for 0 |
| Strings.Repeat | src/lib.rs:165-170 | the glyph loops push exactly n copies of one char |
| Strings.RepeatStr | src/lib.rs:232-234 | n copies of a string have n times its length |
| Template.TagPart | src/template.rs:96-113 | a tag yields a part exactly when its name is one of the eleven known names, and that part is one of the field instructions |
| Template.TagTable | src/template.rs:96-113 | the table name by name: each of the eleven known names and its field |
| Template.DocumentedTagsUnknown | src/lib.rs:37-41 | `len`, `bar`, `bar20` and `state_emoji`, documented as tags, are unknown to the table and stay literal text |
| Template.CloseIndex | src/template.rs:48-54 | the inner loop stops at the first `}`; no `}` occurs before that position |
| Template.CloseIndexUnique | src/template.rs:48-54 | any position that holds the first `}` is the one the loop finds |
| Template.PushText | src/template.rs:82-90 | `push_text` appends the text's pieces between `\n` breaks, as Text parts alternating with Newline parts |
| Template.TextParts | src/template.rs:82-90 | definition of what `push_text` appends; described by `Template.TextPartsShape` |
| Template.InterleaveSnoc | src/template.rs:84-89 | one more piece adds a Newline (unless it is the first piece) and then its Text |
| Template.PartsOfAppend | src/template.rs:91-116 | the parts of two fragment lists, one after the other, are the parts of each list in turn |
| Template.ScanTag | src/template.rs:41-57 | `{` up to the first `}` flushes the pending text and emits the tag content as a tag fragment |
| Template.Fragments | src/template.rs:32-79 | definition of the first loop as a recursive function over the rest of the input and the pending text; `Template.ScanFragments` is proved equal to it and the Scan*/Compile* lemmas describe it |
| Template.PartsOf | src/template.rs:91-116 | definition of the second loop over the fragments; described by `Template.PartsOfAppend`, `Template.PartsOfFlush` and `Template.PartsOfParsed` |
| Template.Compile | src/template.rs:26-119 | definition of `Template::new` as `PartsOf(Fragments(template))`; described by `Template.CompileLiteral`, `Template.TagInContext`, `Template.Unterminated` and `Template.CompileParsed` |
| Template.ScanUnterminated | src/template.rs:41-61 | a `{` with no later `}` flushes the pending text and emits `{` and the rest of the input verbatim, as one text fragment |
| Template.ReadTag | src/template.rs:46-54 | the inner `for` loop returns the content up to the first `}` and whether one was found, with the position after it |
| Template.TagRead | src/template.rs:42-57 | a closed tag in the scanner's state matches the fragment specification |
| Template.TagUnread | src/template.rs:58-61 | an unclosed `{` in the scanner's state matches the fragment specification |
| Template.OpenTag | src/template.rs:41-62 | the `{` branch of the scanner keeps the scanned-so-far fragments consistent with the specification |
| Template.ScanFragments | src/template.rs:32-79 | the `while let` scanner returns exactly the fragments of the specification |
| Template.FragmentsToParts | src/template.rs:81-116 | the second loop turns the fragments into their parts, in order |
| Template.NewTemplate | src/template.rs:26-119 | `Template::new` returns the compiled parts of its argument |
| Template.InterleaveShape | src/template.rs:82-90 | k + 1 pieces give 2k + 1 parts: the pieces at even positions, Newline at odd ones; their text joined with `\n` is the pieces joined with `\n` |
| Template.TextPartsShape | src/template.rs:82-90 | a literal text with k line breaks gives k + 1 Text parts without `\n`, alternating with k Newline parts, and their text is the original |
| Template.FragmentsLiteralPrefix | src/template.rs:35-76 | scanning a tag-free prefix only adds its literal reading to the pending text |
| Template.LiteralPrefixEscaped | src/template.rs:37-40 | the escaped-brace step of the prefix scan |
| Template.LiteralPrefixChar | src/template.rs:64-74 | the plain-char step of the prefix scan |
| Template.CompileEmpty | src/template.rs:77-81 | the empty template gives no parts |
| Template.CompileLiteral | src/template.rs:35-95 | a template without a tag compiles to its literal reading, split at line breaks; the text of the parts is that reading |
| Template.UnescapedBraceFree | src/template.rs:72-74 | without braces the literal reading is the text itself |
| Template.CompileBraceFree | src/template.rs:72-95 | a template without braces gives Text/Newline parts whose text is the input, and no parts exactly for the empty input |
| Template.PartsOfFlush | src/template.rs:42-45 | flushing pending text emits it only when it is not empty |
| Template.CompileAfterLiteral | src/template.rs:35-79 | a tag-free prefix reaches the rest of the input as pending text |
| Template.FragmentsOfTag | src/template.rs:41-57 | `{t}` emits the pending text, then the tag fragment, then scanning restarts with empty pending text |
| Template.PartsOfTagThen | src/template.rs:91-116 | pending text, then a tag, then more fragments give their parts in that order |
| Template.TagInContext | src/template.rs:42-114 | `pre{t}post` compiles to the parts of `pre`, then the tag's part (or the literal `{t}` text), then the parts of `post` |
| Template.SingleTag | src/template.rs:91-117 | a template that is one known tag gives exactly that field and no Text; an unknown one gives the single Text `{t}` |
| Template.FragmentsOfUnterminated | src/template.rs:56-61 | `{` with no `}` after it becomes one text fragment, separate from the pending text |
| Template.Unterminated | src/template.rs:42-79 | `pre{rest` with no `}` in `rest` compiles to the parts of `pre`, then `{rest` as literal text |
| Template.InterleaveParsed | src/template.rs:84-89 | pieces without line breaks give only Text and Newline parts |
| Template.PartsOfParsed | src/template.rs:91-116 | the second loop emits neither Bar, nor StateEmoji, nor a Text holding `\n` |
| Template.CompileParsed | src/template.rs:26-119 | no compiled template contains a Bar or StateEmoji part, or a Text with a line break |
| Format.Pad2 | src/lib.rs:82 | `{:02}` of a number below 100 is two digits with that value |
| Format.DurationToHuman | src/lib.rs:77-83 | definition of `duration_to_human`; described by `Format.DurationFields` and `Format.ParseDuration` |
| Format.DurationFields | src/lib.rs:77-83 | `duration_to_human` is three `:`-separated fields: H = s/3600 unpadded, MM and SS two digits below 60, and 3600·H + 60·MM + SS = s |
| Format.ParseDuration | src/lib.rs:77-83 | reading the `H:MM:SS` text back gives the seconds |
| Format.UnitOf | src/lib.rs:91-101 | B exactly below 1024; otherwise the unit's scale is at most n, and n is below 1024 times the scale unless the unit is TiB |
| Format.UnitUnique | src/lib.rs:91-101 | a unit whose range holds n is the unit chosen |
| Format.Hundredths | src/lib.rs:94-100 | the two decimals are n/scale rounded to the nearest hundredth |
| Format.BytesToHuman | src/lib.rs:85-102 | definition of `bytes_to_human`; described by `Format.BytesShape`, `Format.UnitOf` and `Format.Hundredths` |
| Format.StringWidth | src/lib.rs:104-114 | `string_width` without the `unicode` feature: the number of chars |
| Format.BytesShape | src/lib.rs:85-102 | `bytes_to_human(n)` is a number, a space and the chosen unit; below 1024 the number is exactly n |
| Format.BytesSmallExamples | src/lib.rs:91-92 | 0 and 10 bytes print as `0 B` and `10 B` |
| Format.BytesKiBExample | src/lib.rs:93-94 | 1536 bytes print as `1.50 KiB` |
| Format.BytesGiBExample | src/lib.rs:97-98 | 1024³ bytes print as `1.00 GiB` |
| BarRender.Since | src/lib.rs:119 | `Instant` subtraction: the exact difference, or 0 when the earlier reading is later |
| BarRender.Rate | src/lib.rs:120 | the rate fits in u64; below the saturation point it is ⌊pos / elapsed seconds⌋ (both bounds); with no elapsed time it is 0 exactly when pos is 0 |
| BarRender.Remaining | src/lib.rs:154 | `len - pos` on u64: the difference, wrapping when pos > len as a release build does |
| BarRender.Scaled | src/lib.rs:161 | ⌊a·b/c⌋ |
| BarRender.EtaSecs | src/lib.rs:150-158 | the eta fits in u64; with no elapsed time it is 0; otherwise, below the saturation point, it is ⌊remaining · elapsed / (pos per second)⌋ (both bounds) |
| BarRender.Fill | src/lib.rs:161 | the fill fits in usize; for len > 0 and below the saturation point it is ⌊pos · width / len⌋ (both bounds), so at most the width while pos ≤ len; it is 0 for pos 0; an empty bar with pos > 0 saturates |
| BarRender.BarGlyph | src/lib.rs:160-182 | definition of the glyph loops; described by `BarRender.BarGlyphShape` |
| BarRender.BarGlyphShape | src/lib.rs:160-182 | `[`, `=` up to min(fill, width), then either blanks and a closing `]` (length width + 2) or `!` past the width with no `]` |
| BarRender.GlyphClosedUntilFull | src/lib.rs:161-171 | while pos ≤ len the glyph is closed and width + 2 long |
| BarRender.GlyphHalfExample | src/lib.rs:160-171 | pos 50 of 100 at width 20 gives 10 `=` and 10 blanks |
| BarRender.GlyphOverrunExample | src/lib.rs:172-181 | pos 15 of 10 at width 10 gives 10 `=`, 5 `!` and the overflow emoji |
| BarRender.Emoji | src/lib.rs:183-194 | ✅ iff pos = len (tested first); 🆕 iff pos = 0 otherwise; 💥 iff pos > len otherwise; ⏳ iff 0 < pos < len |
| BarRender.RenderPart | src/lib.rs:122-195 | definition of one arm of the `match` in `render`; described by the Render* lemmas and `FileSink.SimpleRender` |
| BarRender.Render | src/lib.rs:117-198 | definition of `render` over the template's parts; described by `BarRender.RenderPartsAppend`, `BarRender.RenderTagFree` and `BarRender.RenderTagInContext` |
| BarRender.RenderPartsAppend | src/lib.rs:121-196 | rendering a concatenation of parts gives the concatenation of their texts |
| BarRender.RenderLiteralParts | src/lib.rs:123-128 | Text and Newline parts render to their literal text |
| BarRender.RenderTagFree | src/lib.rs:117-198 | a tag-free template renders to its literal reading, whatever the bar's state |
| BarRender.RenderTagInContext | src/lib.rs:121-196 | `pre{t}post` with a known tag renders to the literal `pre`, the field's text, then `post` rendered |
| Registry.Lookup | src/lib.rs:520 | the map lookup finds an entry with that id, or there is none |
| Registry.LookupUnique | src/lib.rs:520 | in a registry ordered by id, the entry with an id is the one found |
| Registry.Get | src/lib.rs:520 | definition of `BTreeMap::get`; `Kyuri.Bar.Locate` and `Registry.LookupUnique` describe it |
| Registry.Insert | src/lib.rs:465-469 | definition of `BTreeMap::insert`; described by `Registry.InsertFresh` |
| Registry.InsertFresh | src/lib.rs:465-469 | inserting an id above every present id appends it at the end |
| Registry.Remove | src/lib.rs:660 | removal keeps exactly the entries with other ids |
| Registry.RemoveOrdered | src/lib.rs:660 | removal keeps the registry ordered |
| Registry.RemoveAbsent | src/lib.rs:659-660 | removing an absent id changes nothing |
| Registry.Selected | src/lib.rs:254-259 | definition of the two `continue` tests of `draw_inner`; used by `Registry.PassSkipped` and `Registry.FrameHidden` |
| Registry.Segment | src/lib.rs:260 | definition of the text one bar writes; used by `Registry.PassSelected` |
| Registry.Frame | src/lib.rs:251-274 | definition of everything one `draw_inner` pass writes; `Kyuri.Manager.WriteBars` is proved to write it and `Registry.FrameEndsLine`, `Registry.FrameHidden` and `Registry.FrameRowsWrapped` describe it |
| Registry.Cleared | src/lib.rs:252-274 | after the pass, every written bar has its dirty flag cleared and every other field and id is unchanged |
| Registry.PassStep | src/lib.rs:252-274 | one more bar adds its segment and its rows only when it is selected |
| Registry.ClearedSplice | src/lib.rs:273 | clearing the current bar's flag moves the boundary of the pass by one |
| Registry.PassAdvance | src/lib.rs:252-274 | one iteration: a visible bar (dirty, off a terminal) is written with its rows and its flag is cleared; any other bar is skipped |
| Registry.PassAt | src/lib.rs:252-253 | the pass reaches each bar before changing it |
| Registry.PassSelected | src/lib.rs:260-273 | a written bar appends `render()` and a newline and counts its rows |
| Registry.PassSkipped | src/lib.rs:254-259 | an invisible bar, or a clean one off a terminal, is skipped |
| Registry.PassDone | src/lib.rs:251-278 | after the loop the output, flags and row count are those of the whole registry |
| Registry.RowsCeiling | src/lib.rs:265-269 | the rows of a line are ⌈width/cols⌉, and 0 exactly for an empty line |
| Registry.SumRowsStep | src/lib.rs:264-270 | the per-line count adds one line's rows |
| Registry.SumRowsAppend | src/lib.rs:262-270 | the row count adds up over consecutive lines |
| Registry.WrappedRowsEmpty | src/lib.rs:265-269 | an empty text takes no rows |
| Registry.WrappedRowsAppend | src/lib.rs:261-271 | after a text that ends in a line break, row counts add up |
| Registry.FrameEndsLine | src/lib.rs:260 | a frame is empty or ends in a line break |
| Registry.FrameRowsWrapped | src/lib.rs:261-277 | the stored line count is the sum over the frame's `\n`-separated segments of ⌈width/cols⌉ |
| Registry.FrameHidden | src/lib.rs:254-256 | invisible bars write nothing |
| Registry.FrameClearedQuiet | src/lib.rs:257-259 | off a terminal, a second pass right after a pass writes nothing |
| Scheduler.New | src/lib.rs:375-389 | definition of `Manager::new`; `Kyuri.Manager.constructor` is proved to build it |
| Scheduler.IsTerminal | src/lib.rs:237-243 | definition of `is_terminal`; described by `Scheduler.AnsiChoice` |
| Scheduler.ClearExisting | src/lib.rs:231-235 | definition of `clear_existing`; described by `Scheduler.EraseLength` |
| Scheduler.DrawInner | src/lib.rs:245-279 | definition of `draw_inner`; described by `Scheduler.DrawOutput` and the Frame lemmas |
| Scheduler.MarkRedraw | src/lib.rs:281-284 | definition of `mark_redraw` |
| Scheduler.Draw | src/lib.rs:286-313 | definition of `draw`; described by `Scheduler.DrawGates`, `Scheduler.DrawOutput`, `Scheduler.DrawKeepsShape`, `Scheduler.DrawInv` and `Scheduler.DrawKeepsReads` |
| Scheduler.Suspend | src/lib.rs:315-327 | definition of `suspend`; described by `Scheduler.SuspendEffect` |
| Scheduler.WithSink | src/lib.rs:395-414 | definition of `with_stdout`, `with_stderr` and `with_file` |
| Scheduler.ForceAnsi | src/lib.rs:424-428 | definition of `force_ansi`; described by `Scheduler.AnsiChoice` |
| Scheduler.AutoAnsi | src/lib.rs:417-421 | definition of `auto_ansi`; described by `Scheduler.AnsiChoice` |
| Scheduler.SetTicker | src/lib.rs:433-440 | definition of `set_ticker`, keeping only whether a ticker exists |
| Scheduler.CreateBar | src/lib.rs:450-480 | definition of `create_bar`; described by `Scheduler.CreateBarEffect` |
| Scheduler.Handle | src/lib.rs:518-522 | definition of `get_manager_and_state` |
| Scheduler.Update | src/lib.rs:525-561 | definition of `inc`, `set_pos` and `set_len` (and of `set_message` and `set_template`, which have the same shape); described by `Scheduler.UpdateLocal`, `Scheduler.SetThenGet` and `Scheduler.UpdateThrottled` |
| Scheduler.Finish | src/lib.rs:580-591 | definition of `finish`; described by `Scheduler.FinishEffect` |
| Scheduler.SetVisible | src/lib.rs:600-612 | definition of `set_visible`; described by `Scheduler.SetVisibleEffect` |
| Scheduler.DropBar | src/lib.rs:656-665 | definition of `Drop for Bar`; described by `Scheduler.DropBarEffect` |
| Scheduler.Teardown | src/lib.rs:510-515 | definition of `Drop for ManagerInner`; described by `Scheduler.TeardownDraws` and `Scheduler.TeardownDefaults` |
| Scheduler.GetPos | src/lib.rs:566-569 | definition of `get_pos`: the position, or 0 without a live bar |
| Scheduler.GetLen | src/lib.rs:574-577 | definition of `get_len`: the length, or 0 without a live bar |
| Scheduler.IsVisible | src/lib.rs:617-620 | definition of `is_visible`: the visibility, or false without a live bar |
| Scheduler.Alive | src/lib.rs:651-653 | definition of `alive`: whether the handle reaches a registered bar of a live manager |
| Scheduler.DrawGates | src/lib.rs:286-313 | unforced draws are dropped while a ticker runs or within the interval; any draw is dropped without the redraw flag; a draw that passes clears the flag and sets `last_draw` |
| Scheduler.DrawOutput | src/lib.rs:296-312 | a draw that passes writes the erase codes (terminal and non-empty registry only), then the frame; it clears the written bars' flags and stores the frame's rows on a terminal |
| Scheduler.EraseLength | src/lib.rs:231-235 | `clear_existing` writes `last_lines` copies of the 7-char up/clear code |
| Scheduler.SuspendEffect | src/lib.rs:315-327 | `suspend` erases and redraws only on a terminal, and touches neither the redraw flag nor `last_draw`; off a terminal it only writes the closure's output |
| Scheduler.UpdateThrottled | src/lib.rs:524-561 | a throttled setter writes nothing, keeps `last_draw`, and leaves the manager's redraw flag raised |
| Scheduler.NonTerminalRedrawQuiet | src/lib.rs:257-259 | off a terminal, a forced redraw right after a draw writes nothing |
| Scheduler.AnsiChoice | src/lib.rs:416-428 | `force_ansi` decides the terminal mode; `auto_ansi` hands it back to the sink; both raise the redraw flag |
| Scheduler.DrawKeepsShape | src/lib.rs:245-279 | a draw changes only dirty flags: ids and every other bar field stay |
| Scheduler.DrawInv | src/lib.rs:286-313 | a draw keeps ids ordered and below the next id |
| Scheduler.RegisteredFacts | src/lib.rs:451-469 | the fresh id is unused; the new bar is appended with pos 0 and the dirty flag set |
| Scheduler.CreateBarEffect | src/lib.rs:450-480 | `create_bar` hands out `next_id` and moves it on by one; other bars keep their fields; only a visible bar forces a draw |
| Scheduler.UpdateLocal | src/lib.rs:524-646 | a setter changes its own field of its own bar and nothing else of any bar; when its draw is throttled, the bar's own redraw flag stays raised for the next draw |
| Scheduler.SetThenGet | src/lib.rs:524-646 | each getter returns what its setter stored, and the other fields read as before |
| Scheduler.DrawKeepsReads | src/lib.rs:286-313 | a draw does not change what `get_pos`, `get_len`, `is_visible` and `alive` return |
| Scheduler.FinishEffect | src/lib.rs:580-591 | `finish` leaves pos = len, with the length and visibility unchanged; without a live bar it does nothing |
| Scheduler.SetVisibleFlip | src/lib.rs:600-612 | a real change of visibility keeps the bar's place and its other fields |
| Scheduler.SetVisibleEffect | src/lib.rs:600-620 | `set_visible` with the current value does nothing; otherwise `is_visible` reads the new value and pos and len are kept |
| Scheduler.DropBarEffect | src/lib.rs:656-665 | dropping a bar removes only its own id and keeps every other bar's fields; a bar already gone does nothing |
| Scheduler.TeardownDefaults | src/lib.rs:517-654 | after the manager is dropped, the getters read 0, 0, false, false and every mutator is a no-op |
| Scheduler.TeardownDraws | src/lib.rs:510-515 | dropping the manager makes one last forced draw |
| Scheduler.DrawAppends | src/lib.rs:286-313 | a draw only appends to the sink |
| Scheduler.DrawFacts | src/lib.rs:286-313 | a draw keeps the invariant, only appends, and keeps ids and liveness |
| Scheduler.UpdateFacts | src/lib.rs:524-646 | a setter keeps the invariant, only appends, and keeps ids and liveness |
| Scheduler.SuspendFacts | src/lib.rs:315-327 | `suspend` keeps the invariant and only appends |
| Scheduler.SetVisibleFacts | src/lib.rs:600-612 | `set_visible` keeps the invariant and only appends |
| Scheduler.FinishFacts | src/lib.rs:580-591 | `finish` keeps the invariant and only appends |
| Scheduler.DropBarFacts | src/lib.rs:656-665 | dropping a bar keeps the invariant and only appends |
| Scheduler.StepInvariant | src/lib.rs:225-665 | every public call keeps ids ordered and below `next_id`, never takes back output, never lowers `next_id`, and never revives a dropped manager |
| Kyuri.RowsOf | src/lib.rs:261-271 | the row-counting loop computes the wrapped rows of the text |
| Kyuri.Manager.constructor | src/lib.rs:375-389 | `Manager::new`: no bars, ids from 0, no ANSI override, no ticker, clean, last draw one interval ago |
| Kyuri.Manager.IsTerminal | src/lib.rs:237-243 | the forced ANSI choice if set, else the sink's own answer |
| Kyuri.Manager.ClearExisting | src/lib.rs:231-235 | the loop writes the erase code `last_lines` times |
| Kyuri.Manager.WriteBar | src/lib.rs:253-273 | one iteration of `draw_inner`'s loop, including both `continue`s, moves the pass on by one bar |
| Kyuri.Manager.WriteBars | src/lib.rs:251-274 | the loop writes the frame of the registry, clears the written flags and returns the frame's rows on a terminal |
| Kyuri.Manager.DrawInner | src/lib.rs:245-279 | `draw_inner` in place, as the specification function says |
| Kyuri.Manager.MarkRedraw | src/lib.rs:281-284 | raises the redraw flag |
| Kyuri.Manager.Draw | src/lib.rs:286-313 | `draw` in place, as the specification function says, keeping the registry invariant |
| Kyuri.Manager.Suspend | src/lib.rs:315-327 | `suspend` in place, as the specification function says, keeping the registry invariant |
| Kyuri.Manager.WithSink | src/lib.rs:395-414 | `with_stdout`, `with_stderr`, `with_file`: new sink, redraw flag raised |
| Kyuri.Manager.ForceAnsi | src/lib.rs:424-428 | sets the ANSI override and raises the redraw flag |
| Kyuri.Manager.AutoAnsi | src/lib.rs:417-421 | clears the ANSI override and raises the redraw flag |
| Kyuri.Manager.SetTicker | src/lib.rs:433-440 | records whether a ticker exists |
| Kyuri.Manager.CreateBar | src/lib.rs:450-480 | registers the bar under `next_id`, returns a fresh handle with that id, forces a draw when visible, and keeps the invariant |
| Kyuri.Manager.Drop | src/lib.rs:510-515 | a final forced draw, after which no handle reaches the manager; the registry invariant is kept |
| Kyuri.Bar.constructor | src/lib.rs:476-479 | a handle holds the id and the manager |
| Kyuri.Bar.Locate | src/lib.rs:518-522 | `get_manager_and_state` finds the bar exactly when the manager lives and the id is registered |
| Kyuri.Bar.Change | src/lib.rs:525-534 | a setter updates the bar in place, then marks a redraw and makes an unforced draw; the manager's registry invariant is kept |
| Kyuri.Bar.Inc | src/lib.rs:525-535 | `inc` as the specification says |
| Kyuri.Bar.SetPos | src/lib.rs:538-548 | `set_pos` as the specification says |
| Kyuri.Bar.SetLen | src/lib.rs:551-561 | `set_len` as the specification says |
| Kyuri.Bar.SetMessage | src/lib.rs:623-633 | `set_message` as the specification says |
| Kyuri.Bar.SetTemplate | src/lib.rs:636-646 | `set_template` recompiles the template, as the specification says |
| Kyuri.Bar.GetPos | src/lib.rs:566-569 | the position, or 0 once the manager or bar is gone |
| Kyuri.Bar.GetLen | src/lib.rs:574-577 | the length, or 0 once the manager or bar is gone |
| Kyuri.Bar.Finish | src/lib.rs:580-591 | `finish` as the specification says |
| Kyuri.Bar.SetVisible | src/lib.rs:600-612 | `set_visible` as the specification says |
| Kyuri.Bar.IsVisible | src/lib.rs:617-620 | the visibility, or false once the manager or bar is gone |
| Kyuri.Bar.Alive | src/lib.rs:651-653 | whether the handle still reaches its bar |
| Kyuri.Bar.Drop | src/lib.rs:656-665 | `Drop for Bar` as the specification says |
| FileSink.KnownTags | src/template.rs:98-105 | `msg`, `bytes` and `total_bytes` name the Message, Bytes and TotalBytes fields |
| FileSink.SimpleRender | src/lib.rs:783 | the test's template renders as the message, a line break, the position in bytes, `/`, and the length in bytes |
| FileSink.BytesDigit | src/lib.rs:91-92 | a one-digit count prints as that digit and ` B` |
| FileSink.SegmentOf | src/lib.rs:260 | the segment a test bar writes at a given position |
| FileSink.Opened | src/lib.rs:790-791 | `Manager::new(1 s).with_file(..)`: an empty registry with the redraw flag raised |
| FileSink.FirstBar | src/lib.rs:792-797 | creating the first visible bar writes it at once and clears all flags |
| FileSink.SecondBar | src/lib.rs:798-803 | creating the second bar off a terminal writes only the new bar |
| FileSink.SetFirst | src/lib.rs:805 | `set_pos` less than a second after the last draw only marks bar 0 and the manager dirty |
| FileSink.SetSecond | src/lib.rs:806 | `set_pos` less than a second after the last draw only marks bar 1 and the manager dirty |
| FileSink.DrawBoth | src/lib.rs:807 | a forced draw with both bars dirty writes both, in id order, and clears them |
| FileSink.TraceOutput | src/lib.rs:782-833 | each call with its own clock reading, the readings in order and each `set_pos` less than a second after the forced draw before it: the whole test writes exactly the expected text, and the manager ends dropped |
| FileSink.Run | src/lib.rs:790-831 | the same calls on the objects, under the same timing, produce the expected text, and the handle then reports the manager gone |

## Left out

- The loop helpers `Kyuri.Manager.WriteBar` and `Kyuri.Manager.WriteBars` (the body of `draw_inner`'s loop) do not require or ensure `Valid()`. They state the registry they leave instead, and `Kyuri.Manager.DrawInner` keeps `Valid()` on top of them.
- The ticker thread (src/ticker.rs) is not modelled, because it is concurrent. Only its presence, which gates unforced draws, is modelled.
- The writer (src/writer.rs) and `Manager::create_writer` are not modelled. The writer is I/O plumbing over `suspend`, and `Scheduler.Suspend` takes the closure's output as a parameter `written`.
- The closure's result in `suspend` is not modelled. Only its effect on the sink is.
- The terminal-size query (src/termsize) is a foreign call, so the sink carries its column count as a field. Its fallback of 80 is the `Columns` witness.
- Whether a sink is a terminal is a field of the sink, not a system call.
- `Mutex`, `Arc`, `Weak` and the atomics are not modelled. Each public call is one atomic step. A `Bar` handle refers to the `Manager` object directly, and the manager's `alive` field stands for a successful `Weak::upgrade`.
- Each bar's state sits as a value inside the registry, so the sharing of one `Arc<Mutex<BarState>>` between the map and a caller is not modelled.
- `Bar::finish` holds the bar's lock while `set_pos` locks the same mutex again. Only the sequential effect of `finish` is modelled, not that locking hazard.
- `finish_and_drop` is not a member of its own. It is `Kyuri.Bar.Finish` followed by `Kyuri.Bar.Drop`.
- The clock is one `now` per call. Within one call, the source reads `Instant::now()` separately in `render`, in `draw` and in `create_bar`; the model gives all of them that call's reading.
- `string_width` with the `unicode` feature is not modelled, because it is a foreign crate. The char-count branch is modelled.
- Format.BytesToHuman: the two decimals are n/scale rounded half up on exact rationals. The source formats an `f64` with `{:.2}`, which rounds the binary value, so exact ties may print differently. The unit and the `"<n> B"` case are exact.
- BarRender.Rate: the `f64` rate is replaced by the floor of the exact quotient, saturating as the `as u64` cast does. The `f64` rounding of the division is not modelled.
- BarRender.Remaining: models `len - pos` as a release build computes it, wrapping modulo 2⁶⁴. In a debug build the subtraction panics when pos > len (a bar past its length, shown as 💥), inside `draw_inner` while the manager's locks are held. That panic is not modelled.
- BarRender.EtaSecs: the `f64` eta is replaced by the floor of the exact quotient of `Remaining` by the rate. It inherits the release-build wrap of `BarRender.Remaining`; the debug-build panic is not modelled. The `f64` rounding is not modelled.
- BarRender.Fill: the `f64` product `pos / len * size` is replaced by ⌊pos·size/len⌋. The NaN and ∞ casts for len = 0 are modelled as 0 and `usize::MAX`. The `f64` rounding is not modelled.
- Kyuri.Bar.Inc: requires pos + n < 2⁶⁴ (`Scheduler.Fits`). The source's `+=` would panic in a debug build and wrap in a release build.
- Template.TagPart: its contract says which names are known and that each yields a field instruction, but not which field. The name-by-name mapping is stated by `Template.TagTable`, which has no parameter.
- `next_id` wrap-around at `usize::MAX` is not modelled, because ids are unbounded naturals.

# stackbloatless: markdown rendering and locale normalisation in Dafny

stackbloatless is a GTK client for Stack Exchange. It shows a post body by
parsing its markdown into an mdast syntax tree and writing that tree into a
GTK text buffer. Each write goes to the end of the buffer. Some runs carry
style tags. Some positions carry a child anchor, which holds a widget such
as a link icon, a framed code block or a grid view for a table.

This project models two revisions of that renderer, plus the helper that
picks the locale for dates.

- **Current revision** (`src/gui/markdown2gtk/imp.rs`). It has these parts:
  - `load_text_tags` registers eleven named tags.
  - `md_paragraph2buf` handles inline content.
  - `md_list2buf` handles lists. Each list gets one anonymous indent tag,
    and each item gets a marker.
  - `md_table2buf` projects a GFM table onto a flat, row-major cell model.
  - `md2gtk` dispatches over the top-level blocks.
- **Earlier revision** (`src/gui/markdown2gtk.rs`). It registers four named
  tags and uses link buttons and framed code blocks. Lists are indented
  with tabs and numbered from 0. Tables are not implemented.
- **`get_system_time_locale`** (`src/utils.rs`). It picks the first of
  LC_ALL, LC_TIME and LANG that is set, falling back to `"en"`. It then
  drops everything from the first `.` onward.

How the model is built:
- The buffer is the class `TextBuffer.Buffer`. It holds a sequence of
  entries and a tag table. Entries are text runs with their tag references,
  and anchors with their widget.
- Every renderer operation has a specification function. It returns the
  `Emission` the operation appends: the entries, the tags added to the
  table, and whether it ran to the end or hit `todo!`, `unimplemented!` or
  `unreachable!`.
- Every renderer operation also has a method. The method performs the
  buffer writes the source performs, in the same order and with the same
  loops. It is proved to leave the buffer extended by exactly that
  Emission.
- A panic stops the render. The writes made before it stay in the model,
  but `md2gtk` never returns its text view in that case.
- The properties modules prove what the functions mean:
  - which documents render without panicking, as an if-and-only-if against
    independent predicates;
  - that every anonymous tag a document's runs refer to was added by the
    render itself, after the registry (that each is used only once it
    exists is the precondition of `Buffer.InsertWithTags`, met at every call
    in the methods);
  - that list markers come out in order;
  - where the two revisions agree and where they differ.

## Model

| member | source | states |
|---|---|---|
| TextBuffer.Buffer.Insert | src/gui/markdown2gtk/imp.rs:15 | appends one untagged run at the end; the old entries are a prefix of the new ones; the tag table is unchanged |
| TextBuffer.Buffer.InsertWithTagsByName | src/gui/markdown2gtk/imp.rs:13 | appends one run tagged by the given names, each of which must be a registered tag; earlier entries and the tag table are unchanged |
| TextBuffer.Buffer.InsertWithTags | src/gui/markdown2gtk/imp.rs:65 | appends one run tagged by handles of existing tags; earlier entries and the tag table are unchanged |
| TextBuffer.Buffer.InsertChildAnchor | src/gui/markdown2gtk/imp.rs:44-53 | appends one anchor carrying its widget; earlier entries and the tag table are unchanged |
| TextBuffer.Buffer.AddTag | src/gui/markdown2gtk/imp.rs:63 | appends one tag to the table and returns its handle (its position); a named tag must have a new name; entries are unchanged and every existing run still resolves its tags |
| TextBuffer.NamedAppend | src/gui/markdown2gtk/imp.rs:300-384 | after adding a tag, a name is registered exactly when it was before or is the new tag's name |
| Fmt.DecimalRoundTrip | src/gui/markdown2gtk/imp.rs:188 | reading back the decimal digits that `format!("{}", n)` writes gives n |
| Fmt.DecimalStringInjective | src/gui/markdown2gtk/imp.rs:188 | different numbers are written as different digit strings |
| Fmt.DecimalString | src/gui/markdown2gtk/imp.rs:188 | Rust's `format!("{}", n)` for a natural number: at least one decimal digit, and no leading zero unless the number is 0 |
| Markdown2Gtk.LoadTextTags | src/gui/markdown2gtk/imp.rs:300-384 | into a table holding none of the names, appends exactly the eleven registry tags, in order, and writes no entry |
| Markdown2Gtk.Registry | src/gui/markdown2gtk/imp.rs:300-384 | the eleven tags load_text_tags creates, in order (HEADING1..6 at 30..20 points, BOLD at weight 700, EMPHASIS underlined, BLOCK_QUOTE, INLINE_CODE, CODE_BLOCK); every one of them is named |
| Markdown2Gtk.HeadingTag | src/gui/markdown2gtk/imp.rs:254-261 | a heading depth selects a heading tag exactly when it is 1..6; any other depth is the `unreachable!` arm |
| Markdown2Gtk.ListTag | src/gui/markdown2gtk/imp.rs:179-183 | the tag each list creates is anonymous and indents by 20 × level |
| Layout.NextLevel | src/gui/markdown2gtk/imp.rs:195 | `indent_level + 1` on a u8: level + 1 modulo 256 |
| Markdown2Gtk.Marker | src/gui/markdown2gtk/imp.rs:187-191 | "• " for an unordered list; for an ordered one, digits followed by ". " |
| Markdown2GtkProperties.RegistryNamesDistinct | src/gui/markdown2gtk/imp.rs:300-384 | the registry's names are pairwise distinct, and every name the renderer looks up is among them |
| Markdown2GtkProperties.HeadingSizes | src/gui/markdown2gtk/imp.rs:304-339 | the tag registered for heading depth d (1..6) is sized 32 - 2d points: 30, 28, ..., 20 |
| Markdown2Gtk.Inline | src/gui/markdown2gtk/imp.rs:9-82 | defines what md_paragraph2buf appends: the nodes' emissions one after the other, each numbering its new tags from the table size left by the previous ones, none after the first panic |
| Markdown2Gtk.InlineNode | src/gui/markdown2gtk/imp.rs:11-80 | defines the emission of each arm of md_paragraph2buf's match |
| Markdown2Gtk.Styled | src/gui/markdown2gtk/imp.rs:16-41 | defines the emission of the loops over Strong/Emphasis children |
| Markdown2Gtk.StyledChild | src/gui/markdown2gtk/imp.rs:17-27 | defines the emission of one Strong/Emphasis child: a Text tagged with the style alone, anything else through md_paragraph2buf on its own |
| Markdown2Gtk.RenderInline | src/gui/markdown2gtk/imp.rs:9-82 | md_paragraph2buf: the buffer ends extended by exactly `Inline(nodes)`, node after node, stopping at the first panic; the status returned is that of `Inline` |
| Markdown2Gtk.RenderInlineNode | src/gui/markdown2gtk/imp.rs:11-80 | one inline node, as in the table of kinds: InlineCode tagged INLINE_CODE, Text untagged, Strong/Emphasis through their children, link, the three `todo!`s, nested paragraph, `unimplemented!` for the rest |
| Markdown2Gtk.RenderStyled | src/gui/markdown2gtk/imp.rs:16-41 | the children of Strong/Emphasis, in order, until one panics |
| Markdown2Gtk.RenderStyledChild | src/gui/markdown2gtk/imp.rs:17-27 | a direct Text child gets exactly the style's tag; any other child goes through md_paragraph2buf on its own, with no extra tag |
| Markdown2Gtk.RenderLink | src/gui/markdown2gtk/imp.rs:42-66 | a link appends its icon anchor (tooltip = URL), adds one new anonymous tag, then appends the flattened link text tagged with that tag alone |
| Markdown2GtkProperties.InlineLinkTags | src/gui/markdown2gtk/imp.rs:42-65 | inline content adds exactly one tag per link icon it emits, each of them the link tag, and its runs refer to no anonymous tag except those |
| Markdown2GtkProperties.InlineCompletesIff | src/gui/markdown2gtk/imp.rs:9-82 | inline content renders without panicking if and only if every node is InlineCode, Text, Link, or a Strong/Emphasis/Paragraph whose descendants all are |
| Markdown2GtkProperties.InlineNodeCompletesIff | src/gui/markdown2gtk/imp.rs:11-80 | one inline node completes if and only if it satisfies InlineOk |
| Markdown2GtkProperties.StyledCompletesIff | src/gui/markdown2gtk/imp.rs:16-41 | the children of Strong/Emphasis complete if and only if all of them satisfy InlineOk |
| Markdown2GtkTable.MaxRowSize | src/gui/markdown2gtk/imp.rs:89-96 | defines the longest row's length (0 without rows); MaxRowSizeIsMaximum proves it is the maximum |
| Markdown2GtkTable.GridCells | src/gui/markdown2gtk/imp.rs:98-124 | defines the list model: each row's real cells (headers in row 0) followed by its padding, row after row; GridCellAt proves what sits at each index |
| Markdown2GtkTable.TableView | src/gui/markdown2gtk/imp.rs:84-171 | defines the grid view md_table2buf returns: that model, with the longest row's length as its column count |
| Markdown2GtkTable.LongestRow | src/gui/markdown2gtk/imp.rs:89-96 | the first loop of md_table2buf ends with the length of the longest row |
| Markdown2GtkTable.MaxRowSizeIsMaximum | src/gui/markdown2gtk/imp.rs:89-96 | that length bounds every row, some row attains it, and it is 0 for a table without rows |
| Markdown2GtkTable.ProjectTable | src/gui/markdown2gtk/imp.rs:98-124 | the nested loops end with `columns_count` equal to the longest row and the model equal to GridCells: real cells row by row, each row padded to that width |
| Markdown2GtkTable.GridCellsLength | src/gui/markdown2gtk/imp.rs:98-124 | the model has rows × longest-row cells |
| Markdown2GtkTable.GridCellAt | src/gui/markdown2gtk/imp.rs:98-124 | cell (i, j) sits at i × width + j; it holds the flattened text of row i's cell j when j < len(row i), and is an empty non-header cell otherwise |
| Markdown2GtkTable.HeaderCellsAreRowZero | src/gui/markdown2gtk/imp.rs:108-121 | a cell of the model is a header if and only if it is one of the real cells of row 0 |
| Markdown2Gtk.ListOut | src/gui/markdown2gtk/imp.rs:173-205 | the first tag a list adds is its own indent tag, ahead of any tag its children add |
| Markdown2Gtk.ListItems | src/gui/markdown2gtk/imp.rs:186-204 | defines the emission of the loop over a list's children, each numbered by its position |
| Markdown2Gtk.ListChild | src/gui/markdown2gtk/imp.rs:186-204 | a child's output starts with its marker run, tagged with the list's tag alone |
| Markdown2Gtk.ItemContent | src/gui/markdown2gtk/imp.rs:193-201 | defines the emission of the match on a list's child: a nested list one level deeper, a list item's children inline, a panic otherwise |
| Markdown2Gtk.RenderList | src/gui/markdown2gtk/imp.rs:173-205 | md_list2buf: adds the list's tag (indent 20 × level), then renders child after child until one panics; the buffer ends extended by exactly `ListOut` |
| Markdown2Gtk.RenderListChild | src/gui/markdown2gtk/imp.rs:186-204 | the k-th child: its marker tagged with the list's tag alone, its content, then a newline (the newline only when the content did not panic) |
| Markdown2Gtk.RenderItemContent | src/gui/markdown2gtk/imp.rs:193-201 | a nested List recurses one level deeper, a ListItem renders its children inline, any other child is `unimplemented!` |
| Markdown2GtkProperties.ListItemsCompletesIff | src/gui/markdown2gtk/imp.rs:186-204 | a list's children render without panicking if and only if each is a ListItem of InlineOk children or a List of such items, recursively |
| Markdown2GtkProperties.ItemContentCompletesIff | src/gui/markdown2gtk/imp.rs:193-201 | one child of a list completes if and only if it satisfies ItemOk |
| Markdown2GtkProperties.NestedListPanics | src/gui/markdown2gtk/imp.rs:197-199 | a list item with a list among its children panics, because md_paragraph2buf has no arm for lists (imp.rs:79) |
| Markdown2GtkProperties.ListMarkersInOrder | src/gui/markdown2gtk/imp.rs:179-191 | in a completed list, the runs carrying exactly the list's tag are its markers, one per child in order ("1. ", "2. ", ... or "• "); the list's first added tag is its indent tag |
| Markdown2GtkProperties.ListChildMarkers | src/gui/markdown2gtk/imp.rs:187-203 | one child carries exactly one run with the list's tag: its own marker; nested content never reuses that tag |
| Markdown2GtkProperties.OrderedMarkersDistinct | src/gui/markdown2gtk/imp.rs:188 | two positions of an ordered list get the same marker only if they are the same position |
| Markdown2GtkProperties.ListOutHandles | src/gui/markdown2gtk/imp.rs:179-204 | a list's runs refer only to anonymous tags the list itself added |
| Markdown2Gtk.Block | src/gui/markdown2gtk/imp.rs:231-293 | defines the emission of each arm of md2gtk's match on a top-level block |
| Markdown2Gtk.Blocks | src/gui/markdown2gtk/imp.rs:230-294 | defines the emission of md2gtk's loop: the blocks one after the other, none after the first panic |
| Markdown2Gtk.Document | src/gui/markdown2gtk/imp.rs:207-297 | defines what md2gtk writes after loading the registry into an empty tag table |
| Markdown2Gtk.RenderBlock | src/gui/markdown2gtk/imp.rs:230-293 | one top-level block, dispatched by kind; Html and unmatched kinds panic with `unimplemented!` |
| Markdown2Gtk.RenderBlockQuote | src/gui/markdown2gtk/imp.rs:232-240 | "\n", the flattened quote tagged BLOCK_QUOTE, "\n" |
| Markdown2Gtk.RenderTopList | src/gui/markdown2gtk/imp.rs:241-245 | "\n\n", the list at level 1, then "\n" unless the list panicked |
| Markdown2Gtk.RenderHeading | src/gui/markdown2gtk/imp.rs:246-267 | "\n", the flattened heading tagged BOLD and HEADINGd, "\n"; a depth outside 1..6 is `unreachable!` after the first newline |
| Markdown2Gtk.RenderTable | src/gui/markdown2gtk/imp.rs:268-276 | "\n", one anchor holding the projected grid, "\n" |
| Markdown2Gtk.RenderCode | src/gui/markdown2gtk/imp.rs:280-288 | "\n\n", the code text tagged CODE_BLOCK, "\n\n"; the language is ignored |
| Markdown2Gtk.Md2Gtk | src/gui/markdown2gtk/imp.rs:207-297 | a fresh buffer holds exactly `Document(blocks)` and its tag table is the registry followed by the tags the render added |
| Markdown2Gtk.BlocksSticky | src/gui/markdown2gtk/imp.rs:230-294 | once a block panics, the rest of the document adds nothing |
| Markdown2GtkProperties.BlockCompletesIff | src/gui/markdown2gtk/imp.rs:230-293 | a top-level block completes if and only if it is a quote, table or code block, a heading of depth 1..6, a paragraph of InlineOk nodes, or a list of ItemOk children |
| Markdown2GtkProperties.DocumentCompletesIff | src/gui/markdown2gtk/imp.rs:230-294 | md2gtk renders a document without panicking if and only if every top-level block satisfies BlockOk |
| Markdown2GtkProperties.DocumentHandles | src/gui/markdown2gtk/imp.rs:207-297 | every anonymous tag a document's runs refer to was added by the render itself, after the registry |
| Markdown2GtkEarlier.LoadTextTags | src/gui/markdown2gtk.rs:192-228 | appends exactly HEADING1 (30 points), BOLD, EMPHASIS and INLINE_CODE, in order, and writes no entry |
| Markdown2GtkEarlier.Registry | src/gui/markdown2gtk.rs:192-228 | the four tags this revision creates, in order; every one of them is named |
| Markdown2GtkEarlier.Marker | src/gui/markdown2gtk.rs:84-88 | "• " for an unordered list; for an ordered one, a space followed by digits |
| Markdown2GtkEarlier.Tabs | src/gui/markdown2gtk.rs:81-83 | the indentation of a list item is exactly `level` untagged tab runs |
| Markdown2GtkEarlier.Inline | src/gui/markdown2gtk.rs:4-68 | defines what this revision's md_paragraph2buf appends, node after node, none after the first panic |
| Markdown2GtkEarlier.InlineNode | src/gui/markdown2gtk.rs:6-66 | defines the emission of each arm of its match |
| Markdown2GtkEarlier.Styled | src/gui/markdown2gtk.rs:11-36 | defines the emission of the loops over Strong/Emphasis children |
| Markdown2GtkEarlier.StyledChild | src/gui/markdown2gtk.rs:12-22 | defines the emission of one Strong/Emphasis child |
| Markdown2GtkEarlier.RenderInline | src/gui/markdown2gtk.rs:4-68 | the buffer ends extended by exactly `Inline(nodes)`; the tag table is untouched |
| Markdown2GtkEarlier.RenderInlineNode | src/gui/markdown2gtk.rs:6-66 | one inline node; a link appends a single anchor holding a button captioned "{LINK HOLDER}" with the link's URL, and no text |
| Markdown2GtkEarlier.RenderStyled | src/gui/markdown2gtk.rs:11-36 | the children of Strong/Emphasis, in order, until one panics |
| Markdown2GtkEarlier.RenderStyledChild | src/gui/markdown2gtk.rs:12-22 | a direct Text child gets exactly the style's tag; any other child goes through md_paragraph2buf alone |
| Markdown2GtkEarlier.ListItems | src/gui/markdown2gtk.rs:80-101 | defines the emission of the loop over a list's children |
| Markdown2GtkEarlier.ListChild | src/gui/markdown2gtk.rs:80-101 | defines one child's emission: tabs, marker, content, newline |
| Markdown2GtkEarlier.ItemContent | src/gui/markdown2gtk.rs:90-98 | defines the emission of the match on a list's child |
| Markdown2GtkEarlier.RenderList | src/gui/markdown2gtk.rs:70-104 | md_list2buf: child after child until one panics, adding no tag |
| Markdown2GtkEarlier.RenderListChild | src/gui/markdown2gtk.rs:80-101 | `level` tab runs (the inner loop), the untagged marker " k" or "• ", the content, then "\n" unless the content panicked |
| Markdown2GtkEarlier.RenderItemContent | src/gui/markdown2gtk.rs:90-98 | a nested List recurses one level deeper, a ListItem renders inline, any other child is `unimplemented!` |
| Markdown2GtkEarlier.Block | src/gui/markdown2gtk.rs:130-186 | defines the emission of each arm of this revision's match on a top-level block |
| Markdown2GtkEarlier.Blocks | src/gui/markdown2gtk.rs:129-187 | defines the emission of its loop over the top-level blocks |
| Markdown2GtkEarlier.RenderBlock | src/gui/markdown2gtk.rs:129-186 | one top-level block; a table is `todo!`, Html and unmatched kinds append nothing and do not fail |
| Markdown2GtkEarlier.RenderBlockQuote | src/gui/markdown2gtk.rs:131-136 | "\n", the flattened quote with an empty tag list, "\n" |
| Markdown2GtkEarlier.RenderTopList | src/gui/markdown2gtk.rs:137-141 | "\n\n", the list at level 1, then "\n" unless it panicked |
| Markdown2GtkEarlier.RenderHeading | src/gui/markdown2gtk.rs:142-147 | "\n", the flattened heading tagged HEADING1 whatever its depth, "\n" |
| Markdown2GtkEarlier.RenderCode | src/gui/markdown2gtk.rs:154-183 | "\n\n", one anchor holding a frame with the code text, "\n\n"; the code text itself is not inserted as a run |
| Markdown2GtkEarlier.Md2Gtk | src/gui/markdown2gtk.rs:106-190 | a fresh buffer holds exactly `Blocks(blocks)` and its tag table is exactly the four registered tags |
| Markdown2GtkEarlierProperties.InlineCompletesIff | src/gui/markdown2gtk.rs:4-68 | inline content renders without panicking if and only if every node satisfies InlineOk (the same predicate as the current revision) |
| Markdown2GtkEarlierProperties.ListItemsCompletesIff | src/gui/markdown2gtk.rs:80-101 | a list's children complete if and only if each satisfies ItemOk |
| Markdown2GtkEarlierProperties.BlockCompletesIff | src/gui/markdown2gtk.rs:129-186 | a top-level block completes if and only if it is not a table, and its list items or paragraph content complete |
| Markdown2GtkEarlierProperties.BlocksCompletesIff | src/gui/markdown2gtk.rs:129-187 | md2gtk of this revision completes if and only if every top-level block satisfies its BlockOk |
| Markdown2GtkEarlierProperties.CurrentOkIsOkHereButTables | src/gui/markdown2gtk.rs:129-186 | every non-table block the current revision renders without panicking, this revision renders too |
| Markdown2GtkEarlierProperties.InlineSame | src/gui/markdown2gtk.rs:7-36 | without links, both revisions render inline content identically (runs, tags, status) and add no tag |
| Markdown2GtkEarlierProperties.InlineNodeSame | src/gui/markdown2gtk.rs:7-36 | the same for one link-free inline node |
| Markdown2GtkEarlierProperties.StyledSame | src/gui/markdown2gtk.rs:11-36 | the same for the children of Strong/Emphasis |
| Markdown2GtkEarlierProperties.LinkDiffers | src/gui/markdown2gtk.rs:37-52 | a link is a single button anchor here, but an icon anchor, a tagged text run and one new tag in the current revision |
| Markdown2GtkEarlierProperties.OrderedNumberFromZero | src/gui/markdown2gtk.rs:84-86 | as written, the k-th item (0-based) of an ordered list shows the number k after a space |
| Markdown2GtkEarlierProperties.OrderedNumberFromOne | src/gui/markdown2gtk/imp.rs:187-188 | the current revision shows k + 1 followed by ". " |
| Utils.ChosenLocale | src/utils.rs:9-13 | LC_ALL if set; otherwise LC_TIME if set; otherwise LANG if set; otherwise "en" |
| Utils.BeforeFirstDot | src/utils.rs:16 | a dot-free prefix of the value; equal to the value exactly when it has no dot; otherwise followed in the value by a dot |
| Utils.BeforeFirstDotUnique | src/utils.rs:16 | those three properties determine the result: any dot-free prefix that is the whole value or stops at a dot is it |
| Utils.SystemTimeLocale | src/utils.rs:6-17 | the locale is a dot-free prefix of the chosen variable |
| Utils.BeforeFirstDotIdempotent | src/utils.rs:16 | stripping the charset twice is stripping it once |
| Utils.LcAllWins | src/utils.rs:9 | with LC_ALL set, LC_TIME and LANG do not matter |
| Utils.CharsetStripped | src/utils.rs:12-16 | LANG = "en_US.UTF-8" alone gives "en_US" |
| Utils.DefaultLocale | src/utils.rs:12 | with none of the three variables set, the locale is "en" |

## Findings

| source | as written | input that shows it | evidently intended | confidence | as-written member | corrected member |
|---|---|---|---|---|---|---|
| src/gui/markdown2gtk.rs:85 | ordered list items are numbered with their 0-based position, `format!(" {}", num)` | an ordered list "1. a" renders its only item as " 0" | numbering from 1, as the later revision does with `num + 1` (src/gui/markdown2gtk/imp.rs:188) | high; not executed | Markdown2GtkEarlierProperties.OrderedNumberFromZero | Markdown2GtkEarlierProperties.OrderedNumberFromOne |

The current-revision model (`Markdown2Gtk.Marker`, with
`Markdown2GtkProperties.ListMarkersInOrder` proved about it) uses the
corrected numbering. The earlier-revision model keeps the numbering as
written.

In both revisions, a list nested inside a list item (the shape the parser
gives a nested list) panics. The item's children go through
md_paragraph2buf, which has no arm for lists and ends in `unimplemented!()`
(src/gui/markdown2gtk/imp.rs:79 and src/gui/markdown2gtk.rs:65). So the
`List` arm of md_list2buf (src/gui/markdown2gtk/imp.rs:194-196) only runs
when a list is a direct child of a list. `Markdown2GtkProperties.NestedListPanics`
states this for the current revision. The model renders nested lists as the
source does. It does not model a corrected renderer for them, because the
source gives no sign of how such a list should look.

## Left out

- The markdown parser (`markdown::to_mdast` with GFM or default options) is not part of this model. The syntax tree is an input.
- mdast's `Node::to_string` is a function parameter (`Flatten`).
- Only the mdast kinds the renderers inspect are distinct constructors. Every other kind is `Other`.
- Only the fields the renderers read are kept. A list keeps `ordered` and its children. mdast's `start` (a custom first number), `spread`, and a link's `title` are dropped. Neither revision reads them: the markers count from the list's own first child whatever `start` says.
- Text views, GTK widgets, colours, margins, pixel spacing, font families and the float `scale(1.3)` are not modelled. A tag keeps only what identifies it: its name, its integer point size or weight, its list indent, or a marker for its kind of style.
- The widget attached to an anchor is recorded as the anchor's payload. `add_child_at_anchor` is not modelled separately.
- The GridView's item factory and selection model (src/gui/markdown2gtk/imp.rs:126-163) are not modelled. They only decide how a cell is drawn: bold markup for headers, plain label text otherwise.
- The earlier `md_list2buf` builds and returns a `gtk::Box` that no caller shows. It is not modelled.
- Tag names are an enumeration of the eleven names the source uses, not strings.
- `Buffer.InsertWithTagsByName` requires every name to be registered, where GTK would only warn. No renderer path breaks this requirement.
- `Buffer.AddTag` requires a new tag's name to be unused. GTK's behaviour on a duplicate name is not modelled.
- Layout.NextLevel: `indent_level + 1` on a `u8` wraps from 255 to 0, as a release build does. A debug build would panic at that depth instead.
- Markdown2GtkTable.ProjectTable: `columns_count` is an unbounded natural number. The source's `u32` and the `j as u32` cast only differ past 2^32 cells in a row.
- Table rows are sequences of cells, so `row.children().unwrap()` cannot fail in the model. Rows from the parser always have children.
- Markdown2Gtk.RenderTable builds the cell grid before it inserts the anchor, where the source builds it afterwards. The grid depends only on the table, so the buffer ends the same.
- The renderer methods require only that every looked-up name is registered (`Loaded`), not that the table starts with exactly the registry. `Md2Gtk` starts from the exact registry.
- The message of a bare `unimplemented!()` is modelled as the empty string.
- The `dbg!()` output to standard error in the earlier `md2gtk` is not modelled. The block appends nothing.
- The `once_cell::Lazy` cache of `SYSTEM_TIME_LOCALE` (src/utils.rs:3-4) is not modelled. The three `env::var` reads are parameters. A variable that is unset or not valid Unicode is `None`. A variable set to the empty string is chosen.
- After a panic the model keeps the entries written before it. That is what the buffer holds when unwinding starts. `md2gtk` returns no view in that case, so the caller sees no document.

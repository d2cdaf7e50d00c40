// The current markdown renderer, src/gui/markdown2gtk/imp.rs: it walks the
// mdast tree of a post body (parsed with the GitHub Flavored Markdown options)
// and appends styled runs and child anchors to the end of a text buffer.
//
// Each operation has a specification function that gives the Emission it
// appends (entries, tags added to the tag table, and whether it panicked) and
// a method that performs the same writes on a Buffer and is proved to leave
// the buffer extended by exactly that Emission.
module Markdown2Gtk {

  import opened Wrappers
  import opened Mdast
  import opened TextBuffer
  import opened Fmt
  import opened Markdown2GtkTable
  import opened Layout

  // ---------------------------------------------------------------- tags

  // The named tags that load_text_tags registers, in order.
  function Registry(): (r: seq<TagDef>)
    ensures |r| == 11 && forall i :: 0 <= i < |r| ==> r[i].name.Some?
  {
    [ TagDef(Some(HEADING1), SizePoints(30)),
      TagDef(Some(HEADING2), SizePoints(28)),
      TagDef(Some(HEADING3), SizePoints(26)),
      TagDef(Some(HEADING4), SizePoints(24)),
      TagDef(Some(HEADING5), SizePoints(22)),
      TagDef(Some(HEADING6), SizePoints(20)),
      TagDef(Some(BOLD), Weight(700)),
      TagDef(Some(EMPHASIS), UnderlineSingle),
      TagDef(Some(BLOCK_QUOTE), QuoteStyle),
      TagDef(Some(INLINE_CODE), Monospace),
      TagDef(Some(CODE_BLOCK), CodeBlockStyle) ]
  }

  // The heading tag a heading depth selects; any depth outside 1..6 is
  // `unreachable!`.
  function HeadingTag(depth: u8): (r: Option<TagName>)
    ensures r.Some? <==> 1 <= depth <= 6
  {
    match depth
    case 1 => Some(HEADING1)
    case 2 => Some(HEADING2)
    case 3 => Some(HEADING3)
    case 4 => Some(HEADING4)
    case 5 => Some(HEADING5)
    case 6 => Some(HEADING6)
    case _ => None
  }

  // The anonymous tag created for each link's text.
  function LinkTag(): TagDef {
    TagDef(None, LinkStyle)
  }

  // The anonymous tag created for each list, indented by 20 per level.
  function ListTag(level: u8): (t: TagDef)
    ensures t.name == None && t.style.ListStyle? && t.style.indent == 20 * level as int
  {
    TagDef(None, ListStyle(20 * level as int))
  }

  // The marker of the k-th (0-based) item of a list.
  function Marker(ordered: bool, k: nat): (m: string)
    ensures !ordered ==> m == "• "
    ensures ordered ==> |m| >= 3 && m[|m| - 2..] == ". " && IsDigits(m[..|m| - 2])
  {
    if ordered then DecimalString(k + 1) + ". " else "• "
  }

  // Every name the renderer looks tags up by is a tag of the table.
  ghost predicate Loaded(table: seq<TagDef>) {
    forall n :: Named(table, n)
  }

  lemma RegistryLoaded(table: seq<TagDef>)
    requires Registry() <= table
    ensures Loaded(table)
  {
    forall n: TagName
      ensures Named(table, n)
    {
      var k := match n
        case HEADING1 => 0 case HEADING2 => 1 case HEADING3 => 2 case HEADING4 => 3
        case HEADING5 => 4 case HEADING6 => 5 case BOLD => 6 case EMPHASIS => 7
        case BLOCK_QUOTE => 8 case INLINE_CODE => 9 case CODE_BLOCK => 10;
      assert table[k] == Registry()[k];
    }
  }

  lemma LoadedAppend(table: seq<TagDef>, more: seq<TagDef>)
    requires Loaded(table)
    ensures Loaded(table + more)
  {
    forall n: TagName
      ensures Named(table + more, n)
    {
      assert Named(table, n);
      var i :| 0 <= i < |table| && table[i].name == Some(n);
      assert (table + more)[i] == table[i];
    }
  }

  // ------------------------------------------------- specification: inline

  // md_paragraph2buf over a list of inline nodes.
  function Inline(nodes: seq<Node>, base: nat, flatten: Flatten): Emission
    decreases SizeList(nodes), 1
  {
    if |nodes| == 0 then Done([])
    else
      var pre := Inline(nodes[..|nodes| - 1], base, flatten);
      Then(pre, InlineNode(nodes[|nodes| - 1], base + |pre.added|, flatten))
  }

  // One inline node; `base` is the size of the tag table before it.
  function InlineNode(n: Node, base: nat, flatten: Flatten): Emission
    decreases Size(n), 0
  {
    match n
    case InlineCode(v) => Done([Run(v, [ByName(INLINE_CODE)])])
    case Text(v) => Done([Run(v, [])])
    case Strong(cs) => Styled(cs, BOLD, base, flatten)
    case Emphasis(cs) => Styled(cs, EMPHASIS, base, flatten)
    case Link(url, _) =>
      Emission([Anchor(LinkIcon(url)), Run(flatten(n), [ByHandle(base)])], [LinkTag()], Completed)
    case LinkReference(_) => Abort([], Todo("LinkRefrence"))
    case Image(_, _) => Abort([], Todo("Image"))
    case ImageReference(_) => Abort([], Todo("ImageReference"))
    case Paragraph(cs) => Inline(cs, base, flatten)
    case _ => Abort([], Unimplemented(""))
  }

  // The children of a Strong or Emphasis node.
  function Styled(children: seq<Node>, tag: TagName, base: nat, flatten: Flatten): Emission
    decreases SizeList(children), 3
  {
    if |children| == 0 then Done([])
    else
      var pre := Styled(children[..|children| - 1], tag, base, flatten);
      Then(pre, StyledChild(children[|children| - 1], tag, base + |pre.added|, flatten))
  }

  // A direct Text child carries the style's tag; any other child goes
  // through the inline dispatcher on its own.
  function StyledChild(c: Node, tag: TagName, base: nat, flatten: Flatten): Emission
    decreases Size(c), 2
  {
    if c.Text? then Done([Run(c.value, [ByName(tag)])]) else Inline([c], base, flatten)
  }

  // --------------------------------------------------- specification: lists

  // md_list2buf: one new tag for the list, then every child.
  function ListOut(items: seq<Node>, ordered: bool, level: u8, base: nat, flatten: Flatten): (r: Emission)
    ensures |r.added| >= 1 && r.added[0] == ListTag(level)
    decreases SizeList(items), 3
  {
    var body := ListItems(items, ordered, level, base, base + 1, flatten);
    Emission(body.out, [ListTag(level)] + body.added, body.status)
  }

  // The children of a list whose tag has handle `tag`.
  function ListItems(items: seq<Node>, ordered: bool, level: u8, tag: nat, base: nat, flatten: Flatten): Emission
    decreases SizeList(items), 2
  {
    if |items| == 0 then Done([])
    else
      var pre := ListItems(items[..|items| - 1], ordered, level, tag, base, flatten);
      Then(pre, ListChild(items[|items| - 1], |items| - 1, ordered, level, tag, base + |pre.added|, flatten))
  }

  // The k-th child: its marker, its content, a newline.
  function ListChild(n: Node, k: nat, ordered: bool, level: u8, tag: nat, base: nat, flatten: Flatten): (r: Emission)
    ensures |r.out| >= 1 && r.out[0] == Run(Marker(ordered, k), [ByHandle(tag)])
    decreases Size(n), 1
  {
    var marker := Done([Run(Marker(ordered, k), [ByHandle(tag)])]);
    Then(Then(marker, ItemContent(n, level, base, flatten)), Done([Run(NL, [])]))
  }

  // What follows a marker: a nested list one level deeper, the inline content
  // of a list item, or a panic for any other kind of child.
  function ItemContent(n: Node, level: u8, base: nat, flatten: Flatten): Emission
    decreases Size(n), 0
  {
    match n
    case List(o, cs) => ListOut(cs, o, NextLevel(level), base, flatten)
    case ListItem(cs) => Inline(cs, base, flatten)
    case _ => Abort([], Unimplemented(""))
  }

  // -------------------------------------------------- specification: blocks

  // One top-level block of md2gtk.
  function Block(n: Node, base: nat, flatten: Flatten): Emission {
    match n
    case BlockQuote(_) => Done([Run(NL, []), Run(flatten(n), [ByName(BLOCK_QUOTE)]), Run(NL, [])])
    case List(o, cs) => Then(Then(Done([Run(BLANK, [])]), ListOut(cs, o, 1, base, flatten)), Done([Run(NL, [])]))
    case Heading(d, _) =>
      (match HeadingTag(d)
       case Some(h) => Done([Run(NL, []), Run(flatten(n), [ByName(BOLD), ByName(h)]), Run(NL, [])])
       case None => Abort([Run(NL, [])], Unreachable))
    case Table(rows) => Done([Run(NL, []), Anchor(TableView(rows, flatten)), Run(NL, [])])
    case Paragraph(cs) => Inline(cs, base, flatten)
    case Code(v, _) => Done([Run(BLANK, []), Run(v, [ByName(CODE_BLOCK)]), Run(BLANK, [])])
    case Html(_) => Abort([], Unimplemented("HTML parsing"))
    case _ => Abort([], Unimplemented(""))
  }

  function Blocks(blocks: seq<Node>, base: nat, flatten: Flatten): Emission
    decreases |blocks|
  {
    if |blocks| == 0 then Done([])
    else
      var pre := Blocks(blocks[..|blocks| - 1], base, flatten);
      Then(pre, Block(blocks[|blocks| - 1], base + |pre.added|, flatten))
  }

  // The whole render of md2gtk: the blocks of the root, written after the
  // registry has been loaded into an empty tag table.
  function Document(blocks: seq<Node>, flatten: Flatten): Emission {
    Blocks(blocks, |Registry()|, flatten)
  }

  // ------------------------------------------ a panic ends the whole render

  lemma {:induction false} InlineSticky(nodes: seq<Node>, k: nat, base: nat, flatten: Flatten)
    requires k <= |nodes| && Inline(nodes[..k], base, flatten).status.Panicked?
    ensures Inline(nodes, base, flatten) == Inline(nodes[..k], base, flatten)
    decreases |nodes|
  {
    if k < |nodes| {
      var prefix := nodes[..|nodes| - 1];
      assert prefix[..k] == nodes[..k];
      InlineSticky(prefix, k, base, flatten);
    } else {
      assert nodes[..k] == nodes;
    }
  }

  lemma {:induction false} StyledSticky(children: seq<Node>, k: nat, tag: TagName, base: nat, flatten: Flatten)
    requires k <= |children| && Styled(children[..k], tag, base, flatten).status.Panicked?
    ensures Styled(children, tag, base, flatten) == Styled(children[..k], tag, base, flatten)
    decreases |children|
  {
    if k < |children| {
      var prefix := children[..|children| - 1];
      assert prefix[..k] == children[..k];
      StyledSticky(prefix, k, tag, base, flatten);
    } else {
      assert children[..k] == children;
    }
  }

  lemma {:induction false} ListItemsSticky(items: seq<Node>, k: nat, ordered: bool, level: u8, tag: nat, base: nat, flatten: Flatten)
    requires k <= |items| && ListItems(items[..k], ordered, level, tag, base, flatten).status.Panicked?
    ensures ListItems(items, ordered, level, tag, base, flatten) == ListItems(items[..k], ordered, level, tag, base, flatten)
    decreases |items|
  {
    if k < |items| {
      var prefix := items[..|items| - 1];
      assert prefix[..k] == items[..k];
      ListItemsSticky(prefix, k, ordered, level, tag, base, flatten);
    } else {
      assert items[..k] == items;
    }
  }

  lemma {:induction false} BlocksSticky(blocks: seq<Node>, k: nat, base: nat, flatten: Flatten)
    requires k <= |blocks| && Blocks(blocks[..k], base, flatten).status.Panicked?
    ensures Blocks(blocks, base, flatten) == Blocks(blocks[..k], base, flatten)
    decreases |blocks|
  {
    if k < |blocks| {
      var prefix := blocks[..|blocks| - 1];
      assert prefix[..k] == blocks[..k];
      BlocksSticky(prefix, k, base, flatten);
    } else {
      assert blocks[..k] == blocks;
    }
  }

  // ----------------------------------------- one more element of each fold

  lemma InlineStep(nodes: seq<Node>, i: nat, base: nat, b: nat, flatten: Flatten)
    requires i < |nodes| && b == base + |Inline(nodes[..i], base, flatten).added|
    ensures Inline(nodes[..i + 1], base, flatten)
         == Then(Inline(nodes[..i], base, flatten), InlineNode(nodes[i], b, flatten))
  {
    assert nodes[..i + 1][..i] == nodes[..i];
  }

  lemma StyledStep(children: seq<Node>, j: nat, tag: TagName, base: nat, b: nat, flatten: Flatten)
    requires j < |children| && b == base + |Styled(children[..j], tag, base, flatten).added|
    ensures Styled(children[..j + 1], tag, base, flatten)
         == Then(Styled(children[..j], tag, base, flatten), StyledChild(children[j], tag, b, flatten))
  {
    assert children[..j + 1][..j] == children[..j];
  }

  lemma ListItemsStep(items: seq<Node>, k: nat, ordered: bool, level: u8, tag: nat, base: nat, b: nat, flatten: Flatten)
    requires k < |items| && b == base + |ListItems(items[..k], ordered, level, tag, base, flatten).added|
    ensures ListItems(items[..k + 1], ordered, level, tag, base, flatten)
         == Then(ListItems(items[..k], ordered, level, tag, base, flatten),
                 ListChild(items[k], k, ordered, level, tag, b, flatten))
  {
    assert items[..k + 1][..k] == items[..k];
  }

  lemma BlocksStep(blocks: seq<Node>, i: nat, base: nat, b: nat, flatten: Flatten)
    requires i < |blocks| && b == base + |Blocks(blocks[..i], base, flatten).added|
    ensures Blocks(blocks[..i + 1], base, flatten)
         == Then(Blocks(blocks[..i], base, flatten), Block(blocks[i], b, flatten))
  {
    assert blocks[..i + 1][..i] == blocks[..i];
  }

  // ------------------------------------------------------------- methods

  // load_text_tags: registers the named tags; none of their names may be in
  // the table yet.
  method LoadTextTags(buf: Buffer)
    requires buf.Valid()
    requires forall n :: !Named(buf.tagTable, n)
    modifies buf
    ensures buf.Valid() && buf.entries == old(buf.entries)
    ensures buf.tagTable == old(buf.tagTable) + Registry()
  {
    var h;
    ghost var t0, names: set<TagName> := buf.tagTable, {};
    NamedOnlyAppend(buf.tagTable, TagDef(Some(HEADING1), SizePoints(30)), names);
    h := buf.AddTag(TagDef(Some(HEADING1), SizePoints(30)));
    names := names + {HEADING1};
    NamedOnlyAppend(buf.tagTable, TagDef(Some(HEADING2), SizePoints(28)), names);
    h := buf.AddTag(TagDef(Some(HEADING2), SizePoints(28)));
    names := names + {HEADING2};
    NamedOnlyAppend(buf.tagTable, TagDef(Some(HEADING3), SizePoints(26)), names);
    h := buf.AddTag(TagDef(Some(HEADING3), SizePoints(26)));
    names := names + {HEADING3};
    NamedOnlyAppend(buf.tagTable, TagDef(Some(HEADING4), SizePoints(24)), names);
    h := buf.AddTag(TagDef(Some(HEADING4), SizePoints(24)));
    names := names + {HEADING4};
    NamedOnlyAppend(buf.tagTable, TagDef(Some(HEADING5), SizePoints(22)), names);
    h := buf.AddTag(TagDef(Some(HEADING5), SizePoints(22)));
    names := names + {HEADING5};
    NamedOnlyAppend(buf.tagTable, TagDef(Some(HEADING6), SizePoints(20)), names);
    h := buf.AddTag(TagDef(Some(HEADING6), SizePoints(20)));
    names := names + {HEADING6};
    NamedOnlyAppend(buf.tagTable, TagDef(Some(BOLD), Weight(700)), names);
    h := buf.AddTag(TagDef(Some(BOLD), Weight(700)));
    names := names + {BOLD};
    NamedOnlyAppend(buf.tagTable, TagDef(Some(EMPHASIS), UnderlineSingle), names);
    h := buf.AddTag(TagDef(Some(EMPHASIS), UnderlineSingle));
    names := names + {EMPHASIS};
    NamedOnlyAppend(buf.tagTable, TagDef(Some(BLOCK_QUOTE), QuoteStyle), names);
    h := buf.AddTag(TagDef(Some(BLOCK_QUOTE), QuoteStyle));
    names := names + {BLOCK_QUOTE};
    NamedOnlyAppend(buf.tagTable, TagDef(Some(INLINE_CODE), Monospace), names);
    h := buf.AddTag(TagDef(Some(INLINE_CODE), Monospace));
    names := names + {INLINE_CODE};
    h := buf.AddTag(TagDef(Some(CODE_BLOCK), CodeBlockStyle));
    RegistryAppended(t0);
  }

  // Adding the registry's tags one by one appends the registry.
  lemma RegistryAppended(t0: seq<TagDef>)
    ensures t0 + [TagDef(Some(HEADING1), SizePoints(30))] + [TagDef(Some(HEADING2), SizePoints(28))]
      + [TagDef(Some(HEADING3), SizePoints(26))] + [TagDef(Some(HEADING4), SizePoints(24))]
      + [TagDef(Some(HEADING5), SizePoints(22))] + [TagDef(Some(HEADING6), SizePoints(20))]
      + [TagDef(Some(BOLD), Weight(700))] + [TagDef(Some(EMPHASIS), UnderlineSingle)]
      + [TagDef(Some(BLOCK_QUOTE), QuoteStyle)] + [TagDef(Some(INLINE_CODE), Monospace)]
      + [TagDef(Some(CODE_BLOCK), CodeBlockStyle)]
      == t0 + Registry()
  {
  }

  // md_paragraph2buf.
  method RenderInline(buf: Buffer, nodes: seq<Node>, flatten: Flatten) returns (st: Status)
    requires buf.Valid() && Loaded(buf.tagTable)
    modifies buf
    ensures buf.Valid() && Loaded(buf.tagTable)
    ensures buf.Emitted(Inline(nodes, |old(buf.tagTable)|, flatten), old(buf.entries), old(buf.tagTable))
    ensures st == Inline(nodes, |old(buf.tagTable)|, flatten).status
    decreases SizeList(nodes), 1
  {
    var base := |buf.tagTable|;
    ghost var e0, t0 := buf.entries, buf.tagTable;
    var i := 0;
    while i < |nodes|
      invariant 0 <= i <= |nodes|
      invariant buf.Valid() && Loaded(buf.tagTable)
      invariant Inline(nodes[..i], base, flatten).status == Completed
      invariant buf.Emitted(Inline(nodes[..i], base, flatten), e0, t0)
    {
      ghost var pre := Inline(nodes[..i], base, flatten);
      ghost var e1, t1 := buf.entries, buf.tagTable;
      st := RenderInlineNode(buf, nodes[i], flatten);
      ghost var next := Inline(nodes[..i + 1], base, flatten);
      InlineStep(nodes, i, base, |t1|, flatten);
      EmittedThen(pre, InlineNode(nodes[i], |t1|, flatten), e0, t0, e1, t1, buf.entries, buf.tagTable);
      assert buf.entries == e0 + next.out && buf.tagTable == t0 + next.added;
      if st.Panicked? {
        InlineSticky(nodes, i + 1, base, flatten);
        return;
      }
      i := i + 1;
    }
    assert nodes[..i] == nodes;
    st := Completed;
  }

  // The match arm of md_paragraph2buf for one node.
  method RenderInlineNode(buf: Buffer, node: Node, flatten: Flatten) returns (st: Status)
    requires buf.Valid() && Loaded(buf.tagTable)
    modifies buf
    ensures buf.Valid() && Loaded(buf.tagTable)
    ensures buf.Emitted(InlineNode(node, |old(buf.tagTable)|, flatten), old(buf.entries), old(buf.tagTable))
    ensures st == InlineNode(node, |old(buf.tagTable)|, flatten).status
    decreases Size(node), 0
  {
    match node
    case InlineCode(v) =>
      SingleTags(INLINE_CODE, INLINE_CODE, 0);
      buf.InsertWithTagsByName(v, [INLINE_CODE]);
      st := Completed;
    case Text(v) =>
      buf.Insert(v);
      st := Completed;
    case Strong(cs) =>
      st := RenderStyled(buf, cs, BOLD, flatten);
    case Emphasis(cs) =>
      st := RenderStyled(buf, cs, EMPHASIS, flatten);
    case Link(_, _) =>
      RenderLink(buf, node, flatten);
      st := Completed;
    case LinkReference(_) =>
      st := Panicked(Todo("LinkRefrence"));
    case Image(_, _) =>
      st := Panicked(Todo("Image"));
    case ImageReference(_) =>
      st := Panicked(Todo("ImageReference"));
    case Paragraph(cs) =>
      st := RenderInline(buf, cs, flatten);
    case _ =>
      st := Panicked(Unimplemented(""));
  }

  // A link: the globe icon with the URL as its tooltip, then the link's text
  // under an anonymous tag of its own.
  method RenderLink(buf: Buffer, node: Node, flatten: Flatten)
    requires node.Link? && buf.Valid() && Loaded(buf.tagTable)
    modifies buf
    ensures buf.Valid() && Loaded(buf.tagTable)
    ensures buf.Emitted(InlineNode(node, |old(buf.tagTable)|, flatten), old(buf.entries), old(buf.tagTable))
    ensures InlineNode(node, |old(buf.tagTable)|, flatten).status == Completed
  {
    buf.InsertChildAnchor(LinkIcon(node.url));
    var tag := buf.AddTag(LinkTag());
    LoadedAppend(old(buf.tagTable), [LinkTag()]);
    SingleTags(BOLD, BOLD, tag);
    buf.InsertWithTags(flatten(node), [tag]);
  }

  // The loop over the children of a Strong or Emphasis node.
  method RenderStyled(buf: Buffer, children: seq<Node>, tag: TagName, flatten: Flatten) returns (st: Status)
    requires tag == BOLD || tag == EMPHASIS
    requires buf.Valid() && Loaded(buf.tagTable)
    modifies buf
    ensures buf.Valid() && Loaded(buf.tagTable)
    ensures buf.Emitted(Styled(children, tag, |old(buf.tagTable)|, flatten), old(buf.entries), old(buf.tagTable))
    ensures st == Styled(children, tag, |old(buf.tagTable)|, flatten).status
    decreases SizeList(children), 3
  {
    var base := |buf.tagTable|;
    ghost var e0, t0 := buf.entries, buf.tagTable;
    var j := 0;
    while j < |children|
      invariant 0 <= j <= |children|
      invariant buf.Valid() && Loaded(buf.tagTable)
      invariant Styled(children[..j], tag, base, flatten).status == Completed
      invariant buf.Emitted(Styled(children[..j], tag, base, flatten), e0, t0)
    {
      ghost var pre := Styled(children[..j], tag, base, flatten);
      ghost var e1, t1 := buf.entries, buf.tagTable;
      st := RenderStyledChild(buf, children[j], tag, flatten);
      ghost var next := Styled(children[..j + 1], tag, base, flatten);
      StyledStep(children, j, tag, base, |t1|, flatten);
      EmittedThen(pre, StyledChild(children[j], tag, |t1|, flatten), e0, t0, e1, t1, buf.entries, buf.tagTable);
      if st.Panicked? {
        StyledSticky(children, j + 1, tag, base, flatten);
        return;
      }
      j := j + 1;
    }
    assert children[..j] == children;
    st := Completed;
  }

  method RenderStyledChild(buf: Buffer, c: Node, tag: TagName, flatten: Flatten) returns (st: Status)
    requires tag == BOLD || tag == EMPHASIS
    requires buf.Valid() && Loaded(buf.tagTable)
    modifies buf
    ensures buf.Valid() && Loaded(buf.tagTable)
    ensures buf.Emitted(StyledChild(c, tag, |old(buf.tagTable)|, flatten), old(buf.entries), old(buf.tagTable))
    ensures st == StyledChild(c, tag, |old(buf.tagTable)|, flatten).status
    decreases Size(c), 2
  {
    if c.Text? {
      SingleTags(tag, tag, 0);
      buf.InsertWithTagsByName(c.value, [tag]);
      st := Completed;
    } else {
      st := RenderInline(buf, [c], flatten);
    }
  }

  // md_list2buf.
  method RenderList(buf: Buffer, items: seq<Node>, ordered: bool, level: u8, flatten: Flatten) returns (st: Status)
    requires buf.Valid() && Loaded(buf.tagTable)
    modifies buf
    ensures buf.Valid() && Loaded(buf.tagTable)
    ensures buf.Emitted(ListOut(items, ordered, level, |old(buf.tagTable)|, flatten), old(buf.entries), old(buf.tagTable))
    ensures st == ListOut(items, ordered, level, |old(buf.tagTable)|, flatten).status
    decreases SizeList(items), 3
  {
    ghost var e0, t0 := buf.entries, buf.tagTable;
    var tag := buf.AddTag(ListTag(level));
    LoadedAppend(t0, [ListTag(level)]);
    ghost var t00 := buf.tagTable;
    var k := 0;
    while k < |items|
      invariant 0 <= k <= |items|
      invariant buf.Valid() && Loaded(buf.tagTable) && tag < |buf.tagTable|
      invariant ListItems(items[..k], ordered, level, tag, tag + 1, flatten).status == Completed
      invariant buf.Emitted(ListItems(items[..k], ordered, level, tag, tag + 1, flatten), e0, t00)
    {
      ghost var pre := ListItems(items[..k], ordered, level, tag, tag + 1, flatten);
      ghost var e1, t1 := buf.entries, buf.tagTable;
      st := RenderListChild(buf, items[k], k, ordered, level, tag, flatten);
      ghost var step := ListChild(items[k], k, ordered, level, tag, |t1|, flatten);
      ghost var next := ListItems(items[..k + 1], ordered, level, tag, tag + 1, flatten);
      ListItemsStep(items, k, ordered, level, tag, tag + 1, |t1|, flatten);
      EmittedThen(pre, step, e0, t00, e1, t1, buf.entries, buf.tagTable);
      assert buf.entries == e0 + next.out && buf.tagTable == t00 + next.added;
      if st.Panicked? {
        ListItemsSticky(items, k + 1, ordered, level, tag, tag + 1, flatten);
        ListOutBody(items, ordered, level, tag, flatten, e0, t0, buf.entries, buf.tagTable);
        return;
      }
      k := k + 1;
    }
    assert items[..k] == items;
    ListOutBody(items, ordered, level, tag, flatten, e0, t0, buf.entries, buf.tagTable);
    st := Completed;
  }

  // A buffer holding the list's tag and then its children holds ListOut.
  lemma ListOutBody(items: seq<Node>, ordered: bool, level: u8, tag: nat, flatten: Flatten,
                    e0: seq<Entry>, t0: seq<TagDef>, e2: seq<Entry>, t2: seq<TagDef>)
    requires |t0| == tag
    requires e2 == e0 + ListItems(items, ordered, level, tag, tag + 1, flatten).out
    requires t2 == t0 + [ListTag(level)] + ListItems(items, ordered, level, tag, tag + 1, flatten).added
    ensures e2 == e0 + ListOut(items, ordered, level, tag, flatten).out
    ensures t2 == t0 + ListOut(items, ordered, level, tag, flatten).added
  {
    var body := ListItems(items, ordered, level, tag, tag + 1, flatten);
    assert t0 + [ListTag(level)] + body.added == t0 + ([ListTag(level)] + body.added);
  }

  // The body of md_list2buf's loop for the k-th child.
  method RenderListChild(buf: Buffer, node: Node, k: nat, ordered: bool, level: u8, tag: nat, flatten: Flatten)
    returns (st: Status)
    requires buf.Valid() && Loaded(buf.tagTable) && tag < |buf.tagTable|
    modifies buf
    ensures buf.Valid() && Loaded(buf.tagTable)
    ensures buf.Emitted(ListChild(node, k, ordered, level, tag, |old(buf.tagTable)|, flatten), old(buf.entries), old(buf.tagTable))
    ensures st == ListChild(node, k, ordered, level, tag, |old(buf.tagTable)|, flatten).status
    decreases Size(node), 1
  {
    ghost var e0, t0 := buf.entries, buf.tagTable;
    ghost var marker := Done([Run(Marker(ordered, k), [ByHandle(tag)])]);
    SingleTags(BOLD, BOLD, tag);
    buf.InsertWithTags(Marker(ordered, k), [tag]);
    ghost var e1, t1 := buf.entries, buf.tagTable;
    ghost var body := ItemContent(node, level, |t0|, flatten);
    st := RenderItemContent(buf, node, level, flatten);
    EmittedThen(marker, body, e0, t0, e1, t1, buf.entries, buf.tagTable);
    if st.Panicked? {
      return;
    }
    ghost var e2, t2 := buf.entries, buf.tagTable;
    buf.Insert(NL);
    EmittedThen(Then(marker, body), Done([Run(NL, [])]), e0, t0, e2, t2, buf.entries, buf.tagTable);
  }

  method RenderItemContent(buf: Buffer, node: Node, level: u8, flatten: Flatten) returns (st: Status)
    requires buf.Valid() && Loaded(buf.tagTable)
    modifies buf
    ensures buf.Valid() && Loaded(buf.tagTable)
    ensures buf.Emitted(ItemContent(node, level, |old(buf.tagTable)|, flatten), old(buf.entries), old(buf.tagTable))
    ensures st == ItemContent(node, level, |old(buf.tagTable)|, flatten).status
    decreases Size(node), 0
  {
    match node
    case List(o, cs) =>
      st := RenderList(buf, cs, o, NextLevel(level), flatten);
    case ListItem(cs) =>
      st := RenderInline(buf, cs, flatten);
    case _ =>
      st := Panicked(Unimplemented(""));
  }

  // One iteration of md2gtk's loop over the top-level blocks.
  method RenderBlock(buf: Buffer, node: Node, flatten: Flatten) returns (st: Status)
    requires buf.Valid() && Loaded(buf.tagTable)
    modifies buf
    ensures buf.Valid() && Loaded(buf.tagTable)
    ensures buf.Emitted(Block(node, |old(buf.tagTable)|, flatten), old(buf.entries), old(buf.tagTable))
    ensures st == Block(node, |old(buf.tagTable)|, flatten).status
  {
    match node
    case BlockQuote(_) =>
      RenderBlockQuote(buf, node, flatten);
      st := Completed;
    case List(_, _) =>
      st := RenderTopList(buf, node, flatten);
    case Heading(_, _) =>
      st := RenderHeading(buf, node, flatten);
    case Table(_) =>
      RenderTable(buf, node, flatten);
      st := Completed;
    case Paragraph(cs) =>
      st := RenderInline(buf, cs, flatten);
    case Code(_, _) =>
      RenderCode(buf, node, flatten);
      st := Completed;
    case Html(_) =>
      st := Panicked(Unimplemented("HTML parsing"));
    case _ =>
      st := Panicked(Unimplemented(""));
  }

  method RenderBlockQuote(buf: Buffer, node: Node, flatten: Flatten)
    requires node.BlockQuote? && buf.Valid() && Loaded(buf.tagTable)
    modifies buf
    ensures buf.Valid() && Loaded(buf.tagTable)
    ensures buf.Emitted(Block(node, |old(buf.tagTable)|, flatten), old(buf.entries), old(buf.tagTable))
    ensures Block(node, |old(buf.tagTable)|, flatten).status == Completed
  {
    SingleTags(BLOCK_QUOTE, BLOCK_QUOTE, 0);
    buf.Insert(NL);
    buf.InsertWithTagsByName(flatten(node), [BLOCK_QUOTE]);
    buf.Insert(NL);
  }

  method RenderTopList(buf: Buffer, node: Node, flatten: Flatten) returns (st: Status)
    requires node.List? && buf.Valid() && Loaded(buf.tagTable)
    modifies buf
    ensures buf.Valid() && Loaded(buf.tagTable)
    ensures buf.Emitted(Block(node, |old(buf.tagTable)|, flatten), old(buf.entries), old(buf.tagTable))
    ensures st == Block(node, |old(buf.tagTable)|, flatten).status
  {
    ghost var e0, t0 := buf.entries, buf.tagTable;
    ghost var blank := Done([Run(BLANK, [])]);
    ghost var list := ListOut(node.children, node.ordered, 1, |t0|, flatten);
    buf.Insert(BLANK);
    ghost var e1, t1 := buf.entries, buf.tagTable;
    st := RenderList(buf, node.children, node.ordered, 1, flatten);
    EmittedThen(blank, list, e0, t0, e1, t1, buf.entries, buf.tagTable);
    if st.Completed? {
      ghost var e2, t2 := buf.entries, buf.tagTable;
      buf.Insert(NL);
      EmittedThen(Then(blank, list), Done([Run(NL, [])]), e0, t0, e2, t2, buf.entries, buf.tagTable);
    }
  }

  method RenderHeading(buf: Buffer, node: Node, flatten: Flatten) returns (st: Status)
    requires node.Heading? && buf.Valid() && Loaded(buf.tagTable)
    modifies buf
    ensures buf.Valid() && Loaded(buf.tagTable)
    ensures buf.Emitted(Block(node, |old(buf.tagTable)|, flatten), old(buf.entries), old(buf.tagTable))
    ensures st == Block(node, |old(buf.tagTable)|, flatten).status
  {
    buf.Insert(NL);
    // The tag name is chosen while the arguments of the insertion are
    // evaluated, so an unknown depth panics after the first newline.
    var h := HeadingTag(node.depth);
    if h.None? {
      st := Panicked(Unreachable);
      return;
    }
    SingleTags(BOLD, h.value, 0);
    buf.InsertWithTagsByName(flatten(node), [BOLD, h.value]);
    buf.Insert(NL);
    st := Completed;
  }

  method RenderTable(buf: Buffer, node: Node, flatten: Flatten)
    requires node.Table? && buf.Valid() && Loaded(buf.tagTable)
    modifies buf
    ensures buf.Valid() && Loaded(buf.tagTable)
    ensures buf.Emitted(Block(node, |old(buf.tagTable)|, flatten), old(buf.entries), old(buf.tagTable))
    ensures Block(node, |old(buf.tagTable)|, flatten).status == Completed
  {
    // The grid is built from the table alone, so building it before the
    // anchor is inserted leaves the buffer as the source leaves it.
    var cells, columns := ProjectTable(node.rows, flatten);
    buf.Insert(NL);
    buf.InsertChildAnchor(CellGrid(cells, columns));
    buf.Insert(NL);
  }

  method RenderCode(buf: Buffer, node: Node, flatten: Flatten)
    requires node.Code? && buf.Valid() && Loaded(buf.tagTable)
    modifies buf
    ensures buf.Valid() && Loaded(buf.tagTable)
    ensures buf.Emitted(Block(node, |old(buf.tagTable)|, flatten), old(buf.entries), old(buf.tagTable))
    ensures Block(node, |old(buf.tagTable)|, flatten).status == Completed
  {
    SingleTags(CODE_BLOCK, CODE_BLOCK, 0);
    buf.Insert(BLANK);
    buf.InsertWithTagsByName(node.value, [CODE_BLOCK]);
    buf.Insert(BLANK);
  }

  // md2gtk on the children of the parsed root: a fresh buffer, the registry,
  // then every block in order until one panics.
  method Md2Gtk(blocks: seq<Node>, flatten: Flatten) returns (buf: Buffer, st: Status)
    ensures fresh(buf) && buf.Valid()
    ensures buf.entries == Document(blocks, flatten).out
    ensures buf.tagTable == Registry() + Document(blocks, flatten).added
    ensures st == Document(blocks, flatten).status
  {
    buf := new Buffer();
    LoadTextTags(buf);
    ghost var e0, t0 := buf.entries, buf.tagTable;
    assert e0 == [] && t0 == Registry();
    RegistryLoaded(t0);
    var base := |buf.tagTable|;
    var i := 0;
    while i < |blocks|
      invariant 0 <= i <= |blocks|
      invariant buf.Valid() && Loaded(buf.tagTable)
      invariant Blocks(blocks[..i], base, flatten).status == Completed
      invariant buf.Emitted(Blocks(blocks[..i], base, flatten), e0, t0)
    {
      ghost var pre := Blocks(blocks[..i], base, flatten);
      ghost var e1, t1 := buf.entries, buf.tagTable;
      st := RenderBlock(buf, blocks[i], flatten);
      BlocksStep(blocks, i, base, |t1|, flatten);
      EmittedThen(pre, Block(blocks[i], |t1|, flatten), e0, t0, e1, t1, buf.entries, buf.tagTable);
      if st.Panicked? {
        BlocksSticky(blocks, i + 1, base, flatten);
        return;
      }
      i := i + 1;
    }
    assert blocks[..i] == blocks;
    st := Completed;
  }
}

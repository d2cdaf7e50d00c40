// The earlier markdown renderer, src/gui/markdown2gtk.rs. It walks the same
// mdast tree as the current one, but it registers only four named tags and
// never adds an anonymous one. Links become link buttons, code blocks become
// framed labels, tables are not implemented, and list items are indented with
// tab characters.
//
// As in module Markdown2Gtk, each operation has a specification function
// giving the Emission it appends and a method proved to append exactly that.
// Here every method also leaves the tag table as it found it.
module Markdown2GtkEarlier {

  import opened Wrappers
  import opened Mdast
  import opened Layout
  import opened TextBuffer
  import opened Fmt

  // The caption of every link button.
  const LINK_CAPTION := "{LINK HOLDER}"

  // ---------------------------------------------------------------- tags

  // The named tags that load_text_tags registers, in order (CODE_BLOCK is
  // commented out in this revision).
  function Registry(): (r: seq<TagDef>)
    ensures |r| == 4 && forall i :: 0 <= i < |r| ==> r[i].name.Some?
  {
    [ TagDef(Some(HEADING1), SizePoints(30)),
      TagDef(Some(BOLD), Weight(700)),
      TagDef(Some(EMPHASIS), UnderlineSingle),
      TagDef(Some(INLINE_CODE), Monospace) ]
  }

  // Every name this revision looks tags up by is a tag of the table.
  ghost predicate Loaded(table: seq<TagDef>) {
    Named(table, HEADING1) && Named(table, BOLD) && Named(table, EMPHASIS) && Named(table, INLINE_CODE)
  }

  lemma RegistryLoaded(table: seq<TagDef>)
    requires Registry() <= table
    ensures Loaded(table)
  {
    assert table[0] == Registry()[0] && table[1] == Registry()[1];
    assert table[2] == Registry()[2] && table[3] == Registry()[3];
  }

  // The marker of the k-th (0-based) item: `format!(" {}", num)` with the
  // 0-based position when the list is ordered.
  function Marker(ordered: bool, k: nat): (m: string)
    ensures !ordered ==> m == "• "
    ensures ordered ==> |m| >= 2 && m[0] == ' ' && IsDigits(m[1..])
  {
    if ordered then " " + DecimalString(k) else "• "
  }

  // The indentation of a list item: one tab run per level.
  function Tabs(n: nat): (r: seq<Entry>)
    ensures |r| == n && forall i :: 0 <= i < n ==> r[i] == Run("\t", [])
  {
    if n == 0 then [] else Tabs(n - 1) + [Run("\t", [])]
  }

  // ------------------------------------------------- specification: inline

  // md_paragraph2buf over a list of inline nodes.
  function Inline(nodes: seq<Node>): Emission
    decreases SizeList(nodes), 1
  {
    if |nodes| == 0 then Done([])
    else Then(Inline(nodes[..|nodes| - 1]), InlineNode(nodes[|nodes| - 1]))
  }

  function InlineNode(n: Node): Emission
    decreases Size(n), 0
  {
    match n
    case InlineCode(v) => Done([Run(v, [ByName(INLINE_CODE)])])
    case Text(v) => Done([Run(v, [])])
    case Strong(cs) => Styled(cs, BOLD)
    case Emphasis(cs) => Styled(cs, EMPHASIS)
    case Link(url, _) => Done([Anchor(LinkButton(LINK_CAPTION, url))])
    case LinkReference(_) => Abort([], Todo("LinkRefrence"))
    case Image(_, _) => Abort([], Todo("Image"))
    case ImageReference(_) => Abort([], Todo("ImageReference"))
    case Paragraph(cs) => Inline(cs)
    case _ => Abort([], Unimplemented(""))
  }

  // The children of a Strong or Emphasis node.
  function Styled(children: seq<Node>, tag: TagName): Emission
    decreases SizeList(children), 3
  {
    if |children| == 0 then Done([])
    else Then(Styled(children[..|children| - 1], tag), StyledChild(children[|children| - 1], tag))
  }

  function StyledChild(c: Node, tag: TagName): Emission
    decreases Size(c), 2
  {
    if c.Text? then Done([Run(c.value, [ByName(tag)])]) else Inline([c])
  }

  // --------------------------------------------------- specification: lists

  // md_list2buf: every child in order (the Box it builds is never shown).
  function ListItems(items: seq<Node>, ordered: bool, level: u8): Emission
    decreases SizeList(items), 2
  {
    if |items| == 0 then Done([])
    else Then(ListItems(items[..|items| - 1], ordered, level), ListChild(items[|items| - 1], |items| - 1, ordered, level))
  }

  // The k-th child: `level` tabs, its untagged marker, its content, a newline.
  function ListChild(n: Node, k: nat, ordered: bool, level: u8): Emission
    decreases Size(n), 1
  {
    var lead := Done(Tabs(level as nat) + [Run(Marker(ordered, k), [])]);
    Then(Then(lead, ItemContent(n, level)), Done([Run(NL, [])]))
  }

  function ItemContent(n: Node, level: u8): Emission
    decreases Size(n), 0
  {
    match n
    case List(o, cs) => ListItems(cs, o, NextLevel(level))
    case ListItem(cs) => Inline(cs)
    case _ => Abort([], Unimplemented(""))
  }

  // -------------------------------------------------- specification: blocks

  // One top-level block of md2gtk. Html is skipped; any other kind not
  // matched is only reported on standard error (`dbg!`).
  function Block(n: Node, flatten: Flatten): Emission {
    match n
    case BlockQuote(_) => Done([Run(NL, []), Run(flatten(n), []), Run(NL, [])])
    case List(o, cs) => Then(Then(Done([Run(BLANK, [])]), ListItems(cs, o, 1)), Done([Run(NL, [])]))
    case Heading(_, _) => Done([Run(NL, []), Run(flatten(n), [ByName(HEADING1)]), Run(NL, [])])
    case Table(_) => Abort([], Todo("Table"))
    case Paragraph(cs) => Inline(cs)
    case Code(v, _) => Done([Run(BLANK, []), Anchor(CodeFrame(v)), Run(BLANK, [])])
    case Html(_) => Done([])
    case _ => Done([])
  }

  function Blocks(blocks: seq<Node>, flatten: Flatten): Emission
    decreases |blocks|
  {
    if |blocks| == 0 then Done([])
    else Then(Blocks(blocks[..|blocks| - 1], flatten), Block(blocks[|blocks| - 1], flatten))
  }

  // ------------------------------------------ a panic ends the whole render

  lemma {:induction false} InlineSticky(nodes: seq<Node>, k: nat)
    requires k <= |nodes| && Inline(nodes[..k]).status.Panicked?
    ensures Inline(nodes) == Inline(nodes[..k])
    decreases |nodes|
  {
    if k < |nodes| {
      var prefix := nodes[..|nodes| - 1];
      assert prefix[..k] == nodes[..k];
      InlineSticky(prefix, k);
    } else {
      assert nodes[..k] == nodes;
    }
  }

  lemma {:induction false} StyledSticky(children: seq<Node>, k: nat, tag: TagName)
    requires k <= |children| && Styled(children[..k], tag).status.Panicked?
    ensures Styled(children, tag) == Styled(children[..k], tag)
    decreases |children|
  {
    if k < |children| {
      var prefix := children[..|children| - 1];
      assert prefix[..k] == children[..k];
      StyledSticky(prefix, k, tag);
    } else {
      assert children[..k] == children;
    }
  }

  lemma {:induction false} ListItemsSticky(items: seq<Node>, k: nat, ordered: bool, level: u8)
    requires k <= |items| && ListItems(items[..k], ordered, level).status.Panicked?
    ensures ListItems(items, ordered, level) == ListItems(items[..k], ordered, level)
    decreases |items|
  {
    if k < |items| {
      var prefix := items[..|items| - 1];
      assert prefix[..k] == items[..k];
      ListItemsSticky(prefix, k, ordered, level);
    } else {
      assert items[..k] == items;
    }
  }

  lemma {:induction false} BlocksSticky(blocks: seq<Node>, k: nat, flatten: Flatten)
    requires k <= |blocks| && Blocks(blocks[..k], flatten).status.Panicked?
    ensures Blocks(blocks, flatten) == Blocks(blocks[..k], flatten)
    decreases |blocks|
  {
    if k < |blocks| {
      var prefix := blocks[..|blocks| - 1];
      assert prefix[..k] == blocks[..k];
      BlocksSticky(prefix, k, flatten);
    } else {
      assert blocks[..k] == blocks;
    }
  }

  // ----------------------------------------- one more element of each fold

  lemma InlineStep(nodes: seq<Node>, i: nat)
    requires i < |nodes|
    ensures Inline(nodes[..i + 1]) == Then(Inline(nodes[..i]), InlineNode(nodes[i]))
  {
    assert nodes[..i + 1][..i] == nodes[..i];
  }

  lemma StyledStep(children: seq<Node>, j: nat, tag: TagName)
    requires j < |children|
    ensures Styled(children[..j + 1], tag) == Then(Styled(children[..j], tag), StyledChild(children[j], tag))
  {
    assert children[..j + 1][..j] == children[..j];
  }

  lemma ListItemsStep(items: seq<Node>, k: nat, ordered: bool, level: u8)
    requires k < |items|
    ensures ListItems(items[..k + 1], ordered, level)
         == Then(ListItems(items[..k], ordered, level), ListChild(items[k], k, ordered, level))
  {
    assert items[..k + 1][..k] == items[..k];
  }

  lemma BlocksStep(blocks: seq<Node>, i: nat, flatten: Flatten)
    requires i < |blocks|
    ensures Blocks(blocks[..i + 1], flatten) == Then(Blocks(blocks[..i], flatten), Block(blocks[i], flatten))
  {
    assert blocks[..i + 1][..i] == blocks[..i];
  }

  // ------------------------------------------------------------- methods

  // load_text_tags: registers the four named tags; none of their names may
  // be in the table yet.
  method LoadTextTags(buf: Buffer)
    requires buf.Valid()
    requires forall n :: !Named(buf.tagTable, n)
    modifies buf
    ensures buf.Valid() && buf.entries == old(buf.entries)
    ensures buf.tagTable == old(buf.tagTable) + Registry()
  {
    var h;
    ghost var t0, names: set<TagName> := buf.tagTable, {};
    NamedOnlyAppend(buf.tagTable, TagDef(Some(HEADING1), SizePoints(30)), names);
    h := buf.AddTag(TagDef(Some(HEADING1), SizePoints(30)));
    names := names + {HEADING1};
    NamedOnlyAppend(buf.tagTable, TagDef(Some(BOLD), Weight(700)), names);
    h := buf.AddTag(TagDef(Some(BOLD), Weight(700)));
    names := names + {BOLD};
    NamedOnlyAppend(buf.tagTable, TagDef(Some(EMPHASIS), UnderlineSingle), names);
    h := buf.AddTag(TagDef(Some(EMPHASIS), UnderlineSingle));
    h := buf.AddTag(TagDef(Some(INLINE_CODE), Monospace));
    assert buf.tagTable == t0 + Registry();
  }

  // md_paragraph2buf.
  method RenderInline(buf: Buffer, nodes: seq<Node>) returns (st: Status)
    requires buf.Valid() && Loaded(buf.tagTable)
    modifies buf
    ensures buf.Valid() && buf.tagTable == old(buf.tagTable)
    ensures buf.entries == old(buf.entries) + Inline(nodes).out
    ensures st == Inline(nodes).status
    decreases SizeList(nodes), 1
  {
    ghost var e0 := buf.entries;
    var i := 0;
    while i < |nodes|
      invariant 0 <= i <= |nodes|
      invariant buf.Valid() && buf.tagTable == old(buf.tagTable)
      invariant Inline(nodes[..i]).status == Completed
      invariant buf.entries == e0 + Inline(nodes[..i]).out
    {
      ghost var e1 := buf.entries;
      st := RenderInlineNode(buf, nodes[i]);
      InlineStep(nodes, i);
      WroteThen(Inline(nodes[..i]), InlineNode(nodes[i]), e0, e1, buf.entries);
      if st.Panicked? {
        InlineSticky(nodes, i + 1);
        return;
      }
      i := i + 1;
    }
    assert nodes[..i] == nodes;
    st := Completed;
  }

  // The match arm of md_paragraph2buf for one node.
  method RenderInlineNode(buf: Buffer, node: Node) returns (st: Status)
    requires buf.Valid() && Loaded(buf.tagTable)
    modifies buf
    ensures buf.Valid() && buf.tagTable == old(buf.tagTable)
    ensures buf.entries == old(buf.entries) + InlineNode(node).out
    ensures st == InlineNode(node).status
    decreases Size(node), 0
  {
    match node {
      case InlineCode(v) =>
        SingleTags(INLINE_CODE, INLINE_CODE, 0);
        buf.InsertWithTagsByName(v, [INLINE_CODE]);
        st := Completed;
      case Text(v) =>
        buf.Insert(v);
        st := Completed;
      case Strong(cs) =>
        st := RenderStyled(buf, cs, BOLD);
      case Emphasis(cs) =>
        st := RenderStyled(buf, cs, EMPHASIS);
      case Link(url, _) =>
        buf.InsertChildAnchor(LinkButton(LINK_CAPTION, url));
        st := Completed;
      case LinkReference(_) =>
        st := Panicked(Todo("LinkRefrence"));
      case Image(_, _) =>
        st := Panicked(Todo("Image"));
      case ImageReference(_) =>
        st := Panicked(Todo("ImageReference"));
      case Paragraph(cs) =>
        st := RenderInline(buf, cs);
      case _ =>
        st := Panicked(Unimplemented(""));
    }
  }

  // The loop over the children of a Strong or Emphasis node.
  method RenderStyled(buf: Buffer, children: seq<Node>, tag: TagName) returns (st: Status)
    requires tag == BOLD || tag == EMPHASIS
    requires buf.Valid() && Loaded(buf.tagTable)
    modifies buf
    ensures buf.Valid() && buf.tagTable == old(buf.tagTable)
    ensures buf.entries == old(buf.entries) + Styled(children, tag).out
    ensures st == Styled(children, tag).status
    decreases SizeList(children), 3
  {
    ghost var e0 := buf.entries;
    var j := 0;
    while j < |children|
      invariant 0 <= j <= |children|
      invariant buf.Valid() && buf.tagTable == old(buf.tagTable)
      invariant Styled(children[..j], tag).status == Completed
      invariant buf.entries == e0 + Styled(children[..j], tag).out
    {
      ghost var e1 := buf.entries;
      st := RenderStyledChild(buf, children[j], tag);
      StyledStep(children, j, tag);
      WroteThen(Styled(children[..j], tag), StyledChild(children[j], tag), e0, e1, buf.entries);
      if st.Panicked? {
        StyledSticky(children, j + 1, tag);
        return;
      }
      j := j + 1;
    }
    assert children[..j] == children;
    st := Completed;
  }

  method RenderStyledChild(buf: Buffer, c: Node, tag: TagName) returns (st: Status)
    requires tag == BOLD || tag == EMPHASIS
    requires buf.Valid() && Loaded(buf.tagTable)
    modifies buf
    ensures buf.Valid() && buf.tagTable == old(buf.tagTable)
    ensures buf.entries == old(buf.entries) + StyledChild(c, tag).out
    ensures st == StyledChild(c, tag).status
    decreases Size(c), 2
  {
    if c.Text? {
      SingleTags(tag, tag, 0);
      buf.InsertWithTagsByName(c.value, [tag]);
      st := Completed;
    } else {
      st := RenderInline(buf, [c]);
    }
  }

  // md_list2buf.
  method RenderList(buf: Buffer, items: seq<Node>, ordered: bool, level: u8) returns (st: Status)
    requires buf.Valid() && Loaded(buf.tagTable)
    modifies buf
    ensures buf.Valid() && buf.tagTable == old(buf.tagTable)
    ensures buf.entries == old(buf.entries) + ListItems(items, ordered, level).out
    ensures st == ListItems(items, ordered, level).status
    decreases SizeList(items), 2
  {
    ghost var e0 := buf.entries;
    var k := 0;
    while k < |items|
      invariant 0 <= k <= |items|
      invariant buf.Valid() && buf.tagTable == old(buf.tagTable)
      invariant ListItems(items[..k], ordered, level).status == Completed
      invariant buf.entries == e0 + ListItems(items[..k], ordered, level).out
    {
      ghost var e1 := buf.entries;
      st := RenderListChild(buf, items[k], k, ordered, level);
      ListItemsStep(items, k, ordered, level);
      WroteThen(ListItems(items[..k], ordered, level), ListChild(items[k], k, ordered, level), e0, e1, buf.entries);
      if st.Panicked? {
        ListItemsSticky(items, k + 1, ordered, level);
        return;
      }
      k := k + 1;
    }
    assert items[..k] == items;
    st := Completed;
  }

  // The body of md_list2buf's loop for the k-th child.
  method RenderListChild(buf: Buffer, node: Node, k: nat, ordered: bool, level: u8) returns (st: Status)
    requires buf.Valid() && Loaded(buf.tagTable)
    modifies buf
    ensures buf.Valid() && buf.tagTable == old(buf.tagTable)
    ensures buf.entries == old(buf.entries) + ListChild(node, k, ordered, level).out
    ensures st == ListChild(node, k, ordered, level).status
    decreases Size(node), 1
  {
    ghost var e0 := buf.entries;
    var t := 0;
    while t < level
      invariant 0 <= t <= level
      invariant buf.Valid() && buf.tagTable == old(buf.tagTable)
      invariant buf.entries == e0 + Tabs(t as nat)
    {
      buf.Insert("\t");
      t := t + 1;
    }
    buf.Insert(Marker(ordered, k));
    ghost var lead := Done(Tabs(level as nat) + [Run(Marker(ordered, k), [])]);
    ghost var e1 := buf.entries;
    st := RenderItemContent(buf, node, level);
    WroteThen(lead, ItemContent(node, level), e0, e1, buf.entries);
    if st.Panicked? {
      return;
    }
    ghost var e2 := buf.entries;
    buf.Insert(NL);
    WroteThen(Then(lead, ItemContent(node, level)), Done([Run(NL, [])]), e0, e2, buf.entries);
  }

  method RenderItemContent(buf: Buffer, node: Node, level: u8) returns (st: Status)
    requires buf.Valid() && Loaded(buf.tagTable)
    modifies buf
    ensures buf.Valid() && buf.tagTable == old(buf.tagTable)
    ensures buf.entries == old(buf.entries) + ItemContent(node, level).out
    ensures st == ItemContent(node, level).status
    decreases Size(node), 0
  {
    match node {
      case List(o, cs) =>
        st := RenderList(buf, cs, o, NextLevel(level));
      case ListItem(cs) =>
        st := RenderInline(buf, cs);
      case _ =>
        st := Panicked(Unimplemented(""));
    }
  }

  // One iteration of md2gtk's loop over the top-level blocks.
  method RenderBlock(buf: Buffer, node: Node, flatten: Flatten) returns (st: Status)
    requires buf.Valid() && Loaded(buf.tagTable)
    modifies buf
    ensures buf.Valid() && buf.tagTable == old(buf.tagTable)
    ensures buf.entries == old(buf.entries) + Block(node, flatten).out
    ensures st == Block(node, flatten).status
  {
    match node {
      case BlockQuote(_) =>
        RenderBlockQuote(buf, node, flatten);
        st := Completed;
      case List(_, _) =>
        st := RenderTopList(buf, node, flatten);
      case Heading(_, _) =>
        RenderHeading(buf, node, flatten);
        st := Completed;
      case Table(_) =>
        st := Panicked(Todo("Table"));
      case Paragraph(cs) =>
        st := RenderInline(buf, cs);
      case Code(_, _) =>
        RenderCode(buf, node, flatten);
        st := Completed;
      case Html(_) =>
        st := Completed;
      case _ =>
        st := Completed;
    }
  }

  // A block quote's text, untagged (`insert_with_tags_by_name` with no names).
  method RenderBlockQuote(buf: Buffer, node: Node, flatten: Flatten)
    requires node.BlockQuote? && buf.Valid()
    modifies buf
    ensures buf.Valid() && buf.tagTable == old(buf.tagTable)
    ensures buf.entries == old(buf.entries) + Block(node, flatten).out
    ensures Block(node, flatten).status == Completed
  {
    buf.Insert(NL);
    buf.InsertWithTagsByName(flatten(node), []);
    buf.Insert(NL);
  }

  method RenderTopList(buf: Buffer, node: Node, flatten: Flatten) returns (st: Status)
    requires node.List? && buf.Valid() && Loaded(buf.tagTable)
    modifies buf
    ensures buf.Valid() && buf.tagTable == old(buf.tagTable)
    ensures buf.entries == old(buf.entries) + Block(node, flatten).out
    ensures st == Block(node, flatten).status
  {
    ghost var e0 := buf.entries;
    ghost var blank := Done([Run(BLANK, [])]);
    ghost var list := ListItems(node.children, node.ordered, 1);
    buf.Insert(BLANK);
    ghost var e1 := buf.entries;
    st := RenderList(buf, node.children, node.ordered, 1);
    WroteThen(blank, list, e0, e1, buf.entries);
    if st.Completed? {
      ghost var e2 := buf.entries;
      buf.Insert(NL);
      WroteThen(Then(blank, list), Done([Run(NL, [])]), e0, e2, buf.entries);
    }
  }

  // Every heading gets the HEADING1 tag, whatever its depth.
  method RenderHeading(buf: Buffer, node: Node, flatten: Flatten)
    requires node.Heading? && buf.Valid() && Loaded(buf.tagTable)
    modifies buf
    ensures buf.Valid() && buf.tagTable == old(buf.tagTable)
    ensures buf.entries == old(buf.entries) + Block(node, flatten).out
    ensures Block(node, flatten).status == Completed
  {
    SingleTags(HEADING1, HEADING1, 0);
    buf.Insert(NL);
    buf.InsertWithTagsByName(flatten(node), [HEADING1]);
    buf.Insert(NL);
  }

  // A code block: its text in a framed label attached to a child anchor.
  method RenderCode(buf: Buffer, node: Node, flatten: Flatten)
    requires node.Code? && buf.Valid()
    modifies buf
    ensures buf.Valid() && buf.tagTable == old(buf.tagTable)
    ensures buf.entries == old(buf.entries) + Block(node, flatten).out
    ensures Block(node, flatten).status == Completed
  {
    buf.Insert(BLANK);
    buf.InsertChildAnchor(CodeFrame(node.value));
    buf.Insert(BLANK);
  }

  // md2gtk on the children of the parsed root: a fresh buffer, the four
  // named tags, then every block in order until one panics.
  method Md2Gtk(blocks: seq<Node>, flatten: Flatten) returns (buf: Buffer, st: Status)
    ensures fresh(buf) && buf.Valid()
    ensures buf.entries == Blocks(blocks, flatten).out && buf.tagTable == Registry()
    ensures st == Blocks(blocks, flatten).status
  {
    buf := new Buffer();
    LoadTextTags(buf);
    RegistryLoaded(buf.tagTable);
    var i := 0;
    while i < |blocks|
      invariant 0 <= i <= |blocks|
      invariant buf.Valid() && buf.tagTable == Registry()
      invariant Blocks(blocks[..i], flatten).status == Completed
      invariant buf.entries == Blocks(blocks[..i], flatten).out
    {
      ghost var e1 := buf.entries;
      st := RenderBlock(buf, blocks[i], flatten);
      BlocksStep(blocks, i, flatten);
      WroteThen(Blocks(blocks[..i], flatten), Block(blocks[i], flatten), [], e1, buf.entries);
      if st.Panicked? {
        BlocksSticky(blocks, i + 1, flatten);
        return;
      }
      i := i + 1;
    }
    assert blocks[..i] == blocks;
    st := Completed;
  }
}

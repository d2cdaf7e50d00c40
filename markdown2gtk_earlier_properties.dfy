// What the earlier renderer (src/gui/markdown2gtk.rs) promises, and how it
// relates to the current one.
module Markdown2GtkEarlierProperties {

  import opened Wrappers
  import opened Mdast
  import opened Layout
  import opened TextBuffer
  import opened Fmt
  import opened Markdown2GtkEarlier
  import Current = Markdown2Gtk
  import P = Markdown2GtkProperties

  // ------------------------------------------------------ which input panics

  // A top-level block that this revision renders without panicking: tables
  // are `todo!`, and Html and unmatched kinds are skipped.
  predicate BlockOk(n: Node) {
    match n
    case List(_, cs) => forall c :: c in cs ==> P.ItemOk(c)
    case Table(_) => false
    case Paragraph(cs) => forall c :: c in cs ==> P.InlineOk(c)
    case _ => true
  }

  lemma {:induction false} InlineCompletesIff(nodes: seq<Node>)
    ensures Inline(nodes).status == Completed <==> forall i :: 0 <= i < |nodes| ==> P.InlineOk(nodes[i])
    decreases SizeList(nodes), 1
  {
    if |nodes| > 0 {
      var prefix := nodes[..|nodes| - 1];
      InlineCompletesIff(prefix);
      InlineNodeCompletesIff(nodes[|nodes| - 1]);
      P.ThenCompletes(Inline(prefix), InlineNode(nodes[|nodes| - 1]));
      assert forall i :: 0 <= i < |prefix| ==> prefix[i] == nodes[i];
    }
  }

  lemma {:induction false} InlineNodeCompletesIff(n: Node)
    ensures InlineNode(n).status == Completed <==> P.InlineOk(n)
    decreases Size(n), 0
  {
    match n
    case Strong(cs) =>
      StyledCompletesIff(cs, BOLD);
      assert (forall c :: c in cs ==> P.InlineOk(c)) <==> (forall i :: 0 <= i < |cs| ==> P.InlineOk(cs[i]));
    case Emphasis(cs) =>
      StyledCompletesIff(cs, EMPHASIS);
      assert (forall c :: c in cs ==> P.InlineOk(c)) <==> (forall i :: 0 <= i < |cs| ==> P.InlineOk(cs[i]));
    case Paragraph(cs) =>
      InlineCompletesIff(cs);
      assert (forall c :: c in cs ==> P.InlineOk(c)) <==> (forall i :: 0 <= i < |cs| ==> P.InlineOk(cs[i]));
    case _ =>
  }

  lemma {:induction false} StyledCompletesIff(children: seq<Node>, tag: TagName)
    ensures Styled(children, tag).status == Completed <==> forall i :: 0 <= i < |children| ==> P.InlineOk(children[i])
    decreases SizeList(children), 3
  {
    if |children| > 0 {
      var prefix := children[..|children| - 1];
      StyledCompletesIff(prefix, tag);
      StyledChildCompletesIff(children[|children| - 1], tag);
      P.ThenCompletes(Styled(prefix, tag), StyledChild(children[|children| - 1], tag));
      assert forall i :: 0 <= i < |prefix| ==> prefix[i] == children[i];
    }
  }

  lemma {:induction false} StyledChildCompletesIff(c: Node, tag: TagName)
    ensures StyledChild(c, tag).status == Completed <==> P.InlineOk(c)
    decreases Size(c), 2
  {
    if !c.Text? {
      InlineCompletesIff([c]);
    }
  }

  lemma {:induction false} ListItemsCompletesIff(items: seq<Node>, ordered: bool, level: u8)
    ensures ListItems(items, ordered, level).status == Completed <==> forall i :: 0 <= i < |items| ==> P.ItemOk(items[i])
    decreases SizeList(items), 2
  {
    if |items| > 0 {
      var prefix := items[..|items| - 1];
      var k := |items| - 1;
      ListItemsCompletesIff(prefix, ordered, level);
      ListChildCompletesIff(items[k], k, ordered, level);
      P.ThenCompletes(ListItems(prefix, ordered, level), ListChild(items[k], k, ordered, level));
      assert forall i :: 0 <= i < |prefix| ==> prefix[i] == items[i];
    }
  }

  lemma {:induction false} ListChildCompletesIff(n: Node, k: nat, ordered: bool, level: u8)
    ensures ListChild(n, k, ordered, level).status == Completed <==> P.ItemOk(n)
    decreases Size(n), 1
  {
    ItemContentCompletesIff(n, level);
  }

  lemma {:induction false} ItemContentCompletesIff(n: Node, level: u8)
    ensures ItemContent(n, level).status == Completed <==> P.ItemOk(n)
    decreases Size(n), 0
  {
    match n
    case List(o, cs) =>
      assert ItemContent(n, level) == ListItems(cs, o, NextLevel(level));
      ListItemsCompletesIff(cs, o, NextLevel(level));
      assert (forall c :: c in cs ==> P.ItemOk(c)) <==> (forall i :: 0 <= i < |cs| ==> P.ItemOk(cs[i]));
    case ListItem(cs) =>
      assert ItemContent(n, level) == Inline(cs);
      InlineCompletesIff(cs);
      assert (forall c :: c in cs ==> P.InlineOk(c)) <==> (forall i :: 0 <= i < |cs| ==> P.InlineOk(cs[i]));
    case _ =>
  }

  lemma BlockCompletesIff(n: Node, flatten: Flatten)
    ensures Block(n, flatten).status == Completed <==> BlockOk(n)
  {
    match n
    case List(o, cs) =>
      ListItemsCompletesIff(cs, o, 1);
      assert (forall c :: c in cs ==> P.ItemOk(c)) <==> (forall i :: 0 <= i < |cs| ==> P.ItemOk(cs[i]));
    case Paragraph(cs) =>
      InlineCompletesIff(cs);
      assert (forall c :: c in cs ==> P.InlineOk(c)) <==> (forall i :: 0 <= i < |cs| ==> P.InlineOk(cs[i]));
    case _ =>
  }

  // md2gtk of this revision renders a whole document without panicking
  // exactly when every top-level block is one it handles.
  lemma {:induction false} BlocksCompletesIff(blocks: seq<Node>, flatten: Flatten)
    ensures Blocks(blocks, flatten).status == Completed <==> forall i :: 0 <= i < |blocks| ==> BlockOk(blocks[i])
    decreases |blocks|
  {
    if |blocks| > 0 {
      var prefix := blocks[..|blocks| - 1];
      BlocksCompletesIff(prefix, flatten);
      BlockCompletesIff(blocks[|blocks| - 1], flatten);
      P.ThenCompletes(Blocks(prefix, flatten), Block(blocks[|blocks| - 1], flatten));
      assert forall i :: 0 <= i < |prefix| ==> prefix[i] == blocks[i];
    }
  }

  // Every block the current revision renders, this one renders too: the
  // rewrite only made the renderer stricter (headings of depth over 6, Html
  // and unmatched kinds) or able to render tables.
  lemma CurrentOkIsOkHereButTables(n: Node)
    requires P.BlockOk(n) && !n.Table?
    ensures BlockOk(n)
  {
  }

  // -------------------------------------------- the two revisions compared

  // Inline content without links.
  predicate LinkFree(n: Node)
    decreases n
  {
    match n
    case Link(_, _) => false
    case Strong(cs) => forall c :: c in cs ==> LinkFree(c)
    case Emphasis(cs) => forall c :: c in cs ==> LinkFree(c)
    case Paragraph(cs) => forall c :: c in cs ==> LinkFree(c)
    case _ => true
  }

  // Without links, the current revision renders inline content exactly as
  // this one does: the same runs with the same named tags, the same panic,
  // and no new tag.
  lemma {:induction false} InlineSame(nodes: seq<Node>, base: nat, flatten: Flatten)
    requires forall i :: 0 <= i < |nodes| ==> LinkFree(nodes[i])
    ensures Current.Inline(nodes, base, flatten) == Inline(nodes)
    ensures Inline(nodes).added == []
    decreases SizeList(nodes), 1
  {
    if |nodes| > 0 {
      var prefix := nodes[..|nodes| - 1];
      InlineSame(prefix, base, flatten);
      InlineNodeSame(nodes[|nodes| - 1], base, flatten);
    }
  }

  lemma {:induction false} InlineNodeSame(n: Node, base: nat, flatten: Flatten)
    requires LinkFree(n)
    ensures Current.InlineNode(n, base, flatten) == InlineNode(n)
    ensures InlineNode(n).added == []
    decreases Size(n), 0
  {
    match n
    case Strong(cs) =>
      StyledSame(cs, BOLD, base, flatten);
    case Emphasis(cs) =>
      StyledSame(cs, EMPHASIS, base, flatten);
    case Paragraph(cs) =>
      InlineSame(cs, base, flatten);
    case _ =>
  }

  lemma {:induction false} StyledSame(children: seq<Node>, tag: TagName, base: nat, flatten: Flatten)
    requires forall i :: 0 <= i < |children| ==> LinkFree(children[i])
    ensures Current.Styled(children, tag, base, flatten) == Styled(children, tag)
    ensures Styled(children, tag).added == []
    decreases SizeList(children), 3
  {
    if |children| > 0 {
      var prefix := children[..|children| - 1];
      StyledSame(prefix, tag, base, flatten);
      StyledChildSame(children[|children| - 1], tag, base, flatten);
    }
  }

  lemma {:induction false} StyledChildSame(c: Node, tag: TagName, base: nat, flatten: Flatten)
    requires LinkFree(c)
    ensures Current.StyledChild(c, tag, base, flatten) == StyledChild(c, tag)
    ensures StyledChild(c, tag).added == []
    decreases Size(c), 2
  {
    if !c.Text? {
      InlineSame([c], base, flatten);
    }
  }

  // A link is where the revisions part: a link button captioned
  // "{LINK HOLDER}" here, a globe icon and the link's text under a new tag
  // in the current one.
  lemma LinkDiffers(url: string, cs: seq<Node>, base: nat, flatten: Flatten)
    ensures InlineNode(Link(url, cs)).out == [Anchor(LinkButton(LINK_CAPTION, url))]
    ensures Current.InlineNode(Link(url, cs), base, flatten).out
         == [Anchor(LinkIcon(url)), Run(flatten(Link(url, cs)), [ByHandle(base)])]
    ensures Current.InlineNode(Link(url, cs), base, flatten).added == [Current.LinkTag()]
  {
  }

  // ------------------------------------------- numbering of ordered lists

  // As written, the k-th item (0-based) of an ordered list shows the number
  // k, so a list starts at 0.
  lemma OrderedNumberFromZero(k: nat)
    ensures var m := Marker(true, k);
      |m| >= 2 && m[0] == ' ' && IsDigits(m[1..]) && DecimalValue(m[1..]) == k
  {
    var m := Marker(true, k);
    assert m[1..] == DecimalString(k);
    DecimalRoundTrip(k);
  }

  // The current revision shows k + 1, so a list starts at 1.
  lemma OrderedNumberFromOne(k: nat)
    ensures var m := Current.Marker(true, k);
      |m| >= 3 && m[|m| - 2..] == ". " && IsDigits(m[..|m| - 2]) && DecimalValue(m[..|m| - 2]) == k + 1
  {
    var m := Current.Marker(true, k);
    assert m[..|m| - 2] == DecimalString(k + 1);
    DecimalRoundTrip(k + 1);
  }
}

// What the current renderer (src/gui/markdown2gtk/imp.rs) promises, stated
// against the specification functions of module Markdown2Gtk.
module Markdown2GtkProperties {

  import opened Wrappers
  import opened Mdast
  import opened Layout
  import opened TextBuffer
  import opened Fmt
  import opened Markdown2Gtk

  // ------------------------------------------------------ which input panics

  // The inline kinds md_paragraph2buf handles, with all their descendants.
  predicate InlineOk(n: Node)
    decreases n
  {
    match n
    case InlineCode(_) => true
    case Text(_) => true
    case Strong(cs) => forall c :: c in cs ==> InlineOk(c)
    case Emphasis(cs) => forall c :: c in cs ==> InlineOk(c)
    case Link(_, _) => true
    case Paragraph(cs) => forall c :: c in cs ==> InlineOk(c)
    case _ => false
  }

  // A child of a list that md_list2buf renders without panicking.
  predicate ItemOk(n: Node)
    decreases n
  {
    match n
    case List(_, cs) => forall c :: c in cs ==> ItemOk(c)
    case ListItem(cs) => forall c :: c in cs ==> InlineOk(c)
    case _ => false
  }

  // A top-level block that md2gtk renders without panicking.
  predicate BlockOk(n: Node) {
    match n
    case BlockQuote(_) => true
    case List(_, cs) => forall c :: c in cs ==> ItemOk(c)
    case Heading(d, _) => 1 <= d <= 6
    case Table(_) => true
    case Paragraph(cs) => forall c :: c in cs ==> InlineOk(c)
    case Code(_, _) => true
    case _ => false
  }

  lemma ThenCompletes(a: Emission, b: Emission)
    ensures Then(a, b).status == Completed <==> a.status == Completed && b.status == Completed
  {
  }

  lemma {:induction false} InlineCompletesIff(nodes: seq<Node>, base: nat, flatten: Flatten)
    ensures Inline(nodes, base, flatten).status == Completed <==> forall i :: 0 <= i < |nodes| ==> InlineOk(nodes[i])
    decreases SizeList(nodes), 1
  {
    if |nodes| > 0 {
      var prefix := nodes[..|nodes| - 1];
      var pre := Inline(prefix, base, flatten);
      InlineCompletesIff(prefix, base, flatten);
      InlineNodeCompletesIff(nodes[|nodes| - 1], base + |pre.added|, flatten);
      ThenCompletes(pre, InlineNode(nodes[|nodes| - 1], base + |pre.added|, flatten));
      assert forall i :: 0 <= i < |prefix| ==> prefix[i] == nodes[i];
    }
  }

  lemma {:induction false} InlineNodeCompletesIff(n: Node, base: nat, flatten: Flatten)
    ensures InlineNode(n, base, flatten).status == Completed <==> InlineOk(n)
    decreases Size(n), 0
  {
    match n
    case Strong(cs) =>
      StyledCompletesIff(cs, BOLD, base, flatten);
      assert (forall c :: c in cs ==> InlineOk(c)) <==> (forall i :: 0 <= i < |cs| ==> InlineOk(cs[i]));
    case Emphasis(cs) =>
      StyledCompletesIff(cs, EMPHASIS, base, flatten);
      assert (forall c :: c in cs ==> InlineOk(c)) <==> (forall i :: 0 <= i < |cs| ==> InlineOk(cs[i]));
    case Paragraph(cs) =>
      InlineCompletesIff(cs, base, flatten);
      assert (forall c :: c in cs ==> InlineOk(c)) <==> (forall i :: 0 <= i < |cs| ==> InlineOk(cs[i]));
    case _ =>
  }

  lemma {:induction false} StyledCompletesIff(children: seq<Node>, tag: TagName, base: nat, flatten: Flatten)
    ensures Styled(children, tag, base, flatten).status == Completed
        <==> forall i :: 0 <= i < |children| ==> InlineOk(children[i])
    decreases SizeList(children), 3
  {
    if |children| > 0 {
      var prefix := children[..|children| - 1];
      var pre := Styled(prefix, tag, base, flatten);
      StyledCompletesIff(prefix, tag, base, flatten);
      StyledChildCompletesIff(children[|children| - 1], tag, base + |pre.added|, flatten);
      ThenCompletes(pre, StyledChild(children[|children| - 1], tag, base + |pre.added|, flatten));
      assert forall i :: 0 <= i < |prefix| ==> prefix[i] == children[i];
    }
  }

  lemma {:induction false} StyledChildCompletesIff(c: Node, tag: TagName, base: nat, flatten: Flatten)
    ensures StyledChild(c, tag, base, flatten).status == Completed <==> InlineOk(c)
    decreases Size(c), 2
  {
    if !c.Text? {
      InlineCompletesIff([c], base, flatten);
    }
  }

  lemma {:induction false} ListOutCompletesIff(items: seq<Node>, ordered: bool, level: u8, base: nat, flatten: Flatten)
    ensures ListOut(items, ordered, level, base, flatten).status == Completed
        <==> forall i :: 0 <= i < |items| ==> ItemOk(items[i])
    decreases SizeList(items), 3
  {
    ListItemsCompletesIff(items, ordered, level, base, base + 1, flatten);
  }

  lemma {:induction false} ListItemsCompletesIff(items: seq<Node>, ordered: bool, level: u8, tag: nat, base: nat, flatten: Flatten)
    ensures ListItems(items, ordered, level, tag, base, flatten).status == Completed
        <==> forall i :: 0 <= i < |items| ==> ItemOk(items[i])
    decreases SizeList(items), 2
  {
    if |items| > 0 {
      var prefix := items[..|items| - 1];
      var pre := ListItems(prefix, ordered, level, tag, base, flatten);
      var k := |items| - 1;
      ListItemsCompletesIff(prefix, ordered, level, tag, base, flatten);
      ListChildCompletesIff(items[k], k, ordered, level, tag, base + |pre.added|, flatten);
      var child := ListChild(items[k], k, ordered, level, tag, base + |pre.added|, flatten);
      assert ListItems(items, ordered, level, tag, base, flatten) == Then(pre, child);
      ThenCompletes(pre, child);
      assert forall i :: 0 <= i < |prefix| ==> prefix[i] == items[i];
    }
  }

  lemma {:induction false} ListChildCompletesIff(n: Node, k: nat, ordered: bool, level: u8, tag: nat, base: nat, flatten: Flatten)
    ensures ListChild(n, k, ordered, level, tag, base, flatten).status == Completed <==> ItemOk(n)
    decreases Size(n), 1
  {
    ItemContentCompletesIff(n, level, base, flatten);
  }

  lemma {:induction false} ItemContentCompletesIff(n: Node, level: u8, base: nat, flatten: Flatten)
    ensures ItemContent(n, level, base, flatten).status == Completed <==> ItemOk(n)
    decreases Size(n), 0
  {
    match n
    case List(o, cs) =>
      assert ItemContent(n, level, base, flatten) == ListOut(cs, o, NextLevel(level), base, flatten);
      ListOutCompletesIff(cs, o, NextLevel(level), base, flatten);
      assert (forall c :: c in cs ==> ItemOk(c)) <==> (forall i :: 0 <= i < |cs| ==> ItemOk(cs[i]));
    case ListItem(cs) =>
      assert ItemContent(n, level, base, flatten) == Inline(cs, base, flatten);
      InlineCompletesIff(cs, base, flatten);
      assert (forall c :: c in cs ==> InlineOk(c)) <==> (forall i :: 0 <= i < |cs| ==> InlineOk(cs[i]));
    case _ =>
  }

  // A list nested in a list item, as the parser produces it, goes through
  // md_paragraph2buf, which has no arm for lists: the item panics, so the
  // List arm of md_list2buf is reached only when a list is a direct child
  // of a list.
  lemma NestedListPanics(cs: seq<Node>, i: nat, level: u8, base: nat, flatten: Flatten)
    requires i < |cs| && cs[i].List?
    ensures ItemContent(ListItem(cs), level, base, flatten).status.Panicked?
  {
    ItemContentCompletesIff(ListItem(cs), level, base, flatten);
    assert !InlineOk(cs[i]);
  }

  lemma BlockCompletesIff(n: Node, base: nat, flatten: Flatten)
    ensures Block(n, base, flatten).status == Completed <==> BlockOk(n)
  {
    match n
    case List(o, cs) =>
      ListOutCompletesIff(cs, o, 1, base, flatten);
      assert (forall c :: c in cs ==> ItemOk(c)) <==> (forall i :: 0 <= i < |cs| ==> ItemOk(cs[i]));
    case Paragraph(cs) =>
      InlineCompletesIff(cs, base, flatten);
      assert (forall c :: c in cs ==> InlineOk(c)) <==> (forall i :: 0 <= i < |cs| ==> InlineOk(cs[i]));
    case _ =>
  }

  lemma {:induction false} BlocksCompletesIff(blocks: seq<Node>, base: nat, flatten: Flatten)
    ensures Blocks(blocks, base, flatten).status == Completed <==> forall i :: 0 <= i < |blocks| ==> BlockOk(blocks[i])
    decreases |blocks|
  {
    if |blocks| > 0 {
      var prefix := blocks[..|blocks| - 1];
      var pre := Blocks(prefix, base, flatten);
      BlocksCompletesIff(prefix, base, flatten);
      BlockCompletesIff(blocks[|blocks| - 1], base + |pre.added|, flatten);
      ThenCompletes(pre, Block(blocks[|blocks| - 1], base + |pre.added|, flatten));
      assert forall i :: 0 <= i < |prefix| ==> prefix[i] == blocks[i];
    }
  }

  // md2gtk renders a whole document without panicking exactly when every
  // top-level block is one it handles, with handled content.
  lemma DocumentCompletesIff(blocks: seq<Node>, flatten: Flatten)
    ensures Document(blocks, flatten).status == Completed <==> forall i :: 0 <= i < |blocks| ==> BlockOk(blocks[i])
  {
    BlocksCompletesIff(blocks, |Registry()|, flatten);
  }

  // --------------------------------------------- anonymous tags by handle

  // Every tag a run refers to by handle lies in [lo, hi).
  predicate HandlesWithin(out: seq<Entry>, lo: nat, hi: nat) {
    forall i, t :: 0 <= i < |out| && out[i].Run? && t in out[i].tags && t.ByHandle? ==> lo <= t.handle < hi
  }

  // The runs of an emission refer only to tags it added itself.
  predicate OwnHandles(e: Emission, base: nat) {
    HandlesWithin(e.out, base, base + |e.added|)
  }

  lemma HandlesAppend(a: seq<Entry>, b: seq<Entry>, lo: nat, hi: nat)
    requires HandlesWithin(a, lo, hi) && HandlesWithin(b, lo, hi)
    ensures HandlesWithin(a + b, lo, hi)
  {
    forall i, t | 0 <= i < |a + b| && (a + b)[i].Run? && t in (a + b)[i].tags && t.ByHandle?
      ensures lo <= t.handle < hi
    {
      if i < |a| {
        assert (a + b)[i] == a[i];
      } else {
        assert (a + b)[i] == b[i - |a|];
      }
    }
  }

  lemma ThenOwnHandles(a: Emission, b: Emission, base: nat)
    requires OwnHandles(a, base) && OwnHandles(b, base + |a.added|)
    ensures OwnHandles(Then(a, b), base)
  {
    if a.status.Completed? {
      var hi := base + |a.added| + |b.added|;
      assert HandlesWithin(a.out, base, hi);
      assert HandlesWithin(b.out, base, hi);
      HandlesAppend(a.out, b.out, base, hi);
    }
  }

  // The number of link icons among the entries.
  function LinkIcons(out: seq<Entry>): nat {
    if |out| == 0 then 0
    else LinkIcons(out[..|out| - 1]) + (if out[|out| - 1].Anchor? && out[|out| - 1].payload.LinkIcon? then 1 else 0)
  }

  lemma {:induction false} LinkIconsAppend(a: seq<Entry>, b: seq<Entry>)
    ensures LinkIcons(a + b) == LinkIcons(a) + LinkIcons(b)
    decreases |b|
  {
    if |b| == 0 {
      assert a + b == a;
    } else {
      assert (a + b)[..|a + b| - 1] == a + b[..|b| - 1];
      LinkIconsAppend(a, b[..|b| - 1]);
    }
  }

  // What inline content does to the tag table: one new link tag per link
  // icon, and its runs use no anonymous tag but those.
  predicate InlineTags(e: Emission, base: nat) {
    OwnHandles(e, base) && LinkIcons(e.out) == |e.added|
    && forall i :: 0 <= i < |e.added| ==> e.added[i] == LinkTag()
  }

  lemma ThenInlineTags(a: Emission, b: Emission, base: nat)
    requires InlineTags(a, base) && InlineTags(b, base + |a.added|)
    ensures InlineTags(Then(a, b), base)
  {
    ThenOwnHandles(a, b, base);
    if a.status.Completed? {
      LinkIconsAppend(a.out, b.out);
      var r := Then(a, b);
      assert forall i :: 0 <= i < |r.added| ==> r.added[i] == (if i < |a.added| then a.added[i] else b.added[i - |a.added|]);
    }
  }

  lemma {:induction false} InlineTagsHold(nodes: seq<Node>, base: nat, flatten: Flatten)
    ensures InlineTags(Inline(nodes, base, flatten), base)
    decreases SizeList(nodes), 1
  {
    if |nodes| > 0 {
      var prefix := nodes[..|nodes| - 1];
      var pre := Inline(prefix, base, flatten);
      InlineTagsHold(prefix, base, flatten);
      InlineNodeTagsHold(nodes[|nodes| - 1], base + |pre.added|, flatten);
      ThenInlineTags(pre, InlineNode(nodes[|nodes| - 1], base + |pre.added|, flatten), base);
    }
  }

  lemma {:induction false} InlineNodeTagsHold(n: Node, base: nat, flatten: Flatten)
    ensures InlineTags(InlineNode(n, base, flatten), base)
    decreases Size(n), 0
  {
    match n
    case Strong(cs) => StyledTagsHold(cs, BOLD, base, flatten);
    case Emphasis(cs) => StyledTagsHold(cs, EMPHASIS, base, flatten);
    case Paragraph(cs) => InlineTagsHold(cs, base, flatten);
    case Link(url, _) =>
      var e := InlineNode(n, base, flatten);
      assert e.out[..1] == [Anchor(LinkIcon(url))] && e.out[..1][..0] == [];
      assert LinkIcons(e.out[..1]) == 1;
    case InlineCode(v) =>
      var e := InlineNode(n, base, flatten);
      assert e.out[..0] == [];
    case Text(v) =>
      var e := InlineNode(n, base, flatten);
      assert e.out[..0] == [];
    case _ =>
  }

  lemma {:induction false} StyledTagsHold(children: seq<Node>, tag: TagName, base: nat, flatten: Flatten)
    ensures InlineTags(Styled(children, tag, base, flatten), base)
    decreases SizeList(children), 3
  {
    if |children| > 0 {
      var prefix := children[..|children| - 1];
      var pre := Styled(prefix, tag, base, flatten);
      StyledTagsHold(prefix, tag, base, flatten);
      StyledChildTagsHold(children[|children| - 1], tag, base + |pre.added|, flatten);
      ThenInlineTags(pre, StyledChild(children[|children| - 1], tag, base + |pre.added|, flatten), base);
    }
  }

  lemma {:induction false} StyledChildTagsHold(c: Node, tag: TagName, base: nat, flatten: Flatten)
    ensures InlineTags(StyledChild(c, tag, base, flatten), base)
    decreases Size(c), 2
  {
    if c.Text? {
      var e := StyledChild(c, tag, base, flatten);
      assert e.out[..0] == [];
    } else {
      InlineTagsHold([c], base, flatten);
    }
  }

  // Each link of inline content adds exactly one tag, the link tag, and the
  // content's runs use no anonymous tag but the ones it added.
  lemma InlineLinkTags(nodes: seq<Node>, base: nat, flatten: Flatten)
    ensures var e := Inline(nodes, base, flatten);
      |e.added| == LinkIcons(e.out)
      && (forall i :: 0 <= i < |e.added| ==> e.added[i] == LinkTag())
      && HandlesWithin(e.out, base, base + |e.added|)
  {
    InlineTagsHold(nodes, base, flatten);
  }

  lemma {:induction false} ListOutHandles(items: seq<Node>, ordered: bool, level: u8, base: nat, flatten: Flatten)
    ensures OwnHandles(ListOut(items, ordered, level, base, flatten), base)
    decreases SizeList(items), 3
  {
    ListItemsHandles(items, ordered, level, base, base + 1, flatten);
  }

  lemma {:induction false} ListItemsHandles(items: seq<Node>, ordered: bool, level: u8, tag: nat, base: nat, flatten: Flatten)
    requires tag < base
    ensures var e := ListItems(items, ordered, level, tag, base, flatten);
      HandlesWithin(e.out, tag, base + |e.added|)
    decreases SizeList(items), 2
  {
    if |items| > 0 {
      var prefix := items[..|items| - 1];
      var pre := ListItems(prefix, ordered, level, tag, base, flatten);
      var k := |items| - 1;
      var b := base + |pre.added|;
      var x := ListChild(items[k], k, ordered, level, tag, b, flatten);
      ListItemsHandles(prefix, ordered, level, tag, base, flatten);
      ListChildHandles(items[k], k, ordered, level, tag, b, flatten);
      if pre.status.Completed? {
        var hi := b + |x.added|;
        assert ListItems(items, ordered, level, tag, base, flatten) == Then(pre, x);
        HandlesWiden(pre.out, tag, b, hi);
        HandlesAppend(pre.out, x.out, tag, hi);
      } else {
        assert ListItems(items, ordered, level, tag, base, flatten) == pre;
      }
    }
  }

  lemma {:induction false} ListChildHandles(n: Node, k: nat, ordered: bool, level: u8, tag: nat, base: nat, flatten: Flatten)
    requires tag < base
    ensures var e := ListChild(n, k, ordered, level, tag, base, flatten);
      HandlesWithin(e.out, tag, base + |e.added|)
    decreases Size(n), 1
  {
    var c := ItemContent(n, level, base, flatten);
    ItemContentHandles(n, level, base, flatten);
    var hi := base + |c.added|;
    var marker := [Run(Marker(ordered, k), [ByHandle(tag)])];
    assert HandlesWithin(marker, tag, hi);
    assert HandlesWithin(c.out, tag, hi);
    HandlesAppend(marker, c.out, tag, hi);
    if c.status.Completed? {
      HandlesAppend(marker + c.out, [Run(NL, [])], tag, hi);
    }
  }

  lemma {:induction false} ItemContentHandles(n: Node, level: u8, base: nat, flatten: Flatten)
    ensures OwnHandles(ItemContent(n, level, base, flatten), base)
    decreases Size(n), 0
  {
    match n
    case List(o, cs) => ListOutHandles(cs, o, NextLevel(level), base, flatten);
    case ListItem(cs) => InlineTagsHold(cs, base, flatten);
    case _ =>
  }

  lemma BlockHandles(n: Node, base: nat, flatten: Flatten)
    ensures OwnHandles(Block(n, base, flatten), base)
  {
    var e := Block(n, base, flatten);
    match n
    case List(o, cs) =>
      var l := ListOut(cs, o, 1, base, flatten);
      ListOutHandles(cs, o, 1, base, flatten);
      var hi := base + |l.added|;
      HandlesAppend([Run(BLANK, [])], l.out, base, hi);
      if l.status.Completed? {
        HandlesAppend([Run(BLANK, [])] + l.out, [Run(NL, [])], base, hi);
      }
    case Paragraph(cs) => InlineTagsHold(cs, base, flatten);
    case Heading(d, _) =>
      if HeadingTag(d).Some? {
        assert forall i :: 0 <= i < |e.out| ==> e.out[i].Run? ==> forall t :: t in e.out[i].tags ==> t.ByName?;
      }
    case _ =>
  }

  lemma {:induction false} BlocksHandles(blocks: seq<Node>, base: nat, flatten: Flatten)
    ensures OwnHandles(Blocks(blocks, base, flatten), base)
    decreases |blocks|
  {
    if |blocks| > 0 {
      var prefix := blocks[..|blocks| - 1];
      var pre := Blocks(prefix, base, flatten);
      BlocksHandles(prefix, base, flatten);
      BlockHandles(blocks[|blocks| - 1], base + |pre.added|, flatten);
      ThenOwnHandles(pre, Block(blocks[|blocks| - 1], base + |pre.added|, flatten), base);
    }
  }

  // The anonymous tags a document's runs use all lie in the range the render
  // itself added after the registry. (That each is used only once it exists
  // is what Buffer.InsertWithTags demands of every call in the methods.)
  lemma DocumentHandles(blocks: seq<Node>, flatten: Flatten)
    ensures var e := Document(blocks, flatten);
      HandlesWithin(e.out, |Registry()|, |Registry()| + |e.added|)
  {
    BlocksHandles(blocks, |Registry()|, flatten);
  }

  // ---------------------------------------------------------- list markers

  // The texts of the runs tagged with exactly the anonymous tag `tag`.
  function Markers(out: seq<Entry>, tag: nat): seq<string> {
    if |out| == 0 then []
    else
      var last := out[|out| - 1];
      Markers(out[..|out| - 1], tag) + (if last.Run? && last.tags == [ByHandle(tag)] then [last.text] else [])
  }

  lemma {:induction false} MarkersAppend(a: seq<Entry>, b: seq<Entry>, tag: nat)
    ensures Markers(a + b, tag) == Markers(a, tag) + Markers(b, tag)
    decreases |b|
  {
    if |b| == 0 {
      assert a + b == a;
    } else {
      assert (a + b)[..|a + b| - 1] == a + b[..|b| - 1];
      MarkersAppend(a, b[..|b| - 1], tag);
    }
  }

  lemma HandlesWiden(out: seq<Entry>, lo: nat, hi: nat, hi': nat)
    requires HandlesWithin(out, lo, hi) && hi <= hi'
    ensures HandlesWithin(out, lo, hi')
  {
  }

  lemma HandlesPrefix(out: seq<Entry>, k: nat, lo: nat, hi: nat)
    requires k <= |out| && HandlesWithin(out, lo, hi)
    ensures HandlesWithin(out[..k], lo, hi)
  {
    assert forall i :: 0 <= i < k ==> out[..k][i] == out[i];
  }

  lemma {:induction false} MarkersNone(out: seq<Entry>, tag: nat, lo: nat, hi: nat)
    requires HandlesWithin(out, lo, hi) && tag < lo
    ensures Markers(out, tag) == []
    decreases |out|
  {
    if |out| > 0 {
      var last := out[|out| - 1];
      HandlesPrefix(out, |out| - 1, lo, hi);
      MarkersNone(out[..|out| - 1], tag, lo, hi);
      assert last.Run? ==> ByHandle(tag) !in last.tags;
    }
  }

  // The markers of the first n children of a list.
  function MarkerSeq(ordered: bool, n: nat): (r: seq<string>)
    ensures |r| == n
  {
    if n == 0 then [] else MarkerSeq(ordered, n - 1) + [Marker(ordered, n - 1)]
  }

  // One child of a list carries exactly one run with the list's tag: its marker.
  lemma ListChildMarkers(n: Node, k: nat, ordered: bool, level: u8, tag: nat, base: nat, flatten: Flatten)
    requires tag < base
    requires ListChild(n, k, ordered, level, tag, base, flatten).status == Completed
    ensures Markers(ListChild(n, k, ordered, level, tag, base, flatten).out, tag) == [Marker(ordered, k)]
  {
    var c := ItemContent(n, level, base, flatten);
    ItemContentHandles(n, level, base, flatten);
    MarkersNone(c.out, tag, base, base + |c.added|);
    var marker := [Run(Marker(ordered, k), [ByHandle(tag)])];
    var nl := [Run(NL, [])];
    assert Markers(marker, tag) == [Marker(ordered, k)] by {
      assert marker[..0] == [];
    }
    assert Markers(nl, tag) == [] by {
      assert nl[..0] == [];
    }
    MarkersAppend(marker, c.out, tag);
    MarkersAppend(marker + c.out, nl, tag);
  }

  lemma {:induction false} ListItemsMarkers(items: seq<Node>, ordered: bool, level: u8, tag: nat, base: nat, flatten: Flatten)
    requires tag < base
    requires ListItems(items, ordered, level, tag, base, flatten).status == Completed
    ensures Markers(ListItems(items, ordered, level, tag, base, flatten).out, tag) == MarkerSeq(ordered, |items|)
    decreases |items|
  {
    if |items| > 0 {
      var prefix := items[..|items| - 1];
      var pre := ListItems(prefix, ordered, level, tag, base, flatten);
      var k := |items| - 1;
      var child := ListChild(items[k], k, ordered, level, tag, base + |pre.added|, flatten);
      assert ListItems(items, ordered, level, tag, base, flatten) == Then(pre, child);
      ListItemsMarkers(prefix, ordered, level, tag, base, flatten);
      ListChildMarkers(items[k], k, ordered, level, tag, base + |pre.added|, flatten);
      MarkersAppend(pre.out, child.out, tag);
    }
  }

  // md_list2buf: the runs carrying the list's own tag are exactly its
  // markers, one per child in order, "1. ", "2. ", ... when the list is
  // ordered and "• " otherwise. The tag is new and indents by 20 per level.
  lemma ListMarkersInOrder(items: seq<Node>, ordered: bool, level: u8, base: nat, flatten: Flatten)
    requires ListOut(items, ordered, level, base, flatten).status == Completed
    ensures var e := ListOut(items, ordered, level, base, flatten);
      Markers(e.out, base) == MarkerSeq(ordered, |items|)
      && |e.added| >= 1 && e.added[0] == TagDef(None, ListStyle(20 * level as int))
  {
    ListItemsMarkers(items, ordered, level, base, base + 1, flatten);
  }

  // Different positions of an ordered list get different markers.
  lemma OrderedMarkersDistinct(j: nat, k: nat)
    requires Marker(true, j) == Marker(true, k)
    ensures j == k
  {
    var a, b := DecimalString(j + 1), DecimalString(k + 1);
    assert a + ". " == b + ". ";
    assert |a| == |b|;
    assert a == (a + ". ")[..|a|] == (b + ". ")[..|b|] == b;
    DecimalStringInjective(j + 1, k + 1);
  }

  // ----------------------------------------------------------- the registry

  // The definition registered under a name, if any (the first one).
  function TagOf(table: seq<TagDef>, name: TagName): Option<TagDef> {
    if |table| == 0 then None
    else if table[0].name == Some(name) then Some(table[0])
    else TagOf(table[1..], name)
  }

  // load_text_tags registers every name exactly once; heading sizes shrink
  // by two points per level from 30 for a first-level heading.
  lemma RegistryNamesDistinct()
    ensures forall i, j :: 0 <= i < j < |Registry()| ==> Registry()[i].name != Registry()[j].name
    ensures forall n :: Named(Registry(), n)
  {
    RegistryLoaded(Registry());
  }

  lemma HeadingSizes(depth: u8)
    requires 1 <= depth <= 6
    ensures HeadingTag(depth).Some?
    ensures TagOf(Registry(), HeadingTag(depth).value) == Some(TagDef(HeadingTag(depth), SizePoints(32 - 2 * depth as int)))
  {
  }
}

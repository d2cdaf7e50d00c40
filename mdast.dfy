// The part of the mdast syntax tree (as produced by the `markdown` crate) that
// the renderers inspect. The parser itself is not part of this model: the tree
// is an input, and mdast's flatten-to-text (`Node::to_string`) is a function
// parameter of type `Flatten`.
module Mdast {

  import opened Wrappers

  // Rust's `u8`: the type of a heading's depth and of a list's nesting level.
  newtype u8 = x: int | 0 <= x < 256

  datatype Node =
    | Paragraph(children: seq<Node>)
    | Heading(depth: u8, children: seq<Node>)
    | Text(value: string)
    | Strong(children: seq<Node>)
    | Emphasis(children: seq<Node>)
    | InlineCode(value: string)
    | Link(url: string, children: seq<Node>)
    | LinkReference(children: seq<Node>)
    | Image(url: string, alt: string)
    | ImageReference(alt: string)
    | List(ordered: bool, children: seq<Node>)
    | ListItem(children: seq<Node>)
    | BlockQuote(children: seq<Node>)
    | Code(value: string, lang: Option<string>)
      // A GFM table: each row is the sequence of its cells (TableCell nodes).
    | Table(rows: seq<seq<Node>>)
    | TableCell(children: seq<Node>)
    | Html(value: string)
      // Every other mdast kind (Delete, Break, ThematicBreak, Definition, ...).
    | Other(kind: string, children: seq<Node>)

  // mdast's `ToString` for nodes: the textual content of a subtree.
  type Flatten = Node -> string

  // A termination measure: the number of nodes reachable through `children`
  // (table rows are not counted; the renderers never recurse into them).
  ghost function Size(n: Node): (r: nat)
    ensures r >= 1
    decreases n
  {
    match n
    case Paragraph(cs) => 1 + SizeList(cs)
    case Heading(_, cs) => 1 + SizeList(cs)
    case Strong(cs) => 1 + SizeList(cs)
    case Emphasis(cs) => 1 + SizeList(cs)
    case Link(_, cs) => 1 + SizeList(cs)
    case LinkReference(cs) => 1 + SizeList(cs)
    case List(_, cs) => 1 + SizeList(cs)
    case ListItem(cs) => 1 + SizeList(cs)
    case BlockQuote(cs) => 1 + SizeList(cs)
    case TableCell(cs) => 1 + SizeList(cs)
    case Other(_, cs) => 1 + SizeList(cs)
    case _ => 1
  }

  ghost function SizeList(ns: seq<Node>): (r: nat)
    ensures |ns| == 1 ==> r == Size(ns[0])
    ensures forall i :: 0 <= i < |ns| ==> Size(ns[i]) <= r
    decreases ns
  {
    if |ns| == 0 then 0 else SizeList(ns[..|ns| - 1]) + Size(ns[|ns| - 1])
  }
}

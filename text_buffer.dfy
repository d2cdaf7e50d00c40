// The rich-text buffer the renderers write into (a GTK `TextBuffer` with its tag
// table), reduced to what the renderers can observe: an ordered log of inserted
// text runs and child anchors, and the table of tags the runs refer to. Every
// write goes to the end of the buffer.
module TextBuffer {

  import opened Wrappers

  // The visual attributes of a tag, kept only as far as they identify the tag;
  // colours, margins and float scales are not modelled (heading sizes are
  // whole numbers of points in the source).
  datatype Style =
    | SizePoints(points: nat)
    | Weight(weight: nat)
    | UnderlineSingle
    | QuoteStyle
    | Monospace
    | CodeBlockStyle
    | LinkStyle
    | ListStyle(indent: int)

  // The names under which the renderers register and look up named tags.
  datatype TagName =
    | HEADING1 | HEADING2 | HEADING3 | HEADING4 | HEADING5 | HEADING6
    | BOLD | EMPHASIS | BLOCK_QUOTE | INLINE_CODE | CODE_BLOCK

  // A tag of the tag table: named tags are looked up by name, anonymous ones
  // are referred to by their position in the table.
  datatype TagDef = TagDef(name: Option<TagName>, style: Style)

  datatype TagRef = ByName(name: TagName) | ByHandle(handle: nat)

  // One cell of a table's list model: its text (absent for a padding cell) and
  // whether it is rendered as a header.
  datatype Cell = Cell(text: Option<string>, isHeader: bool)

  // The widget attached to a child anchor.
  datatype Payload =
    | LinkIcon(tooltip: string)
    | CellGrid(cells: seq<Cell>, columns: nat)
    | LinkButton(caption: string, uri: string)
    | CodeFrame(code: string)

  datatype Entry = Run(text: string, tags: seq<TagRef>) | Anchor(payload: Payload)

  predicate Named(table: seq<TagDef>, name: TagName) {
    exists i :: 0 <= i < |table| && table[i].name == Some(name)
  }

  lemma NamedAppend(table: seq<TagDef>, def: TagDef)
    ensures forall n :: Named(table + [def], n) <==> Named(table, n) || def.name == Some(n)
  {
    forall n | Named(table + [def], n) && def.name != Some(n)
      ensures Named(table, n)
    {
      var i :| 0 <= i < |table + [def]| && (table + [def])[i].name == Some(n);
      assert i < |table| && table[i].name == Some(n);
    }
    forall n | Named(table, n)
      ensures Named(table + [def], n)
    {
      var i :| 0 <= i < |table| && table[i].name == Some(n);
      assert (table + [def])[i] == table[i];
    }
    forall n | def.name == Some(n)
      ensures Named(table + [def], n)
    {
      assert (table + [def])[|table|] == def;
    }
  }

  // Every named tag of the table has one of `names`.
  ghost predicate NamedOnly(table: seq<TagDef>, names: set<TagName>) {
    forall n :: Named(table, n) ==> n in names
  }

  lemma NamedOnlyAppend(table: seq<TagDef>, def: TagDef, names: set<TagName>)
    requires NamedOnly(table, names) && def.name.Some?
    ensures NamedOnly(table + [def], names + {def.name.value})
  {
    NamedAppend(table, def);
  }

  predicate Resolves(t: TagRef, table: seq<TagDef>) {
    match t
    case ByName(n) => Named(table, n)
    case ByHandle(h) => h < |table|
  }

  // Every tag that a run carries is in the tag table.
  predicate WellTagged(entries: seq<Entry>, table: seq<TagDef>) {
    forall i, t :: 0 <= i < |entries| && entries[i].Run? && t in entries[i].tags ==> Resolves(t, table)
  }

  function ByNames(names: seq<TagName>): (r: seq<TagRef>)
    ensures |r| == |names| && forall i :: 0 <= i < |r| ==> r[i] == ByName(names[i])
    ensures forall t :: t in r ==> t.ByName? && t.name in names
  {
    if names == [] then [] else [ByName(names[0])] + ByNames(names[1..])
  }

  function ByHandles(handles: seq<nat>): (r: seq<TagRef>)
    ensures |r| == |handles| && forall i :: 0 <= i < |r| ==> r[i] == ByHandle(handles[i])
    ensures forall t :: t in r ==> t.ByHandle? && t.handle in handles
  {
    if handles == [] then [] else [ByHandle(handles[0])] + ByHandles(handles[1..])
  }

  // Why a render stopped early: Rust's `todo!`, `unimplemented!` and
  // `unreachable!` panics.
  datatype Panic = Todo(feature: string) | Unimplemented(message: string) | Unreachable

  datatype Status = Completed | Panicked(panic: Panic)

  // What one rendering step appends: the entries, the tags added to the tag
  // table, and whether it ran to the end. A panicked emission keeps what was
  // written before the panic.
  datatype Emission = Emission(out: seq<Entry>, added: seq<TagDef>, status: Status)

  function Done(out: seq<Entry>): Emission {
    Emission(out, [], Completed)
  }

  function Abort(out: seq<Entry>, p: Panic): Emission {
    Emission(out, [], Panicked(p))
  }

  // `a` followed by `b`; nothing of `b` happens once `a` has panicked.
  function Then(a: Emission, b: Emission): (r: Emission)
    ensures a.out <= r.out && a.added <= r.added
    ensures a.status.Panicked? ==> r == a
  {
    if a.status.Panicked? then a else Emission(a.out + b.out, a.added + b.added, b.status)
  }

  // Entries extended by the output of `a` and then by that of `b` are
  // extended by the output of `Then(a, b)`.
  lemma WroteThen(a: Emission, b: Emission, e0: seq<Entry>, e1: seq<Entry>, e2: seq<Entry>)
    requires a.status == Completed
    requires e1 == e0 + a.out && e2 == e1 + b.out
    ensures e2 == e0 + Then(a, b).out
  {
    assert e2 == e0 + (a.out + b.out);
  }

  // A buffer extended by `a` and then by `b` is extended by `Then(a, b)`,
  // in its entries and in its tag table.
  lemma EmittedThen(a: Emission, b: Emission, e0: seq<Entry>, t0: seq<TagDef>, e1: seq<Entry>, t1: seq<TagDef>,
                    e2: seq<Entry>, t2: seq<TagDef>)
    requires a.status == Completed
    requires e1 == e0 + a.out && t1 == t0 + a.added
    requires e2 == e1 + b.out && t2 == t1 + b.added
    ensures e2 == e0 + Then(a, b).out && t2 == t0 + Then(a, b).added
  {
    WroteThen(a, b, e0, e1, e2);
    assert t2 == t0 + (a.added + b.added);
  }

  lemma SingleTags(n: TagName, m: TagName, h: nat)
    ensures ByNames([n]) == [ByName(n)] && ByNames([n, m]) == [ByName(n), ByName(m)]
    ensures ByHandles([h]) == [ByHandle(h)]
  {
  }

  class Buffer {
    var entries: seq<Entry>
    var tagTable: seq<TagDef>

    ghost predicate Valid()
      reads this
    {
      WellTagged(entries, tagTable)
    }

    // The buffer is its state at some earlier point extended by `e`.
    ghost predicate Emitted(e: Emission, entries0: seq<Entry>, tagTable0: seq<TagDef>)
      reads this
    {
      entries == entries0 + e.out && tagTable == tagTable0 + e.added
    }

    constructor ()
      ensures Valid() && entries == [] && tagTable == []
    {
      entries := [];
      tagTable := [];
    }

    // `insert` at `end_iter()`.
    method Insert(text: string)
      requires Valid()
      modifies this
      ensures Valid() && old(entries) <= entries
      ensures entries == old(entries) + [Run(text, [])] && tagTable == old(tagTable)
    {
      entries := entries + [Run(text, [])];
    }

    // `insert_with_tags_by_name` at `end_iter()`: every name must be a tag of
    // the table (GTK warns and drops the tags otherwise).
    method InsertWithTagsByName(text: string, names: seq<TagName>)
      requires Valid()
      requires forall n :: n in names ==> Named(tagTable, n)
      modifies this
      ensures Valid() && old(entries) <= entries
      ensures entries == old(entries) + [Run(text, ByNames(names))] && tagTable == old(tagTable)
    {
      entries := entries + [Run(text, ByNames(names))];
    }

    // `insert_with_tags` at `end_iter()`, with tags given by handle.
    method InsertWithTags(text: string, handles: seq<nat>)
      requires Valid()
      requires forall h :: h in handles ==> h < |tagTable|
      modifies this
      ensures Valid() && old(entries) <= entries
      ensures entries == old(entries) + [Run(text, ByHandles(handles))] && tagTable == old(tagTable)
    {
      entries := entries + [Run(text, ByHandles(handles))];
    }

    // `insert_child_anchor` at `end_iter()` together with the widget that the
    // view attaches to that anchor.
    method InsertChildAnchor(payload: Payload)
      requires Valid()
      modifies this
      ensures Valid() && old(entries) <= entries
      ensures entries == old(entries) + [Anchor(payload)] && tagTable == old(tagTable)
    {
      entries := entries + [Anchor(payload)];
    }

    // `tag_table().add`: a named tag must not share its name with a tag
    // already in the table. Returns the new tag's handle.
    method AddTag(def: TagDef) returns (handle: nat)
      requires Valid()
      requires def.name.Some? ==> !Named(tagTable, def.name.value)
      modifies this
      ensures Valid() && entries == old(entries)
      ensures tagTable == old(tagTable) + [def] && handle == |old(tagTable)|
    {
      handle := |tagTable|;
      tagTable := tagTable + [def];
      forall i, t | 0 <= i < |entries| && entries[i].Run? && t in entries[i].tags
        ensures Resolves(t, tagTable)
      {
        assert Resolves(t, old(tagTable));
        if t.ByName? {
          var k :| 0 <= k < |old(tagTable)| && old(tagTable)[k].name == Some(t.name);
          assert tagTable[k] == old(tagTable)[k];
        }
      }
    }
  }
}

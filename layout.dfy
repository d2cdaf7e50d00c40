// What both revisions of the renderer share: the line breaks they write
// around blocks and list items, and the way a nested list's level grows.
module Layout {

  import opened Mdast

  // One line break, written after a list item and around most blocks.
  const NL := "\n"

  // An empty line, written before a list and around a code block.
  const BLANK := "\n\n"

  // `indent_level + 1` on a `u8`: the release profile wraps 255 round to 0.
  function NextLevel(level: u8): (r: u8)
    ensures r as int == (level as int + 1) % 256
  {
    if level == 255 then 0 else level + 1
  }
}

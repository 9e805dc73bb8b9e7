/**
 * The configuration-file section API both section parsers read through:
 * a section's `key` lines, each a sequence of values.
 */
module ConfSection {
  import opened Wrappers
  import opened CStrings

  /** `spdk_conf_section_get_nmval(sp, key, i, j)` over the values of the section's `key` lines. */
  function NmVal(lines: seq<seq<CString>>, i: nat, j: nat): (r: Option<CString>)
    ensures r.Some? <==> i < |lines| && j < |lines[i]|
    ensures r.Some? ==> r.value == lines[i][j]
  {
    if i < |lines| && j < |lines[i]| then Some(lines[i][j]) else None
  }
}

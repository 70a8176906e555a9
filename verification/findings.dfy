/** core/models.py: the parts of a review finding that placement, merging and posting read. */
module Findings {
  import opened DiffParse
  import opened ChangeIndex

  datatype Severity = Info | Low | Medium | High | Critical {
    function Rank(): nat {
      match this
      case Info => 0
      case Low => 1
      case Medium => 2
      case High => 3
      case Critical => 4
    }
  }

  datatype Finding = Finding(
    path: string,
    line: nat,
    side: Side,
    severity: Severity,
    title: string,
    body: string,
    suggestion: Option<string>,
    anchor: Option<string>,
    anchored: bool,
    broad: bool,
    category: Option<string>)
}

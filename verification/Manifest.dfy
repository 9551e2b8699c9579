/** A line of the document: identity, text, hyphenation state and decision
    (core/schemas/manifest.py), and the readers of its two link slots (core/pairing.py). */
module Manifest {
  import opened Wrappers

  datatype Role = NoRole | Part1 | Part2 | Both

  datatype Status = Pending | Corrected | Fallback

  /** Page-qualified identity of a line. */
  datatype LineRef = LineRef(page: string, line: string)

  /** `reason` is the fallback reason of the line's audit trace. */
  datatype Line = Line(
    pageId: string, lineId: string, blockId: string, order: int, text: string,
    role: Role,
    pair: Option<string>, pairPage: Option<string>, subs: Option<string>, explicit: bool,
    forward: Option<string>, forwardPage: Option<string>, forwardSubs: Option<string>, forwardExplicit: bool,
    corrected: Option<string>, status: Status, reason: Option<string>)
  {
    function Ref(): LineRef { LineRef(pageId, lineId) }

    /** What the PAIR slot names, an unset page meaning this line's own. */
    function PairRef(): Option<LineRef> { Slot(pageId, pair, pairPage) }

    /** What the FORWARD slot names. "Forward" is the slot, not the direction. */
    function ForwardRef(): Option<LineRef> { Slot(pageId, forward, forwardPage) }

    /** The line this line's word continues onto. */
    function ForwardPartner(): Option<LineRef> {
      match role
      case Part1 => PairRef()
      case Both => ForwardRef()
      case _ => None
    }

    /** The line whose word continues onto this one. */
    function BackwardPartner(): Option<LineRef> {
      if role.Part2? || role.Both? then PairRef() else None
    }

    /** One of the two slots names `r`. */
    predicate Points(r: LineRef) {
      PairRef() == Some(r) || ForwardRef() == Some(r)
    }
  }

  /** An absent or empty id is no link; an absent or empty page is the line's own. */
  function Slot(own: string, id: Option<string>, page: Option<string>): Option<LineRef> {
    if id == None || id == Some("") then None
    else Some(LineRef(if page == None || page == Some("") then own else page.value, id.value))
  }
}

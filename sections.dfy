/** The six canonical digest sections, in the fixed order every renderer
    uses. */
module Sections {

  datatype SectionName = Summary | Decisions | Actions | Risks | Dependencies | Notes

  /** The section's name as printed in headings. */
  function Title(c: SectionName): string
  {
    match c
    case Summary => "Summary"
    case Decisions => "Decisions"
    case Actions => "Actions"
    case Risks => "Risks"
    case Dependencies => "Dependencies"
    case Notes => "Notes"
  }

  /** `SECTION_ORDER`. */
  const Order: seq<SectionName> := [Summary, Decisions, Actions, Risks, Dependencies, Notes]

  /** Every section is in `Order`. */
  lemma AllInOrder()
    ensures forall c: SectionName :: c in Order
  {
    forall c: SectionName ensures c in Order {
      match c
      case Summary => assert Order[0] == c;
      case Decisions => assert Order[1] == c;
      case Actions => assert Order[2] == c;
      case Risks => assert Order[3] == c;
      case Dependencies => assert Order[4] == c;
      case Notes => assert Order[5] == c;
    }
  }

  /** The narrative (non-Actions) sections, in order. */
  const Narrative: seq<SectionName> := [Summary, Decisions, Risks, Dependencies, Notes]
}

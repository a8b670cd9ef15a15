/**
 * Residue positions and chain ranges, the pieces an identifier is made of.
 * The range grammar itself (ResidueRange.parseMultiple and
 * ResidueRange.toString of a list) is not part of this model: it is handed
 * around as a pair of functions.
 */
module Ranges {
  import opened Wrappers

  /** A residue position: author sequence number and optional insertion code;
      the chain name is filled in from context. */
  datatype ResidueNumber = ResidueNumber(chainName: Option<string>, seqNum: int, insCode: Option<char>)

  /** A chain token with optional bounds; both bounds absent selects the whole chain. */
  datatype ResidueRange = ResidueRange(chainName: string, start: Option<ResidueNumber>, end: Option<ResidueNumber>)

  /**
   * ResidueRange.parseMultiple (None when the text is not a range list) and
   * ResidueRange.toString of a list.
   */
  datatype RangeGrammar = RangeGrammar(
    parseMultiple: string -> Option<seq<ResidueRange>>,
    render: seq<ResidueRange> -> string)

  /** The chain token that stands for the first chain of a model. */
  const Wildcard: string := "_"

  /** Same position, chain aside: what comparing ResidueNumber.toString texts decides. */
  predicate SamePosition(a: ResidueNumber, b: ResidueNumber) {
    a.seqNum == b.seqNum && a.insCode == b.insCode
  }

  /** A bound with a chain name stamped on it (setChainName); an absent bound stays absent. */
  function WithChain(bound: Option<ResidueNumber>, name: Option<string>): (r: Option<ResidueNumber>)
    ensures r.None? <==> bound.None?
    ensures r.Some? ==> r.value.chainName == name && SamePosition(r.value, bound.value)
  {
    match bound
    case None => None
    case Some(b) => Some(b.(chainName := name))
  }
}

/**
 * SubstructureIdentifier as a value: an entry code and an ordered list of
 * ranges, the two constructors, and its canonical text.
 */
module Identifiers {
  import opened Wrappers
  import opened JavaText
  import opened Ranges

  /** The length of a PDB entry code, the only length that is upper-cased. */
  const PdbCodeLength: nat := 4

  /** What separates the entry code from the range list. */
  const Separator: char := '.'

  /** An entry code and its ranges; no ranges selects the whole structure. */
  datatype Identifier = Identifier(pdbId: string, ranges: seq<ResidueRange>)

  /**
   * The constructors' exceptions: IllegalArgumentException for a text that
   * does not split into one or two pieces, the range grammar's own failure,
   * and NullPointerException for a null range list.
   */
  datatype IdentifierError = MalformedIdentifier(text: string) | MalformedRanges(text: string) | NullRanges

  /** The stored form of the code: upper-cased when it has exactly four characters. */
  function NormalizeCode(code: string): (r: string)
    ensures |r| == |code|
    ensures |code| == PdbCodeLength ==> HasNoLowerLetter(r)
    ensures forall i | 0 <= i < |code| :: r[i] == code[i] || IsLowerLetter(code[i])
    ensures |code| == PdbCodeLength && HasNoLowerLetter(code) ==> r == code
    ensures |code| == PdbCodeLength ==> r == ToUpper(code)
    ensures |code| != PdbCodeLength ==> r == code
  {
    if |code| == PdbCodeLength then ToUpper(code) else code
  }

  /** Normalising a stored code changes nothing: the text constructor's codes are already in stored form. */
  lemma NormalizeCodeIdempotent(code: string)
    ensures NormalizeCode(NormalizeCode(code)) == NormalizeCode(code)
  {
    var r := NormalizeCode(code);
    if |code| == PdbCodeLength {
      assert HasNoLowerLetter(r);
    }
  }

  /**
   * new SubstructureIdentifier(String): split on dots the Java way, refuse
   * anything but one or two pieces, normalise the code, and parse the
   * trimmed second piece as the range list.
   */
  function FromText(text: string, grammar: RangeGrammar): (r: Result<Identifier, IdentifierError>)
    ensures r == Err(MalformedIdentifier(text)) <==> |JavaSplit(text, Separator)| !in {1, 2}
    ensures r.Ok? ==> Separator !in r.value.pdbId
    ensures r.Ok? ==> r.value.pdbId == NormalizeCode(JavaSplit(text, Separator)[0])
    ensures |JavaSplit(text, Separator)| == 1 ==> r.Ok? && r.value.ranges == []
    ensures |JavaSplit(text, Separator)| == 2 ==>
      var rangeText := Trim(JavaSplit(text, Separator)[1]);
      match grammar.parseMultiple(rangeText)
      case None => r == Err(MalformedRanges(rangeText))
      case Some(ranges) => r.Ok? && r.value.ranges == ranges
  {
    var pieces := JavaSplit(text, Separator);
    if |pieces| < 1 || |pieces| > 2 then Err(MalformedIdentifier(text))
    else
      var pdbId := NormalizeCode(pieces[0]);
      if |pieces| == 2 then
        var rangeText := Trim(pieces[1]);
        match grammar.parseMultiple(rangeText)
        case None => Err(MalformedRanges(rangeText))
        case Some(ranges) => Ok(Identifier(pdbId, ranges))
      else
        Ok(Identifier(pdbId, []))
  }

  /**
   * Which texts the text constructor rejects as malformed, read off the text
   * itself: a non-empty run of dots and nothing else, or at least two dots
   * before the trailing run of dots.
   */
  lemma MalformedExactly(text: string, grammar: RangeGrammar)
    ensures FromText(text, grammar) == Err(MalformedIdentifier(text))
        <==> (text != [] && AllAre(text, Separator)) || Count(StripTrailing(text, Separator), Separator) >= 2
  {
    JavaSplitLength(text, Separator);
  }

  /** new SubstructureIdentifier(pdbId, ranges), where None stands for a null list. */
  function FromParts(pdbId: string, ranges: Option<seq<ResidueRange>>): (r: Result<Identifier, IdentifierError>)
    ensures r == Err(NullRanges) <==> ranges.None?
    ensures ranges.Some? ==> r.Ok? && r.value.pdbId == pdbId && r.value.ranges == ranges.value
  {
    match ranges
    case None => Err(NullRanges)
    case Some(rs) => Ok(Identifier(pdbId, rs))
  }

  /** getIdentifier: the code alone, or the code, a dot and the rendered ranges. */
  function GetIdentifier(id: Identifier, grammar: RangeGrammar): (r: string)
    ensures id.pdbId <= r
    ensures id.ranges == [] ==> r == id.pdbId
    ensures id.ranges != [] ==> r[|id.pdbId|..] == [Separator] + grammar.render(id.ranges)
  {
    if id.ranges == [] then id.pdbId
    else id.pdbId + [Separator] + grammar.render(id.ranges)
  }

  /** toString is the identifier text. */
  function ToString(id: Identifier, grammar: RangeGrammar): (r: string)
    ensures r == GetIdentifier(id, grammar)
  {
    GetIdentifier(id, grammar)
  }

  /** toCanonical: an identifier of this kind is already canonical. */
  function ToCanonical(id: Identifier): (r: Identifier)
    ensures r == id
  {
    id
  }

  /** Range text the grammar reads back exactly, and that survives splitting on dots and trimming. */
  predicate RendersCleanly(grammar: RangeGrammar, ranges: seq<ResidueRange>) {
    var t := grammar.render(ranges);
    && t != []
    && Separator !in t
    && !IsBlank(t[0]) && !IsBlank(t[|t| - 1])
    && grammar.parseMultiple(t) == Some(ranges)
  }

  /**
   * The canonical text carries everything needed to rebuild the identifier:
   * a dot-free code already in stored form, with ranges the grammar reads
   * back, comes back unchanged through the text constructor.
   */
  lemma IdentifierRoundTrip(id: Identifier, grammar: RangeGrammar)
    requires Separator !in id.pdbId
    requires |id.pdbId| == PdbCodeLength ==> HasNoLowerLetter(id.pdbId)
    requires id.ranges != [] ==> RendersCleanly(grammar, id.ranges)
    ensures FromText(ToString(ToCanonical(id), grammar), grammar) == Ok(id)
  {
    var text := ToString(ToCanonical(id), grammar);
    if id.ranges != [] {
      var q := grammar.render(id.ranges);
      SplitAroundOneSeparator(id.pdbId, q, Separator);
      assert text == id.pdbId + [Separator] + q;
      assert Separator in text by {
        assert text[|id.pdbId|] == Separator;
      }
      assert JavaSplit(text, Separator) == [id.pdbId, q];
    }
  }

  /** The spelling the text constructor settles on: the code normalised, the range text trimmed. */
  function CanonicalSpelling(text: string): string
    requires |JavaSplit(text, Separator)| in {1, 2}
  {
    var pieces := JavaSplit(text, Separator);
    NormalizeCode(pieces[0]) + (if |pieces| == 1 then "" else [Separator] + Trim(pieces[1]))
  }

  /**
   * Text to identifier to text: when the grammar renders what it parsed as
   * the same text, the identifier text is the input with its code
   * normalised and its range text trimmed.
   */
  lemma TextRoundTrip(text: string, grammar: RangeGrammar)
    requires FromText(text, grammar).Ok?
    requires |JavaSplit(text, Separator)| == 2 ==>
      var rangeText := Trim(JavaSplit(text, Separator)[1]);
      && grammar.parseMultiple(rangeText).Some?
      && grammar.parseMultiple(rangeText).value != []
      && grammar.render(grammar.parseMultiple(rangeText).value) == rangeText
    ensures GetIdentifier(FromText(text, grammar).value, grammar) == CanonicalSpelling(text)
  {
  }

  /**
   * The explicit constructor stores the code as given, where the text
   * constructor would upper-case it.
   */
  lemma ExplicitConstructorKeepsCase(grammar: RangeGrammar)
    ensures FromParts("1tim", Some([])) == Ok(Identifier("1tim", []))
    ensures FromText("1tim", grammar) == Ok(Identifier("1TIM", []))
  {
    assert JavaSplit("1tim", Separator) == ["1tim"];
    var up := ToUpper("1tim");
    assert up[0] == '1' && up[1] == 'T' && up[2] == 'I' && up[3] == 'M';
    assert up == "1TIM";
  }

  lemma DotsOfThreePieces()
    ensures StripTrailing("3iek.A.B", Separator) == "3iek.A.B"
    ensures Count("3iek.A.B", Separator) == 2
  {
    var t := "3iek.A.B";
    var t7, t6, t5, t4 := "3iek.A.", "3iek.A", "3iek.", "3iek";
    assert Separator !in t4;
    assert t5[..4] == t4 && t5[4] == Separator;
    assert Count(t5, Separator) == 1;
    assert t6[..5] == t5 && t6[5] != Separator;
    assert Count(t6, Separator) == 1;
    assert t7[..6] == t6 && t7[6] == Separator;
    assert Count(t7, Separator) == 2;
    assert t[..7] == t7 && t[7] != Separator;
  }

  /** Two dots before the end make three pieces: malformed. */
  lemma TwoDotsMalformed(grammar: RangeGrammar)
    ensures FromText("3iek.A.B", grammar) == Err(MalformedIdentifier("3iek.A.B"))
  {
    MalformedExactly("3iek.A.B", grammar);
    DotsOfThreePieces();
  }

  /** Nothing but dots leaves no piece at all: malformed. */
  lemma OnlyDotsMalformed(grammar: RangeGrammar)
    ensures FromText(".", grammar) == Err(MalformedIdentifier("."))
  {
    MalformedExactly(".", grammar);
    assert AllAre(".", Separator);
  }

  lemma SplitOfTrailingDot()
    ensures JavaSplit("1abc.", Separator) == ["1abc"]
  {
    var text := "1abc.";
    assert Separator in text by {
      assert text[4] == Separator;
    }
    DropTrailingOfSplit(text, Separator);
    assert StripTrailing(text, Separator) == "1abc" by {
      assert text[..4] == "1abc";
    }
    SplitAroundOneSeparator("1abc", "", Separator);
  }

  lemma UpperOfCode()
    ensures NormalizeCode("1abc") == "1ABC"
  {
    var up := ToUpper("1abc");
    assert up[0] == '1' && up[1] == 'A' && up[2] == 'B' && up[3] == 'C';
  }

  /** A trailing dot is dropped by the split and leaves a whole-structure identifier. */
  lemma TrailingDotDropped(grammar: RangeGrammar)
    ensures FromText("1abc.", grammar) == Ok(Identifier("1ABC", []))
  {
    SplitOfTrailingDot();
    UpperOfCode();
  }
}

/**
 * The parts of java.lang.String and java.lang.Integer that the identifier
 * parser and the chain resolver rely on: splitting on a one-character
 * separator, trim, upper-casing and Integer.parseInt.
 */
module JavaText {
  import opened Wrappers

  /** Number of occurrences of c in s. */
  function Count(s: string, c: char): (n: nat)
    ensures n == 0 <==> c !in s
    ensures n <= |s|
  {
    if s == [] then 0
    else
      assert s == s[..|s| - 1] + [s[|s| - 1]];
      Count(s[..|s| - 1], c) + (if s[|s| - 1] == c then 1 else 0)
  }

  predicate AllAre(s: string, c: char) {
    forall i | 0 <= i < |s| :: s[i] == c
  }

  /** The pieces with x appended to the last one. */
  function ExtendLast(pieces: seq<string>, x: string): (r: seq<string>)
    requires |pieces| > 0
    ensures |r| == |pieces|
  {
    pieces[..|pieces| - 1] + [pieces[|pieces| - 1] + x]
  }

  lemma ExtendLastTwice(pieces: seq<string>, x: string, y: string)
    requires |pieces| > 0
    ensures ExtendLast(ExtendLast(pieces, x), y) == ExtendLast(pieces, x + y)
  {
    var n := |pieces|;
    var q := ExtendLast(pieces, x);
    assert q[..n - 1] == pieces[..n - 1];
    assert q[n - 1] + y == pieces[n - 1] + (x + y);
  }

  /**
   * Every piece of s between two occurrences of sep, empty pieces included:
   * what a split yields before Java discards anything.
   */
  function SplitOn(s: string, sep: char): (pieces: seq<string>)
    ensures |pieces| == Count(s, sep) + 1
    ensures forall i | 0 <= i < |pieces| :: sep !in pieces[i]
  {
    if s == [] then [""]
    else
      var init := SplitOn(s[..|s| - 1], sep);
      var c := s[|s| - 1];
      if c == sep then init + [""]
      else ExtendLast(init, [c])
  }

  /** The pieces glued back together with sep between neighbours. */
  function Join(pieces: seq<string>, sep: char): string
    requires |pieces| > 0
  {
    if |pieces| == 1 then pieces[0]
    else Join(pieces[..|pieces| - 1], sep) + [sep] + pieces[|pieces| - 1]
  }

  lemma {:induction false} JoinExtendLast(pieces: seq<string>, sep: char, x: string)
    requires |pieces| > 0
    ensures Join(ExtendLast(pieces, x), sep) == Join(pieces, sep) + x
  {
    var n := |pieces|;
    var q := ExtendLast(pieces, x);
    if n > 1 {
      assert q[..n - 1] == pieces[..n - 1];
    }
  }

  /** Splitting loses nothing: the pieces join back to the original text. */
  lemma {:induction false} SplitThenJoin(s: string, sep: char)
    ensures Join(SplitOn(s, sep), sep) == s
  {
    if s != [] {
      var init := s[..|s| - 1];
      var c := s[|s| - 1];
      assert s == init + [c];
      SplitThenJoin(init, sep);
      var ps := SplitOn(init, sep);
      if c == sep {
        SplitAfterSeparator(init, sep);
        assert (ps + [""])[..|ps|] == ps;
      } else {
        SplitAppendChar(init, c, sep);
        JoinExtendLast(ps, sep, [c]);
      }
    }
  }

  /** Appending a character other than the separator lengthens the last piece by it. */
  lemma SplitAppendChar(a: string, c: char, sep: char)
    requires c != sep
    ensures SplitOn(a + [c], sep) == ExtendLast(SplitOn(a, sep), [c])
  {
    var ac := a + [c];
    assert ac[..|ac| - 1] == a;
  }

  /** Appending text without a separator only lengthens the last piece. */
  lemma {:induction false} SplitExtendsLastPiece(a: string, b: string, sep: char)
    requires sep !in b
    ensures SplitOn(a + b, sep) == ExtendLast(SplitOn(a, sep), b)
  {
    var pa := SplitOn(a, sep);
    if b == [] {
      assert a + b == a;
      assert pa[|pa| - 1] + b == pa[|pa| - 1];
      assert pa == pa[..|pa| - 1] + [pa[|pa| - 1]];
    } else {
      var b' := b[..|b| - 1];
      var c := b[|b| - 1];
      assert b == b' + [c];
      SplitExtendsLastPiece(a, b', sep);
      SplitAppendChar(a + b', c, sep);
      assert a + b == (a + b') + [c];
      ExtendLastTwice(pa, b', [c]);
    }
  }

  /** A separator-free text is its own only piece. */
  lemma SplitWithoutSeparator(p: string, sep: char)
    requires sep !in p
    ensures SplitOn(p, sep) == [p]
  {
    var e: string := [];
    SplitExtendsLastPiece(e, p, sep);
    assert e + p == p;
    assert ExtendLast([""], p) == [p];
  }

  /** A separator at the end opens a new, empty piece. */
  lemma SplitAfterSeparator(p: string, sep: char)
    ensures SplitOn(p + [sep], sep) == SplitOn(p, sep) + [""]
  {
    var ps := p + [sep];
    assert ps[..|ps| - 1] == p;
  }

  /** Text after the last separator is the last piece. */
  lemma SplitAfterLastSeparator(a: string, b: string, sep: char)
    requires sep !in b
    ensures SplitOn(a + [sep] + b, sep) == SplitOn(a, sep) + [b]
  {
    SplitAfterSeparator(a, sep);
    SplitExtendsLastPiece(a + [sep], b, sep);
    var x := SplitOn(a, sep) + [""];
    assert x[..|x| - 1] == SplitOn(a, sep);
    assert x[|x| - 1] + b == b;
    assert ExtendLast(x, b) == SplitOn(a, sep) + [b];
  }

  /** Two separator-free texts around one separator split into exactly those two pieces. */
  lemma SplitAroundOneSeparator(p: string, q: string, sep: char)
    requires sep !in p && sep !in q
    ensures SplitOn(p, sep) == [p]
    ensures SplitOn(p + [sep] + q, sep) == [p, q]
  {
    SplitWithoutSeparator(p, sep);
    SplitAfterLastSeparator(p, q, sep);
  }

  /** s without its trailing run of sep. */
  function StripTrailing(s: string, sep: char): (r: string)
    ensures r <= s
    ensures forall i | |r| <= i < |s| :: s[i] == sep
    ensures r == [] || r[|r| - 1] != sep
  {
    if s != [] && s[|s| - 1] == sep then StripTrailing(s[..|s| - 1], sep) else s
  }

  /** The pieces without their trailing run of empty pieces. */
  function DropTrailingEmpty(pieces: seq<string>): (r: seq<string>)
    ensures r <= pieces
    ensures forall i | |r| <= i < |pieces| :: pieces[i] == ""
    ensures r == [] || r[|r| - 1] != ""
  {
    if pieces != [] && pieces[|pieces| - 1] == "" then DropTrailingEmpty(pieces[..|pieces| - 1])
    else pieces
  }

  /**
   * String.split with a one-character literal separator and no limit: with no
   * occurrence of sep the whole text is the only piece, otherwise the pieces
   * with the trailing empty ones removed.
   */
  function JavaSplit(s: string, sep: char): (pieces: seq<string>)
    ensures forall i | 0 <= i < |pieces| :: sep !in pieces[i]
    ensures sep !in s ==> pieces == [s]
    ensures sep in s ==> pieces <= SplitOn(s, sep) && (pieces == [] || pieces[|pieces| - 1] != "")
    ensures sep in s ==> forall i | |pieces| <= i < |SplitOn(s, sep)| :: SplitOn(s, sep)[i] == ""
  {
    if sep !in s then [s] else DropTrailingEmpty(SplitOn(s, sep))
  }

  lemma {:induction false} DropTrailingOfSplit(s: string, sep: char)
    ensures DropTrailingEmpty(SplitOn(s, sep))
         == (var t := StripTrailing(s, sep); if t == [] then [] else SplitOn(t, sep))
  {
    if s != [] {
      var init := s[..|s| - 1];
      var ps := SplitOn(init, sep);
      if s[|s| - 1] == sep {
        DropTrailingOfSplit(init, sep);
        assert SplitOn(s, sep) == ps + [""];
        assert (ps + [""])[..|ps|] == ps;
      } else {
        var last := SplitOn(s, sep)[|SplitOn(s, sep)| - 1];
        assert last == ps[|ps| - 1] + [s[|s| - 1]];
        assert last != "";
      }
    }
  }

  /**
   * How many pieces Java's split yields, in terms of the text alone: none for
   * a non-empty run of separators, otherwise one more than the separators
   * left once the trailing ones are stripped.
   */
  lemma JavaSplitLength(s: string, sep: char)
    ensures |JavaSplit(s, sep)|
         == if s != [] && AllAre(s, sep) then 0 else Count(StripTrailing(s, sep), sep) + 1
  {
    var t := StripTrailing(s, sep);
    if sep !in s {
      if s != [] {
        assert s[0] in s;
        assert s[|s| - 1] in s;
        assert |t| == |s|;
      }
      assert t == s;
    } else {
      DropTrailingOfSplit(s, sep);
      if t == [] {
        assert AllAre(s, sep);
      } else {
        assert s[|t| - 1] == t[|t| - 1];
        assert !AllAre(s, sep);
      }
    }
  }

  /** The characters String.trim removes: every code point up to U+0020. */
  predicate IsBlank(c: char) {
    c <= ' '
  }

  /** How many blank characters s starts with. */
  function LeadingBlanks(s: string): (n: nat)
    ensures n <= |s|
    ensures forall i | 0 <= i < n :: IsBlank(s[i])
    ensures n < |s| ==> !IsBlank(s[n])
  {
    if s != [] && IsBlank(s[0]) then 1 + LeadingBlanks(s[1..]) else 0
  }

  /** How many blank characters s ends with. */
  function TrailingBlanks(s: string): (n: nat)
    ensures n <= |s|
    ensures forall i | |s| - n <= i < |s| :: IsBlank(s[i])
    ensures n < |s| ==> !IsBlank(s[|s| - n - 1])
  {
    if s != [] && IsBlank(s[|s| - 1]) then 1 + TrailingBlanks(s[..|s| - 1]) else 0
  }

  /** r sits in s at offset p, and every character of s outside it is blank. */
  predicate TrimmedAt(s: string, p: nat, r: string) {
    && p + |r| <= |s|
    && s[p..p + |r|] == r
    && (forall i | 0 <= i < p :: IsBlank(s[i]))
    && (forall i | p + |r| <= i < |s| :: IsBlank(s[i]))
  }

  /**
   * String.trim: the text between its leading and its trailing blanks. The
   * result is the slice of s after the leading blanks with only blanks after
   * it, and has a non-blank character at each of its ends.
   */
  function Trim(s: string): (r: string)
    ensures TrimmedAt(s, LeadingBlanks(s), r)
    ensures r == [] || (!IsBlank(r[0]) && !IsBlank(r[|r| - 1]))
    ensures (s == [] || (!IsBlank(s[0]) && !IsBlank(s[|s| - 1]))) ==> r == s
  {
    var p := LeadingBlanks(s);
    var rest := s[p..];
    var q := |rest| - TrailingBlanks(rest);
    assert forall i | p + q <= i < |s| :: s[i] == rest[i - p];
    rest[..q]
  }

  /** Nothing else is a trim: any slice with non-blank ends and only blanks around it is the one Trim gives. */
  lemma TrimUnique(s: string, p: nat, r: string)
    requires TrimmedAt(s, p, r) && (r == [] || (!IsBlank(r[0]) && !IsBlank(r[|r| - 1])))
    ensures r == Trim(s)
  {
    var t := Trim(s);
    var n := LeadingBlanks(s);
    if r == [] {
      if t != [] {
        assert false;
      }
    } else {
      assert s[p] == r[0] && s[p + |r| - 1] == r[|r| - 1];
      if p != n {
        assert false;
      }
      if t == [] || |t| != |r| {
        assert false;
      }
    }
  }

  /** Blanks around the range text go, the blank inside it stays. */
  lemma TrimExample()
    ensures Trim(" A_1-5, B \t") == "A_1-5, B"
  {
    var s := " A_1-5, B \t";
    assert s[1..9] == "A_1-5, B";
    TrimUnique(s, 1, "A_1-5, B");
  }

  predicate IsLowerLetter(c: char) {
    'a' <= c <= 'z'
  }

  /** Upper case of one character; only the ASCII letters are mapped. */
  function UpperChar(c: char): char {
    if IsLowerLetter(c) then (c as int - 32) as char else c
  }

  predicate HasNoLowerLetter(s: string) {
    forall i | 0 <= i < |s| :: !IsLowerLetter(s[i])
  }

  /** String.toUpperCase, over ASCII letters. */
  function ToUpper(s: string): (r: string)
    ensures |r| == |s| && HasNoLowerLetter(r)
    ensures forall i | 0 <= i < |s| :: r[i] == s[i] || (IsLowerLetter(s[i]) && r[i] == s[i] - 'a' + 'A')
    ensures HasNoLowerLetter(s) ==> r == s
  {
    if s == [] then [] else [UpperChar(s[0])] + ToUpper(s[1..])
  }

  const MinInt: int := -0x8000_0000
  const MaxInt: int := 0x7FFF_FFFF

  predicate IsDigit(c: char) {
    '0' <= c <= '9'
  }

  predicate AllDigits(s: string) {
    forall i | 0 <= i < |s| :: IsDigit(s[i])
  }

  /** The value of a run of decimal digits, most significant first. */
  function DigitsValue(s: string): nat
    requires AllDigits(s)
  {
    if s == [] then 0 else DigitsValue(s[..|s| - 1]) * 10 + (s[|s| - 1] as int - '0' as int)
  }

  /** The shape Integer.parseInt accepts: an optional sign, then at least one decimal digit. */
  predicate IsIntegerText(s: string) {
    && |s| >= 1
    && (IsDigit(s[0]) || (|s| >= 2 && (s[0] == '-' || s[0] == '+')))
    && forall i | 0 < i < |s| :: IsDigit(s[i])
  }

  /** The value such a text denotes: the digits read in base ten, negated after a minus sign. */
  function IntegerValue(s: string): int
    requires IsIntegerText(s)
  {
    if IsDigit(s[0]) then DigitsValue(s)
    else if s[0] == '-' then 0 - DigitsValue(s[1..])
    else DigitsValue(s[1..])
  }

  /**
   * Integer.parseInt: an optional sign, then at least one decimal digit, and
   * a value that fits in 32 bits; None stands for NumberFormatException.
   */
  function ParseInt(s: string): (r: Option<int>)
    ensures r.Some? <==> IsIntegerText(s) && MinInt <= IntegerValue(s) <= MaxInt
    ensures r.Some? ==> r.value == IntegerValue(s)
  {
    if s == [] then None
    else
      var digits := if s[0] == '-' || s[0] == '+' then s[1..] else s;
      if digits == [] || !AllDigits(digits) then None
      else
        var magnitude: int := DigitsValue(digits);
        var v: int := if s[0] == '-' then -magnitude else magnitude;
        if MinInt <= v <= MaxInt then Some(v) else None
  }

  /** Leading zeros, an explicit plus and a minus are all read; a lone sign is not a number. */
  lemma ParseIntForms()
    ensures ParseInt("02") == Some(2)
    ensures ParseInt("+2") == Some(2)
    ensures ParseInt("-1") == Some(-1)
    ensures ParseInt("-") == None
    ensures ParseInt("") == None
  {
    assert DigitsValue("0") == 0 by { assert "0"[..0] == ""; }
    assert DigitsValue("02") == 2 by { assert "02"[..1] == "0"; }
    assert DigitsValue("2") == 2 by { assert "2"[..0] == ""; }
    assert DigitsValue("1") == 1 by { assert "1"[..0] == ""; }
    assert "+2"[1..] == "2";
    assert "-1"[1..] == "1";
  }

  /** One past the largest 32-bit value is refused. */
  lemma ParseIntOverflow()
    ensures ParseInt(Decimal(MaxInt + 1)) == None
  {
    DecimalValue(MaxInt + 1);
    assert IsDigit(Decimal(MaxInt + 1)[0]);
  }

  /** Decimal text of n without sign or leading zeros (Integer.toString of a non-negative value). */
  function Decimal(n: nat): (r: string)
    ensures r != [] && AllDigits(r)
  {
    if n < 10 then [('0' as int + n) as char]
    else Decimal(n / 10) + [('0' as int + n % 10) as char]
  }

  lemma {:induction false} DecimalValue(n: nat)
    ensures DigitsValue(Decimal(n)) == n
  {
    var d := Decimal(n);
    if n < 10 {
      assert d[..|d| - 1] == [];
    } else {
      DecimalValue(n / 10);
      assert d[..|d| - 1] == Decimal(n / 10);
    }
  }

  /** parseInt reads back the decimal text of every non-negative 32-bit value. */
  lemma ParseIntOfDecimal(n: nat)
    requires n <= MaxInt
    ensures ParseInt(Decimal(n)) == Some(n)
  {
    DecimalValue(n);
  }
}

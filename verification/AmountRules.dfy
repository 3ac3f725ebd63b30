/** What is printed for an amount, and what comes of every text that is read (src/protocol.rs). */
module AmountRules {
  import opened Types
  import opened Amounts

  // ---------- Printing ----------

  /** Canonical digits: no leading zero, unless the text is "0". */
  predicate Canonical(w: string) {
    AllDigits(w) && w != [] && (w[0] == '0' ==> w == "0")
  }

  lemma {:induction false} DigitsCanonical(n: nat)
    ensures Canonical(Digits(n)) && (n > 0 ==> Digits(n)[0] != '0')
  {
    if n >= 10 {
      DigitsCanonical(n / 10);
    }
  }

  lemma {:induction false} Stripped(s: string)
    requires AllDigits(s) && Value(s) > 0
    ensures var t := StripZeros(s); t != [] && t[|t| - 1] != '0'
  {
    if s != [] && s[|s| - 1] == '0' {
      Stripped(s[..|s| - 1]);
    }
  }

  lemma {:induction false} PaddedStripped(rest: nat)
    requires 0 < rest < COIN
    ensures var f := StripZeros(PadLeft(Digits(rest)));
      AllDigits(f) && 1 <= |f| <= 8 && f[|f| - 1] != '0' && Value(f) * Pow10(8 - |f|) == rest
  {
    hide *;
    PaddedDigits(rest);
    PrintedFraction(rest);
    Stripped(PadLeft(Digits(rest)));
  }

  lemma {:induction false} PaddedDigits(rest: nat)
    requires rest < COIN
    ensures AllDigits(PadLeft(Digits(rest))) && Value(PadLeft(Digits(rest))) == rest
  {
    hide Value, Digits, Pow10;
    var digits := Digits(rest);
    ValueOfDigits(rest);
    LeadingZeros(if |digits| < 8 then 8 - |digits| else 0, digits);
    assert Zeros(0) + digits == digits;
  }

  /** The text for an amount is its whole coins without leading zeros and, if there is a rest, a point and one to eight
      digits that do not end in 0 and stand for that rest. */
  lemma FormatExactly(amount: u64)
    ensures var s := FormatAmount(amount); var whole, rest := amount / 100_000_000, amount % 100_000_000;
      if rest == 0 then Canonical(s) && Value(s) == whole
      else exists w, f :: s == w + "." + f && Canonical(w) && Value(w) == whole && Rest(f, rest)
  {
    var whole, rest := amount / COIN, amount % COIN;
    ValueOfDigits(whole);
    DigitsCanonical(whole);
    hide Value, Digits, Pow10, StripZeros, PadLeft, Canonical;
    if rest != 0 {
      PaddedStripped(rest);
      var w, f := Digits(whole), StripZeros(PadLeft(Digits(rest)));
      assert FormatAmount(amount) == w + "." + f && Rest(f, rest);
    }
  }

  /** One to eight digits that do not end in 0 and stand for this many units. */
  predicate Rest(f: string, units: nat) {
    AllDigits(f) && 1 <= |f| <= 8 && f[|f| - 1] != '0' && Value(f) * Pow10(8 - |f|) == units
  }

  // ---------- Reading ----------

  predicate Blank(s: string) {
    forall i :: 0 <= i < |s| ==> IsWhitespace(s[i])
  }

  lemma WhitespaceExactly(c: char)
    ensures IsWhitespace(c) <==>
      c in "\t\n\U{B}\U{C}\r \U{85}\U{A0}\U{1680}\U{2000}\U{2001}\U{2002}\U{2003}\U{2004}\U{2005}\U{2006}\U{2007}"
           + "\U{2008}\U{2009}\U{200A}\U{2028}\U{2029}\U{202F}\U{205F}\U{3000}"
  {
  }

  /** White space is ignored in front and behind, and only there. */
  lemma {:induction false} TrimExactly(s: string) returns (before: string, after: string)
    ensures s == before + Trim(s) + after && Blank(before) && Blank(after)
    ensures var t := Trim(s); t != [] ==> !IsWhitespace(t[0]) && !IsWhitespace(t[|t| - 1])
    decreases |s|
  {
    before, after := "", "";
    hide IsWhitespace, Blank;
    if s != [] && IsWhitespace(s[0]) {
      var front, back := TrimExactly(s[1..]);
      before, after := [s[0]] + front, back;
      BlankPlus(s[0], front);
      assert s == [s[0]] + s[1..] && Trim(s) == Trim(s[1..]);
      hide Trim;
    } else if s != [] && IsWhitespace(s[|s| - 1]) {
      var front, back := TrimExactly(s[..|s| - 1]);
      before, after := front, back + [s[|s| - 1]];
      BlankPlus(s[|s| - 1], back);
      assert s == s[..|s| - 1] + [s[|s| - 1]] && Trim(s) == Trim(s[..|s| - 1]);
      hide Trim;
    } else {
      BlankNothing();
      assert s == "" + s + "" && Trim(s) == s;
    }
  }

  lemma BlankNothing()
    ensures Blank("")
  {
  }

  lemma BlankPlus(c: char, s: string)
    requires Blank(s) && IsWhitespace(c)
    ensures Blank([c] + s) && Blank(s + [c])
  {
    hide IsWhitespace;
  }

  lemma {:induction false} TrimBlanks(before: string, t: string, after: string)
    requires Blank(before) && Blank(after)
    requires t != [] ==> !IsWhitespace(t[0]) && !IsWhitespace(t[|t| - 1])
    ensures Trim(before + t + after) == t
    decreases |before| + |after|
  {
    var s := before + t + after;
    if before != [] {
      assert s[1..] == before[1..] + t + after && s[0] == before[0];
      TrimBlanks(before[1..], t, after);
    } else if after != [] {
      var less := after[..|after| - 1];
      assert s[..|s| - 1] == before + t + less && s[|s| - 1] == after[|after| - 1];
      if t == [] {
        assert s[0] == after[0] && s[1..] == before + t + after[1..];
        TrimBlanks(before, t, after[1..]);
      } else {
        assert s[0] == t[0];
        TrimBlanks(before, t, less);
      }
    } else {
      assert s == t;
    }
  }

  /** Digits with an optional plus sign, or nothing. */
  predicate Whole(w: string) {
    w == "" || (Unsigned(w) != "" && AllDigits(Unsigned(w)))
  }

  function Unsigned(w: string): string {
    if w != "" && w[0] == '+' then w[1..] else w
  }

  /** What comes of `w`, or of `w`, a point and `f`, is the first of these that applies. */
  function Reading(w: string, f: string): Parsed {
    if w != "" && w[0] == '-' then Failed(Negative)
    else if !Whole(w) || Value(Unsigned(w)) >= 0x1_0000_0000_0000_0000 then Failed(BadWhole)
    else if Value(Unsigned(w)) * 100_000_000 >= 0x1_0000_0000_0000_0000 then Failed(OutOfRange)
    else if |f| > 8 || Utf8Length(f) > 8 then Failed(TooManyDecimals)
    else if !AllDigits(f) then Failed(BadFraction)
    else if Units(Unsigned(w), f) >= 0x1_0000_0000_0000_0000 then Failed(OutOfRange)
    else Amount(Units(Unsigned(w), f))
  }

  lemma WholePart(w: string)
    requires '.' !in w
    ensures (if w == [] then Some(0) else ParseU64(w)) ==
      if Whole(w) && Value(Unsigned(w)) < U64_LIMIT then Some(Value(Unsigned(w))) else None
  {
    assert Value([]) == 0;
    hide Value;
  }

  lemma {:induction false} Utf8AtLeast(s: string)
    ensures Utf8Length(s) >= |s|
  {
    if s != [] {
      Utf8AtLeast(s[..|s| - 1]);
    }
  }

  lemma {:induction false} FractionPart(f: string)
    ensures AllDigits(f) && |f| <= 8 ==> Value(f) * Pow10(8 - |f|) < COIN
    ensures ParseFraction(Some(f)) ==
      if |f| > 8 || Utf8Length(f) > 8 then Failed(TooManyDecimals)
      else if !AllDigits(f) then Failed(BadFraction)
      else Amount(Value(f) * Pow10(8 - |f|))
    ensures ParseFraction(None) == Amount(0)
  {
    Utf8AtLeast(f);
    hide Value, Pow10, ParseU64, PadRight;
    if AllDigits(f) && |f| <= 8 {
      FractionMeaning(f);
    }
  }

  /** What comes of the two parts is what is read from them. */
  lemma PartsRead(w: string, f: string, fraction: Option<string>)
    requires '.' !in w && (w == "" || w[0] != '-') && fraction == (if f == "" then None else Some(f))
    ensures Combine(if w == [] then Some(0) else ParseU64(w), ParseFraction(Some(f))) == Reading(w, f)
    ensures Combine(if w == [] then Some(0) else ParseU64(w), ParseFraction(fraction)) == Reading(w, f)
  {
    WholePart(w);
    FractionPart(f);
    FractionPart("");
    NoFraction("");
    hide Value, Pow10, ParseU64, Whole, Unsigned, ParseFraction, Utf8Length;
  }

  lemma {:induction false} SplitCount(s: string)
    ensures |Split(s)| == multiset(s)['.'] + 1
  {
    if s != [] {
      SplitCount(s[1..]);
      assert s == [s[0]] + s[1..];
    }
  }

  lemma {:induction false} ParsePoint(input: string, w: string, f: string)
    requires Trim(input) == w + "." + f && '.' !in w && '.' !in f
    ensures ParseAmount(input) == Reading(w, f)
  {
    SplitAtPoint(w, f);
    SplitPlain(f);
    if w == "" || w[0] != '-' {
      PartsRead(w, f, if f == "" then None else Some(f));
    }
    hide Combine, ParseU64, ParseFraction, Reading, Trim, Split;
    var t := w + "." + f;
    assert t != [] && t[0] == if w == "" then '.' else w[0];
    if w != "" && w[0] == '-' {
      NegativeReading(w, f);
    } else {
      assert Split(t) == [w] + [f];
    }
  }

  lemma NegativeReading(w: string, f: string)
    requires w != "" && w[0] == '-'
    ensures Reading(w, f) == Failed(Negative)
  {
  }

  lemma {:induction false} ParsePlain(input: string, w: string)
    requires Trim(input) == w && w != "" && '.' !in w
    ensures ParseAmount(input) == Reading(w, "")
  {
    SplitPlain(w);
    if w[0] == '-' {
      NegativeReading(w, "");
    } else {
      PartsRead(w, "", None);
    }
    hide Combine, ParseU64, ParseFraction, Reading, Trim, Split;
  }

  lemma PointAt(t: string) returns (w: string, f: string)
    requires multiset(t)['.'] == 1
    ensures t == w + "." + f && '.' !in w && '.' !in f
  {
    var i :| 0 <= i < |t| && t[i] == '.';
    w, f := t[..i], t[i + 1..];
    assert t == w + "." + f;
    assert multiset(t) == multiset(w) + multiset{'.'} + multiset(f);
  }

  /** What comes of every text, blanks in front and behind aside: nothing at all is refused as empty, a leading minus
      as negative, a second point as such; and otherwise the text is a whole part, perhaps empty, and perhaps a point
      and a fraction. */
  lemma ParseExactly(before: string, t: string, after: string)
    requires Blank(before) && Blank(after)
    requires t != [] ==> !IsWhitespace(t[0]) && !IsWhitespace(t[|t| - 1])
    ensures var r := ParseAmount(before + t + after);
      && (t == "" ==> r == Failed(Empty))
      && (t != "" && t[0] == '-' ==> r == Failed(Negative))
      && (t != "" && t[0] != '-' && multiset(t)['.'] > 1 ==> r == Failed(TooManyPoints))
      && (t != "" && '.' !in t ==> r == Reading(t, ""))
      && (forall w, f :: t == w + "." + f && '.' !in w && '.' !in f ==> r == Reading(w, f))
      && (t != "" && multiset(t)['.'] == 1 ==> exists w, f :: t == w + "." + f && '.' !in w && '.' !in f)
  {
    TrimBlanks(before, t, after);
    var input := before + t + after;
    SplitCount(t);
    hide Combine, ParseU64, ParseFraction, Reading, Trim, Split;
    if t != "" && '.' !in t {
      ParsePlain(input, t);
    }
    forall w, f | t == w + "." + f && '.' !in w && '.' !in f
      ensures ParseAmount(input) == Reading(w, f)
    {
      ParsePoint(input, w, f);
    }
    if multiset(t)['.'] == 1 {
      var w, f := PointAt(t);
    }
  }
}

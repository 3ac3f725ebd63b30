/** Amounts in decimal (src/protocol.rs): printing units as coins, and reading them back. The functions follow the
    program step by step, and what is printed for an amount is read back as that amount. What comes of every other
    text, and what every printed text looks like, is in module AmountRules. */
module Amounts {
  import opened Arithmetic
  import opened Types
  import Emission

  datatype AmountError = Empty | Negative | TooManyPoints | BadWhole | OutOfRange | TooManyDecimals | BadFraction

  datatype Parsed = Amount(units: u64) | Failed(error: AmountError)

  const COIN: nat := Emission.COIN

  // ---------- Decimal digits ----------

  predicate IsDigit(c: char) {
    '0' <= c <= '9'
  }

  predicate AllDigits(s: string) {
    forall i :: 0 <= i < |s| ==> IsDigit(s[i])
  }

  function DigitChar(d: nat): char
    requires d < 10
  {
    '0' + d as char
  }

  /** `{n}` */
  function Digits(n: nat): (s: string)
    ensures AllDigits(s) && s != []
  {
    if n < 10 then [DigitChar(n)] else Digits(n / 10) + [DigitChar(n % 10)]
  }

  function Value(s: string): nat
    requires AllDigits(s)
  {
    if s == [] then 0 else 10 * Value(s[..|s| - 1]) + (s[|s| - 1] - '0') as nat
  }

  lemma {:induction false} ValueOfDigits(n: nat)
    ensures Value(Digits(n)) == n
  {
    if n >= 10 {
      ValueOfDigits(n / 10);
      assert Digits(n)[..|Digits(n)| - 1] == Digits(n / 10);
    }
  }

  function Pow10(k: nat): (p: nat)
    ensures p > 0
  {
    if k == 0 then 1 else 10 * Pow10(k - 1)
  }

  lemma {:induction false} DigitsLength(n: nat, k: nat)
    requires k > 0 && n < Pow10(k)
    ensures |Digits(n)| <= k
  {
    if n >= 10 {
      DigitsLength(n / 10, k - 1);
    }
  }

  function Zeros(k: nat): (s: string)
    ensures |s| == k && AllDigits(s) && forall i :: 0 <= i < k ==> s[i] == '0'
  {
    if k == 0 then [] else Zeros(k - 1) + ['0']
  }

  /** `{:0>8}` and `{:0<8}` */
  function PadLeft(s: string): string {
    if |s| >= 8 then s else Zeros(8 - |s|) + s
  }

  function PadRight(s: string): string {
    if |s| >= 8 then s else s + Zeros(8 - |s|)
  }

  lemma {:induction false} LeadingZeros(k: nat, s: string)
    requires AllDigits(s)
    ensures AllDigits(Zeros(k) + s) && Value(Zeros(k) + s) == Value(s)
  {
    if s == [] {
      assert Zeros(k) + s == Zeros(k);
      if k > 0 {
        LeadingZeros(k - 1, s);
        assert Zeros(k)[..k - 1] == Zeros(k - 1) == Zeros(k - 1) + s;
      }
    } else {
      assert (Zeros(k) + s)[..|Zeros(k) + s| - 1] == Zeros(k) + s[..|s| - 1];
      LeadingZeros(k, s[..|s| - 1]);
    }
  }

  lemma {:induction false} TrailingZeros(s: string, k: nat)
    requires AllDigits(s)
    ensures AllDigits(s + Zeros(k)) && Value(s + Zeros(k)) == Value(s) * Pow10(k)
  {
    if k == 0 {
      assert s + Zeros(0) == s;
    } else {
      TrailingZeros(s, k - 1);
      assert (s + Zeros(k))[..|s| + k - 1] == s + Zeros(k - 1);
      Regroup(Value(s), 10, Pow10(k - 1));
    }
  }

  // ---------- Printing ----------

  function StripZeros(s: string): string {
    if s != [] && s[|s| - 1] == '0' then StripZeros(s[..|s| - 1]) else s
  }

  function FormatAmount(amount: u64): string {
    var whole, fraction := amount / COIN, amount % COIN;
    if fraction == 0 then Digits(whole)
    else Digits(whole) + "." + StripZeros(PadLeft(Digits(fraction)))
  }

  /** format_bec_amount */
  method FormatBecAmount(amount: u64) returns (s: string)
    ensures s == FormatAmount(amount)
  {
    var whole, fraction := amount / COIN, amount % COIN;
    if fraction == 0 {
      return Digits(whole);
    }
    var frac := PadLeft(Digits(fraction));
    while frac != [] && frac[|frac| - 1] == '0'
      invariant StripZeros(frac) == StripZeros(PadLeft(Digits(fraction)))
      decreases |frac|
    {
      frac := frac[..|frac| - 1];
    }
    s := Digits(whole) + "." + frac;
  }

  // ---------- Reading ----------

  /** The characters with the Unicode property White_Space. */
  predicate IsWhitespace(c: char) {
    var n := c as int;
    || 0x9 <= n <= 0xD || n == 0x20 || n == 0x85 || n == 0xA0 || n == 0x1680 || 0x2000 <= n <= 0x200A
    || n == 0x2028 || n == 0x2029 || n == 0x202F || n == 0x205F || n == 0x3000
  }

  function Trim(s: string): string {
    if s != [] && IsWhitespace(s[0]) then Trim(s[1..])
    else if s != [] && IsWhitespace(s[|s| - 1]) then Trim(s[..|s| - 1])
    else s
  }

  /** `split('.')` */
  function Split(s: string): (parts: seq<string>)
    ensures parts != []
  {
    if s == [] then [[]]
    else
      var rest := Split(s[1..]);
      if s[0] == '.' then [[]] + rest else [[s[0]] + rest[0]] + rest[1..]
  }

  function Utf8Length(s: string): nat {
    if s == [] then 0
    else
      var n := s[|s| - 1] as int;
      Utf8Length(s[..|s| - 1]) + if n < 0x80 then 1 else if n < 0x800 then 2 else if n < 0x1_0000 then 3 else 4
  }

  /** `parse::<u64>`: an optional plus sign and at least one digit, within range. */
  function ParseU64(s: string): Option<u64> {
    var digits := if s != [] && s[0] == '+' then s[1..] else s;
    if digits == [] || !AllDigits(digits) || Value(digits) >= U64_LIMIT then None else Some(Value(digits))
  }

  function ParseFraction(part: Option<string>): Parsed {
    if part.None? then Amount(0)
    else if Utf8Length(part.value) > 8 then Failed(TooManyDecimals)
    else if !AllDigits(part.value) then Failed(BadFraction)
    else
      var n := ParseU64(PadRight(part.value));
      if n.None? then Failed(BadFraction) else Amount(n.value)
  }

  /** parse_bec_amount */
  function ParseAmount(input: string): Parsed {
    var trimmed := Trim(input);
    if trimmed == [] then Failed(Empty)
    else if trimmed[0] == '-' then Failed(Negative)
    else
      var parts := Split(trimmed);
      if |parts| > 2 then Failed(TooManyPoints)
      else
        Combine(if parts[0] == [] then Some(0) else ParseU64(parts[0]),
                ParseFraction(if |parts| == 2 then Some(parts[1]) else None))
  }

  /** The checked product and sum at the end; what is wrong with the whole part is reported first. */
  function Combine(whole: Option<u64>, fraction: Parsed): Parsed {
    if whole.None? then Failed(BadWhole)
    else if whole.value * COIN >= U64_LIMIT then Failed(OutOfRange)
    else if fraction.Failed? then fraction
    else if whole.value * COIN + fraction.units >= U64_LIMIT then Failed(OutOfRange)
    else Amount(whole.value * COIN + fraction.units)
  }

  // ---------- The round trip ----------

  lemma {:induction false} SplitPlain(s: string)
    requires forall i :: 0 <= i < |s| ==> s[i] != '.'
    ensures Split(s) == [s]
  {
    if s != [] {
      SplitPlain(s[1..]);
      assert s == [s[0]] + s[1..];
    }
  }

  lemma {:induction false} SplitAtPoint(s: string, t: string)
    requires forall i :: 0 <= i < |s| ==> s[i] != '.'
    ensures Split(s + "." + t) == [s] + Split(t)
  {
    var all := s + "." + t;
    if s == [] {
      assert all[1..] == t;
    } else {
      SplitAtPoint(s[1..], t);
      assert all[1..] == s[1..] + "." + t;
      assert s == [s[0]] + s[1..];
    }
  }

  lemma {:induction false} TrimNothing(s: string)
    requires s != [] && !IsWhitespace(s[0]) && !IsWhitespace(s[|s| - 1])
    ensures Trim(s) == s
  {
  }

  lemma {:induction false} AsciiLength(s: string)
    requires AllDigits(s)
    ensures Utf8Length(s) == |s|
  {
    if s != [] {
      AsciiLength(s[..|s| - 1]);
    }
  }

  lemma {:induction false} ValueBelow(s: string)
    requires AllDigits(s)
    ensures Value(s) < Pow10(|s|)
  {
    if s != [] {
      ValueBelow(s[..|s| - 1]);
    }
  }

  lemma Tens()
    ensures Pow10(8) == COIN
  {
    assert Pow10(8) == 10 * 10 * 10 * 10 * 10 * 10 * 10 * 10;
  }

  lemma {:induction false} PaddedValue(f: string)
    requires AllDigits(f) && |f| <= 8
    ensures PadRight(f) == f + Zeros(8 - |f|) && AllDigits(PadRight(f)) && |PadRight(f)| == 8
    ensures Value(PadRight(f)) == Value(f) * Pow10(8 - |f|) < COIN
  {
    TrailingZeros(f, 8 - |f|);
    assert PadRight(f) == f + Zeros(8 - |f|);
    hide Pow10, Value;
    ValueBelow(PadRight(f));
    Tens();
  }

  /** A fraction of up to eight digits counts in units of a hundred-millionth. */
  lemma {:induction false} FractionMeaning(f: string)
    requires AllDigits(f) && |f| <= 8
    ensures Value(f) * Pow10(8 - |f|) < COIN
    ensures ParseFraction(Some(f)) == Amount(Value(f) * Pow10(8 - |f|))
  {
    hide Pow10, Value, PadRight;
    AsciiLength(f);
    PaddedValue(f);
  }

  lemma {:induction false} DigitsParse(w: string)
    requires AllDigits(w) && w != []
    ensures ParseU64(w) == if Value(w) < U64_LIMIT then Some(Value(w)) else None
  {
  }

  /** The amount that whole digits and a fraction stand for, in units. */
  function Units(w: string, f: string): nat
    requires AllDigits(w) && AllDigits(f) && |f| <= 8
  {
    Value(w) * COIN + Value(f) * Pow10(8 - |f|)
  }

  lemma ParseParts(w: string, f: string)
    requires AllDigits(w) && w != [] && AllDigits(f)
    ensures ParseAmount(w + "." + f) == Combine(ParseU64(w), ParseFraction(Some(f)))
    ensures ParseAmount(w) == Combine(ParseU64(w), Amount(0))
  {
    hide Combine, ParseU64, Split;
    TrimNothing(w + "." + f);
    TrimNothing(w);
    SplitAtPoint(w, f);
    SplitPlain(f);
    SplitPlain(w);
  }

  lemma {:induction false} NoFraction(f: string)
    ensures f == [] ==> Value(f) * Pow10(8) == 0
  {
  }

  /** Reading whole digits, or whole digits, a point and up to eight more, gives the number they stand for
      in units, or an error if it does not fit. */
  lemma {:induction false} ParseMeaning(w: string, f: string)
    requires AllDigits(w) && w != [] && AllDigits(f) && |f| <= 8
    ensures ParseAmount(w + "." + f) ==
      if Value(w) >= U64_LIMIT then Failed(BadWhole)
      else if Units(w, f) >= U64_LIMIT then Failed(OutOfRange) else Amount(Units(w, f))
    ensures f == [] ==> ParseAmount(w) == ParseAmount(w + "." + f)
  {
    hide *;
    NoFraction(f);
    ParseParts(w, f);
    DigitsParse(w);
    FractionMeaning(f);
    CombineMeaning(Value(w), Value(f) * Pow10(8 - |f|));
    UnitsMeaning(w, f);
  }

  lemma {:induction false} UnitsMeaning(w: string, f: string)
    requires AllDigits(w) && AllDigits(f) && |f| <= 8
    ensures Units(w, f) == Value(w) * COIN + Value(f) * Pow10(8 - |f|)
  {
  }

  lemma CombineMeaning(whole: nat, fraction: nat)
    requires fraction < COIN
    ensures Combine(if whole < U64_LIMIT then Some(whole) else None, Amount(fraction)) ==
      if whole >= U64_LIMIT then Failed(BadWhole)
      else if whole * COIN + fraction >= U64_LIMIT then Failed(OutOfRange) else Amount(whole * COIN + fraction)
  {
  }

  /** Popping trailing zeros off eight digits and padding again restores them. */
  lemma {:induction false} StripThenPad(s: string, k: nat)
    requires AllDigits(s) && |s| + k == 8
    ensures AllDigits(StripZeros(s)) && |StripZeros(s)| <= |s|
    ensures PadRight(StripZeros(s)) == s + Zeros(k)
  {
    if s != [] && s[|s| - 1] == '0' {
      StripThenPad(s[..|s| - 1], k + 1);
      MoreZeros(k);
      assert s == s[..|s| - 1] + ['0'];
      assert s[..|s| - 1] + Zeros(k + 1) == s + Zeros(k);
    }
  }

  lemma {:induction false} MoreZeros(k: nat)
    ensures Zeros(k + 1) == ['0'] + Zeros(k)
  {
    assert forall i :: 0 <= i < k + 1 ==> Zeros(k + 1)[i] == (['0'] + Zeros(k))[i];
  }

  /** The printed fraction, padded again, is the fraction. */
  lemma {:induction false} PrintedFraction(fraction: nat)
    requires fraction < COIN
    ensures var f := StripZeros(PadLeft(Digits(fraction)));
      AllDigits(f) && |f| <= 8 && Value(f) * Pow10(8 - |f|) == fraction
  {
    var padded := PadLeft(Digits(fraction));
    ValueOfDigits(fraction);
    Tens();
    DigitsLength(fraction, 8);
    LeadingZeros(8 - |Digits(fraction)|, Digits(fraction));
    hide Pow10, Value, Digits;
    StripThenPad(padded, 0);
    assert padded + Zeros(0) == padded;
    PaddedValue(StripZeros(padded));
  }

  /** Every amount is read back from what was printed for it. */
  lemma AmountRoundTrip(amount: u64)
    ensures ParseAmount(FormatAmount(amount)) == Amount(amount)
  {
    var whole, fraction := amount / COIN, amount % COIN;
    assert Value([]) * Pow10(8) == 0;
    Division(amount, COIN);
    QuotientAtMost(amount, COIN);
    hide ParseAmount, Pow10, Value, Digits, StripZeros, PadLeft;
    ValueOfDigits(whole);
    if fraction == 0 {
      ParseMeaning(Digits(whole), []);
    } else {
      PrintedFraction(fraction);
      ParseMeaning(Digits(whole), StripZeros(PadLeft(Digits(fraction))));
    }
  }
}

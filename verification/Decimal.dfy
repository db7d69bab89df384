/** Decimal integers as strconv prints and parses them; the timing rows of a recording hold these. */
module Decimal {
  import opened Bytes
  import opened Durations

  function Digit(d: nat): (c: char)
    requires d < 10
    ensures '0' <= c <= '9'
  {
    '0' + d as char
  }

  function FormatNat(n: nat): (s: string)
    ensures s != []
  {
    (if n < 10 then [] else FormatNat(n / 10)) + [Digit(n % 10)]
  }

  function FormatInt(n: int): string {
    if n < 0 then "-" + FormatNat(-n) else FormatNat(n)
  }

  /** The number a string of digits stands for; nothing if some character is not a digit. */
  function DigitsValue(s: string): Option<nat>
    decreases |s|
  {
    if s == [] then Some(0)
    else
      var c, v := s[|s| - 1], DigitsValue(s[..|s| - 1]);
      if v.Some? && '0' <= c <= '9' then Some(10 * v.value + (c - '0') as nat) else None
  }

  /** ParseInt in base 10 with 64 bits: an optional sign, then digits, within the range of an int64. */
  function ParseInt(s: string): Option<Int64> {
    var signed := s != [] && (s[0] == '-' || s[0] == '+');
    var digits := if signed then s[1..] else s;
    var v := if digits == [] then None else DigitsValue(digits);
    if v.None? then None
    else
      var n: int := if s[0] == '-' then -(v.value as int) else v.value;
      if -LIMIT63 <= n < LIMIT63 then Some(n) else None
  }

  lemma DigitIs(d: nat)
    requires d < 10
    ensures (Digit(d) - '0') as nat == d
  {}

  lemma {:induction false} FormatNatParses(n: nat)
    ensures DigitsValue(FormatNat(n)) == Some(n)
    ensures '0' <= FormatNat(n)[0] <= '9'
  {
    var s := FormatNat(n);
    DigitIs(n % 10);
    assert s[|s| - 1] == Digit(n % 10);
    if n < 10 {
      assert s[..|s| - 1] == [];
    } else {
      FormatNatParses(n / 10);
      assert s[..|s| - 1] == FormatNat(n / 10);
    }
  }

  /** Every int64 survives printing and parsing. */
  lemma ParseFormat(n: Int64)
    ensures ParseInt(FormatInt(n)) == Some(n)
  {
    var m: nat := if n < 0 then -(n as int) else n;
    FormatNatParses(m);
    hide FormatNat, DigitsValue;
    var digits := FormatNat(m);
    assert ("-" + digits)[1..] == digits && ("-" + digits)[0] == '-';
  }

  // ---- What is accepted ----

  function Zeros(k: nat): string { seq(k, _ => '0') }

  lemma {:induction false} LeadingZeros(k: nat, n: nat)
    ensures DigitsValue(Zeros(k) + FormatNat(n)) == Some(n)
  {
    var s := Zeros(k) + FormatNat(n);
    DigitIs(n % 10);
    assert s[|s| - 1] == Digit(n % 10);
    if n < 10 {
      assert s[..|s| - 1] == Zeros(k);
      OnlyZeros(k);
    } else {
      LeadingZeros(k, n / 10);
      assert s[..|s| - 1] == Zeros(k) + FormatNat(n / 10);
    }
  }

  lemma {:induction false} OnlyZeros(k: nat)
    ensures DigitsValue(Zeros(k)) == Some(0)
  {
    if k == 0 {
    } else {
      OnlyZeros(k - 1);
      assert Zeros(k)[..k - 1] == Zeros(k - 1);
    }
  }

  /** Digits are the printed number behind some zeros. */
  lemma {:induction false} DigitsArePrinted(s: string, v: nat) returns (k: nat)
    requires s != [] && DigitsValue(s) == Some(v)
    ensures s == Zeros(k) + FormatNat(v)
    decreases |s|
  {
    var t, c := s[..|s| - 1], s[|s| - 1];
    assert s == t + [c];
    var d := (c - '0') as nat;
    assert Digit(d) == c;
    if t == [] {
      k := 0;
      assert FormatNat(d) == [] + [Digit(d)];
    } else {
      var u := DigitsValue(t).value;
      var j := DigitsArePrinted(t, u);
      if u == 0 {
        k := j + 1;
        assert FormatNat(0) == [] + [Digit(0)];
        assert FormatNat(d) == [] + [Digit(d)];
        assert t == Zeros(k);
      } else {
        k := j;
        assert v / 10 == u && v % 10 == d;
        assert FormatNat(v) == FormatNat(u) + [c];
      }
    }
  }

  function Magnitude(n: int): nat { if n < 0 then -n else n }

  /** s is this number, printed behind the sign and any number of zeros. */
  ghost predicate Spells(s: string, sign: string, n: int) {
    && (sign == "" || sign == "+" || sign == "-")
    && (if sign == "-" then n <= 0 else n >= 0)
    && exists k: nat :: s == sign + (Zeros(k) + FormatNat(Magnitude(n)))
  }

  lemma SignedParses(sign: string, digits: string, n: Int64)
    requires sign == "" || sign == "+" || sign == "-"
    requires if sign == "-" then n <= 0 else n >= 0
    requires digits != [] && '0' <= digits[0] <= '9' && DigitsValue(digits) == Some(Magnitude(n))
    ensures ParseInt(sign + digits) == Some(n)
  {
    hide DigitsValue;
    var s := sign + digits;
    if sign == "" {
      assert s == digits;
    } else {
      assert s[0] == sign[0] && s[1..] == digits;
    }
  }

  lemma StartsWithDigit(k: nat, n: nat)
    ensures Zeros(k) + FormatNat(n) != [] && '0' <= (Zeros(k) + FormatNat(n))[0] <= '9'
  {
    FormatNatParses(n);
    hide DigitsValue, FormatNat;
  }

  lemma SpelledParses(s: string, sign: string, n: Int64)
    requires Spells(s, sign, n)
    ensures ParseInt(s) == Some(n)
  {
    hide DigitsValue, FormatNat, ParseInt, Zeros;
    var k: nat :| s == sign + (Zeros(k) + FormatNat(Magnitude(n)));
    LeadingZeros(k, Magnitude(n));
    StartsWithDigit(k, Magnitude(n));
    SignedParses(sign, Zeros(k) + FormatNat(Magnitude(n)), n);
  }

  lemma ParsedSpells(s: string, n: Int64) returns (sign: string)
    requires ParseInt(s) == Some(n)
    ensures Spells(s, sign, n)
  {
    hide DigitsValue, FormatNat;
    var signed := s[0] == '-' || s[0] == '+';
    sign := if signed then [s[0]] else "";
    var digits := if signed then s[1..] else s;
    assert s == sign + digits;
    var k := DigitsArePrinted(digits, Magnitude(n));
  }

  /** Accepted are exactly the numbers that fit 64 bits, with or without a sign and leading zeros. */
  lemma ParseIntIff(s: string, n: Int64)
    ensures ParseInt(s) == Some(n) <==> exists sign :: Spells(s, sign, n)
  {
    if ParseInt(s) == Some(n) {
      var sign := ParsedSpells(s, n);
    } else if exists sign :: Spells(s, sign, n) {
      var sign :| Spells(s, sign, n);
      SpelledParses(s, sign, n);
    }
  }
}

/** Decimal numbers as the protocol writes and reads them. */
module Decimal {
  import opened Bytes

  const MAX_INT: int := 0x7FFF_FFFF_FFFF_FFFF

  predicate IsDigit(c: byte) { ZERO <= c <= ZERO + 9 }

  predicate AllDigits(s: Bytes) { forall i :: 0 <= i < |s| ==> IsDigit(s[i]) }

  /** The base-10 digits of n, most significant first, as strconv renders them. */
  function Digits(n: nat): (s: Bytes)
    ensures s != [] && AllDigits(s)
  {
    if n < 10 then [ZERO + n] else Digits(n / 10) + [ZERO + n % 10]
  }

  function Itoa(n: int): (s: Bytes)
    ensures s != []
  {
    if n < 0 then [MINUS] + Digits(-n) else Digits(n)
  }

  /** The number a run of digits denotes, leading zeros allowed. */
  function DigitsValue(s: Bytes): nat
    requires AllDigits(s)
  {
    if s == [] then 0 else DigitsValue(s[..|s| - 1]) * 10 + (s[|s| - 1] - ZERO)
  }

  function Unsigned(b: Bytes): Bytes {
    if b != [] && (b[0] == PLUS || b[0] == MINUS) then b[1..] else b
  }

  /** An optional sign, then at least one digit, and nothing else. */
  predicate IsDecimal(b: Bytes) { Unsigned(b) != [] && AllDigits(Unsigned(b)) }

  function DecimalValue(b: Bytes): int
    requires IsDecimal(b)
  {
    if b[0] == MINUS then 0 - DigitsValue(Unsigned(b)) else DigitsValue(Unsigned(b))
  }

  /** What parseCount accepts: a decimal whose magnitude fits an int. */
  function CountOf(b: Bytes): Option<int> {
    if IsDecimal(b) && -MAX_INT <= DecimalValue(b) <= MAX_INT then Some(DecimalValue(b)) else None
  }

  /** What strconv.Atoi and ParseInt accept: the same texts, and also the minimum int. */
  function AtoiOf(b: Bytes): Option<int> {
    if IsDecimal(b) && -MAX_INT - 1 <= DecimalValue(b) <= MAX_INT then Some(DecimalValue(b)) else None
  }

  /** The overflow guard of the digit loop refuses exactly the numbers beyond an int. */
  lemma GuardIsExact(v: nat, d: nat)
    requires d <= 9
    ensures v > (MAX_INT - d) / 10 <==> v * 10 + d > MAX_INT
  {
  }

  /** The number a header carries, read one digit at a time without ever exceeding an int. */
  method ParseCount(b: Bytes) returns (n: int, ok: bool)
    ensures ok <==> CountOf(b).Some?
    ensures ok ==> n == CountOf(b).value
  {
    if |b| == 0 { return 0, false; }
    var i, neg := 0, false;
    if b[0] == PLUS || b[0] == MINUS {
      neg := b[0] == MINUS;
      i := 1;
    }
    if i == |b| { return 0, false; }
    ghost var text := b[i..];
    ghost var start := i;
    assert Unsigned(b) == text;
    var v := 0;
    while i < |b|
      invariant start <= i <= |b|
      invariant DigitsSoFar(text, i - start, v)
    {
      var d := (b[i] - ZERO) % 256;  // a byte subtraction wraps
      assert text[i - start] == b[i];
      if d < 0 || d > 9 { return 0, false; }
      assert IsDigit(b[i]) && d == b[i] - ZERO;
      GuardIsExact(v, d);
      NextDigit(text, i - start, v);
      if v > (MAX_INT - d) / 10 { return 0, false; }
      v := v * 10 + d;
      i := i + 1;
    }
    assert text[..i - start] == text;
    if neg { return -v, true; }
    return v, true;
  }

  ghost predicate DigitsSoFar(text: Bytes, k: nat, v: int) {
    k <= |text| && AllDigits(text[..k]) && v == DigitsValue(text[..k]) && v <= MAX_INT
  }

  lemma NextDigit(text: Bytes, k: nat, v: int)
    requires DigitsSoFar(text, k, v) && k < |text| && IsDigit(text[k])
    ensures var w := v * 10 + (text[k] - ZERO);
            if w <= MAX_INT then DigitsSoFar(text, k + 1, w)
            else AllDigits(text) ==> DigitsValue(text) > MAX_INT
  {
    assert text[..k + 1] == text[..k] + [text[k]];
    DigitsValueAppend(text[..k], text[k]);
    if AllDigits(text) { DigitsValueGrows(text, k + 1); }
  }

  lemma DigitsValueAppend(s: Bytes, c: byte)
    requires AllDigits(s) && IsDigit(c)
    ensures AllDigits(s + [c]) && DigitsValue(s + [c]) == DigitsValue(s) * 10 + (c - ZERO)
  {
    assert (s + [c])[..|s|] == s;
  }

  lemma {:induction false} DigitsValueGrows(s: Bytes, k: nat)
    requires k <= |s| && AllDigits(s)
    ensures AllDigits(s[..k]) && DigitsValue(s[..k]) <= DigitsValue(s)
    decreases |s|
  {
    if k == |s| {
      assert s[..k] == s;
    } else {
      DigitsValueGrows(s[..|s| - 1], k);
      assert s[..|s| - 1][..k] == s[..k];
    }
  }

  /** Rendering a natural number and reading it back is the identity. */
  lemma {:induction false} DigitsRoundTrip(n: nat)
    ensures DigitsValue(Digits(n)) == n
  {
    if n < 10 {
      assert Digits(n)[..0] == [];
    } else {
      DigitsRoundTrip(n / 10);
      DigitsValueAppend(Digits(n / 10), ZERO + n % 10);
    }
  }

  /** Itoa is inverted by the decimal reader, and its text is a single clean line. */
  lemma ItoaRoundTrip(n: int)
    ensures IsDecimal(Itoa(n)) && DecimalValue(Itoa(n)) == n
    ensures LineSafe(Itoa(n))
    ensures -MAX_INT <= n <= MAX_INT ==> CountOf(Itoa(n)) == Some(n)
    ensures -MAX_INT - 1 <= n <= MAX_INT ==> AtoiOf(Itoa(n)) == Some(n)
  {
    var m: nat := if n < 0 then -n else n;
    DigitsRoundTrip(m);
    var d := Digits(m);
    assert IsDigit(d[0]) && IsDigit(d[|d| - 1]);
    if n < 0 {
      assert Itoa(n)[1..] == d;
      assert Itoa(n)[|Itoa(n)| - 1] == d[|d| - 1];
    }
  }
}

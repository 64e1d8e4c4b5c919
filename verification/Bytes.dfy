/** Byte strings, the fixed-width and decimal integer codecs of the Go runtime,
    and the wrap-around of 64-bit arithmetic. */
module Bytes {

  datatype Option<+T> = None | Some(value: T)

  type byte = x: int | 0 <= x < 256
  type bytes = seq<byte>

  const TWO_63: int := 0x8000_0000_0000_0000
  const TWO_64: int := 0x1_0000_0000_0000_0000

  predicate IsInt64(n: int) {
    -TWO_63 <= n < TWO_63
  }

  /** The value a 64-bit two's complement register keeps of an exact result. */
  function Wrap64(n: int): (r: int)
    ensures IsInt64(r)
    ensures IsInt64(n) ==> r == n
  {
    (n + TWO_63) % TWO_64 - TWO_63
  }

  /** Wrapping after each addition is the same as wrapping the exact sum once. */
  lemma Wrap64Adds(a: int, b: int)
    ensures Wrap64(Wrap64(a) + b) == Wrap64(a + b)
  {
    var q := (a + TWO_63) / TWO_64;
    assert Wrap64(a) == a - q * TWO_64;
    var r := (a + b + TWO_63) / TWO_64;
    assert (a + b + TWO_63) - q * TWO_64 == (r - q) * TWO_64 + (a + b + TWO_63) % TWO_64;
  }

  /** Starts-with test used by every magic-marker check. */
  predicate HasPrefix(s: bytes, p: bytes) {
    |p| <= |s| && s[..|p|] == p
  }

  // ---------------------------------------------------------------- big-endian

  function Pow256(width: nat): (r: nat)
    ensures r > 0
  {
    if width == 0 then 1 else 256 * Pow256(width - 1)
  }

  function BigEndian(n: nat, width: nat): (b: bytes)
    ensures |b| == width
    decreases width
  {
    if width == 0 then [] else BigEndian(n / 256, width - 1) + [n % 256]
  }

  function FromBigEndian(b: bytes): (n: nat)
  {
    if b == [] then 0 else FromBigEndian(b[..|b| - 1]) * 256 + b[|b| - 1]
  }

  lemma {:induction false} BigEndianRoundTrip(n: nat, width: nat)
    requires n < Pow256(width)
    ensures FromBigEndian(BigEndian(n, width)) == n
    decreases width
  {
    if width == 0 {
    } else {
      BigEndianRoundTrip(n / 256, width - 1);
      var b := BigEndian(n, width);
      assert b[..|b| - 1] == BigEndian(n / 256, width - 1);
    }
  }

  lemma Pow256Values()
    ensures Pow256(4) == 0x1_0000_0000
    ensures Pow256(8) == TWO_64
  {
    assert Pow256(2) == 65536;
    assert Pow256(4) == 256 * (256 * Pow256(2));
    assert Pow256(8) == 256 * (256 * (256 * (256 * Pow256(4))));
  }

  /** `binary.BigEndian.PutUint64(buf, uint64(n))`. */
  function PutInt64(n: int): (b: bytes)
    requires IsInt64(n)
    ensures |b| == 8
  {
    BigEndian(if n < 0 then n + TWO_64 else n, 8)
  }

  /** `int64(binary.BigEndian.Uint64(buf))`. */
  function GetInt64(b: bytes): (n: int)
    requires |b| == 8
  {
    var x := FromBigEndian(b);
    if x < TWO_63 then x else x - TWO_64
  }

  lemma FitsInEight(n: nat, width: nat)
    requires n < TWO_64 && width == 8
    ensures FromBigEndian(BigEndian(n, width)) == n
  {
    Pow256Values();
    BigEndianRoundTrip(n, width);
  }

  lemma Int64RoundTrip(n: int)
    requires IsInt64(n)
    ensures GetInt64(PutInt64(n)) == n
  {
    FitsInEight(if n < 0 then n + TWO_64 else n, 8);
  }

  // ------------------------------------------------------------------- decimal

  const MINUS: byte := 45
  const PLUS: byte := 43
  const COLON: byte := 58

  predicate IsDigit(c: byte) {
    48 <= c <= 57
  }

  predicate AllDigits(b: bytes) {
    forall i :: 0 <= i < |b| ==> IsDigit(b[i])
  }

  function Digits(n: nat): (b: bytes)
    ensures |b| > 0 && AllDigits(b)
  {
    if n < 10 then [48 + n] else Digits(n / 10) + [48 + n % 10]
  }

  function DigitsValue(b: bytes): (n: nat)
    requires AllDigits(b)
  {
    if b == [] then 0 else DigitsValue(b[..|b| - 1]) * 10 + (b[|b| - 1] - 48)
  }

  lemma {:induction false} DigitsRoundTrip(n: nat)
    ensures DigitsValue(Digits(n)) == n
  {
    var b := Digits(n);
    if n < 10 {
      assert b[..|b| - 1] == [];
    } else {
      DigitsRoundTrip(n / 10);
      assert b[..|b| - 1] == Digits(n / 10);
    }
  }

  /** `strconv.FormatInt(n, 10)`. */
  function FormatInt(n: int): (b: bytes)
    ensures |b| > 0
    ensures b[0] == MINUS || IsDigit(b[0])
    ensures COLON !in b
  {
    if n < 0 then [MINUS] + Digits(-n) else Digits(n)
  }

  /** `strconv.ParseInt(s, 10, 64)`: an optional sign, at least one digit, nothing
      else, and a value inside int64. */
  function ParseInt(b: bytes): (r: Option<int>)
    ensures r.Some? ==> IsInt64(r.value)
  {
    if b == [] then None
    else
      var signed := b[0] == MINUS || b[0] == PLUS;
      var ds := if signed then b[1..] else b;
      if ds == [] || !AllDigits(ds) then None
      else
        var v: int := DigitsValue(ds);
        var n := if b[0] == MINUS then -v else v;
        if IsInt64(n) then Some(n) else None
  }

  lemma ParseFormat(n: int)
    requires IsInt64(n)
    ensures ParseInt(FormatInt(n)) == Some(n)
  {
    DigitsRoundTrip(if n < 0 then -n else n);
  }

  /** Text that starts with neither a sign nor a digit is never a number. */
  lemma ParseNeedsSignOrDigit(b: bytes)
    requires b != [] && b[0] != MINUS && b[0] != PLUS && !IsDigit(b[0])
    ensures ParseInt(b) == None
  {
  }

  /** Positional value, most significant digit first, leading zeros allowed. */
  lemma {:induction false} DigitsAppend(a: bytes, d: byte)
    requires AllDigits(a) && IsDigit(d)
    ensures AllDigits(a + [d]) && DigitsValue(a + [d]) == 10 * DigitsValue(a) + (d - 48)
  {
    assert (a + [d])[..|a|] == a;
  }

  /** Exactly what parses: digits, or a sign before digits, with a value inside int64. */
  lemma ParsesExactly(ds: bytes, c: byte)
    requires ds != [] && AllDigits(ds)
    ensures ParseInt(ds) == if DigitsValue(ds) < TWO_63 then Some(DigitsValue(ds)) else None
    ensures ParseInt([43] + ds) == ParseInt(ds)
    ensures var v: int := DigitsValue(ds); ParseInt([45] + ds) == if v <= TWO_63 then Some(-v) else None
    ensures c != 43 && c != 45 && !(48 <= c <= 57) ==> ParseInt([c] + ds) == None
  {
    assert ([43] + ds)[1..] == ds && ([45] + ds)[1..] == ds && ([c] + ds)[1..] == ds;
    assert c != 43 && c != 45 && !(48 <= c <= 57) ==> !IsDigit(([c] + ds)[0]);
  }

  /** Nothing else does: no empty text, no lone sign, no other byte anywhere. */
  lemma ParsesNothingElse(b: bytes, i: nat)
    requires i < |b| && !(48 <= b[i] <= 57) && (i == 0 && (b[0] == 43 || b[0] == 45) ==> |b| == 1)
    ensures ParseInt(b) == None && ParseInt([]) == None
  {
    if i > 0 && (b[0] == MINUS || b[0] == PLUS) {
      assert b[1..][i - 1] == b[i];
    }
  }

  /** The bytes are most significant first. */
  lemma {:induction false} BigEndianOrder(b: byte, rest: bytes)
    ensures FromBigEndian([b] + rest) == b * Pow256(|rest|) + FromBigEndian(rest)
  {
    var all := [b] + rest;
    if rest == [] {
      assert all[..0] == [] && FromBigEndian(all[..0]) == 0;
    } else {
      var n := |rest| - 1;
      BigEndianOrder(b, rest[..n]);
      assert all[..|all| - 1] == [b] + rest[..n];
      assert b * Pow256(|rest|) == 256 * (b * Pow256(n));
    }
  }

  lemma PrefixMeans(s: bytes, p: bytes)
    ensures HasPrefix(s, p) <==> exists rest: bytes :: s == p + rest
  {
    if HasPrefix(s, p) {
      assert s == p + s[|p|..];
    }
    if rest: bytes :| s == p + rest {
      assert s[..|p|] == p;
    }
  }
}

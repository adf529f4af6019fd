/**
  Text helpers used by the launcher's messages and identifiers: the decimal
  rendering that `QString::arg` gives a 64-bit integer, the lower-case
  hexadecimal rendering of `QByteArray::toHex`, and substring containment.
  Each rendering has a parser beside it, and the round trip is proved, so a
  message or identifier built with them determines the number or bytes in it.
*/
module Text {
  import opened Wrappers

  newtype byte = x: int | 0 <= x < 256

  /** `sub` occurs in `s` starting at some index. */
  ghost predicate Contains(s: string, sub: string) {
    exists i :: OccursAt(s, sub, i)
  }

  /** `sub` occurs in `s` starting at index `i`. */
  ghost predicate OccursAt(s: string, sub: string, i: int) {
    0 <= i <= |s| - |sub| && s[i..i + |sub|] == sub
  }

  /** `sub` occurs in `s` at index `i`: a witness for `Contains`. */
  lemma ContainsAt(s: string, sub: string, i: nat)
    requires i + |sub| <= |s| && s[i..i + |sub|] == sub
    ensures Contains(s, sub)
  {
    assert OccursAt(s, sub, i);
  }

  // ---------------------------------------------------------------- decimal

  function DigitChar(d: nat): (c: char)
    requires d < 10
    ensures '0' <= c <= '9'
  {
    ['0', '1', '2', '3', '4', '5', '6', '7', '8', '9'][d]
  }

  function DigitValue(c: char): (d: Option<nat>)
    ensures d.Some? <==> '0' <= c <= '9'
    ensures d.Some? ==> d.value < 10
  {
    if '0' <= c <= '9' then Some((c as int - '0' as int) as nat) else None
  }

  lemma DigitRoundTrip(d: nat)
    requires d < 10
    ensures DigitValue(DigitChar(d)) == Some(d)
  {
  }

  /** The decimal digits of `n`, most significant first, with no leading zero. */
  function NatDigits(n: nat): (s: string)
    ensures |s| >= 1
    ensures forall i :: 0 <= i < |s| ==> '0' <= s[i] <= '9'
    ensures n > 0 ==> s[0] != '0'
  {
    if n < 10 then [DigitChar(n)] else NatDigits(n / 10) + [DigitChar(n % 10)]
  }

  /** How `QString::arg` renders a signed 64-bit integer: a minus sign for negatives. */
  function DecimalString(n: int): (s: string)
    ensures |s| >= 1
    ensures (s[0] == '-') <==> n < 0
  {
    if n < 0 then "-" + NatDigits(-n) else NatDigits(n)
  }

  /** Reads back a non-empty string of decimal digits. */
  function ParseNat(s: string): (r: Option<nat>)
    ensures r.Some? ==> |s| >= 1
  {
    if |s| == 0 then None
    else
      var last := DigitValue(s[|s| - 1]);
      if last.None? then None
      else if |s| == 1 then last
      else
        var prefix := ParseNat(s[..|s| - 1]);
        if prefix.None? then None else Some(10 * prefix.value + last.value)
  }

  /** Reads back an optionally signed decimal integer. */
  function ParseDecimal(s: string): (r: Option<int>)
  {
    if |s| >= 1 && s[0] == '-' then
      var m := ParseNat(s[1..]);
      if m.None? then None else Some(-(m.value as int))
    else
      var m := ParseNat(s);
      if m.None? then None else Some(m.value as int)
  }

  lemma {:induction false} NatDigitsRoundTrip(n: nat)
    ensures ParseNat(NatDigits(n)) == Some(n)
  {
    if n < 10 {
      DigitRoundTrip(n);
    } else {
      var s := NatDigits(n);
      NatDigitsRoundTrip(n / 10);
      DigitRoundTrip(n % 10);
      assert s[..|s| - 1] == NatDigits(n / 10);
      assert s[|s| - 1] == DigitChar(n % 10);
    }
  }

  lemma ParseNegative(d: string, m: nat)
    requires ParseNat(d) == Some(m)
    ensures ParseDecimal("-" + d) == Some(-(m as int))
  {
    assert ("-" + d)[1..] == d;
  }

  lemma {:induction false} NegativeRoundTrip(n: int)
    requires n < 0
    ensures ParseDecimal(DecimalString(n)) == Some(n)
  {
    NatDigitsRoundTrip(-n);
    ParseNegative(NatDigits(-n), -n);
  }

  /** Rendering then reading back gives the number: the message names the code exactly. */
  lemma {:induction false} DecimalRoundTrip(n: int)
    ensures ParseDecimal(DecimalString(n)) == Some(n)
  {
    if n < 0 {
      NegativeRoundTrip(n);
    } else {
      var d := NatDigits(n);
      NatDigitsRoundTrip(n);
      assert d[0] != '-';
    }
  }

  /** Distinct numbers never render alike. */
  lemma DecimalInjective(m: int, n: int)
    requires DecimalString(m) == DecimalString(n)
    ensures m == n
  {
    DecimalRoundTrip(m);
    DecimalRoundTrip(n);
  }

  // ---------------------------------------------------------------- hexadecimal

  function HexDigit(d: nat): (c: char)
    requires d < 16
  {
    ['0', '1', '2', '3', '4', '5', '6', '7', '8', '9', 'a', 'b', 'c', 'd', 'e', 'f'][d]
  }

  function HexValue(c: char): (d: Option<nat>)
    ensures d.Some? ==> d.value < 16
  {
    if '0' <= c <= '9' then Some((c as int - '0' as int) as nat)
    else if 'a' <= c <= 'f' then Some((c as int - 'a' as int + 10) as nat)
    else None
  }

  /** `QByteArray::toHex`: two lower-case hexadecimal digits per byte, high nibble first. */
  function ToHex(b: seq<byte>): (s: string)
    ensures |s| == 2 * |b|
  {
    if |b| == 0 then []
    else [HexDigit(b[0] as nat / 16), HexDigit(b[0] as nat % 16)] + ToHex(b[1..])
  }

  function FromHex(s: string): (r: Option<seq<byte>>)
    decreases |s|
  {
    if |s| == 0 then Some([])
    else if |s| == 1 then None
    else
      var hi := HexValue(s[0]);
      var lo := HexValue(s[1]);
      var rest := FromHex(s[2..]);
      if hi.None? || lo.None? || rest.None? then None
      else Some([(16 * hi.value + lo.value) as byte] + rest.value)
  }

  lemma {:induction false} HexRoundTrip(b: seq<byte>)
    ensures FromHex(ToHex(b)) == Some(b)
  {
    if |b| > 0 {
      var s := ToHex(b);
      var hi, lo := b[0] as nat / 16, b[0] as nat % 16;
      assert HexValue(HexDigit(hi)) == Some(hi);
      assert HexValue(HexDigit(lo)) == Some(lo);
      assert s[2..] == ToHex(b[1..]);
      HexRoundTrip(b[1..]);
      assert [b[0]] + b[1..] == b;
    }
  }

  /** Distinct digests never give the same identifier. */
  lemma HexInjective(a: seq<byte>, b: seq<byte>)
    requires ToHex(a) == ToHex(b)
    ensures a == b
  {
    HexRoundTrip(a);
    HexRoundTrip(b);
  }
}

/** The base64 encoding of section 4 of RFC 4648, as `Buffer.toString("base64")`
    produces it (standard alphabet, `=` padding), with its decoder. */
module Base64 {
  import opened Common

  const PAD: char := '='

  /** The alphabet of Table 1: `A`-`Z`, `a`-`z`, `0`-`9`, `+`, `/`. */
  function Digit(d: nat): (c: char)
    requires d < 64
    ensures c != PAD
  {
    if d < 26 then ('A' as int + d) as char
    else if d < 52 then ('a' as int + d - 26) as char
    else if d < 62 then ('0' as int + d - 52) as char
    else if d == 62 then '+'
    else '/'
  }

  /** The value of an alphabet character, or None for any other character
      (the pad included). */
  function DigitValue(c: char): (r: Option<nat>)
    ensures r.Some? ==> r.value < 64
  {
    if 'A' <= c <= 'Z' then Some(c as int - 'A' as int)
    else if 'a' <= c <= 'z' then Some(c as int - 'a' as int + 26)
    else if '0' <= c <= '9' then Some(c as int - '0' as int + 52)
    else if c == '+' then Some(62)
    else if c == '/' then Some(63)
    else None
  }

  lemma DigitValueOfDigit(d: nat)
    requires d < 64
    ensures DigitValue(Digit(d)) == Some(d)
  {
  }

  /** The four characters for three bytes: the 24 bits, most significant
      first, cut into four groups of six. */
  function Quantum(b0: byte, b1: byte, b2: byte): (s: string)
    ensures |s| == 4 && PAD !in s
  {
    [ Digit(b0 / 4),
      Digit((b0 % 4) * 16 + b1 / 16),
      Digit((b1 % 16) * 4 + b2 / 64),
      Digit(b2 % 64) ]
  }

  /** Every three bytes become four characters; a final group of one or two
      bytes is padded with zero bits and completed with `=`. */
  function Encode(bs: seq<byte>): string
    decreases |bs|
  {
    if |bs| == 0 then []
    else if |bs| == 1 then Quantum(bs[0], 0, 0)[..2] + [PAD, PAD]
    else if |bs| == 2 then Quantum(bs[0], bs[1], 0)[..3] + [PAD]
    else Quantum(bs[0], bs[1], bs[2]) + Encode(bs[3..])
  }

  lemma LengthStep(k: nat)
    ensures (k + 5) / 3 * 4 == 4 + (k + 2) / 3 * 4
  {
    var m := (k + 2) / 3;
    assert m * 3 <= k + 2 < m * 3 + 3;
    assert (k + 5) / 3 == m + 1;
  }

  /** Every started group of three bytes takes four characters. */
  lemma {:induction false} EncodeLength(bs: seq<byte>)
    ensures |Encode(bs)| == (|bs| + 2) / 3 * 4
    decreases |bs|
  {
    if |bs| == 1 || |bs| == 2 {
      assert |Encode(bs)| == 4;
    } else if |bs| >= 3 {
      EncodeLength(bs[3..]);
      LengthStep(|bs| - 3);
      assert |Encode(bs)| == 4 + |Encode(bs[3..])|;
    }
  }

  /** The bytes of one four-character quantum; `last` says whether it ends
      the input, the only place where padding may appear. */
  function DecodeQuantum(q: string, last: bool): (r: Option<seq<byte>>)
    requires |q| == 4
    ensures r.Some? ==> 1 <= |r.value| <= 3
  {
    var v0, v1, v2, v3 := DigitValue(q[0]), DigitValue(q[1]), DigitValue(q[2]), DigitValue(q[3]);
    if v0.None? || v1.None? then None
    else if last && q[2] == PAD && q[3] == PAD then
      Some([v0.value * 4 + v1.value / 16])
    else if last && v2.Some? && q[3] == PAD then
      Some([v0.value * 4 + v1.value / 16, (v1.value % 16) * 16 + v2.value / 4])
    else if v2.Some? && v3.Some? then
      Some([v0.value * 4 + v1.value / 16, (v1.value % 16) * 16 + v2.value / 4, (v2.value % 4) * 64 + v3.value])
    else None
  }

  /** The bytes a base64 text stands for, or None when its length is not a
      multiple of four, it holds a character outside the alphabet, or padding
      appears anywhere but at the end. */
  function Decode(s: string): Option<seq<byte>>
    decreases |s|
  {
    if |s| == 0 then Some([])
    else if |s| < 4 then None
    else
      match DecodeQuantum(s[..4], |s| == 4)
      case None => None
      case Some(q) =>
        match Decode(s[4..])
        case None => None
        case Some(rest) => Some(q + rest)
  }

  /** The six-bit groups of three bytes put back together give the bytes. */
  lemma SextetsJoin(b0: byte, b1: byte, b2: byte)
    ensures var d0, d1, d2, d3 := b0 / 4, (b0 % 4) * 16 + b1 / 16, (b1 % 16) * 4 + b2 / 64, b2 % 64;
      && d0 * 4 + d1 / 16 == b0
      && (d1 % 16) * 16 + d2 / 4 == b1
      && (d2 % 4) * 64 + d3 == b2
  {
    var d1, d2 := (b0 % 4) * 16 + b1 / 16, (b1 % 16) * 4 + b2 / 64;
    assert 0 <= b1 / 16 < 16 && 0 <= b2 / 64 < 4;
    assert d1 / 16 == b0 % 4 && d1 % 16 == b1 / 16;
    assert d2 / 4 == b1 % 16 && d2 % 4 == b2 / 64;
  }

  lemma DecodeDigits(d0: nat, d1: nat, d2: nat, d3: nat, last: bool)
    requires d0 < 64 && d1 < 64 && d2 < 64 && d3 < 64
    ensures DecodeQuantum([Digit(d0), Digit(d1), Digit(d2), Digit(d3)], last)
      == Some([d0 * 4 + d1 / 16, (d1 % 16) * 16 + d2 / 4, (d2 % 4) * 64 + d3])
    ensures last ==>
      DecodeQuantum([Digit(d0), Digit(d1), Digit(d2), PAD], last) == Some([d0 * 4 + d1 / 16, (d1 % 16) * 16 + d2 / 4])
    ensures last ==>
      DecodeQuantum([Digit(d0), Digit(d1), PAD, PAD], last) == Some([d0 * 4 + d1 / 16])
  {
    DigitValueOfDigit(d0);
    DigitValueOfDigit(d1);
    DigitValueOfDigit(d2);
    DigitValueOfDigit(d3);
  }

  lemma DecodeFullQuantum(b0: byte, b1: byte, b2: byte, last: bool)
    ensures DecodeQuantum(Quantum(b0, b1, b2), last) == Some([b0, b1, b2])
  {
    SextetsJoin(b0, b1, b2);
    DecodeDigits(b0 / 4, (b0 % 4) * 16 + b1 / 16, (b1 % 16) * 4 + b2 / 64, b2 % 64, last);
  }

  lemma DecodeTwoByteQuantum(b0: byte, b1: byte)
    ensures DecodeQuantum(Quantum(b0, b1, 0)[..3] + [PAD], true) == Some([b0, b1])
  {
    SextetsJoin(b0, b1, 0);
    var d0, d1, d2 := b0 / 4, (b0 % 4) * 16 + b1 / 16, (b1 % 16) * 4;
    DecodeDigits(d0, d1, d2, 0, true);
    assert Quantum(b0, b1, 0)[..3] + [PAD] == [Digit(d0), Digit(d1), Digit(d2), PAD];
  }

  lemma DecodeOneByteQuantum(b0: byte)
    ensures DecodeQuantum(Quantum(b0, 0, 0)[..2] + [PAD, PAD], true) == Some([b0])
  {
    SextetsJoin(b0, 0, 0);
    var d0, d1 := b0 / 4, (b0 % 4) * 16;
    DecodeDigits(d0, d1, 0, 0, true);
    assert Quantum(b0, 0, 0)[..2] + [PAD, PAD] == [Digit(d0), Digit(d1), PAD, PAD];
  }

  lemma DecodeAfterQuantum(q: string, rest: string)
    requires |q| == 4
    ensures Decode(q + rest) == match DecodeQuantum(q, |rest| == 0)
      case None => None
      case Some(v) => (match Decode(rest) case None => None case Some(w) => Some(v + w))
  {
    assert (q + rest)[..4] == q && (q + rest)[4..] == rest;
  }

  lemma DecodeEncodeOne(b0: byte)
    ensures Decode(Encode([b0])) == Some([b0])
  {
    var q := Quantum(b0, 0, 0)[..2] + [PAD, PAD];
    assert Encode([b0]) == q;
    DecodeOneByteQuantum(b0);
    DecodeAfterQuantum(q, []);
    assert q + [] == q && Decode([]) == Some([]);
    assert [b0] + [] == [b0];
  }

  lemma DecodeEncodeTwo(b0: byte, b1: byte)
    ensures Decode(Encode([b0, b1])) == Some([b0, b1])
  {
    var q := Quantum(b0, b1, 0)[..3] + [PAD];
    assert Encode([b0, b1]) == q;
    DecodeTwoByteQuantum(b0, b1);
    DecodeAfterQuantum(q, []);
    assert q + [] == q && Decode([]) == Some([]);
    assert [b0, b1] + [] == [b0, b1];
  }

  /** A full first quantum decodes in front of whatever the rest decodes to. */
  lemma DecodeEncodeStep(b0: byte, b1: byte, b2: byte, rest: seq<byte>)
    requires Decode(Encode(rest)) == Some(rest)
    ensures Decode(Encode([b0, b1, b2] + rest)) == Some([b0, b1, b2] + rest)
  {
    var bs := [b0, b1, b2] + rest;
    var q := Quantum(b0, b1, b2);
    var e := Encode(rest);
    assert bs[3..] == rest && bs[..3] == [b0, b1, b2];
    assert Encode(bs) == q + e;
    DecodeAfterQuantum(q, e);
    DecodeFullQuantum(b0, b1, b2, |e| == 0);
  }

  /** Decoding an encoding gives back the bytes (section 4 of RFC 4648 is a
      bijection onto its padded texts). */
  lemma {:induction false} DecodeEncode(bs: seq<byte>)
    ensures Decode(Encode(bs)) == Some(bs)
    decreases |bs|
  {
    if |bs| == 1 {
      DecodeEncodeOne(bs[0]);
      assert [bs[0]] == bs;
    } else if |bs| == 2 {
      DecodeEncodeTwo(bs[0], bs[1]);
      assert [bs[0], bs[1]] == bs;
    } else if |bs| >= 3 {
      DecodeEncode(bs[3..]);
      DecodeEncodeStep(bs[0], bs[1], bs[2], bs[3..]);
      assert [bs[0], bs[1], bs[2]] + bs[3..] == bs;
    }
  }
}

/** The application/x-www-form-urlencoded format of the WHATWG URL Standard,
    section 5: the serializer behind `URLSearchParams.toString()` and the
    parser behind `new URLSearchParams(string)`. Also `encodeURIComponent`
    (section 19.2.6 of ECMA-262), whose output this parser reads back. */
module Form {
  import opened Common
  import Utf8

  /** One entry of a `URLSearchParams` list. */
  datatype Param = Param(name: string, value: string)

  /** An upper-case hexadecimal digit, as both percent-encoders write them. */
  function HexDigit(d: nat): (c: char)
    requires d < 16
  {
    if d < 10 then ('0' as int + d) as char else ('A' as int + d - 10) as char
  }

  /** The value of a hexadecimal digit of either case. */
  function HexValue(c: char): (r: Option<nat>)
    ensures r.Some? ==> r.value < 16
  {
    if '0' <= c <= '9' then Some(c as int - '0' as int)
    else if 'A' <= c <= 'F' then Some(c as int - 'A' as int + 10)
    else if 'a' <= c <= 'f' then Some(c as int - 'a' as int + 10)
    else None
  }

  lemma HexValueOfDigit(d: nat)
    requires d < 16
    ensures HexValue(HexDigit(d)) == Some(d)
  {
  }

  /** `%` followed by the two hexadecimal digits of `b`. */
  function PercentByte(b: byte): (s: string)
    ensures |s| == 3 && s[0] == '%'
  {
    ['%', HexDigit(b / 16), HexDigit(b % 16)]
  }

  function PercentBytes(bs: seq<byte>): string
    decreases |bs|
  {
    if |bs| == 0 then [] else PercentByte(bs[0]) + PercentBytes(bs[1..])
  }

  predicate IsAsciiAlphanumeric(c: char) {
    'A' <= c <= 'Z' || 'a' <= c <= 'z' || '0' <= c <= '9'
  }

  /** The bytes the form serializer leaves as they are: those outside the
      application/x-www-form-urlencoded percent-encode set. */
  predicate FormUnreserved(b: byte) {
    IsAsciiAlphanumeric(b as char) || b as char in "*-._"
  }

  /** A byte as the form serializer writes it: a space becomes `+`. */
  function FormEncodeByte(b: byte): string {
    if b == 0x20 then "+"
    else if FormUnreserved(b) then [b as char]
    else PercentByte(b)
  }

  function FormEncodeBytes(bs: seq<byte>): string
    decreases |bs|
  {
    if |bs| == 0 then [] else FormEncodeByte(bs[0]) + FormEncodeBytes(bs[1..])
  }

  /** A name or a value as the form serializer writes it: its UTF-8 bytes,
      each written by `FormEncodeByte`. */
  function FormEncode(s: string): string {
    FormEncodeBytes(Utf8.Encode(s))
  }

  function SerializeParam(p: Param): string {
    FormEncode(p.name) + "=" + FormEncode(p.value)
  }

  function SerializedParams(ps: seq<Param>): (pieces: seq<string>)
    ensures |pieces| == |ps|
    ensures forall i :: 0 <= i < |ps| ==> pieces[i] == SerializeParam(ps[i])
    decreases |ps|
  {
    if |ps| == 0 then [] else [SerializeParam(ps[0])] + SerializedParams(ps[1..])
  }

  /** The serializer of section 5.2: `name=value` for each entry, joined
      with `&`. */
  function Serialize(ps: seq<Param>): string {
    Join(SerializedParams(ps), "&")
  }

  /** The bytes of a name or value of the parser: `+` stands for a space,
      `%` with two hexadecimal digits for a byte, and any other character
      for its UTF-8 bytes. A `%` without two digits after it stands for
      itself. (Replacing `+` first and percent-decoding afterwards, as
      section 5.1 orders the steps, gives the same bytes: neither step
      makes or removes a `%` or a hexadecimal digit.) */
  function DecodeBytes(s: string): seq<byte>
    decreases |s|
  {
    if |s| == 0 then []
    else if s[0] == '%' && |s| >= 3 && HexValue(s[1]).Some? && HexValue(s[2]).Some? then
      [HexValue(s[1]).value * 16 + HexValue(s[2]).value] + DecodeBytes(s[3..])
    else if s[0] == '+' then [0x20] + DecodeBytes(s[1..])
    else Utf8.EncodeChar(s[0]) + DecodeBytes(s[1..])
  }

  /** A name or value as the parser reads it. */
  function DecodeText(s: string): string {
    Utf8.Decode(DecodeBytes(s))
  }

  /** `s` cut at its first `c`: what comes before it and what comes after
      it; all of `s` and nothing when `c` does not occur. */
  function SplitAtFirst(s: string, c: char): (string, string)
    decreases |s|
  {
    if |s| == 0 then ([], [])
    else if s[0] == c then ([], s[1..])
    else
      var (before, after) := SplitAtFirst(s[1..], c);
      ([s[0]] + before, after)
  }

  function ParseParam(piece: string): Param {
    var (name, value) := SplitAtFirst(piece, '=');
    Param(DecodeText(name), DecodeText(value))
  }

  /** Section 5.1: every non-empty `&`-separated piece is one entry. */
  function ParsePieces(pieces: seq<string>): seq<Param>
    decreases |pieces|
  {
    if |pieces| == 0 then []
    else if |pieces[0]| == 0 then ParsePieces(pieces[1..])
    else [ParseParam(pieces[0])] + ParsePieces(pieces[1..])
  }

  /** `new URLSearchParams(init)` for a string `init`: a leading `?` is
      dropped, then the text is parsed. */
  function Parse(init: string): seq<Param> {
    var s := if |init| > 0 && init[0] == '?' then init[1..] else init;
    ParsePieces(Split(s, '&'))
  }

  // ---------------------------------------------------------------------
  // encodeURIComponent

  /** The characters `encodeURIComponent` leaves as they are: ASCII letters
      and digits and ``-_.!~*'()``. */
  predicate UriUnescaped(c: char) {
    IsAsciiAlphanumeric(c) || c in "-_.!~*'()"
  }

  function EncodeUriChar(c: char): string {
    if UriUnescaped(c) then [c] else PercentBytes(Utf8.EncodeChar(c))
  }

  /** `encodeURIComponent(s)`: every other character is replaced by the
      percent-encoded bytes of its UTF-8 encoding. */
  function EncodeUriComponent(s: string): string
    decreases |s|
  {
    if |s| == 0 then [] else EncodeUriChar(s[0]) + EncodeUriComponent(s[1..])
  }

  // ---------------------------------------------------------------------
  // Properties

  /** The characters that separate entries and names from values, and the
      one the parser drops at the front. */
  predicate IsDelimiter(c: char) {
    c == '&' || c == '=' || c == '?'
  }

  predicate NoDelimiters(s: string) {
    forall i :: 0 <= i < |s| ==> !IsDelimiter(s[i])
  }

  lemma NoDelimitersAppend(s: string, t: string)
    requires NoDelimiters(s) && NoDelimiters(t)
    ensures NoDelimiters(s + t)
  {
    forall i | 0 <= i < |s + t| ensures !IsDelimiter((s + t)[i]) {
      if i >= |s| { assert (s + t)[i] == t[i - |s|]; }
    }
  }

  lemma {:induction false} PercentBytesNoDelimiters(bs: seq<byte>)
    ensures NoDelimiters(PercentBytes(bs))
    decreases |bs|
  {
    if |bs| > 0 {
      PercentBytesNoDelimiters(bs[1..]);
      NoDelimitersAppend(PercentByte(bs[0]), PercentBytes(bs[1..]));
    }
  }

  lemma {:induction false} FormEncodeBytesNoDelimiters(bs: seq<byte>)
    ensures NoDelimiters(FormEncodeBytes(bs))
    decreases |bs|
  {
    if |bs| > 0 {
      FormEncodeBytesNoDelimiters(bs[1..]);
      NoDelimitersAppend(FormEncodeByte(bs[0]), FormEncodeBytes(bs[1..]));
    }
  }

  /** `encodeURIComponent` never lets `&`, `=` or `?` through. */
  lemma {:induction false} EncodeUriComponentNoDelimiters(s: string)
    ensures NoDelimiters(EncodeUriComponent(s))
    decreases |s|
  {
    if |s| > 0 {
      PercentBytesNoDelimiters(Utf8.EncodeChar(s[0]));
      EncodeUriComponentNoDelimiters(s[1..]);
      NoDelimitersAppend(EncodeUriChar(s[0]), EncodeUriComponent(s[1..]));
    }
  }

  lemma DecodePercentByte(b: byte, t: string)
    ensures DecodeBytes(PercentByte(b) + t) == [b] + DecodeBytes(t)
  {
    var s := PercentByte(b) + t;
    HexValueOfDigit(b / 16);
    HexValueOfDigit(b % 16);
    assert s[1] == HexDigit(b / 16) && s[2] == HexDigit(b % 16);
    assert s[3..] == t;
  }

  lemma {:induction false} DecodePercentBytes(bs: seq<byte>, t: string)
    ensures DecodeBytes(PercentBytes(bs) + t) == bs + DecodeBytes(t)
    decreases |bs|
  {
    if |bs| == 0 {
      assert PercentBytes(bs) + t == t;
    } else {
      assert PercentBytes(bs) + t == PercentByte(bs[0]) + (PercentBytes(bs[1..]) + t);
      DecodePercentByte(bs[0], PercentBytes(bs[1..]) + t);
      DecodePercentBytes(bs[1..], t);
      assert [bs[0]] + bs[1..] == bs;
    }
  }

  lemma DecodeFormEncodeByte(b: byte, t: string)
    ensures DecodeBytes(FormEncodeByte(b) + t) == [b] + DecodeBytes(t)
  {
    var s := FormEncodeByte(b) + t;
    if b == 0x20 {
      assert s[1..] == t;
    } else if FormUnreserved(b) {
      assert s[1..] == t;
      assert Utf8.EncodeChar(b as char) == [b];
    } else {
      DecodePercentByte(b, t);
    }
  }

  /** The parser reads back the bytes the form serializer wrote. */
  lemma {:induction false} DecodeFormEncodeBytes(bs: seq<byte>)
    ensures DecodeBytes(FormEncodeBytes(bs)) == bs
    decreases |bs|
  {
    if |bs| > 0 {
      DecodeFormEncodeByte(bs[0], FormEncodeBytes(bs[1..]));
      DecodeFormEncodeBytes(bs[1..]);
      assert [bs[0]] + bs[1..] == bs;
    }
  }

  /** The parser reads back every name and value the serializer wrote. */
  lemma DecodeFormEncode(s: string)
    ensures DecodeText(FormEncode(s)) == s
  {
    DecodeFormEncodeBytes(Utf8.Encode(s));
    Utf8.DecodeEncode(s);
  }

  /** A text holding neither `%` nor `+` is read as itself. */
  lemma {:induction false} DecodeBytesPlain(s: string)
    requires '%' !in s && '+' !in s
    ensures DecodeBytes(s) == Utf8.Encode(s)
    decreases |s|
  {
    if |s| > 0 {
      assert s[0] == s[0];
      assert '%' !in s[1..] && '+' !in s[1..] by {
        forall i | 0 <= i < |s[1..]| ensures s[1..][i] == s[i + 1] { }
      }
      DecodeBytesPlain(s[1..]);
    }
  }

  lemma DecodeTextPlain(s: string)
    requires '%' !in s && '+' !in s
    ensures DecodeText(s) == s
  {
    DecodeBytesPlain(s);
    Utf8.DecodeEncode(s);
  }

  /** The parser, reading the output of `encodeURIComponent`, gets the
      original text back: `+` and `%` in the input are escaped, so nothing
      is read as a space or a stray escape. */
  lemma {:induction false} DecodeBytesUriComponent(s: string)
    ensures DecodeBytes(EncodeUriComponent(s)) == Utf8.Encode(s)
    decreases |s|
  {
    if |s| > 0 {
      var rest := EncodeUriComponent(s[1..]);
      DecodeBytesUriComponent(s[1..]);
      if UriUnescaped(s[0]) {
        assert ([s[0]] + rest)[1..] == rest;
      } else {
        DecodePercentBytes(Utf8.EncodeChar(s[0]), rest);
      }
    }
  }

  lemma DecodeUriComponent(s: string)
    ensures DecodeText(EncodeUriComponent(s)) == s
  {
    DecodeBytesUriComponent(s);
    Utf8.DecodeEncode(s);
  }

  lemma {:induction false} SplitAtFirstAfter(p: string, c: char, t: string)
    requires c !in p
    ensures SplitAtFirst(p + [c] + t, c) == (p, t)
    decreases |p|
  {
    if |p| == 0 {
      assert p + [c] + t == [c] + t;
      assert ([c] + t)[1..] == t;
    } else {
      assert (p + [c] + t)[1..] == p[1..] + [c] + t;
      SplitAtFirstAfter(p[1..], c, t);
      assert [p[0]] + p[1..] == p;
    }
  }

  /** A piece `name=value` whose name was written without `=` parses to
      the entry. */
  lemma ParseParamOf(name: string, value: string, p: Param)
    requires NoDelimiters(name)
    requires DecodeText(name) == p.name && DecodeText(value) == p.value
    ensures ParseParam(name + "=" + value) == p
  {
    assert '=' !in name;
    SplitAtFirstAfter(name, '=', value);
  }

  /** A piece whose name and value hold no delimiter, `%` or `+` parses to
      exactly that name and value: nothing is decoded. */
  lemma PlainParam(name: string, value: string)
    requires NoDelimiters(name) && '%' !in name && '+' !in name
    requires '%' !in value && '+' !in value
    ensures ParseParam(name + "=" + value) == Param(name, value)
  {
    DecodeTextPlain(name);
    DecodeTextPlain(value);
    ParseParamOf(name, value, Param(name, value));
  }

  lemma SerializeParamShape(p: Param)
    ensures |SerializeParam(p)| > 0
    ensures '&' !in SerializeParam(p) && SerializeParam(p)[0] != '?'
    ensures ParseParam(SerializeParam(p)) == p
  {
    var n, v := FormEncode(p.name), FormEncode(p.value);
    FormEncodeBytesNoDelimiters(Utf8.Encode(p.name));
    FormEncodeBytesNoDelimiters(Utf8.Encode(p.value));
    if |n| > 0 { assert SerializeParam(p)[0] == n[0]; assert !IsDelimiter(n[0]); }
    DecodeFormEncode(p.name);
    DecodeFormEncode(p.value);
    ParseParamOf(n, v, p);
  }

  lemma {:induction false} ParseSerializedPieces(ps: seq<Param>)
    requires forall i :: 0 <= i < |ps| ==> |SerializeParam(ps[i])| > 0 && ParseParam(SerializeParam(ps[i])) == ps[i]
    ensures ParsePieces(SerializedParams(ps)) == ps
    decreases |ps|
  {
    if |ps| > 0 {
      ParseSerializedPieces(ps[1..]);
      assert SerializedParams(ps)[1..] == SerializedParams(ps[1..]);
      assert [ps[0]] + ps[1..] == ps;
    }
  }

  /** Parsing a serialization gives back the same list: names, values,
      order and repetitions. This is why `new URLSearchParams(p.toString())`
      copies `p`. */
  lemma ParseSerialize(ps: seq<Param>)
    ensures Parse(Serialize(ps)) == ps
  {
    var pieces := SerializedParams(ps);
    forall i | 0 <= i < |ps|
      ensures |SerializeParam(ps[i])| > 0 && ParseParam(SerializeParam(ps[i])) == ps[i]
      ensures '&' !in pieces[i]
    {
      SerializeParamShape(ps[i]);
    }
    if |ps| == 0 {
      assert Serialize(ps) == [];
      assert Split(Serialize(ps), '&') == [[]];
      assert ParsePieces([[]]) == ParsePieces([]) == [];
    } else {
      SerializeParamShape(ps[0]);
      if |ps| == 1 {
        assert Serialize(ps) == pieces[0];
      } else {
        assert Serialize(ps) == pieces[0] + "&" + Join(pieces[1..], "&");
      }
      assert Serialize(ps)[0] == pieces[0][0] != '?';
      SplitJoin(pieces, '&');
      ParseSerializedPieces(ps);
    }
  }
}

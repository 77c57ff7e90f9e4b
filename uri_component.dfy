/**
 * `encodeURIComponent`: percent-encoding in the style of section 2.1 of
 * RFC 3986. Every character outside A-Z a-z 0-9 and - _ . ! ~ * ' ( ) is
 * written as its UTF-8 bytes, each byte as `%` and two upper-case hex digits.
 * Dafny characters are Unicode scalar values, so the lone surrogates for which
 * JavaScript throws a URIError cannot occur.
 *
 * The partner is `Decode`, the per-value decoding a query-string parser
 * applies on the receiving side (`+` reads as a space, `%HH` sequences as
 * UTF-8); `DecodeEncode` proves that it inverts `Encode`.
 */
module UriComponent {
  import opened Common

  /** The characters `encodeURIComponent` leaves as they are. */
  predicate Unescaped(c: char) {
    ('A' <= c <= 'Z') || ('a' <= c <= 'z') || ('0' <= c <= '9') ||
    c == '-' || c == '_' || c == '.' || c == '!' || c == '~' || c == '*' ||
    c == '\'' || c == '(' || c == ')'
  }

  /** An octet. */
  type Byte = b: nat | b < 256

  /** The UTF-8 bytes of one scalar value: a lead byte, then six bits per continuation byte. */
  function Utf8(c: char): (bytes: seq<Byte>)
    ensures 1 <= |bytes| <= 4
  {
    var cp := c as int;
    var u := cp / 64;
    var v := u / 64;
    if cp < 0x80 then [cp]
    else if cp < 0x800 then [0xC0 + u, 0x80 + cp % 64]
    else if cp < 0x10000 then [0xE0 + v, 0x80 + u % 64, 0x80 + cp % 64]
    else [0xF0 + v / 64, 0x80 + v % 64, 0x80 + u % 64, 0x80 + cp % 64]
  }

  function HexDigit(d: nat): (c: char)
    requires d < 16
    ensures Unescaped(c)
  {
    if d < 10 then ('0' as int + d) as char else ('A' as int + d - 10) as char
  }

  /** The value of a hex digit of either case. */
  function HexValue(c: char): (d: Option<nat>)
    ensures d.Some? ==> d.value < 16
  {
    if '0' <= c <= '9' then Some(c as int - '0' as int)
    else if 'A' <= c <= 'F' then Some(c as int - 'A' as int + 10)
    else if 'a' <= c <= 'f' then Some(c as int - 'a' as int + 10)
    else None
  }


  /** Every character of `r` is one `encodeURIComponent` may emit. */
  predicate EncodedText(r: string) {
    forall i :: 0 <= i < |r| ==> Unescaped(r[i]) || r[i] == '%'
  }

  lemma EncodedTextConcat(a: string, b: string)
    requires EncodedText(a) && EncodedText(b)
    ensures EncodedText(a + b)
  {
    forall i | 0 <= i < |a + b| ensures Unescaped((a + b)[i]) || (a + b)[i] == '%' {
      if i >= |a| {
        assert (a + b)[i] == b[i - |a|];
      }
    }
  }

  /** `%HH` for every byte. */
  function EscapeBytes(bytes: seq<Byte>): (r: string)
    ensures |r| == 3 * |bytes|
    decreases |bytes|
  {
    if bytes == [] then []
    else ['%', HexDigit(bytes[0] / 16), HexDigit(bytes[0] % 16)] + EscapeBytes(bytes[1..])
  }

  function EncodeChar(c: char): string {
    if Unescaped(c) then [c] else EscapeBytes(Utf8(c))
  }

  /** `encodeURIComponent(s)`. */
  function Encode(s: string): string
    decreases |s|
  {
    if s == [] then []
    else EncodeChar(s[0]) + Encode(s[1..])
  }

  lemma {:induction false} EscapeBytesIsEncodedText(bytes: seq<Byte>)
    ensures EncodedText(EscapeBytes(bytes))
    decreases |bytes|
  {
    if bytes != [] {
      EscapeBytesIsEncodedText(bytes[1..]);
      EncodedTextConcat(['%', HexDigit(bytes[0] / 16), HexDigit(bytes[0] % 16)], EscapeBytes(bytes[1..]));
    }
  }

  /** Every character `encodeURIComponent` emits is unreserved or '%'. */
  lemma {:induction false} EncodeIsEncodedText(s: string)
    ensures EncodedText(Encode(s))
    decreases |s|
  {
    if s != [] {
      if !Unescaped(s[0]) {
        EscapeBytesIsEncodedText(Utf8(s[0]));
      }
      EncodeIsEncodedText(s[1..]);
      EncodedTextConcat(EncodeChar(s[0]), Encode(s[1..]));
    }
  }

  /** The encoding never emits the query delimiters '&' and '=' nor '+' (which reads as a space). */
  lemma EncodeOmitsDelimiters(s: string)
    ensures '&' !in Encode(s) && '=' !in Encode(s) && '+' !in Encode(s)
  {
    var r := Encode(s);
    EncodeIsEncodedText(s);
    forall i | 0 <= i < |r| ensures r[i] != '&' && r[i] != '=' && r[i] != '+' {
      assert Unescaped(r[i]) || r[i] == '%';
    }
  }

  // ----- decoding -----

  /** Reads `n` escapes `%HH` from the start of `s`. */
  function ReadBytes(s: string, n: nat): (r: Option<seq<Byte>>)
    ensures r.Some? ==> |r.value| == n && 3 * n <= |s|
    decreases n
  {
    if n == 0 then Some([])
    else if |s| < 3 || s[0] != '%' || HexValue(s[1]).None? || HexValue(s[2]).None? then None
    else
      match ReadBytes(s[3..], n - 1)
      case None => None
      case Some(rest) => Some([HexValue(s[1]).value * 16 + HexValue(s[2]).value] + rest)
  }

  /** Number of bytes in the UTF-8 sequence a lead byte announces; 0 for a byte that cannot lead. */
  function SequenceLength(lead: nat): nat {
    if lead < 0x80 then 1
    else if 0xC0 <= lead < 0xE0 then 2
    else if 0xE0 <= lead < 0xF0 then 3
    else if 0xF0 <= lead < 0xF8 then 4
    else 0
  }

  predicate Continuation(b: nat) {
    0x80 <= b < 0xC0
  }

  /** The scalar value of a complete UTF-8 sequence; None for overlong forms, surrogates and values past U+10FFFF. */
  function Utf8Decode(bytes: seq<Byte>): Option<char> {
    if |bytes| == 1 then
      if bytes[0] < 0x80 then Some(bytes[0] as char) else None
    else if |bytes| == 2 then
      if 0xC0 <= bytes[0] < 0xE0 && Continuation(bytes[1]) then
        var cp := (bytes[0] as int - 0xC0) * 64 + (bytes[1] as int - 0x80);
        if 0x80 <= cp then Some(cp as char) else None
      else None
    else if |bytes| == 3 then
      if 0xE0 <= bytes[0] < 0xF0 && Continuation(bytes[1]) && Continuation(bytes[2]) then
        var cp := ((bytes[0] as int - 0xE0) * 64 + (bytes[1] as int - 0x80)) * 64 + (bytes[2] as int - 0x80);
        if 0x800 <= cp && !(0xD800 <= cp < 0xE000) then Some(cp as char) else None
      else None
    else if |bytes| == 4 then
      if 0xF0 <= bytes[0] < 0xF8 && Continuation(bytes[1]) && Continuation(bytes[2]) && Continuation(bytes[3]) then
        var cp := (((bytes[0] as int - 0xF0) * 64 + (bytes[1] as int - 0x80)) * 64 + (bytes[2] as int - 0x80)) * 64 + (bytes[3] as int - 0x80);
        if 0x10000 <= cp < 0x110000 then Some(cp as char) else None
      else None
    else None
  }

  /** Decodes the character at the start of `s` and says how many characters it took. */
  function DecodeOne(s: string): (r: Option<(char, nat)>)
    requires s != []
    ensures r.Some? ==> 1 <= r.value.1 <= |s|
  {
    if s[0] == '%' then
      match ReadBytes(s, 1)
      case None => None
      case Some(lead) =>
        var n := SequenceLength(lead[0]);
        if n == 0 then None
        else
          match ReadBytes(s, n)
          case None => None
          case Some(bytes) =>
            match Utf8Decode(bytes)
            case None => None
            case Some(c) => Some((c, 3 * n))
    else if s[0] == '+' then Some((' ', 1))
    else Some((s[0], 1))
  }

  /** Decodes a whole query value; None when an escape is malformed. */
  function Decode(s: string): Option<string>
    decreases |s|
  {
    if s == [] then Some([])
    else
      match DecodeOne(s)
      case None => None
      case Some((c, n)) =>
        match Decode(s[n..])
        case None => None
        case Some(rest) => Some([c] + rest)
  }

  // ----- round trip -----

  lemma HexRoundTrip(d: nat)
    requires d < 16
    ensures HexValue(HexDigit(d)) == Some(d)
  {
  }

  /** The first escape of a non-empty byte list, and what follows it. */
  lemma EscapeBytesCons(bytes: seq<Byte>, rest: string)
    requires bytes != []
    ensures var s := EscapeBytes(bytes) + rest;
      && |s| >= 3 && s[0] == '%' && s[1] == HexDigit(bytes[0] / 16) && s[2] == HexDigit(bytes[0] % 16)
      && s[3..] == EscapeBytes(bytes[1..]) + rest
  {
    var head := ['%', HexDigit(bytes[0] / 16), HexDigit(bytes[0] % 16)];
    assert EscapeBytes(bytes) + rest == head + (EscapeBytes(bytes[1..]) + rest);
  }

  /** Reading `n` escapes is one escape followed by `n - 1` more. */
  lemma ReadBytesStep(s: string, n: nat, b: Byte, more: seq<Byte>)
    requires n > 0 && |s| >= 3 && s[0] == '%'
    requires HexValue(s[1]) == Some(b / 16) && HexValue(s[2]) == Some(b % 16)
    requires ReadBytes(s[3..], n - 1) == Some(more)
    ensures ReadBytes(s, n) == Some([b] + more)
  {
  }

  /** The escapes of a byte list read back as the same bytes, whatever follows them. */
  lemma {:induction false} ReadEscapedBytes(bytes: seq<Byte>, rest: string, n: nat)
    requires n <= |bytes|
    ensures ReadBytes(EscapeBytes(bytes) + rest, n) == Some(bytes[..n])
    decreases n
  {
    if n > 0 {
      var b := bytes[0];
      var s := EscapeBytes(bytes) + rest;
      assert && |s| >= 3 && s[0] == '%' && HexValue(s[1]) == Some(b / 16) && HexValue(s[2]) == Some(b % 16)
             && s[3..] == EscapeBytes(bytes[1..]) + rest by {
        EscapeBytesCons(bytes, rest);
        HexRoundTrip(b / 16);
        HexRoundTrip(b % 16);
      }
      ReadEscapedBytes(bytes[1..], rest, n - 1);
      ReadBytesStep(s, n, b, bytes[1..][..n - 1]);
      assert bytes[..n] == [b] + bytes[1..][..n - 1];
    }
  }

  lemma Utf8RoundTripTwo(c: char)
    requires 0x80 <= c as int < 0x800
    ensures SequenceLength(Utf8(c)[0]) == 2 && Utf8Decode(Utf8(c)) == Some(c)
  {
    var cp := c as int;
    var u := cp / 64;
    assert cp == u * 64 + cp % 64;
  }

  lemma Utf8RoundTripThree(c: char)
    requires 0x800 <= c as int < 0x10000
    ensures SequenceLength(Utf8(c)[0]) == 3 && Utf8Decode(Utf8(c)) == Some(c)
  {
    var cp := c as int;
    var u := cp / 64;
    var v := u / 64;
    assert cp == u * 64 + cp % 64;
    assert u == v * 64 + u % 64;
    assert v < 16;
  }

  lemma Utf8RoundTripFour(c: char)
    requires 0x10000 <= c as int
    ensures SequenceLength(Utf8(c)[0]) == 4 && Utf8Decode(Utf8(c)) == Some(c)
  {
    var cp := c as int;
    var u := cp / 64;
    var v := u / 64;
    assert cp == u * 64 + cp % 64;
    assert u == v * 64 + u % 64;
    assert v == (v / 64) * 64 + v % 64;
    assert v / 64 < 8;
  }

  /** UTF-8 encoding is undone by UTF-8 decoding, and the lead byte announces the right length. */
  lemma Utf8RoundTrip(c: char)
    ensures SequenceLength(Utf8(c)[0]) == |Utf8(c)|
    ensures Utf8Decode(Utf8(c)) == Some(c)
  {
    var cp := c as int;
    if cp < 0x80 {
    } else if cp < 0x800 {
      Utf8RoundTripTwo(c);
    } else if cp < 0x10000 {
      Utf8RoundTripThree(c);
    } else {
      Utf8RoundTripFour(c);
    }
  }

  /** The encoding of one character decodes to that character, consuming exactly its encoding. */
  lemma DecodeOneEncodeChar(c: char, rest: string)
    ensures DecodeOne(EncodeChar(c) + rest) == Some((c, |EncodeChar(c)|))
  {
    if !Unescaped(c) {
      var bytes := Utf8(c);
      ReadEscapedBytes(bytes, rest, 1);
      ReadEscapedBytes(bytes, rest, |bytes|);
      assert bytes[..|bytes|] == bytes;
      Utf8RoundTrip(c);
    }
  }

  /** Decoding is one character followed by the decoding of the rest. */
  lemma DecodeStep(t: string, c: char, n: nat, rest: string)
    requires t != [] && DecodeOne(t) == Some((c, n)) && Decode(t[n..]) == Some(rest)
    ensures Decode(t) == Some([c] + rest)
  {
  }

  /** Decoding undoes `encodeURIComponent`. */
  lemma {:induction false} DecodeEncode(s: string)
    ensures Decode(Encode(s)) == Some(s)
    decreases |s|
  {
    if s != [] {
      var head := EncodeChar(s[0]);
      var tail := Encode(s[1..]);
      var t := Encode(s);
      assert t == head + tail;
      DecodeOneEncodeChar(s[0], tail);
      assert t[|head|..] == tail;
      DecodeEncode(s[1..]);
      DecodeStep(t, s[0], |head|, s[1..]);
      assert [s[0]] + s[1..] == s;
    }
  }
}

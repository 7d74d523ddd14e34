/** The `application/x-www-form-urlencoded` serializer that `URLSearchParams`
    applies to names and values (WHATWG URL standard, section 5.2):
    ASCII alphanumerics and `*-._` are kept, a space becomes `+`, and every
    other character is written as the `%XX` escapes of its UTF-8 bytes, with
    upper-case hex digits. A decoder is given for the round trip. */
module FormUrlEncoding {
  import opened Optional

  predicate Unreserved(c: char) {
    || ('a' <= c <= 'z') || ('A' <= c <= 'Z') || ('0' <= c <= '9')
    || c == '*' || c == '-' || c == '.' || c == '_'
  }

  /** Characters that may appear in serializer output. */
  predicate EncodedChar(c: char) {
    Unreserved(c) || c == '+' || c == '%'
  }

  /** The UTF-8 bytes of a Unicode scalar value. */
  function Utf8(c: char): (bs: seq<nat>)
    ensures 1 <= |bs| <= 4
    ensures forall i :: 0 <= i < |bs| ==> bs[i] < 256
  {
    var n := c as int;
    if n < 0x80 then [n]
    else if n < 0x800 then [0xC0 + n / 64, 0x80 + n % 64]
    else if n < 0x10000 then [0xE0 + n / 4096, 0x80 + (n / 64) % 64, 0x80 + n % 64]
    else [0xF0 + n / 262144, 0x80 + (n / 4096) % 64, 0x80 + (n / 64) % 64, 0x80 + n % 64]
  }

  const HexDigits: string := "0123456789ABCDEF"

  /** `%XX` for one byte. */
  function PercentByte(b: nat): (r: string)
    requires b < 256
    ensures |r| == 3 && forall i :: 0 <= i < 3 ==> EncodedChar(r[i])
  {
    ['%', HexDigits[b / 16], HexDigits[b % 16]]
  }

  function PercentBytes(bs: seq<nat>): (r: string)
    requires forall i :: 0 <= i < |bs| ==> bs[i] < 256
    ensures |r| == 3 * |bs|
    ensures forall i :: 0 <= i < |r| ==> EncodedChar(r[i])
  {
    if |bs| == 0 then "" else PercentByte(bs[0]) + PercentBytes(bs[1..])
  }

  function EncodeChar(c: char): (r: string)
    ensures |r| >= 1 && forall i :: 0 <= i < |r| ==> EncodedChar(r[i])
  {
    if Unreserved(c) then [c]
    else if c == ' ' then "+"
    else PercentBytes(Utf8(c))
  }

  /** The serialization of one name or value. Its output uses only unreserved
      characters, `+` and `%`; in particular it never contains `&` or `=`. */
  function Encode(s: string): (r: string)
    ensures forall i :: 0 <= i < |r| ==> EncodedChar(r[i])
    ensures |r| >= |s|
  {
    if |s| == 0 then "" else EncodeChar(s[0]) + Encode(s[1..])
  }

  // ---------------------------------------------------------------------
  // Decoding
  // ---------------------------------------------------------------------

  function HexValue(c: char): Option<nat>
  {
    if '0' <= c <= '9' then Some(c as int - '0' as int)
    else if 'A' <= c <= 'F' then Some(c as int - 'A' as int + 10)
    else if 'a' <= c <= 'f' then Some(c as int - 'a' as int + 10)
    else None
  }

  /** The byte written as `%XX` at position `i`. */
  function ByteAt(s: string, i: nat): Option<nat>
  {
    if i + 3 <= |s| && s[i] == '%' && HexValue(s[i + 1]).Some? && HexValue(s[i + 2]).Some?
    then Some(HexValue(s[i + 1]).value * 16 + HexValue(s[i + 2]).value)
    else None
  }

  /** The `k` bytes written as `%XX` escapes at the start of `s`. */
  function BytesAt(s: string, k: nat): Option<seq<nat>>
  {
    if k == 0 then Some([])
    else
      var b := ByteAt(s, 0);
      if b.None? || |s| < 3 then None
      else
        var rest := BytesAt(s[3..], k - 1);
        if rest.None? then None else Some([b.value] + rest.value)
  }

  /** The length of the UTF-8 sequence a lead byte announces; 0 if it
      cannot lead. */
  function SequenceLength(b0: nat): nat
  {
    if b0 < 0x80 then 1
    else if 0xC0 <= b0 < 0xE0 then 2
    else if 0xE0 <= b0 < 0xF0 then 3
    else if 0xF0 <= b0 < 0xF8 then 4
    else 0
  }

  predicate Continuation(b: nat) {
    0x80 <= b < 0xC0
  }

  /** The code point a well-formed lead byte and continuation bytes carry. */
  function CodePoint(bs: seq<nat>): Option<int>
  {
    if |bs| == 1 && bs[0] < 0x80 then Some(bs[0])
    else if |bs| == 2 && 0xC0 <= bs[0] && Continuation(bs[1]) then
      Some((bs[0] - 0xC0) * 64 + (bs[1] - 0x80))
    else if |bs| == 3 && 0xE0 <= bs[0] && Continuation(bs[1]) && Continuation(bs[2]) then
      Some((bs[0] - 0xE0) * 4096 + (bs[1] - 0x80) * 64 + (bs[2] - 0x80))
    else if |bs| == 4 && 0xF0 <= bs[0] && Continuation(bs[1]) && Continuation(bs[2]) && Continuation(bs[3]) then
      Some((bs[0] - 0xF0) * 262144 + (bs[1] - 0x80) * 4096 + (bs[2] - 0x80) * 64 + (bs[3] - 0x80))
    else None
  }

  predicate ScalarValue(n: int) {
    (0 <= n < 0xD800) || (0xE000 <= n < 0x110000)
  }

  function Prepend(c: char, rest: Option<string>): Option<string>
  {
    if rest.Some? then Some([c] + rest.value) else None
  }

  /** Decodes a serialized name or value: `+` is a space, `%XX` escapes are
      UTF-8 bytes, anything else stands for itself; `None` for a malformed
      escape or byte sequence. */
  function Decode(s: string): Option<string>
    decreases |s|
  {
    if |s| == 0 then Some("")
    else if s[0] == '+' then Prepend(' ', Decode(s[1..]))
    else if s[0] != '%' then Prepend(s[0], Decode(s[1..]))
    else
      var b0 := ByteAt(s, 0);
      if b0.None? then None
      else
        var k := SequenceLength(b0.value);
        if k == 0 || |s| < 3 * k then None
        else
          var bs := BytesAt(s, k);
          if bs.None? then None
          else
            var cp := CodePoint(bs.value);
            if cp.None? || !ScalarValue(cp.value) then None
            else Prepend(cp.value as char, Decode(s[3 * k..]))
  }

  // ---------------------------------------------------------------------
  // Round trip
  // ---------------------------------------------------------------------

  lemma HexRoundTrip(d: nat)
    requires d < 16
    ensures HexValue(HexDigits[d]) == Some(d)
  {
  }

  lemma ByteRoundTrip(b: nat, rest: string)
    requires b < 256
    ensures ByteAt(PercentByte(b) + rest, 0) == Some(b)
  {
    HexRoundTrip(b / 16);
    HexRoundTrip(b % 16);
  }

  lemma {:induction false} BytesRoundTrip(bs: seq<nat>, rest: string)
    requires forall i :: 0 <= i < |bs| ==> bs[i] < 256
    ensures BytesAt(PercentBytes(bs) + rest, |bs|) == Some(bs)
    decreases |bs|
  {
    if |bs| > 0 {
      var s := PercentBytes(bs) + rest;
      ByteRoundTrip(bs[0], PercentBytes(bs[1..]) + rest);
      assert s == PercentByte(bs[0]) + (PercentBytes(bs[1..]) + rest);
      assert s[3..] == PercentBytes(bs[1..]) + rest;
      BytesRoundTrip(bs[1..], rest);
      assert [bs[0]] + bs[1..] == bs;
    }
  }

  /** The UTF-8 bytes of `c` announce their own length and carry `c`. */
  lemma Utf8Decodes(c: char)
    ensures SequenceLength(Utf8(c)[0]) == |Utf8(c)|
    ensures CodePoint(Utf8(c)) == Some(c as int)
  {
    var n := c as int;
    var bs := Utf8(c);
    if n < 0x80 {
    } else if n < 0x800 {
      assert n == (n / 64) * 64 + n % 64;
    } else if n < 0x10000 {
      assert n / 4096 == (n / 64) / 64;
      assert n / 64 == (n / 4096) * 64 + (n / 64) % 64;
      assert n == (n / 64) * 64 + n % 64;
    } else {
      assert n / 262144 < 5;
      assert n / 4096 == (n / 64) / 64;
      assert n / 262144 == (n / 4096) / 64;
      assert n / 4096 == (n / 262144) * 64 + (n / 4096) % 64;
      assert n / 64 == (n / 4096) * 64 + (n / 64) % 64;
      assert n == (n / 64) * 64 + n % 64;
    }
  }

  /** Decoding the serialization of one character and then `rest` yields the
      character and then the decoding of `rest`. */
  lemma DecodeEncodeChar(c: char, rest: string)
    ensures Decode(EncodeChar(c) + rest) == Prepend(c, Decode(rest))
  {
    var s := EncodeChar(c) + rest;
    if Unreserved(c) {
      assert s[0] == c && s[1..] == rest;
    } else if c == ' ' {
      assert s[0] == '+' && s[1..] == rest;
    } else {
      DecodeEscapedChar(c, rest);
    }
  }

  /** The escaped case: the first escape is the lead byte, which announces
      how many escapes follow. */
  lemma DecodeEscapedChar(c: char, rest: string)
    requires !Unreserved(c) && c != ' '
    ensures Decode(PercentBytes(Utf8(c)) + rest) == Prepend(c, Decode(rest))
  {
    var bs := Utf8(c);
    var s := PercentBytes(bs) + rest;
    var k := |bs|;
    assert ByteAt(s, 0) == Some(bs[0]) by {
      ByteRoundTrip(bs[0], PercentBytes(bs[1..]) + rest);
      assert s == PercentByte(bs[0]) + (PercentBytes(bs[1..]) + rest);
    }
    assert s[0] == '%';
    Utf8Decodes(c);
    assert SequenceLength(bs[0]) == k && |s| >= 3 * k;
    assert BytesAt(s, k) == Some(bs) by {
      BytesRoundTrip(bs, rest);
    }
    assert s[3 * k..] == rest;
    assert ScalarValue(c as int);
    assert (c as int) as char == c;
  }

  /** Decoding undoes encoding. */
  lemma {:induction false} DecodeEncode(s: string)
    ensures Decode(Encode(s)) == Some(s)
    decreases |s|
  {
    if |s| > 0 {
      DecodeEncodeChar(s[0], Encode(s[1..]));
      DecodeEncode(s[1..]);
      assert [s[0]] + s[1..] == s;
    }
  }

  /** The serialization contains neither `&` nor `=`, so it can be read back
      out of a query string. */
  lemma EncodeAvoidsDelimiters(s: string)
    ensures '&' !in Encode(s) && '=' !in Encode(s)
  {
    var r := Encode(s);
    assert forall i :: 0 <= i < |r| ==> r[i] != '&' && r[i] != '=';
  }
}

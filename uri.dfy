/**
 * The global `encodeURI` function of ECMAScript (section 15.1.3.3 of ECMA-262, 5th edition):
 * every character outside the URI reserved set, the unreserved letters, digits and marks, and
 * '#' is replaced by the percent-escaped bytes of its UTF-8 encoding, with upper-case hex digits.
 * Characters are Unicode scalar values, so the lone-surrogate URIError cannot arise.
 *
 * Beside the encoder sits an independent decoder (percent-decoding, then UTF-8 decoding); the
 * round-trip lemma shows that encoding loses nothing, so two different names never share an
 * encoded identifier.
 */
module Uri {
  import opened Results

  type Byte = b: int | 0 <= b < 256

  /** The characters `encodeURI` leaves as they are: uriReserved, uriUnescaped and '#'. */
  predicate Unescaped(c: char) {
    || ('a' <= c <= 'z')
    || ('A' <= c <= 'Z')
    || ('0' <= c <= '9')
    || c in ";/?:@&=+$,-_.!~*'()#"
  }

  /** The characters that may appear in the output of `encodeURI`. */
  predicate UriSafe(c: char) {
    Unescaped(c) || c == '%'
  }

  /** The UTF-8 encoding of one scalar value, as in RFC 3629. */
  function Utf8(c: char): (bytes: seq<Byte>)
    ensures 1 <= |bytes| <= 4
  {
    var n := c as int;
    if n < 0x80 then [n]
    else if n < 0x800 then [0xC0 + n / 64, 0x80 + n % 64]
    else if n < 0x10000 then [0xE0 + n / 4096, 0x80 + (n / 64) % 64, 0x80 + n % 64]
    else [0xF0 + n / 262144, 0x80 + (n / 4096) % 64, 0x80 + (n / 64) % 64, 0x80 + n % 64]
  }

  /** The UTF-8 encoding of a whole string. */
  function Utf8Encode(s: string): seq<Byte> {
    if s == [] then [] else Utf8(s[0]) + Utf8Encode(s[1..])
  }

  function HexDigit(d: int): (c: char)
    requires 0 <= d < 16
    ensures UriSafe(c) && c != '%'
  {
    if d < 10 then (48 + d) as char else (55 + d) as char
  }

  predicate IsHexDigit(c: char) {
    ('0' <= c <= '9') || ('A' <= c <= 'F') || ('a' <= c <= 'f')
  }

  function HexValue(c: char): (d: int)
    requires IsHexDigit(c)
    ensures 0 <= d < 16
  {
    if c <= '9' then c as int - 48
    else if c <= 'F' then c as int - 55
    else c as int - 87
  }

  /** "%XY" for every byte, X and Y its upper-case hex digits. */
  function PercentEncode(bytes: seq<Byte>): (r: string)
    ensures |r| == 3 * |bytes|
    ensures forall i :: 0 <= i < |r| ==> UriSafe(r[i])
  {
    if bytes == [] then "" else ['%', HexDigit(bytes[0] / 16), HexDigit(bytes[0] % 16)] + PercentEncode(bytes[1..])
  }

  function EncodeChar(c: char): (r: string)
    ensures forall i :: 0 <= i < |r| ==> UriSafe(r[i])
  {
    if Unescaped(c) then [c] else PercentEncode(Utf8(c))
  }

  /** `encodeURI(s)`: only URI-safe characters come out. */
  function EncodeURI(s: string): (r: string)
    ensures forall i :: 0 <= i < |r| ==> UriSafe(r[i])
  {
    if s == [] then "" else EncodeChar(s[0]) + EncodeURI(s[1..])
  }

  // ----- The decoder -----

  /** Puts `xs` in front of a successful decoding of the rest. */
  function Prefix<T>(xs: seq<T>, rest: Option<seq<T>>): Option<seq<T>> {
    if rest.Some? then Some(xs + rest.value) else None
  }

  /** Undoes percent-escaping: "%XY" becomes the byte XY; any other ASCII character stands for itself. */
  function PercentDecode(s: string): Option<seq<Byte>>
    decreases |s|
  {
    if s == [] then Some([])
    else if s[0] == '%' then
      if |s| >= 3 && IsHexDigit(s[1]) && IsHexDigit(s[2])
      then Prefix([HexValue(s[1]) * 16 + HexValue(s[2])], PercentDecode(s[3..]))
      else None
    else if s[0] as int < 0x80 then Prefix([s[0] as int], PercentDecode(s[1..]))
    else None
  }

  predicate IsScalar(n: int) {
    (0 <= n < 0xD800) || (0xE000 <= n < 0x11_0000)
  }

  predicate IsContinuation(b: int) {
    0x80 <= b < 0xC0
  }

  function PrefixChar(n: int, rest: Option<string>): Option<string> {
    if IsScalar(n) then Prefix([n as char], rest) else None
  }

  /** Decodes UTF-8 into scalar values; a truncated or invalid sequence gives None. */
  function Utf8Decode(bytes: seq<Byte>): Option<string>
    decreases |bytes|
  {
    var b: seq<int> := bytes;
    if bytes == [] then Some([])
    else if b[0] < 0x80 then PrefixChar(b[0], Utf8Decode(bytes[1..]))
    else if 0xC0 <= b[0] < 0xE0 && |b| >= 2 && IsContinuation(b[1]) then
      PrefixChar((b[0] - 0xC0) * 64 + (b[1] - 0x80), Utf8Decode(bytes[2..]))
    else if 0xE0 <= b[0] < 0xF0 && |b| >= 3 && IsContinuation(b[1]) && IsContinuation(b[2]) then
      PrefixChar((b[0] - 0xE0) * 4096 + (b[1] - 0x80) * 64 + (b[2] - 0x80), Utf8Decode(bytes[3..]))
    else if 0xF0 <= b[0] < 0xF8 && |b| >= 4 && IsContinuation(b[1]) && IsContinuation(b[2]) && IsContinuation(b[3]) then
      PrefixChar((b[0] - 0xF0) * 262144 + (b[1] - 0x80) * 4096 + (b[2] - 0x80) * 64 + (b[3] - 0x80), Utf8Decode(bytes[4..]))
    else None
  }

  /** The inverse of `EncodeURI`: every `%XX` escape is decoded and the bytes are read as UTF-8.
      Unlike ECMAScript's `decodeURI`, escapes of reserved characters are decoded too. */
  function PercentUtf8Decode(s: string): Option<string> {
    match PercentDecode(s)
    case Some(bytes) => Utf8Decode(bytes)
    case None => None
  }

  // ----- Lemmas -----

  lemma PrefixAssoc<T>(xs: seq<T>, ys: seq<T>, rest: Option<seq<T>>)
    ensures Prefix(xs, Prefix(ys, rest)) == Prefix(xs + ys, rest)
  {
    if rest.Some? {
      assert xs + (ys + rest.value) == (xs + ys) + rest.value;
    }
  }

  lemma PrefixEmpty<T>(rest: Option<seq<T>>)
    ensures Prefix([], rest) == rest
  {
    if rest.Some? {
      assert [] + rest.value == rest.value;
    }
  }

  lemma HexRoundTrip(d: int)
    requires 0 <= d < 16
    ensures IsHexDigit(HexDigit(d)) && HexValue(HexDigit(d)) == d
  {
  }

  /** Percent-decoding reads back one escaped byte. */
  lemma PercentDecodeByte(b: Byte, tail: string)
    ensures PercentDecode(['%', HexDigit(b / 16), HexDigit(b % 16)] + tail) == Prefix([b], PercentDecode(tail))
  {
    var s := ['%', HexDigit(b / 16), HexDigit(b % 16)] + tail;
    HexRoundTrip(b / 16);
    HexRoundTrip(b % 16);
    assert s[3..] == tail;
  }

  lemma PercentEncodeFront(bytes: seq<Byte>, rest: string)
    requires bytes != []
    ensures PercentEncode(bytes) + rest
         == ['%', HexDigit(bytes[0] / 16), HexDigit(bytes[0] % 16)] + (PercentEncode(bytes[1..]) + rest)
  {
  }

  /** Percent-decoding reads back exactly the bytes that were escaped. */
  lemma {:induction false} PercentDecodeEncoded(bytes: seq<Byte>, rest: string)
    ensures PercentDecode(PercentEncode(bytes) + rest) == Prefix(bytes, PercentDecode(rest))
  {
    if bytes != [] {
      var b := bytes[0];
      var tail := PercentEncode(bytes[1..]) + rest;
      PercentEncodeFront(bytes, rest);
      PercentDecodeByte(b, tail);
      PercentDecodeEncoded(bytes[1..], rest);
      PrefixAssoc<Byte>([b], bytes[1..], PercentDecode(rest));
      assert [b] + bytes[1..] == bytes;
    } else {
      assert PercentEncode(bytes) + rest == rest;
      PrefixEmpty<Byte>(PercentDecode(rest));
    }
  }

  /** Decoding one encoded character gives its UTF-8 bytes. */
  lemma PercentDecodeEncodedChar(c: char, rest: string)
    ensures PercentDecode(EncodeChar(c) + rest) == Prefix(Utf8(c), PercentDecode(rest))
  {
    if Unescaped(c) {
      var s := [c] + rest;
      assert s[1..] == rest;
    } else {
      PercentDecodeEncoded(Utf8(c), rest);
    }
  }

  /** Percent-decoding the output of `EncodeURI` gives the UTF-8 encoding of its input. */
  lemma {:induction false} PercentDecodeEncodeURI(s: string)
    ensures PercentDecode(EncodeURI(s)) == Some(Utf8Encode(s))
  {
    if s != [] {
      PercentDecodeEncodedChar(s[0], EncodeURI(s[1..]));
      PercentDecodeEncodeURI(s[1..]);
    }
  }

  /** UTF-8 decoding reads back one encoded scalar value. */
  lemma Utf8DecodeChar(c: char, rest: seq<Byte>)
    ensures Utf8Decode(Utf8(c) + rest) == Prefix([c], Utf8Decode(rest))
  {
    var n := c as int;
    if n < 0x80 {
      assert (Utf8(c) + rest)[1..] == rest;
    } else if n < 0x800 {
      Utf8DecodeTwo(c, rest);
    } else if n < 0x10000 {
      Utf8DecodeThree(c, rest);
    } else {
      Utf8DecodeFour(c, rest);
    }
  }

  lemma Utf8DecodeTwo(c: char, rest: seq<Byte>)
    requires 0x80 <= c as int < 0x800
    ensures Utf8Decode(Utf8(c) + rest) == Prefix([c], Utf8Decode(rest))
  {
    var n := c as int;
    var b := Utf8(c) + rest;
    assert b[2..] == rest;
    assert (n / 64) * 64 + n % 64 == n;
  }

  lemma Utf8DecodeThree(c: char, rest: seq<Byte>)
    requires 0x800 <= c as int < 0x10000
    ensures Utf8Decode(Utf8(c) + rest) == Prefix([c], Utf8Decode(rest))
  {
    var n := c as int;
    var b := Utf8(c) + rest;
    assert b[3..] == rest;
    SplitThree(n);
  }

  lemma Utf8DecodeFour(c: char, rest: seq<Byte>)
    requires 0x10000 <= c as int
    ensures Utf8Decode(Utf8(c) + rest) == Prefix([c], Utf8Decode(rest))
  {
    var n := c as int;
    var b := Utf8(c) + rest;
    assert b[4..] == rest;
    SplitFour(n);
  }

  lemma SplitThree(n: nat)
    ensures (n / 4096) * 4096 + ((n / 64) % 64) * 64 + n % 64 == n
  {
    var q1, r0 := n / 64, n % 64;
    var q2, r1 := q1 / 64, q1 % 64;
    assert n == 4096 * q2 + 64 * r1 + r0;
    assert n / 4096 == q2;
  }

  lemma SplitFour(n: nat)
    ensures (n / 262144) * 262144 + ((n / 4096) % 64) * 4096 + ((n / 64) % 64) * 64 + n % 64 == n
  {
    var q1, r0 := n / 64, n % 64;
    var q2, r1 := q1 / 64, q1 % 64;
    var q3, r2 := q2 / 64, q2 % 64;
    assert n == 4096 * q2 + 64 * r1 + r0;
    assert n / 4096 == q2;
    assert n == 262144 * q3 + 4096 * r2 + 64 * r1 + r0;
    assert n / 262144 == q3;
  }

  /** UTF-8 decoding undoes UTF-8 encoding. */
  lemma {:induction false} Utf8RoundTrip(s: string)
    ensures Utf8Decode(Utf8Encode(s)) == Some(s)
  {
    if s != [] {
      Utf8DecodeChar(s[0], Utf8Encode(s[1..]));
      Utf8RoundTrip(s[1..]);
      assert [s[0]] + s[1..] == s;
    }
  }

  /** `encodeURI` loses nothing: decoding its output gives the input back. */
  lemma DecodeEncodeURI(s: string)
    ensures PercentUtf8Decode(EncodeURI(s)) == Some(s)
  {
    PercentDecodeEncodeURI(s);
    Utf8RoundTrip(s);
  }

  /** Hence different strings are never encoded alike. */
  lemma EncodeURIInjective(s: string, t: string)
    requires EncodeURI(s) == EncodeURI(t)
    ensures s == t
  {
    DecodeEncodeURI(s);
    DecodeEncodeURI(t);
  }

  /** Encoding works character by character. */
  lemma {:induction false} EncodeURIAppend(s: string, t: string)
    ensures EncodeURI(s + t) == EncodeURI(s) + EncodeURI(t)
  {
    if s != [] {
      assert (s + t)[1..] == s[1..] + t;
      EncodeURIAppend(s[1..], t);
    } else {
      assert s + t == t;
    }
  }

  /** A string made only of characters `encodeURI` leaves alone comes out unchanged. */
  lemma {:induction false} EncodeURIKeepsSafe(s: string)
    requires forall i :: 0 <= i < |s| ==> Unescaped(s[i])
    ensures EncodeURI(s) == s
  {
    if s != [] {
      EncodeURIKeepsSafe(s[1..]);
      assert [s[0]] + s[1..] == s;
    }
  }

  /** A character `encodeURI` escapes never appears literally in its output: '<', '>', '"' or a space among them. */
  lemma EncodeURIEscapes(s: string, c: char)
    requires !UriSafe(c)
    ensures c !in EncodeURI(s)
  {
  }
}

/** `String.addingPercentEncoding()` of the older source tree: Foundation's
    `urlQueryAllowed` set with the delimiters `:#[]@!$&'()*+,;=` removed,
    then percent-encoding of every other character's UTF-8 bytes
    (section 2.1 of RFC 3986). */
module PercentEncoding {
  import opened Common

  /** The characters the extension removes from the allowed set. */
  const Reserved: string := ":#[]@!$&'()*+,;="

  /** Foundation's `CharacterSet.urlQueryAllowed`. */
  predicate UrlQueryAllowed(c: char) {
    || ('a' <= c <= 'z') || ('A' <= c <= 'Z') || ('0' <= c <= '9')
    || c in "!$&'()*+,-./:;=?@_~"
  }

  /** The set the extension encodes with. */
  predicate Allowed(c: char) {
    UrlQueryAllowed(c) && c !in Reserved
  }

  /** What is left is the unreserved set of section 2.3 of RFC 3986 plus
      `/` and `?`: `%` is not in it, and neither is any delimiter. */
  lemma AllowedCharacters(c: char)
    ensures Allowed(c) <==>
      || ('a' <= c <= 'z') || ('A' <= c <= 'Z') || ('0' <= c <= '9')
      || c == '-' || c == '.' || c == '_' || c == '~' || c == '/' || c == '?'
    ensures Allowed(c) ==> c as int < 0x80
  {
  }

  function HexDigit(n: int): (c: char)
    requires 0 <= n < 16
    ensures Allowed(c)
  {
    if n < 10 then ('0' as int + n) as char else ('A' as int + n - 10) as char
  }

  /** `%XX` with upper-case hexadecimal digits. */
  function EscapeByte(b: byte): (r: string)
    ensures |r| == 3 && r[0] == '%'
  {
    ['%', HexDigit(b / 16), HexDigit(b % 16)]
  }

  function Escape(bs: Bytes): (r: string)
    ensures |r| == 3 * |bs|
  {
    if bs == [] then [] else EscapeByte(bs[0]) + Escape(bs[1..])
  }

  function EncodeChar(c: char): string {
    if Allowed(c) then [c] else Escape(CharUtf8(c))
  }

  function PercentEncode(s: string): (r: string)
    ensures |r| >= |s|
  {
    if s == [] then [] else EncodeChar(s[0]) + PercentEncode(s[1..])
  }

  /** Whether every character of `r` is unreserved or a `%`. */
  predicate EncodedText(r: string) {
    forall i :: 0 <= i < |r| ==> Allowed(r[i]) || r[i] == '%'
  }

  lemma EncodedConcat(a: string, b: string)
    requires EncodedText(a) && EncodedText(b)
    ensures EncodedText(a + b)
  {
    forall i | 0 <= i < |a + b|
      ensures Allowed((a + b)[i]) || (a + b)[i] == '%'
    {
      if i < |a| {
        assert (a + b)[i] == a[i];
      } else {
        assert (a + b)[i] == b[i - |a|];
      }
    }
  }

  lemma {:induction false} EscapeEncoded(bs: Bytes)
    ensures EncodedText(Escape(bs))
  {
    if bs != [] {
      EscapeEncoded(bs[1..]);
      EncodedConcat(EscapeByte(bs[0]), Escape(bs[1..]));
    }
  }

  /** The encoder writes only unreserved characters and `%`. */
  lemma {:induction false} PercentEncodeEncoded(s: string)
    ensures EncodedText(PercentEncode(s))
  {
    if s != [] {
      PercentEncodeEncoded(s[1..]);
      if !Allowed(s[0]) {
        EscapeEncoded(CharUtf8(s[0]));
      }
      EncodedConcat(EncodeChar(s[0]), PercentEncode(s[1..]));
    }
  }

  /** The extension as the source declares it, returning an optional. Foundation
      only fails on text that is not valid Unicode, which neither a Swift
      `String` nor a Dafny `string` can hold, so the result is always present. */
  function AddingPercentEncoding(s: string): Option<string> {
    Some(PercentEncode(s))
  }

  lemma NeverFails(s: string)
    ensures AddingPercentEncoding(s) == Some(PercentEncode(s))
  {
  }

  /** No delimiter of `Reserved` ever appears unescaped in the output. */
  lemma {:induction false} NoReservedCharacter(s: string)
    ensures forall i :: 0 <= i < |PercentEncode(s)| ==> PercentEncode(s)[i] !in Reserved
  {
    var r := PercentEncode(s);
    PercentEncodeEncoded(s);
    forall i | 0 <= i < |r|
      ensures r[i] !in Reserved
    {
      assert Allowed(r[i]) || r[i] == '%';
    }
  }

  /** Allowed characters pass through unchanged, so encoding a string made of
      them is the identity (and therefore idempotent on such strings). */
  lemma {:induction false} AllowedUnchanged(s: string)
    requires forall i :: 0 <= i < |s| ==> Allowed(s[i])
    ensures PercentEncode(s) == s
  {
    if s != [] {
      AllowedUnchanged(s[1..]);
      assert [s[0]] + s[1..] == s;
    }
  }

  lemma IdempotentOnAllowed(s: string)
    requires forall i :: 0 <= i < |s| ==> Allowed(s[i])
    ensures PercentEncode(PercentEncode(s)) == PercentEncode(s)
  {
    AllowedUnchanged(s);
  }

  /** A `%` in the input is itself escaped, so the encoder is not idempotent
      in general. */
  lemma PercentSignIsEscaped()
    ensures PercentEncode("%") == "%25"
  {
    assert CharUtf8('%') == [0x25];
    assert Escape([0x25]) == EscapeByte(0x25) + Escape([]);
  }

  // ---------------------------------------------------------------------
  // Percent-decoding, the partner of the encoder

  predicate IsHex(c: char) {
    ('0' <= c <= '9') || ('A' <= c <= 'F') || ('a' <= c <= 'f')
  }

  function HexValue(c: char): (n: int)
    requires IsHex(c)
    ensures 0 <= n < 16
  {
    if '0' <= c <= '9' then c as int - '0' as int
    else if 'A' <= c <= 'F' then c as int - 'A' as int + 10
    else c as int - 'a' as int + 10
  }

  function Prepend(bs: Bytes, rest: Option<Bytes>): Option<Bytes> {
    match rest
    case None => None
    case Some(r) => Some(bs + r)
  }

  /** Decodes `%XX` escapes to their byte and every other character to its
      UTF-8 bytes; `None` for a `%` not followed by two hexadecimal digits. */
  function PercentDecode(s: string): Option<Bytes>
  {
    if s == [] then Some([])
    else if s[0] == '%' then
      if |s| >= 3 && IsHex(s[1]) && IsHex(s[2]) then
        Prepend([HexValue(s[1]) * 16 + HexValue(s[2])], PercentDecode(s[3..]))
      else None
    else Prepend(CharUtf8(s[0]), PercentDecode(s[1..]))
  }

  lemma HexDigitValue(n: int)
    requires 0 <= n < 16
    ensures IsHex(HexDigit(n)) && HexValue(HexDigit(n)) == n
  {
  }

  /** One escape decodes to the byte it stands for. */
  lemma DecodeEscapeByte(b: byte, t: string)
    ensures PercentDecode(EscapeByte(b) + t) == Prepend([b], PercentDecode(t))
  {
    var s := EscapeByte(b) + t;
    HexDigitValue(b / 16);
    HexDigitValue(b % 16);
    assert s[0] == '%' && s[1] == HexDigit(b / 16) && s[2] == HexDigit(b % 16);
    assert s[3..] == t;
  }

  lemma PrependTwice(a: Bytes, b: Bytes, rest: Option<Bytes>)
    ensures Prepend(a, Prepend(b, rest)) == Prepend(a + b, rest)
  {
    if rest.Some? {
      assert a + (b + rest.value) == (a + b) + rest.value;
    }
  }

  lemma {:induction false} DecodeEscape(bs: Bytes, t: string)
    ensures PercentDecode(Escape(bs) + t) == Prepend(bs, PercentDecode(t))
  {
    if bs == [] {
      assert Escape(bs) + t == t;
      if PercentDecode(t).Some? {
        assert [] + PercentDecode(t).value == PercentDecode(t).value;
      }
    } else {
      var rest := Escape(bs[1..]);
      AppendAssoc(EscapeByte(bs[0]), rest, t);
      DecodeEscapeByte(bs[0], rest + t);
      DecodeEscape(bs[1..], t);
      PrependTwice([bs[0]], bs[1..], PercentDecode(t));
      assert [bs[0]] + bs[1..] == bs;
    }
  }

  lemma DecodeChar(c: char, t: string)
    ensures PercentDecode(EncodeChar(c) + t) == Prepend(CharUtf8(c), PercentDecode(t))
  {
    if Allowed(c) {
      var s := EncodeChar(c) + t;
      assert s[0] == c && s[1..] == t;
    } else {
      DecodeEscape(CharUtf8(c), t);
    }
  }

  /** Percent-decoding the output gives back the input's UTF-8 bytes. */
  lemma {:induction false} RoundTrip(s: string)
    ensures PercentDecode(PercentEncode(s)) == Some(Utf8(s))
  {
    if s != [] {
      RoundTrip(s[1..]);
      DecodeChar(s[0], PercentEncode(s[1..]));
    }
  }

  /** Distinct inputs give distinct outputs. */
  lemma Injective(s: string, t: string)
    requires PercentEncode(s) == PercentEncode(t)
    ensures Utf8(s) == Utf8(t)
  {
    RoundTrip(s);
    RoundTrip(t);
  }
}

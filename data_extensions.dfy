/** Data+Extensions.swift of the newer tree: the same one-byte MIME sniff and
    `appendStrings`. */
module DataExtensions {
  import opened Common
  import LegacyDataExtensions

  const OctetStream: string := "application/octet-stream"

  const MimeTypeSignatures: map<byte, string> := map[
    0xFF := "image/jpeg",
    0x89 := "image/png",
    0x47 := "image/gif",
    0x49 := "image/tiff",
    0x4D := "image/tiff",
    0x25 := "application/pdf",
    0xD0 := "application/vnd",
    0x46 := "text/plain"
  ]

  function MimeType(data: Bytes): (r: string)
    ensures r == OctetStream || r in MimeTypeSignatures.Values
  {
    var code: byte := if |data| == 0 then 0 else data[0];
    if code in MimeTypeSignatures then MimeTypeSignatures[code] else OctetStream
  }

  /** The newer table is the older one, so both revisions sniff alike. */
  lemma SameAsOlderRevision(data: Bytes)
    ensures MimeType(data) == LegacyDataExtensions.MimeType(data)
  {
    assert MimeTypeSignatures == LegacyDataExtensions.MimeTypeSignatures;
  }

  /** Only the first byte is inspected; the rest of the payload never matters. */
  lemma OnlyFirstByte(a: Bytes, b: Bytes)
    requires |a| > 0 && |b| > 0 && a[0] == b[0]
    ensures MimeType(a) == MimeType(b)
  {
  }

  lemma EmptyIsOctetStream()
    ensures MimeType([]) == OctetStream
  {
  }

  /** `appendStrings`: existing bytes stay a prefix; each non-nil string's
      UTF-8 bytes follow in order. */
  method AppendStrings(data: Bytes, strings: seq<Option<string>>) returns (r: Bytes)
    ensures r == data + Utf8OfPresent(strings)
    ensures r[..|data|] == data
  {
    r := data;
    for i := 0 to |strings|
      invariant r == data + Utf8OfPresent(strings[..i])
    {
      assert strings[..i + 1][..i] == strings[..i];
      if strings[i].Some? {
        AppendAssoc(data, Utf8OfPresent(strings[..i]), Utf8(strings[i].value));
        r := r + Utf8(strings[i].value);
      }
    }
    assert strings[..|strings|] == strings;
  }
}

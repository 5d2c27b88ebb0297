/** Data+Extensions.swift of the older tree: the one-byte MIME sniff and the
    two `mutating` appenders. `Data` is a value type, so a `mutating` method is
    modelled as a method that takes the old bytes and returns the new ones. */
module LegacyDataExtensions {
  import opened Common

  const OctetStream: string := "application/octet-stream"

  /** `mimeTypeSignatures`: first byte to MIME type. */
  const MimeTypeSignatures: map<byte, string> := map[
    0xFF := "image/jpeg",
    0x89 := "image/png",
    0x47 := "image/gif",
    0x49 := "image/tiff",
    0x4D := "image/tiff",
    0x25 := "application/pdf",
    0xD0 := "application/vnd",
    0x46 := "text/plain"
  ]

  /** `copyBytes(to: &code, count: 1)` leaves `code` at 0 on empty data. */
  function MimeType(data: Bytes): (r: string)
    ensures r == OctetStream || r in MimeTypeSignatures.Values
  {
    var code: byte := if |data| == 0 then 0 else data[0];
    if code in MimeTypeSignatures then MimeTypeSignatures[code] else OctetStream
  }

  /** The whole table, read as a function of the first byte. */
  lemma MimeTypeTable(data: Bytes)
    ensures MimeType(data) == "image/jpeg" <==> |data| > 0 && data[0] == 0xFF
    ensures MimeType(data) == "image/png" <==> |data| > 0 && data[0] == 0x89
    ensures MimeType(data) == "image/gif" <==> |data| > 0 && data[0] == 0x47
    ensures MimeType(data) == "image/tiff" <==> |data| > 0 && (data[0] == 0x49 || data[0] == 0x4D)
    ensures MimeType(data) == "application/pdf" <==> |data| > 0 && data[0] == 0x25
    ensures MimeType(data) == "application/vnd" <==> |data| > 0 && data[0] == 0xD0
    ensures MimeType(data) == "text/plain" <==> |data| > 0 && data[0] == 0x46
    ensures MimeType(data) == OctetStream <==> |data| == 0 || data[0] !in MimeTypeSignatures
  {
  }

  /** Empty data sniffs as a stream of octets: byte 0 is not in the table. */
  lemma EmptyIsOctetStream()
    ensures MimeType([]) == OctetStream
    ensures 0 !in MimeTypeSignatures
  {
  }

  /** Only the first byte is inspected. */
  lemma OnlyFirstByte(a: Bytes, b: Bytes)
    requires |a| > 0 && |b| > 0 && a[0] == b[0]
    ensures MimeType(a) == MimeType(b)
  {
  }

  /** `appendStrings`: the UTF-8 bytes of each non-nil string, in order. */
  method AppendStrings(data: Bytes, strings: seq<Option<string>>) returns (r: Bytes)
    ensures r == data + Utf8OfPresent(strings)
    ensures r[..|data|] == data
  {
    r := data;
    var i := 0;
    while i < |strings|
      invariant 0 <= i <= |strings|
      invariant r == data + Utf8OfPresent(strings[..i])
    {
      assert strings[..i + 1][..i] == strings[..i];
      if strings[i].Some? {
        r := r + Utf8(strings[i].value);
      }
      i := i + 1;
    }
    assert strings[..i] == strings;
  }

  /** `appendDatas`: each non-nil buffer, in order. */
  method AppendDatas(data: Bytes, datas: seq<Option<Bytes>>) returns (r: Bytes)
    ensures r == data + PresentBytes(datas)
    ensures |r| == |data| + TotalLength(datas)
  {
    r := data;
    var i := 0;
    while i < |datas|
      invariant 0 <= i <= |datas|
      invariant r == data + PresentBytes(datas[..i])
      invariant |r| == |data| + TotalLength(datas[..i])
    {
      assert datas[..i + 1][..i] == datas[..i];
      if datas[i].Some? {
        r := r + datas[i].value;
      }
      i := i + 1;
    }
    assert datas[..i] == datas;
  }

  /** Appending the strings one by one is appending their concatenation. */
  lemma {:induction false} Utf8OfPresentIsUtf8OfJoin(strings: seq<Option<string>>)
    ensures Utf8OfPresent(strings) == Utf8(Join("", FilterSome(strings)))
  {
    if strings != [] {
      var init, last := strings[..|strings| - 1], strings[|strings| - 1];
      assert strings == init + [last];
      Utf8OfPresentIsUtf8OfJoin(init);
      FilterSomeAppend(init, [last]);
      assert FilterSome([last]) == if last.Some? then [last.value] else [];
      if last.Some? {
        JoinEmptySepAppend(FilterSome(init), last.value);
        Utf8Append(Join("", FilterSome(init)), last.value);
      } else {
        assert FilterSome(strings) == FilterSome(init);
      }
    }
  }

  lemma {:induction false} JoinEmptySepAppend(parts: seq<string>, s: string)
    ensures Join("", parts + [s]) == Join("", parts) + s
  {
    if parts == [] {
      assert parts + [s] == [s];
    } else {
      JoinAppend("", parts, [s]);
    }
  }
}

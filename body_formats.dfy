/** The formats the three request builders share: the `Content-Type`
    values, the file parts of `Files.createFormData`, and the line that
    closes a multipart body (section 5.1.1 of RFC 2046). The three source
    revisions declare identical copies of these. */
module BodyFormats {
  import opened Common
  import LegacyDataExtensions

  // ---------------------------------------------------------------------
  // Header keys and values (`Header.Key` / `Header.Value` stores)

  const ContentType: string := "Content-Type"
  const ApplicationJson: string := "application/json"
  const ApplicationFormUrlencoded: string := "application/x-www-form-urlencoded"

  function ApplicationFormData(boundary: Boundary): (r: string)
    ensures DeclaredBoundary("application/form-data", r) == Some(boundary.stringValue)
  {
    "application/form-data; boundary=" + boundary.stringValue
  }

  function MultipartFormData(boundary: Boundary): (r: string)
    ensures DeclaredBoundary("multipart/form-data", r) == Some(boundary.stringValue)
  {
    "multipart/form-data; boundary=" + boundary.stringValue
  }

  /** The `boundary` parameter a receiver reads from a Content-Type value
      of the given media type. */
  function DeclaredBoundary(mediaType: string, contentType: string): Option<string> {
    var prefix := mediaType + "; boundary=";
    if |prefix| <= |contentType| && contentType[..|prefix|] == prefix then Some(contentType[|prefix|..])
    else None
  }

  /** The JSON and url-encoded values name no boundary, and the two
      boundary-carrying values cannot be mistaken for each other. */
  lemma ContentTypesDistinct(b: Boundary, c: Boundary)
    ensures DeclaredBoundary("multipart/form-data", ApplicationJson).None?
    ensures DeclaredBoundary("multipart/form-data", ApplicationFormUrlencoded).None?
    ensures MultipartFormData(b) != ApplicationFormData(c)
    ensures MultipartFormData(b) == MultipartFormData(c) <==> b == c
  {
    assert MultipartFormData(b)[0] != ApplicationFormData(c)[0];
    if MultipartFormData(b) == MultipartFormData(c) {
      assert DeclaredBoundary("multipart/form-data", MultipartFormData(b)) == Some(b.stringValue);
    }
  }

  // ---------------------------------------------------------------------
  // File parts (`Files.createFormData`)

  datatype File = File(filename: string, data: Bytes)
  datatype Files = Files(fileKey: string, files: seq<File>)

  /** The three strings appended before a file's bytes; `mime` is what
      `data.mimeType` sniffed. */
  function FileHeadLines(boundary: string, fileKey: string, filename: string, mime: string): seq<Option<string>> {
    [ Some("--" + boundary + "\r\n"),
      Some("Content-Disposition: form-data; name=\"" + fileKey + "\"; filename=\"" + filename + "\"\r\n"),
      Some("Content-Type: " + mime + "\r\n\r\n") ]
  }

  /** One file part: delimiter line, disposition with `name` and
      `filename`, the sniffed Content-Type, a blank line, the raw bytes, CRLF. */
  function FilePart(boundary: string, fileKey: string, f: File): Bytes {
    Utf8(FileHead(boundary, fileKey, f)) + f.data + Utf8("\r\n")
  }

  function FileHead(boundary: string, fileKey: string, f: File): string {
    "--" + boundary + "\r\n"
      + ("Content-Disposition: form-data; name=\"" + fileKey + "\"; filename=\"" + f.filename + "\"\r\n")
      + ("Content-Type: " + LegacyDataExtensions.MimeType(f.data) + "\r\n\r\n")
  }

  /** The buffer after the loop over `fs`, defined from the end. */
  function FileParts(boundary: string, fileKey: string, fs: seq<File>): Bytes {
    if fs == [] then []
    else
      var f := fs[|fs| - 1];
      FileParts(boundary, fileKey, fs[..|fs| - 1])
        + Utf8OfPresent(FileHeadLines(boundary, fileKey, f.filename, LegacyDataExtensions.MimeType(f.data)))
        + f.data + Utf8OfPresent([Some("\r\n")])
  }

  /** `createFormData`: nil for an empty list, otherwise the parts. */
  function FilesFormData(files: Files, boundary: Boundary): Option<Bytes> {
    if files.files == [] then None else Some(FileParts(boundary.stringValue, files.fileKey, files.files))
  }

  /** The parts of the files, defined from the end. */
  function PartsOf(boundary: string, fileKey: string, fs: seq<File>): (r: seq<Bytes>)
    ensures |r| == |fs|
  {
    if fs == [] then [] else PartsOf(boundary, fileKey, fs[..|fs| - 1]) + [FilePart(boundary, fileKey, fs[|fs| - 1])]
  }

  /** Part `i` is file `i`'s part. */
  lemma {:induction false} PartsOfIndex(boundary: string, fileKey: string, fs: seq<File>, i: int)
    requires 0 <= i < |fs|
    ensures PartsOf(boundary, fileKey, fs)[i] == FilePart(boundary, fileKey, fs[i])
  {
    if i < |fs| - 1 {
      PartsOfIndex(boundary, fileKey, fs[..|fs| - 1], i);
    }
  }

  /** One part per file, in list order. */
  lemma {:induction false} FilePartsInOrder(boundary: string, fileKey: string, fs: seq<File>)
    ensures FileParts(boundary, fileKey, fs) == Concat(PartsOf(boundary, fileKey, fs))
  {
    if fs != [] {
      var init := fs[..|fs| - 1];
      FileStep(boundary, fileKey, fs);
      FilePartsInOrder(boundary, fileKey, init);
      ConcatSnoc(PartsOf(boundary, fileKey, init), FilePart(boundary, fileKey, fs[|fs| - 1]));
    }
  }

  lemma ConcatSnoc(parts: seq<Bytes>, p: Bytes)
    ensures Concat(parts + [p]) == Concat(parts) + p
  {
    ConcatAppend(parts, [p]);
    assert Concat([p]) == p + Concat([]);
  }

  /** What one turn of the loop appends is one part. */
  lemma FileStep(boundary: string, fileKey: string, fs: seq<File>)
    requires fs != []
    ensures FileParts(boundary, fileKey, fs) == FileParts(boundary, fileKey, fs[..|fs| - 1]) + FilePart(boundary, fileKey, fs[|fs| - 1])
  {
    var f := fs[|fs| - 1];
    FileHeadBytes(boundary, fileKey, f);
    Utf8OfOne("\r\n");
    var init, head := FileParts(boundary, fileKey, fs[..|fs| - 1]), Utf8(FileHead(boundary, fileKey, f));
    AppendAssoc(init, head, f.data);
    AppendAssoc(init, head + f.data, Utf8("\r\n"));
  }

  /** The three header lines of a file part, written one after the other,
      are the bytes of its head. */
  lemma FileHeadBytes(boundary: string, fileKey: string, f: File)
    ensures Utf8OfPresent(FileHeadLines(boundary, fileKey, f.filename, LegacyDataExtensions.MimeType(f.data)))
      == Utf8(FileHead(boundary, fileKey, f))
  {
    var a := "--" + boundary + "\r\n";
    var b := "Content-Disposition: form-data; name=\"" + fileKey + "\"; filename=\"" + f.filename + "\"\r\n";
    var c := "Content-Type: " + LegacyDataExtensions.MimeType(f.data) + "\r\n\r\n";
    assert FileHeadLines(boundary, fileKey, f.filename, LegacyDataExtensions.MimeType(f.data)) == [Some(a), Some(b), Some(c)];
    Utf8OfThree(a, b, c);
  }

  /** Every file's bytes reach the body unchanged: the body is at least as
      long as all the payloads together. */
  lemma {:induction false} FilePartsHoldPayloads(boundary: string, fileKey: string, fs: seq<File>)
    ensures |FileParts(boundary, fileKey, fs)| >= PayloadLength(fs)
  {
    if fs != [] {
      FilePartsHoldPayloads(boundary, fileKey, fs[..|fs| - 1]);
    }
  }

  function PayloadLength(fs: seq<File>): nat {
    if fs == [] then 0 else PayloadLength(fs[..|fs| - 1]) + |fs[|fs| - 1].data|
  }

  // ---------------------------------------------------------------------
  // The closing delimiter of a multipart body

  /** Swift's default description of a boundary struct, which is what
      `"\(boundary)"` prints: `Boundary(stringValue: "…")`. Swift prints
      `stringValue` in its debug form, escaping `"`, `\` and control
      characters; that escaping is not modelled. The structs' initializers are
      private and only `generate()` calls them, with `Boundary-` and a UUID,
      which holds no such character, so every boundary that reaches the
      closing line prints as written here. */
  function Describe(typeName: string, boundary: Boundary): string {
    typeName + "(stringValue: \"" + boundary.stringValue + "\")"
  }

  /** The closing line as the upload branches write it, interpolating the
      struct instead of its `stringValue`. */
  function ClosingLineAsWritten(typeName: string, boundary: Boundary): string {
    "--" + Describe(typeName, boundary) + "--\r\n"
  }

  /** The boundary that a line of the form `--X--\r\n` closes, if any. */
  function ClosedBoundary(line: string): Option<string> {
    if |line| >= 6 && line[..2] == "--" && line[|line| - 4..] == "--\r\n" then Some(line[2..|line| - 4]) else None
  }

  /** As written, the closing line closes the struct's description, never
      the boundary the Content-Type header declares, whatever the boundary
      and the type name; its UTF-8 is longer than the intended line's by the
      type name and 17 more bytes. */
  lemma ClosingLineMismatch(typeName: string, boundary: Boundary)
    ensures ClosedBoundary(ClosingLineAsWritten(typeName, boundary)) == Some(Describe(typeName, boundary))
    ensures ClosedBoundary(ClosingLineAsWritten(typeName, boundary))
      != DeclaredBoundary("multipart/form-data", MultipartFormData(boundary))
    ensures |Utf8(ClosingLineAsWritten(typeName, boundary))| == |Utf8(ClosingLine(boundary))| + |Utf8(typeName)| + 17
  {
    var line := ClosingLineAsWritten(typeName, boundary);
    var d := Describe(typeName, boundary);
    assert line[..2] == "--" && line[|line| - 4..] == "--\r\n" && line[2..|line| - 4] == d;
    assert |d| > |boundary.stringValue|;
    ClosingLineAsWrittenLength(typeName, boundary);
    ClosingLineLength(boundary);
  }

  /** The closing line with the `stringValue`, as every part header uses it. */
  function ClosingLine(boundary: Boundary): string {
    "--" + boundary.stringValue + "--\r\n"
  }

  /** The corrected closing line closes exactly the boundary the header
      declares, and it differs from every part's opening delimiter. */
  lemma ClosingLineCloses(boundary: Boundary)
    ensures var declared := DeclaredBoundary("multipart/form-data", MultipartFormData(boundary));
      declared.Some? && ClosedBoundary(ClosingLine(boundary)) == declared
      && ClosingLine(boundary) == "--" + declared.value + "--\r\n"
    ensures ClosingLine(boundary) != "--" + boundary.stringValue + "\r\n"
  {
    var line := ClosingLine(boundary);
    var n := |boundary.stringValue|;
    assert line[..2] == "--" && line[|line| - 4..] == "--\r\n" && line[2..|line| - 4] == boundary.stringValue;
    assert line[n + 2] == '-';
  }

  // ---------------------------------------------------------------------
  // Helpers: UTF-8 lengths of the ASCII pieces of the closing lines. These
  // are facts about sequences, with no counterpart in the source.

  lemma ClosingLineAsWrittenLength(typeName: string, boundary: Boundary)
    ensures |Utf8(ClosingLineAsWritten(typeName, boundary))| == |Utf8(typeName)| + |Utf8(boundary.stringValue)| + 23
  {
    var s := boundary.stringValue;
    var head, tail := "--" + typeName + "(stringValue: \"", "\")--\r\n";
    assert ClosingLineAsWritten(typeName, boundary) == head + s + tail;
    Utf8Append(head + s, tail);
    Utf8Append(head, s);
    HeadLength(typeName);
    Utf8Ascii(tail);
  }

  /** The UTF-8 lengths of the two struct names the source trees print. */
  lemma TypeNameLengths()
    ensures |Utf8("Boundary")| == 8 && |Utf8("DPBoundary")| == 10
  {
    Utf8Ascii("Boundary");
    Utf8Ascii("DPBoundary");
  }

  lemma HeadLength(typeName: string)
    ensures |Utf8("--" + typeName + "(stringValue: \"")| == |Utf8(typeName)| + 17
  {
    AsciiPrefixLength("--", typeName);
    AsciiSuffixLength("--" + typeName, "(stringValue: \"");
  }

  lemma AsciiPrefixLength(a: string, t: string)
    requires forall i :: 0 <= i < |a| ==> a[i] as int < 0x80
    ensures |Utf8(a + t)| == |a| + |Utf8(t)|
  {
    Utf8Append(a, t);
    Utf8Ascii(a);
  }

  lemma AsciiSuffixLength(t: string, a: string)
    requires forall i :: 0 <= i < |a| ==> a[i] as int < 0x80
    ensures |Utf8(t + a)| == |Utf8(t)| + |a|
  {
    Utf8Append(t, a);
    Utf8Ascii(a);
  }

  /** The intended line is six bytes longer than the boundary's UTF-8. */
  lemma ClosingLineLength(boundary: Boundary)
    ensures |Utf8(ClosingLine(boundary))| == |Utf8(boundary.stringValue)| + 6
  {
    var s := boundary.stringValue;
    Utf8Append("--" + s, "--\r\n");
    Utf8Append("--", s);
    Utf8Ascii("--");
    Utf8Ascii("--\r\n");
  }
}

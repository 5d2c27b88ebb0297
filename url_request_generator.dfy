/** DPURLRequestGenerator.swift (newer tree): a builder object whose fields
    the setters replace and whose `generateURLRequest` assembles the URL,
    the verb, the headers (with one Content-Type per body type) and the
    body, all with the one boundary it is handed. */
module DPURLRequestGenerators {
  import opened Common
  import opened UrlRequests
  import opened BodyFormats
  import RP = RequestParameters
  import DataExtensions
  import LegacyDataExtensions
  import UrlRequestExtensions
  import LegacyRequest

  datatype BodyType = Json | FormData | FormUrlencoded | Multipart

  /** The one Content-Type `generateHeaders` adds for a body type. */
  function ContentTypeFor(bodyType: BodyType, boundary: Boundary): string {
    match bodyType
    case Json => ApplicationJson
    case FormData => ApplicationFormData(boundary)
    case FormUrlencoded => ApplicationFormUrlencoded
    case Multipart => MultipartFormData(boundary)
  }

  /** The Content-Type values tell the four body types apart, and the two
      that carry a boundary name the one they were given. */
  lemma ContentTypeForDistinct(a: BodyType, b: BodyType, boundary: Boundary)
    ensures ContentTypeFor(a, boundary) == ContentTypeFor(b, boundary) <==> a == b
    ensures DeclaredBoundary("multipart/form-data", ContentTypeFor(Multipart, boundary)) == Some(boundary.stringValue)
    ensures DeclaredBoundary("application/form-data", ContentTypeFor(FormData, boundary)) == Some(boundary.stringValue)
  {
    ContentTypesDistinct(boundary, boundary);
    assert MultipartFormData(boundary)[0] != ApplicationJson[0];
    assert MultipartFormData(boundary)[0] != ApplicationFormUrlencoded[0];
    assert ApplicationJson[12] != ApplicationFormData(boundary)[12];
    assert ApplicationJson[12] != ApplicationFormUrlencoded[12];
    assert ApplicationFormUrlencoded[12] != ApplicationFormData(boundary)[12];
  }

  // ---------------------------------------------------------------------
  // What the generator builds, as functions of its fields

  function QueryOf(queryParameters: Option<RP.Parameters>): Option<string> {
    if queryParameters.None? then None else RP.QueryStringOf(queryParameters.value)
  }

  /** The URL string: the query follows a `?` whatever the verb. */
  function UrlString(path: string, queryParameters: Option<RP.Parameters>): string {
    if QueryOf(queryParameters).Some? then path + "?" + QueryOf(queryParameters).value else path
  }

  /** The caller's headers, then the body type's Content-Type. */
  function HeadersOf(headers: Option<seq<Header>>, bodyType: Option<BodyType>, boundary: Boundary): seq<Header> {
    headers.GetOr([]) + (if bodyType.None? then [] else [Header(ContentType, ContentTypeFor(bodyType.value, boundary))])
  }

  function FormBody(bodyParameters: Option<RP.Parameters>, boundary: Boundary): Option<Bytes> {
    if bodyParameters.None? then None else RP.FormDataOf(bodyParameters.value, boundary)
  }

  function FilesBody(files: Option<Files>, boundary: Boundary): Option<Bytes> {
    if files.None? then None else FilesFormData(files.value, boundary)
  }

  /** Parameter parts, file parts, then the closing line as written, which
      interpolates the `DPBoundary` struct, not its `stringValue`. */
  function MultipartBody(bodyParameters: Option<RP.Parameters>, files: Option<Files>, boundary: Boundary): Bytes {
    FormBody(bodyParameters, boundary).GetOr([]) + FilesBody(files, boundary).GetOr([])
      + Utf8(ClosingLineAsWritten("DPBoundary", boundary))
  }

  /** The multipart body as evidently intended: closed by the boundary the
      Content-Type header declares. */
  function CorrectedMultipartBody(bodyParameters: Option<RP.Parameters>, files: Option<Files>, boundary: Boundary): Bytes {
    FormBody(bodyParameters, boundary).GetOr([]) + FilesBody(files, boundary).GetOr([]) + Utf8(ClosingLine(boundary))
  }

  /** Against the older tree's upload body: the parts agree and only the
      printed type name in the last line differs, so the two bodies as
      written differ on every input (by the two bytes of `DP`), while the
      two corrected bodies are the same. */
  lemma MultipartSameAsUpload(bodyParameters: Option<RP.Parameters>, files: Option<Files>, boundary: Boundary)
    ensures MultipartBody(bodyParameters, files, boundary)
      == LegacyRequest.UploadBodyClosedBy(bodyParameters, files, boundary, ClosingLineAsWritten("DPBoundary", boundary))
    ensures |MultipartBody(bodyParameters, files, boundary)| == |LegacyRequest.UploadBody(bodyParameters, files, boundary)| + 2
    ensures CorrectedMultipartBody(bodyParameters, files, boundary) == LegacyRequest.CorrectedUploadBody(bodyParameters, files, boundary)
  {
    LegacyRequest.UploadBodyParts(bodyParameters, files, boundary, ClosingLineAsWritten("DPBoundary", boundary));
    LegacyRequest.UploadBodyParts(bodyParameters, files, boundary, ClosingLineAsWritten("Boundary", boundary));
    LegacyRequest.UploadBodyParts(bodyParameters, files, boundary, ClosingLine(boundary));
    ClosingLineAsWrittenLength("DPBoundary", boundary);
    ClosingLineAsWrittenLength("Boundary", boundary);
    TypeNameLengths();
  }

  function BodyOf(bodyType: Option<BodyType>, bodyParameters: Option<RP.Parameters>, files: Option<Files>, boundary: Boundary): Option<Bytes> {
    if bodyType.None? then None
    else
      match bodyType.value
      case Json => if bodyParameters.None? then None else RP.ToData(bodyParameters.value)
      case FormData => FormBody(bodyParameters, boundary)
      case FormUrlencoded =>
        if bodyParameters.None? || RP.QueryStringOf(bodyParameters.value).None? then None
        else Some(Utf8(RP.QueryStringOf(bodyParameters.value).value))
      case Multipart => Some(MultipartBody(bodyParameters, files, boundary))
  }

  function WithBody(r: URLRequest, body: Option<Bytes>): URLRequest {
    if body.None? then r else r.(httpBody := body)
  }

  /** The request before headers and body: the URL and the verb. */
  function Base(path: string, httpMethod: HTTPMethod, queryParameters: Option<RP.Parameters>): (r: URLRequest)
    ensures r.headerFields == map[] && r.httpBody.None?
  {
    Init(UrlString(path, queryParameters)).(httpMethod := httpMethod.StringValue())
  }

  function Generated(
    path: string, httpMethod: HTTPMethod, headers: Option<seq<Header>>, queryParameters: Option<RP.Parameters>,
    bodyType: Option<BodyType>, bodyParameters: Option<RP.Parameters>, files: Option<Files>,
    boundary: Boundary, validUrl: string -> bool): Option<URLRequest>
  {
    if !validUrl(UrlString(path, queryParameters)) then None
    else
      Some(WithBody(
        WithHeaders(Base(path, httpMethod, queryParameters), Some(HeadersOf(headers, bodyType, boundary))),
        BodyOf(bodyType, bodyParameters, files, boundary)))
  }

  // ---------------------------------------------------------------------
  // Properties of the generated request

  /** The headers are the caller's, unchanged and in order, followed by
      exactly one Content-Type when there is a body type, whatever the
      parameters and files, and nothing more. */
  lemma HeadersShape(headers: Option<seq<Header>>, bodyType: Option<BodyType>, boundary: Boundary)
    ensures var hs := HeadersOf(headers, bodyType, boundary);
      && |hs| == |headers.GetOr([])| + (if bodyType.Some? then 1 else 0)
      && hs[..|headers.GetOr([])|] == headers.GetOr([])
      && (bodyType.Some? ==> hs[|hs| - 1] == Header(ContentType, ContentTypeFor(bodyType.value, boundary)))
  {
  }

  /** The request is nil exactly when the URL string does not parse; the
      query, even "", is appended for every verb, GET or not. Otherwise the
      request has the verb, the fields the generated headers leave and the
      generated body, if any. */
  lemma GeneratedParts(
    path: string, httpMethod: HTTPMethod, headers: Option<seq<Header>>, queryParameters: Option<RP.Parameters>,
    bodyType: Option<BodyType>, bodyParameters: Option<RP.Parameters>, files: Option<Files>,
    boundary: Boundary, validUrl: string -> bool)
    ensures var r := Generated(path, httpMethod, headers, queryParameters, bodyType, bodyParameters, files, boundary, validUrl);
      var url := if QueryOf(queryParameters).Some? then path + "?" + QueryOf(queryParameters).value else path;
      && (r.None? <==> !validUrl(url))
      && (r.Some? ==> r.value == URLRequest(url, httpMethod.StringValue(), GeneratedFields(headers, bodyType, boundary),
                                           BodyOf(bodyType, bodyParameters, files, boundary)))
  {
    if validUrl(UrlString(path, queryParameters)) {
      Assembled(Base(path, httpMethod, queryParameters), HeadersOf(headers, bodyType, boundary),
        BodyOf(bodyType, bodyParameters, files, boundary));
      GeneratedFieldsApplied(headers, bodyType, boundary);
    }
  }

  lemma Assembled(base: URLRequest, hs: seq<Header>, body: Option<Bytes>)
    requires base.headerFields == map[] && base.httpBody.None?
    ensures WithBody(WithHeaders(base, Some(hs)), body).headerFields == FieldsAfter(map[], hs)
    ensures WithBody(WithHeaders(base, Some(hs)), body).httpBody == body
  {
  }

  /** The fields the generated header list leaves: the caller's, then the
      body type's Content-Type set over them. */
  function GeneratedFields(headers: Option<seq<Header>>, bodyType: Option<BodyType>, boundary: Boundary): map<string, string> {
    var caller := FieldsAfter(map[], headers.GetOr([]));
    if bodyType.None? then caller else caller[AsciiLower(ContentType) := ContentTypeFor(bodyType.value, boundary)]
  }

  /** Applying the generated list with `setValue`, one header after the
      other, leaves exactly those fields. */
  lemma GeneratedFieldsApplied(headers: Option<seq<Header>>, bodyType: Option<BodyType>, boundary: Boundary)
    ensures FieldsAfter(map[], HeadersOf(headers, bodyType, boundary)) == GeneratedFields(headers, bodyType, boundary)
  {
    var hs := headers.GetOr([]);
    if bodyType.Some? {
      LastHeaderWins(map[], hs, Header(ContentType, ContentTypeFor(bodyType.value, boundary)));
    } else {
      assert HeadersOf(headers, bodyType, boundary) == hs;
    }
  }

  lemma LastHeaderWins(fields: map<string, string>, hs: seq<Header>, h: Header)
    ensures FieldsAfter(fields, hs + [h]) == FieldsAfter(fields, hs)[AsciiLower(h.key) := h.value]
  {
    assert (hs + [h])[..|hs|] == hs;
  }

  /** In a request carrying the generated fields, the body type, when there
      is one, alone decides the Content-Type, overriding a caller's; without
      one the caller's Content-Type, if any, stays. */
  lemma GeneratedContentType(r: URLRequest, headers: Option<seq<Header>>, bodyType: Option<BodyType>, boundary: Boundary)
    requires r.headerFields == GeneratedFields(headers, bodyType, boundary)
    ensures bodyType.Some? ==> Field(r, ContentType) == Some(ContentTypeFor(bodyType.value, boundary))
    ensures bodyType.None? ==> Field(r, ContentType) == Field(WithHeaders(Init(r.url), headers), ContentType)
  {
    CallerFields(r.url, headers);
  }

  /** In a request carrying the generated fields, every header other than
      Content-Type is exactly the caller's. */
  lemma GeneratedOtherHeaders(r: URLRequest, headers: Option<seq<Header>>, bodyType: Option<BodyType>, boundary: Boundary, name: string)
    requires r.headerFields == GeneratedFields(headers, bodyType, boundary)
    requires AsciiLower(name) != AsciiLower(ContentType)
    ensures Field(r, name) == Field(WithHeaders(Init(r.url), headers), name)
  {
    CallerFields(r.url, headers);
  }

  lemma CallerFields(url: string, headers: Option<seq<Header>>)
    ensures WithHeaders(Init(url), headers).headerFields == FieldsAfter(map[], headers.GetOr([]))
  {
  }

  /** A multipart body type always gives a body: parameter parts, file
      parts, then the closing line as written, which closes
      `DPBoundary(stringValue: "…")` and never the boundary that the
      multipart Content-Type declares. */
  lemma MultipartBodyOf(bodyParameters: Option<RP.Parameters>, files: Option<Files>, boundary: Boundary)
    ensures BodyOf(Some(Multipart), bodyParameters, files, boundary) ==
      Some(FormBody(bodyParameters, boundary).GetOr([]) + FilesBody(files, boundary).GetOr([])
        + Utf8(ClosingLineAsWritten("DPBoundary", boundary)))
    ensures DeclaredBoundary("multipart/form-data", ContentTypeFor(Multipart, boundary)) == Some(boundary.stringValue)
    ensures ClosedBoundary(ClosingLineAsWritten("DPBoundary", boundary))
      != DeclaredBoundary("multipart/form-data", ContentTypeFor(Multipart, boundary))
  {
    ClosingLineMismatch("DPBoundary", boundary);
  }

  /** As written, the multipart body is longer than the intended one, for
      every input, by the 27 bytes of `DPBoundary(stringValue: "")`. */
  lemma MultipartBodyMismatch(bodyParameters: Option<RP.Parameters>, files: Option<Files>, boundary: Boundary)
    ensures |MultipartBody(bodyParameters, files, boundary)| == |CorrectedMultipartBody(bodyParameters, files, boundary)| + 27
    ensures MultipartBody(bodyParameters, files, boundary) != CorrectedMultipartBody(bodyParameters, files, boundary)
  {
    ClosingLineMismatch("DPBoundary", boundary);
    TypeNameLengths();
  }

  /** The corrected multipart body ends with the close-delimiter of the
      boundary the Content-Type declares (section 5.1.1 of RFC 2046). */
  lemma CorrectedMultipartCloses(bodyParameters: Option<RP.Parameters>, files: Option<Files>, boundary: Boundary)
    ensures var declared := DeclaredBoundary("multipart/form-data", ContentTypeFor(Multipart, boundary));
      && declared.Some?
      && CorrectedMultipartBody(bodyParameters, files, boundary) ==
           FormBody(bodyParameters, boundary).GetOr([]) + FilesBody(files, boundary).GetOr([]) + Utf8("--" + declared.value + "--\r\n")
      && ClosedBoundary(ClosingLine(boundary)) == declared
  {
    ClosingLineCloses(boundary);
  }

  /** Header and body are decided apart: a JSON body type announces
      `application/json` even when there is no body to send. */
  lemma JsonHeaderWithoutBody(
    r: URLRequest, headers: Option<seq<Header>>, bodyParameters: Option<RP.Parameters>, files: Option<Files>, boundary: Boundary)
    requires bodyParameters.None? || RP.ToData(bodyParameters.value).None?
    requires r.headerFields == GeneratedFields(headers, Some(Json), boundary)
    requires r.httpBody == BodyOf(Some(Json), bodyParameters, files, boundary)
    ensures r.httpBody.None? && Field(r, ContentType) == Some(ApplicationJson)
  {
    GeneratedContentType(r, headers, Some(Json), boundary);
  }

  // ---------------------------------------------------------------------
  // `Files.createFormData` (also declared, line for line, by `DPRequest.Files`)

  method CreateFormData(files: Files, boundary: Boundary) returns (r: Option<Bytes>)
    ensures r == FilesFormData(files, boundary)
  {
    if files.files == [] {
      return None;
    }
    var fs := files.files;
    var result: Bytes := [];
    for n := 0 to |fs|
      invariant result == FileParts(boundary.stringValue, files.fileKey, fs[..n])
    {
      assert fs[..n + 1][..n] == fs[..n];
      var file := fs[n];
      DataExtensions.SameAsOlderRevision(file.data);
      var lines := FileHeadLines(boundary.stringValue, files.fileKey, file.filename, DataExtensions.MimeType(file.data));
      assert FileParts(boundary.stringValue, files.fileKey, fs[..n + 1]) ==
        FileParts(boundary.stringValue, files.fileKey, fs[..n]) + Utf8OfPresent(lines) + file.data + Utf8OfPresent([Some("\r\n")]);
      result := DataExtensions.AppendStrings(result, lines);
      result := result + file.data;
      result := DataExtensions.AppendStrings(result, [Some("\r\n")]);
    }
    assert fs[..|fs|] == fs;
    r := Some(result);
  }

  // ---------------------------------------------------------------------
  // The generator object

  class DPURLRequestGenerator {
    const urlPath: string
    const httpMethod: HTTPMethod
    var headers: Option<seq<Header>>
    var queryParameters: Option<RP.Parameters>
    var bodyType: Option<BodyType>
    var bodyParameters: Option<RP.Parameters>
    var files: Option<Files>

    /** `init`: the body type is stored even without body parameters, which
        are kept only together with a body type. */
    constructor(
      urlPath: string, httpMethod: HTTPMethod, headers: Option<seq<Header>>,
      queryParameters: Option<RP.Parameters>, bodyType: Option<BodyType>,
      bodyParameters: Option<RP.Parameters>, files: Option<Files>)
      ensures this.urlPath == urlPath && this.httpMethod == httpMethod
      ensures this.headers == headers && this.files == files
      ensures this.queryParameters == queryParameters
      ensures this.bodyType == bodyType
      ensures this.bodyParameters == if bodyParameters.Some? && bodyType.Some? then bodyParameters else None
    {
      this.urlPath := urlPath;
      this.httpMethod := httpMethod;
      this.bodyType := bodyType;
      this.headers := headers;
      this.files := files;
      this.queryParameters := None;
      this.bodyParameters := None;
      new;
      if queryParameters.Some? {
        var _ := SetQueryParameters(queryParameters.value);
      }
      if bodyParameters.Some? && bodyType.Some? {
        var _ := SetBodyParameters(bodyParameters.value, bodyType.value);
      }
    }

    /** `setQueryParameters`: replaces the query parameters only and returns
        the same generator. */
    method SetQueryParameters(parameters: RP.Parameters) returns (g: DPURLRequestGenerator)
      modifies this
      ensures g == this
      ensures queryParameters == Some(parameters)
      ensures headers == old(headers) && bodyType == old(bodyType)
      ensures bodyParameters == old(bodyParameters) && files == old(files)
    {
      queryParameters := Some(parameters);
      g := this;
    }

    /** `setBodyParameters`: replaces both the body parameters and the body
        type and returns the same generator. */
    method SetBodyParameters(parameters: RP.Parameters, bodyType: BodyType) returns (g: DPURLRequestGenerator)
      modifies this
      ensures g == this
      ensures bodyParameters == Some(parameters) && this.bodyType == Some(bodyType)
      ensures headers == old(headers) && queryParameters == old(queryParameters) && files == old(files)
    {
      bodyParameters := Some(parameters);
      this.bodyType := Some(bodyType);
      g := this;
    }

    /** `generateURLRequest`: nil exactly when the URL is nil; the boundary
        is the one both the headers and the body use. */
    method GenerateURLRequest(boundary: Boundary, validUrl: string -> bool) returns (r: Option<URLRequest>)
      ensures r == Generated(urlPath, httpMethod, headers, queryParameters, bodyType, bodyParameters, files, boundary, validUrl)
    {
      var url := GenerateURL(validUrl);
      if url.None? {
        return None;
      }
      var request := Init(url.value);
      request := request.(httpMethod := httpMethod.StringValue());
      var hs := GenerateHeaders(boundary);
      request := UrlRequestExtensions.AppendRequestHeaders(request, Some(hs));
      var httpBody := GenerateHttpBody(boundary);
      if httpBody.Some? {
        request := request.(httpBody := httpBody);
      }
      r := Some(request);
    }

    /** `generateURL`. */
    method GenerateURL(validUrl: string -> bool) returns (url: Option<string>)
      ensures url.Some? <==> validUrl(UrlString(urlPath, queryParameters))
      ensures url.Some? ==> url.value == UrlString(urlPath, queryParameters)
    {
      var path := urlPath;
      var parameters := GenerateQueryParameters();
      if parameters.Some? {
        path := path + "?" + parameters.value;
      }
      url := if validUrl(path) then Some(path) else None;
    }

    /** `generateHeaders`: the caller's headers, then one Content-Type per
        body type. */
    method GenerateHeaders(boundary: Boundary) returns (hs: seq<Header>)
      ensures hs == HeadersOf(headers, bodyType, boundary)
    {
      hs := if headers.Some? then headers.value else [];
      if bodyType.Some? {
        match bodyType.value {
          case Json =>
            hs := hs + [Header(ContentType, ApplicationJson)];
          case FormData =>
            hs := hs + [Header(ContentType, ApplicationFormData(boundary))];
          case FormUrlencoded =>
            hs := hs + [Header(ContentType, ApplicationFormUrlencoded)];
          case Multipart =>
            hs := hs + [Header(ContentType, MultipartFormData(boundary))];
        }
      }
    }

    /** `generateHttpBody`. */
    method GenerateHttpBody(boundary: Boundary) returns (body: Option<Bytes>)
      ensures body == BodyOf(bodyType, bodyParameters, files, boundary)
    {
      if bodyType.None? {
        return None;
      }
      match bodyType.value {
        case Json =>
          body := GenerateJsonHttpBody();
        case FormData =>
          body := GenerateFormDataHttpBody(boundary);
        case FormUrlencoded =>
          body := GenerateFormUrlencodedHttpBody();
        case Multipart =>
          var result := GenerateMultipartHttpBody(boundary);
          body := Some(result);
      }
    }

    /** The multipart branch of `generateHttpBody`: the parameter parts and
        the file parts are appended when present, then the closing line. */
    method GenerateMultipartHttpBody(boundary: Boundary) returns (result: Bytes)
      ensures result == MultipartBody(bodyParameters, files, boundary)
    {
      result := [];
      var parameters := GenerateFormDataHttpBody(boundary);
      if parameters.Some? {
        result := result + parameters.value;
      }
      assert result == FormBody(bodyParameters, boundary).GetOr([]);
      var fileParts: Option<Bytes> := None;
      if files.Some? {
        fileParts := CreateFormData(files.value, boundary);
      }
      assert fileParts == FilesBody(files, boundary);
      if fileParts.Some? {
        result := result + fileParts.value;
      }
      result := DataExtensions.AppendStrings(result, [Some(ClosingLineAsWritten("DPBoundary", boundary))]);
      Utf8OfOne(ClosingLineAsWritten("DPBoundary", boundary));
    }

    /** `generateQueryParameters`: `toQueryString` of the query parameters. */
    method GenerateQueryParameters() returns (q: Option<string>)
      ensures q == QueryOf(queryParameters)
      ensures q.None? <==> queryParameters.None? || RP.ToDictionary(queryParameters.value).None?
    {
      if queryParameters.None? {
        return None;
      }
      q := RP.ToQueryString(queryParameters.value);
    }

    /** `generateJsonHttpBody`: `toData` of the body parameters. */
    method GenerateJsonHttpBody() returns (body: Option<Bytes>)
      ensures body.Some? <==> bodyParameters.Some? && RP.ToData(bodyParameters.value).Some?
      ensures body.Some? ==> body == RP.ToData(bodyParameters.value)
    {
      if bodyParameters.None? {
        return None;
      }
      body := RP.ToData(bodyParameters.value);
    }

    /** `generateFormDataHttpBody`: `toFormData`, nil for missing, nil or
        empty parameters. */
    method GenerateFormDataHttpBody(boundary: Boundary) returns (body: Option<Bytes>)
      ensures body == FormBody(bodyParameters, boundary)
      ensures body.None? <==>
        bodyParameters.None? || RP.ToDictionary(bodyParameters.value).None? || RP.ToDictionary(bodyParameters.value).value == []
    {
      if bodyParameters.None? {
        return None;
      }
      body := RP.ToFormData(bodyParameters.value, boundary);
    }

    /** `generateFormUrlencodedHttpBody`: the UTF-8 bytes of the query string
        of the body parameters. */
    method GenerateFormUrlencodedHttpBody() returns (body: Option<Bytes>)
      ensures body.None? <==> bodyParameters.None? || RP.ToDictionary(bodyParameters.value).None?
      ensures body.Some? ==> body.value == Utf8(RP.QueryString(RP.ToDictionary(bodyParameters.value).value))
    {
      if bodyParameters.None? {
        return None;
      }
      var q := RP.ToQueryString(bodyParameters.value);
      if q.None? {
        return None;
      }
      body := Some(Utf8(q.value));
    }
  }
}

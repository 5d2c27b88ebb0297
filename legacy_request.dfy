/** Request.swift (older tree): a request description that builds its
    `URLRequest` and guards its loads with `isLoading`. */
module LegacyRequest {
  import opened Common
  import opened UrlRequests
  import opened BodyFormats
  import RP = RequestParameters
  import LegacyDataExtensions
  import RequestHeaderExtension
  import opened NetworkWorkers
  import opened ResponseStatusCodes

  datatype MethodType = Get | Head | Post | Put | Patch | Delete | Upload

  /** `MethodType.httpMethod`. */
  function HttpMethod(m: MethodType): HTTPMethod {
    match m
    case Get => HTTPMethod.Get
    case Head => HTTPMethod.Head
    case Post => HTTPMethod.Post
    case Put => HTTPMethod.Put
    case Patch => HTTPMethod.Patch
    case Delete => HTTPMethod.Delete
    case Upload => HTTPMethod.Post
  }

  /** Each case maps to its namesake verb except `upload`, which is POST;
      that is the only collision. */
  lemma HttpMethodMapping(m: MethodType, n: MethodType)
    ensures HttpMethod(m) == HTTPMethod.Post <==> m == MethodType.Post || m == MethodType.Upload
    ensures HttpMethod(m) == HttpMethod(n) && m != n ==> {m, n} == {MethodType.Post, MethodType.Upload}
    ensures HttpMethod(m) != HTTPMethod.Options && HttpMethod(m) != HTTPMethod.Trace && HttpMethod(m) != HTTPMethod.Connect
  {
  }

  datatype BodyType = NoBody | Json | FormData

  predicate IsQueryMethod(m: MethodType) {
    m == MethodType.Get || m == MethodType.Head
  }

  // ---------------------------------------------------------------------
  // `parametersToQueryString`: one segment per entry, "" on failure

  function Segment(key: string, value: RP.Value): string {
    RP.Item(key, value).GetOr("")
  }

  function Segments(d: seq<(string, RP.Value)>): seq<string> {
    if d == [] then []
    else Segments(d[..|d| - 1]) + [Segment(d[|d| - 1].0, d[|d| - 1].1)]
  }

  function LegacyQueryStringOf(parameters: Option<RP.Parameters>): Option<string> {
    if parameters.None? then None
    else
      match RP.ToDictionary(parameters.value)
      case None => None
      case Some(d) => Some(Join("&", Segments(d)))
  }

  /** Unlike `toQueryString`, every entry keeps its place, failures as "". */
  lemma {:induction false} OneSegmentPerEntry(d: seq<(string, RP.Value)>)
    ensures |Segments(d)| == |d|
    ensures forall i :: 0 <= i < |d| ==> Segments(d)[i] == Segment(d[i].0, d[i].1)
  {
    if d != [] {
      var init := d[..|d| - 1];
      OneSegmentPerEntry(init);
      SegmentOfEntry(d, Segments(init), |d| - 1);
    }
  }

  /** Indexing the last step of `Segments`. */
  lemma SegmentOfEntry(d: seq<(string, RP.Value)>, prefix: seq<string>, n: nat)
    requires n == |d| - 1 && |prefix| == n
    requires forall i :: 0 <= i < n ==> prefix[i] == Segment(d[..n][i].0, d[..n][i].1)
    ensures forall i :: 0 <= i < |d| ==>
      (prefix + [Segment(d[n].0, d[n].1)])[i] == Segment(d[i].0, d[i].1)
  {
    forall i | 0 <= i < |d|
      ensures (prefix + [Segment(d[n].0, d[n].1)])[i] == Segment(d[i].0, d[i].1)
    {
      if i < n {
        assert d[..n][i] == d[i];
      }
    }
  }

  lemma {:induction false} SegmentsAreItems(d: seq<(string, RP.Value)>)
    ensures Segments(d) == RP.Items(d)
  {
    if d != [] {
      SegmentsAreItems(d[..|d| - 1]);
      RP.ItemOfEntry(d[|d| - 1].0, d[|d| - 1].1);
    }
  }

  /** Since percent-encoding never fails, the two query builders agree. */
  lemma SameAsProtocolQueryString(parameters: Option<RP.Parameters>)
    ensures LegacyQueryStringOf(parameters) == OptQuery(parameters)
  {
    if parameters.Some? && RP.ToDictionary(parameters.value).Some? {
      SegmentsAreItems(RP.ToDictionary(parameters.value).value);
    }
  }

  // ---------------------------------------------------------------------
  // What `createURLRequest` (and `URLRequest.create`) builds

  function OptQuery(p: Option<RP.Parameters>): Option<string> {
    if p.None? then None else RP.QueryStringOf(p.value)
  }

  function OptJson(p: Option<RP.Parameters>): Option<Bytes> {
    if p.None? then None else RP.ToData(p.value)
  }

  function OptForm(p: Option<RP.Parameters>, boundary: Boundary): Option<Bytes> {
    if p.None? then None else RP.FormDataOf(p.value, boundary)
  }

  function OptFiles(files: Option<Files>, boundary: Boundary): Option<Bytes> {
    if files.None? then None else FilesFormData(files.value, boundary)
  }

  /** An upload body: parameter parts, file parts, then the given last line. */
  function UploadBodyClosedBy(p: Option<RP.Parameters>, files: Option<Files>, boundary: Boundary, closing: string): Bytes {
    PresentBytes([OptForm(p, boundary), OptFiles(files, boundary)]) + Utf8OfPresent([Some(closing)])
  }

  /** The upload body as `createURLRequest` writes it: the last line
      interpolates the `Boundary` struct, not its `stringValue`. */
  function UploadBody(p: Option<RP.Parameters>, files: Option<Files>, boundary: Boundary): Bytes {
    UploadBodyClosedBy(p, files, boundary, ClosingLineAsWritten("Boundary", boundary))
  }

  /** The upload body as evidently intended: closed by the boundary the
      Content-Type header declares. */
  function CorrectedUploadBody(p: Option<RP.Parameters>, files: Option<Files>, boundary: Boundary): Bytes {
    UploadBodyClosedBy(p, files, boundary, ClosingLine(boundary))
  }

  /** The URL string: the query is appended for GET and HEAD only. */
  function RequestUrl(path: string, m: MethodType, p: Option<RP.Parameters>): string {
    if IsQueryMethod(m) && OptQuery(p).Some? then path + "?" + OptQuery(p).value else path
  }

  /** The request before any body: URL, verb, the caller's headers. */
  function Base(path: string, m: MethodType, p: Option<RP.Parameters>, headers: Option<seq<Header>>): URLRequest {
    WithHeaders(Init(RequestUrl(path, m, p)).(httpMethod := HttpMethod(m).StringValue()), headers)
  }

  /** Whatever the URL, the caller's headers start from no fields. */
  lemma BaseFields(path: string, m: MethodType, p: Option<RP.Parameters>, headers: Option<seq<Header>>)
    ensures Base(path, m, p, headers).headerFields == WithHeaders(Init(path), headers).headerFields
  {
  }

  /** A body with the Content-Type value that announces it. */
  datatype Payload = Payload(contentType: string, bytes: Bytes)

  /** The body each method type and body type produce, if any. */
  function BodyFor(m: MethodType, bodyType: BodyType, p: Option<RP.Parameters>, files: Option<Files>, boundary: Boundary): Option<Payload> {
    if IsQueryMethod(m) then None
    else if m == MethodType.Upload then Some(Payload(MultipartFormData(boundary), UploadBody(p, files, boundary)))
    else
      match bodyType
      case NoBody => None
      case Json => if OptJson(p).None? then None else Some(Payload(ApplicationJson, OptJson(p).value))
      case FormData =>
        if OptForm(p, boundary).None? then None
        else Some(Payload(ApplicationFormData(boundary), OptForm(p, boundary).value))
  }

  /** Sets the body and, with `setRequestHeaders`, its Content-Type; no
      payload leaves the request as it is. */
  function Attach(base: URLRequest, payload: Option<Payload>): (r: URLRequest)
    ensures r.url == base.url && r.httpMethod == base.httpMethod
    ensures payload.None? ==> r == base
    ensures payload.Some? ==> r.httpBody == Some(payload.value.bytes) && Field(r, ContentType) == Some(payload.value.contentType)
    ensures forall n {:trigger Field(r, n)} :: AsciiLower(n) != AsciiLower(ContentType) ==> Field(r, n) == Field(base, n)
  {
    if payload.None? then base
    else SetValue(base.(httpBody := Some(payload.value.bytes)), payload.value.contentType, ContentType)
  }

  function Created(
    path: string, m: MethodType, bodyType: BodyType, p: Option<RP.Parameters>,
    headers: Option<seq<Header>>, files: Option<Files>, boundary: Boundary,
    validUrl: string -> bool): Option<URLRequest>
  {
    if !validUrl(RequestUrl(path, m, p)) then None
    else Some(Attach(Base(path, m, p, headers), BodyFor(m, bodyType, p, files, boundary)))
  }

  /** The request is nil exactly when the URL string does not parse; the
      verb is the method type's. */
  lemma CreatedNilIffInvalidUrl(
    path: string, m: MethodType, bodyType: BodyType, p: Option<RP.Parameters>,
    headers: Option<seq<Header>>, files: Option<Files>, boundary: Boundary, validUrl: string -> bool)
    ensures var r := Created(path, m, bodyType, p, headers, files, boundary, validUrl);
      (r.None? <==> !validUrl(RequestUrl(path, m, p)))
      && (r.Some? ==> r.value.url == RequestUrl(path, m, p) && r.value.httpMethod == HttpMethod(m).StringValue())
  {
  }

  /** GET and HEAD: the query string (even "") follows a `?`, the caller's
      headers are all there is, and no body is set. */
  lemma QueryMethodRequest(
    path: string, m: MethodType, bodyType: BodyType, p: Option<RP.Parameters>,
    headers: Option<seq<Header>>, files: Option<Files>, boundary: Boundary, validUrl: string -> bool)
    requires IsQueryMethod(m)
    ensures var r := Created(path, m, bodyType, p, headers, files, boundary, validUrl);
      r.Some? ==>
        && (OptQuery(p).Some? ==> r.value.url == path + "?" + OptQuery(p).value)
        && (OptQuery(p).None? ==> r.value.url == path)
        && r.value.httpBody.None?
        && r.value.headerFields == WithHeaders(Init(path), headers).headerFields
  {
  }

  /** A JSON body and its Content-Type come together, only when `toData`
      yields bytes, and the Content-Type overrides the caller's. */
  lemma JsonRequest(
    path: string, m: MethodType, p: Option<RP.Parameters>,
    headers: Option<seq<Header>>, files: Option<Files>, boundary: Boundary, validUrl: string -> bool)
    requires !IsQueryMethod(m) && m != MethodType.Upload
    ensures var r := Created(path, m, BodyType.Json, p, headers, files, boundary, validUrl);
      r.Some? ==>
        && r.value.url == path
        && r.value.httpBody == OptJson(p)
        && (OptJson(p).Some? ==> Field(r.value, ContentType) == Some(ApplicationJson))
        && (OptJson(p).None? ==> r.value.headerFields == WithHeaders(Init(path), headers).headerFields)
  {
    CreatedIsAttach(path, m, BodyType.Json, p, headers, files, boundary, validUrl);
    BaseFields(path, m, p, headers);
  }

  /** A form body has no closing delimiter, and its Content-Type names the
      boundary its parts use; both only when the dictionary is non-empty. */
  lemma FormDataRequest(
    path: string, m: MethodType, p: Option<RP.Parameters>,
    headers: Option<seq<Header>>, files: Option<Files>, boundary: Boundary, validUrl: string -> bool)
    requires !IsQueryMethod(m) && m != MethodType.Upload
    ensures var r := Created(path, m, BodyType.FormData, p, headers, files, boundary, validUrl);
      r.Some? ==>
        && r.value.httpBody == OptForm(p, boundary)
        && (r.value.httpBody.Some? ==>
              && r.value.httpBody.value == RP.FormDataBytes(boundary.stringValue, RP.ToDictionary(p.value).value)
              && Field(r.value, ContentType) == Some(ApplicationFormData(boundary))
              && DeclaredBoundary("application/form-data", Field(r.value, ContentType).value) == Some(boundary.stringValue))
        && (r.value.httpBody.None? ==> r.value.headerFields == WithHeaders(Init(path), headers).headerFields)
  {
    CreatedIsAttach(path, m, BodyType.FormData, p, headers, files, boundary, validUrl);
    FormPayload(m, p, files, boundary);
    BaseFields(path, m, p, headers);
  }

  lemma FormPayload(m: MethodType, p: Option<RP.Parameters>, files: Option<Files>, boundary: Boundary)
    requires !IsQueryMethod(m) && m != MethodType.Upload
    ensures var payload := BodyFor(m, BodyType.FormData, p, files, boundary);
      && (payload.None? <==> OptForm(p, boundary).None?)
      && (payload.Some? ==>
            && payload.value.contentType == ApplicationFormData(boundary)
            && payload.value.bytes == RP.FormDataBytes(boundary.stringValue, RP.ToDictionary(p.value).value))
  {
  }

  /** Whatever its last line, an upload body is the parameter parts, then
      the file parts, then that line. */
  lemma UploadBodyParts(p: Option<RP.Parameters>, files: Option<Files>, boundary: Boundary, closing: string)
    ensures UploadBodyClosedBy(p, files, boundary, closing) ==
      OptForm(p, boundary).GetOr([]) + OptFiles(files, boundary).GetOr([]) + Utf8(closing)
  {
    var datas := [OptForm(p, boundary), OptFiles(files, boundary)];
    assert datas[..1] == [OptForm(p, boundary)];
    assert datas[..1][..0] == [];
    assert PresentBytes(datas[..1]) == OptForm(p, boundary).GetOr([]);
    assert PresentBytes(datas) == PresentBytes(datas[..1]) + OptFiles(files, boundary).GetOr([]);
    Utf8OfOne(closing);
  }

  /** An upload always declares a multipart Content-Type and always has a
      body: parameter parts, file parts, then the closing line as written,
      which closes `Boundary(stringValue: "…")` and not the boundary that
      Content-Type declares. */
  lemma UploadRequest(
    path: string, bodyType: BodyType, p: Option<RP.Parameters>,
    headers: Option<seq<Header>>, files: Option<Files>, boundary: Boundary, validUrl: string -> bool)
    ensures var r := Created(path, MethodType.Upload, bodyType, p, headers, files, boundary, validUrl);
      r.Some? ==>
        && Field(r.value, ContentType) == Some(MultipartFormData(boundary))
        && r.value.httpBody == Some(OptForm(p, boundary).GetOr([]) + OptFiles(files, boundary).GetOr([])
             + Utf8(ClosingLineAsWritten("Boundary", boundary)))
    ensures DeclaredBoundary("multipart/form-data", MultipartFormData(boundary)) == Some(boundary.stringValue)
    ensures ClosedBoundary(ClosingLineAsWritten("Boundary", boundary)) == Some(Describe("Boundary", boundary))
  {
    CreatedIsAttach(path, MethodType.Upload, bodyType, p, headers, files, boundary, validUrl);
    UploadPayload(bodyType, p, files, boundary);
    ClosingLineMismatch("Boundary", boundary);
  }

  /** Whatever the body type, an upload's payload is the multipart body as
      written, under the multipart Content-Type. */
  lemma UploadPayload(bodyType: BodyType, p: Option<RP.Parameters>, files: Option<Files>, boundary: Boundary)
    ensures BodyFor(MethodType.Upload, bodyType, p, files, boundary) == Some(Payload(MultipartFormData(boundary),
      OptForm(p, boundary).GetOr([]) + OptFiles(files, boundary).GetOr([])
        + Utf8(ClosingLineAsWritten("Boundary", boundary))))
  {
    UploadBodyParts(p, files, boundary, ClosingLineAsWritten("Boundary", boundary));
  }

  /** As written, the upload body's last line never closes the boundary its
      Content-Type declares, and the body is, for every input, longer than
      the intended one by the 25 bytes of `Boundary(stringValue: "")`
      wrapped around the boundary. */
  lemma UploadBodyMismatch(p: Option<RP.Parameters>, files: Option<Files>, boundary: Boundary)
    ensures UploadBody(p, files, boundary) ==
      OptForm(p, boundary).GetOr([]) + OptFiles(files, boundary).GetOr([]) + Utf8(ClosingLineAsWritten("Boundary", boundary))
    ensures ClosedBoundary(ClosingLineAsWritten("Boundary", boundary))
      != DeclaredBoundary("multipart/form-data", MultipartFormData(boundary))
    ensures |UploadBody(p, files, boundary)| == |CorrectedUploadBody(p, files, boundary)| + 25
    ensures UploadBody(p, files, boundary) != CorrectedUploadBody(p, files, boundary)
  {
    UploadBodyParts(p, files, boundary, ClosingLineAsWritten("Boundary", boundary));
    UploadBodyParts(p, files, boundary, ClosingLine(boundary));
    ClosingLineMismatch("Boundary", boundary);
    TypeNameLengths();
  }

  /** The corrected upload body ends with the close-delimiter of the
      boundary its Content-Type declares (section 5.1.1 of RFC 2046). */
  lemma CorrectedUploadCloses(p: Option<RP.Parameters>, files: Option<Files>, boundary: Boundary)
    ensures var declared := DeclaredBoundary("multipart/form-data", MultipartFormData(boundary));
      && declared.Some?
      && CorrectedUploadBody(p, files, boundary) ==
           OptForm(p, boundary).GetOr([]) + OptFiles(files, boundary).GetOr([]) + Utf8("--" + declared.value + "--\r\n")
      && ClosedBoundary(ClosingLine(boundary)) == declared
  {
    UploadBodyParts(p, files, boundary, ClosingLine(boundary));
    ClosingLineCloses(boundary);
  }

  /** Headers other than Content-Type are exactly the caller's. */
  lemma CallerHeadersKept(
    path: string, m: MethodType, bodyType: BodyType, p: Option<RP.Parameters>,
    headers: Option<seq<Header>>, files: Option<Files>, boundary: Boundary, validUrl: string -> bool, name: string)
    requires AsciiLower(name) != AsciiLower(ContentType)
    ensures var r := Created(path, m, bodyType, p, headers, files, boundary, validUrl);
      r.Some? ==> Field(r.value, name) == Field(WithHeaders(Init(path), headers), name)
  {
    CreatedIsAttach(path, m, bodyType, p, headers, files, boundary, validUrl);
    AttachKeepsCallerHeaders(path, m, p, headers, BodyFor(m, bodyType, p, files, boundary), name);
  }

  lemma CreatedIsAttach(
    path: string, m: MethodType, bodyType: BodyType, p: Option<RP.Parameters>,
    headers: Option<seq<Header>>, files: Option<Files>, boundary: Boundary, validUrl: string -> bool)
    ensures var r := Created(path, m, bodyType, p, headers, files, boundary, validUrl);
      r.Some? ==> r.value == Attach(Base(path, m, p, headers), BodyFor(m, bodyType, p, files, boundary))
  {
  }

  lemma AttachKeepsCallerHeaders(
    path: string, m: MethodType, p: Option<RP.Parameters>, headers: Option<seq<Header>>,
    payload: Option<Payload>, name: string)
    requires AsciiLower(name) != AsciiLower(ContentType)
    ensures Field(Attach(Base(path, m, p, headers), payload), name) == Field(WithHeaders(Init(path), headers), name)
  {
    BaseFields(path, m, p, headers);
  }

  /** `setRequestHeaders([.init(key: .contentType, value: value)])`. */
  method SetContentType(request: URLRequest, value: string) returns (r: URLRequest)
    ensures r == SetValue(request, value, ContentType)
  {
    var contentType := Header(ContentType, value);
    SingleHeader(request, contentType);
    r := RequestHeaderExtension.SetRequestHeaders(request, Some([contentType]));
  }

  // ---------------------------------------------------------------------
  // `Files.createFormData`

  method CreateFormData(files: Files, boundary: Boundary) returns (r: Option<Bytes>)
    ensures r == FilesFormData(files, boundary)
  {
    if files.files == [] {
      return None;
    }
    var fs := files.files;
    var result: Bytes := [];
    for n := 0 to |fs|
      invariant result == FileParts(boundary.stringValue, files.fileKey, fs[..n])
    {
      assert fs[..n + 1][..n] == fs[..n];
      var file := fs[n];
      assert FileParts(boundary.stringValue, files.fileKey, fs[..n + 1]) ==
        FileParts(boundary.stringValue, files.fileKey, fs[..n])
        + Utf8OfPresent(FileHeadLines(boundary.stringValue, files.fileKey, file.filename, LegacyDataExtensions.MimeType(file.data)))
        + file.data + Utf8OfPresent([Some("\r\n")]);
      result := LegacyDataExtensions.AppendStrings(result,
        FileHeadLines(boundary.stringValue, files.fileKey, file.filename, LegacyDataExtensions.MimeType(file.data)));
      result := result + file.data;
      result := LegacyDataExtensions.AppendStrings(result, [Some("\r\n")]);
    }
    assert fs[..|fs|] == fs;
    r := Some(result);
  }

  // ---------------------------------------------------------------------
  // The request object

  /** What `load` did. */
  datatype LoadStart =
    | NoRequest                       // `createURLRequest` gave nil: nothing happens
    | AlreadyLoading                  // a load is running: ignored, no completion
    | Dropped(cancelledTask: nat)     // the worker already ran this URL: that task was cancelled, this completion never runs
    | Pending(url: string, task: nat)

  class Request {
    const urlPath: string
    const methodType: MethodType
    const bodyType: BodyType
    const parameters: Option<RP.Parameters>
    const headers: Option<seq<Header>>
    const files: Option<Files>
    var worker: NetworkWorker
    var isLoading: bool

    constructor(urlPath: string, methodType: MethodType, bodyType: BodyType, parameters: Option<RP.Parameters>,
                headers: Option<seq<Header>>, files: Option<Files>)
      ensures this.urlPath == urlPath && this.methodType == methodType && this.bodyType == bodyType
      ensures this.parameters == parameters && this.headers == headers && this.files == files
      ensures fresh(worker) && worker.Valid() && worker.activeTasks == map[]
      ensures worker.successfulResponseStatusCodes == DefaultSuccessful
      ensures !isLoading
    {
      this.urlPath := urlPath;
      this.methodType := methodType;
      this.bodyType := bodyType;
      this.parameters := parameters;
      this.headers := headers;
      this.files := files;
      worker := new NetworkWorker(DefaultSuccessful);
      isLoading := false;
    }

    function Built(boundary: Boundary, validUrl: string -> bool): Option<URLRequest> {
      Created(urlPath, methodType, bodyType, parameters, headers, files, boundary, validUrl)
    }

    method ParametersToQueryString() returns (r: Option<string>)
      ensures r == LegacyQueryStringOf(parameters)
    {
      if parameters.None? {
        return None;
      }
      var dictionary := RP.ToDictionary(parameters.value);
      if dictionary.None? {
        return None;
      }
      var d := dictionary.value;
      var segments: seq<string> := [];
      for n := 0 to |d|
        invariant segments == Segments(d[..n])
      {
        assert d[..n + 1][..n] == d[..n];
        var item := RP.QueryItem(d[n].0, d[n].1);
        segments := segments + [item.GetOr("")];
      }
      assert d[..|d|] == d;
      r := Some(Join("&", segments));
    }

    method ParametersToFormData(boundary: Boundary) returns (r: Option<Bytes>)
      ensures r == OptForm(parameters, boundary)
    {
      if parameters.None? {
        return None;
      }
      r := RP.ToFormData(parameters.value, boundary);
    }

    method CreateURLRequest(boundary: Boundary, validUrl: string -> bool) returns (r: Option<URLRequest>)
      ensures r == Built(boundary, validUrl)
    {
      var path := urlPath;
      if IsQueryMethod(methodType) {
        var query := ParametersToQueryString();
        if query.Some? {
          path := path + "?" + query.value;
        }
      }
      SameAsProtocolQueryString(parameters);
      assert path == RequestUrl(urlPath, methodType, parameters);
      if !validUrl(path) {
        return None;
      }
      var request := Init(path);
      request := request.(httpMethod := HttpMethod(methodType).StringValue());
      request := RequestHeaderExtension.SetRequestHeaders(request, headers);
      if !IsQueryMethod(methodType) {
        request := AddBody(request, boundary);
      }
      r := Some(request);
      CreatedIsAttach(urlPath, methodType, bodyType, parameters, headers, files, boundary, validUrl);
    }

    /** The body branches of `createURLRequest` for the non-query methods. */
    method AddBody(request: URLRequest, boundary: Boundary) returns (r: URLRequest)
      requires !IsQueryMethod(methodType)
      ensures r == Attach(request, BodyFor(methodType, bodyType, parameters, files, boundary))
    {
      r := request;
      if methodType == MethodType.Upload {
        r := SetContentType(r, MultipartFormData(boundary));
        var httpBody := UploadHttpBody(boundary);
        r := r.(httpBody := Some(httpBody));
        return;
      }
      match bodyType {
        case NoBody =>
        case Json =>
          var httpBody := OptJson(parameters);
          if httpBody.Some? {
            r := r.(httpBody := httpBody);
            r := SetContentType(r, ApplicationJson);
          }
        case FormData =>
          var httpBody := ParametersToFormData(boundary);
          if httpBody.Some? {
            r := r.(httpBody := httpBody);
            r := SetContentType(r, ApplicationFormData(boundary));
          }
      }
    }

    /** The upload body: `appendDatas` of the parameter and file parts,
        then `appendStrings` of the closing line. */
    method UploadHttpBody(boundary: Boundary) returns (body: Bytes)
      ensures body == UploadBody(parameters, files, boundary)
    {
      var parts := ParametersToFormData(boundary);
      var fileParts: Option<Bytes> := None;
      if files.Some? {
        fileParts := CreateFormData(files.value, boundary);
      }
      var datas := [parts, fileParts];
      assert datas == [OptForm(parameters, boundary), OptFiles(files, boundary)];
      body := LegacyDataExtensions.AppendDatas([], datas);
      assert body == PresentBytes(datas);
      body := LegacyDataExtensions.AppendStrings(body, [Some(ClosingLineAsWritten("Boundary", boundary))]);
    }

    /** `load`: nothing without a request; ignored while loading; otherwise
        marks loading and hands the request to the worker. */
    method Load(boundary: Boundary, validUrl: string -> bool) returns (s: LoadStart)
      requires worker.Valid()
      modifies this, worker
      ensures worker == old(worker) && worker.Valid()
      ensures Built(boundary, validUrl).None? ==>
        s == NoRequest && isLoading == old(isLoading) && unchanged(worker)
      ensures Built(boundary, validUrl).Some? && old(isLoading) ==>
        s == AlreadyLoading && isLoading && unchanged(worker)
      ensures Built(boundary, validUrl).Some? && !old(isLoading) ==>
        var url := Built(boundary, validUrl).value.url;
        && isLoading
        && (url in old(worker.activeTasks) ==>
              && s == Dropped(old(worker.activeTasks)[url])
              && worker.activeTasks == old(worker.activeTasks)
              && worker.cancelledTasks == old(worker.cancelledTasks) + [s.cancelledTask])
        && (url !in old(worker.activeTasks) ==>
              && s == Pending(url, old(worker.nextTask))
              && worker.activeTasks == old(worker.activeTasks)[url := s.task]
              && worker.cancelledTasks == old(worker.cancelledTasks))
    {
      var request := CreateURLRequest(boundary, validUrl);
      if request.None? {
        return NoRequest;
      }
      if isLoading {
        return AlreadyLoading;
      }
      isLoading := true;
      var e := worker.Execute(Some(request.value.url));
      match e {
        case Rejected(_) =>
          assert false;
        case DuplicateCancelled(task) =>
          s := Dropped(task);
        case Started(task) =>
          s := Pending(request.value.url, task);
      }
    }

    /** The worker's completion for a pending load: `isLoading` is cleared
        before the caller's completion runs, so that completion sees false. */
    method Complete<T>(url: string, outcome: Outcome, decode: Bytes -> Result<T>)
      returns (d: Delivery<T>, loadingSeen: bool)
      requires worker.Valid()
      modifies this, worker
      ensures worker == old(worker) && worker.Valid()
      ensures d == HandleResponse(worker.successfulResponseStatusCodes, outcome, decode)
      ensures worker.activeTasks == old(worker.activeTasks) - {url}
      ensures !isLoading && !loadingSeen
    {
      d := worker.Complete(url, outcome, decode);
      isLoading := false;
      loadingSeen := isLoading;
    }

    /** `cancel`: rebuilds the request and asks the worker to cancel its
        URL; `isLoading` is left as it is. */
    method Cancel(boundary: Boundary, validUrl: string -> bool)
      requires worker.Valid()
      modifies worker
      ensures worker.Valid() && worker.activeTasks == old(worker.activeTasks) && worker.nextTask == old(worker.nextTask)
      ensures Built(boundary, validUrl).None? ==> worker.cancelledTasks == old(worker.cancelledTasks)
      ensures Built(boundary, validUrl).Some? ==>
        var url := Built(boundary, validUrl).value.url;
        worker.cancelledTasks == if url in worker.activeTasks
          then old(worker.cancelledTasks) + [worker.activeTasks[url]] else old(worker.cancelledTasks)
    {
      var request := CreateURLRequest(boundary, validUrl);
      if request.None? {
        return;
      }
      worker.Cancel(Some(request.value.url));
    }
  }
}

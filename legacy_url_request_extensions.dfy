/** URLRequest+Extensions.swift (older tree): `setRequestHeaders` for
    `DPRequest.Header` and the static `URLRequest.create`, which builds the
    same request as `Request.createURLRequest` from explicit arguments and
    the parameters protocol's own `toQueryString` / `toFormData`. */
module LegacyUrlRequestExtensions {
  import opened Common
  import opened UrlRequests
  import opened BodyFormats
  import RP = RequestParameters
  import LegacyDataExtensions
  import opened LegacyRequest

  /** Applies the headers in list order with `setValue`; nil changes
      nothing. */
  method SetRequestHeaders(request: URLRequest, headers: Option<seq<Header>>) returns (r: URLRequest)
    ensures r == WithHeaders(request, headers)
  {
    r := request;
    if headers.None? {
      return;
    }
    var hs := headers.value;
    for n := 0 to |hs|
      invariant r == request.(headerFields := FieldsAfter(request.headerFields, hs[..n]))
    {
      assert hs[..n + 1][..n] == hs[..n];
      r := SetValue(r, hs[n].value, hs[n].key);
    }
    assert hs[..|hs|] == hs;
  }

  /** `URLRequest.create`. */
  method Create(
    path: string, methodType: MethodType, bodyType: BodyType, parameters: Option<RP.Parameters>,
    headers: Option<seq<Header>>, files: Option<Files>, boundary: Boundary, validUrl: string -> bool)
    returns (r: Option<URLRequest>)
    ensures r == Created(path, methodType, bodyType, parameters, headers, files, boundary, validUrl)
  {
    var urlPath := UrlString(path, methodType, parameters);
    if !validUrl(urlPath) {
      return None;
    }
    var request := Init(urlPath);
    request := request.(httpMethod := HttpMethod(methodType).StringValue());
    request := SetRequestHeaders(request, headers);
    assert request == Base(path, methodType, parameters, headers);
    request := CreateBody(request, methodType, bodyType, parameters, files, boundary);
    r := Some(request);
    CreatedIsAttach(path, methodType, bodyType, parameters, headers, files, boundary, validUrl);
  }

  /** The URL string: `"?" + toQueryString()` is appended for GET and HEAD. */
  method UrlString(path: string, methodType: MethodType, parameters: Option<RP.Parameters>) returns (urlPath: string)
    ensures urlPath == RequestUrl(path, methodType, parameters)
  {
    urlPath := path;
    if IsQueryMethod(methodType) && parameters.Some? {
      var query := RP.ToQueryString(parameters.value);
      if query.Some? {
        urlPath := urlPath + "?" + query.value;
      }
    }
  }

  /** The body branches of `create`; GET and HEAD get none. */
  method CreateBody(
    request: URLRequest, methodType: MethodType, bodyType: BodyType, parameters: Option<RP.Parameters>,
    files: Option<Files>, boundary: Boundary)
    returns (r: URLRequest)
    ensures r == Attach(request, BodyFor(methodType, bodyType, parameters, files, boundary))
  {
    r := request;
    if IsQueryMethod(methodType) {
      return;
    }
    if methodType == MethodType.Upload {
      r := SetContentType(r, MultipartFormData(boundary));
      var httpBody := UploadHttpBody(parameters, files, boundary);
      r := r.(httpBody := Some(httpBody));
      return;
    }
    match bodyType {
      case NoBody =>
      case Json =>
        var httpBody := OptJson(parameters);
        if httpBody.Some? {
          r := r.(httpBody := httpBody);
          r := SetContentType(r, ApplicationJson);
        }
      case FormData =>
        var httpBody: Option<Bytes> := None;
        if parameters.Some? {
          httpBody := RP.ToFormData(parameters.value, boundary);
        }
        if httpBody.Some? {
          r := r.(httpBody := httpBody);
          r := SetContentType(r, ApplicationFormData(boundary));
        }
    }
  }

  method SetContentType(request: URLRequest, value: string) returns (r: URLRequest)
    ensures r == SetValue(request, value, ContentType)
  {
    var contentType := Header(ContentType, value);
    SingleHeader(request, contentType);
    r := SetRequestHeaders(request, Some([contentType]));
  }

  method UploadHttpBody(parameters: Option<RP.Parameters>, files: Option<Files>, boundary: Boundary) returns (body: Bytes)
    ensures body == UploadBody(parameters, files, boundary)
  {
    var parts: Option<Bytes> := None;
    if parameters.Some? {
      parts := RP.ToFormData(parameters.value, boundary);
    }
    var fileParts: Option<Bytes> := None;
    if files.Some? {
      fileParts := CreateFormData(files.value, boundary);
    }
    var datas := [parts, fileParts];
    assert datas == [OptForm(parameters, boundary), OptFiles(files, boundary)];
    body := LegacyDataExtensions.AppendDatas([], datas);
    assert body == PresentBytes(datas);
    body := LegacyDataExtensions.AppendStrings(body, [Some(ClosingLineAsWritten("Boundary", boundary))]);
  }
}

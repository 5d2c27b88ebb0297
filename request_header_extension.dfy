/** URLRequest+RequestHeader.swift (older tree): `setRequestHeaders` for `Request.Header`. */
module RequestHeaderExtension {
  import opened Common
  import opened UrlRequests

  /** Applies the headers in list order with `setValue`; nil changes
      nothing. */
  method SetRequestHeaders(request: URLRequest, headers: Option<seq<Header>>) returns (r: URLRequest)
    ensures r == WithHeaders(request, headers)
  {
    r := request;
    if headers.None? {
      return;
    }
    var hs := headers.value;
    for n := 0 to |hs|
      invariant r == request.(headerFields := FieldsAfter(request.headerFields, hs[..n]))
    {
      assert hs[..n + 1][..n] == hs[..n];
      r := SetValue(r, hs[n].value, hs[n].key);
    }
    assert hs[..|hs|] == hs;
  }
}

/** Foundation's `URLRequest` as the library uses it: a URL, a verb, header
    fields and an optional body. `setValue(_:forHTTPHeaderField:)` replaces
    the field whose name matches case-insensitively, so the fields are kept
    under lower-cased names. */
module UrlRequests {
  import opened Common

  datatype URLRequest = URLRequest(
    url: string,
    httpMethod: string,
    headerFields: map<string, string>,
    httpBody: Option<Bytes>)

  /** One header to set; `Request.Header`, `DPRequest.Header` and
      `DPURLRequestGenerator.Header` all have this shape. */
  datatype Header = Header(key: string, value: string)

  /** The `HTTPMethod` enum each revision declares, with its raw values. */
  datatype HTTPMethod = Options | Get | Head | Post | Put | Patch | Delete | Trace | Connect {
    function StringValue(): string {
      match this
      case Options => "OPTIONS"
      case Get => "GET"
      case Head => "HEAD"
      case Post => "POST"
      case Put => "PUT"
      case Patch => "PATCH"
      case Delete => "DELETE"
      case Trace => "TRACE"
      case Connect => "CONNECT"
    }
  }

  /** Raw values are distinct, so the verb on the wire names the case. */
  lemma StringValueInjective(a: HTTPMethod, b: HTTPMethod)
    ensures a.StringValue() == b.StringValue() <==> a == b
  {
  }

  /** `URLRequest(url:)`: verb GET, no fields, no body. */
  function Init(url: string): URLRequest {
    URLRequest(url, "GET", map[], None)
  }

  /** `value(forHTTPHeaderField:)`. */
  function Field(r: URLRequest, name: string): Option<string> {
    var k := AsciiLower(name);
    if k in r.headerFields then Some(r.headerFields[k]) else None
  }

  /** `setValue(_:forHTTPHeaderField:)`. */
  function SetValue(r: URLRequest, value: string, name: string): (r': URLRequest)
    ensures Field(r', name) == Some(value)
    ensures forall n {:trigger Field(r', n)} :: AsciiLower(n) != AsciiLower(name) ==> Field(r', n) == Field(r, n)
    ensures r'.url == r.url && r'.httpMethod == r.httpMethod && r'.httpBody == r.httpBody
  {
    r.(headerFields := r.headerFields[AsciiLower(name) := value])
  }

  /** The fields after `setValue` for each header in list order. Defined
      from the end, the way a loop over the list grows it. */
  function FieldsAfter(fields: map<string, string>, headers: seq<Header>): map<string, string> {
    if headers == [] then fields
    else
      var last := headers[|headers| - 1];
      FieldsAfter(fields, headers[..|headers| - 1])[AsciiLower(last.key) := last.value]
  }

  /** The request after setting an optional header list; nil changes nothing. */
  function WithHeaders(r: URLRequest, headers: Option<seq<Header>>): URLRequest {
    match headers
    case None => r
    case Some(hs) => r.(headerFields := FieldsAfter(r.headerFields, hs))
  }

  /** A one-element list is a single `setValue`. */
  lemma SingleHeader(r: URLRequest, h: Header)
    ensures WithHeaders(r, Some([h])) == SetValue(r, h.value, h.key)
  {
    assert [h][..0] == [];
    assert FieldsAfter(r.headerFields, [h]) == r.headerFields[AsciiLower(h.key) := h.value];
  }

  predicate Names(headers: seq<Header>, name: string) {
    exists i :: 0 <= i < |headers| && AsciiLower(headers[i].key) == AsciiLower(name)
  }

  /** A name the list does not mention keeps its previous value, or stays
      absent. */
  lemma {:induction false} UntouchedFieldsKept(r: URLRequest, headers: seq<Header>, name: string)
    requires !Names(headers, name)
    ensures Field(WithHeaders(r, Some(headers)), name) == Field(r, name)
  {
    if headers != [] {
      var init := headers[..|headers| - 1];
      forall i | 0 <= i < |init|
        ensures AsciiLower(init[i].key) != AsciiLower(name)
      {
        assert init[i] == headers[i];
      }
      UntouchedFieldsKept(r, init, name);
      assert AsciiLower(headers[|headers| - 1].key) != AsciiLower(name);
    }
  }

  /** Set, not append: a name the list mentions ends with the value of its
      last occurrence in the list, whatever it held before. */
  lemma {:induction false} LastOccurrenceWins(r: URLRequest, headers: seq<Header>, i: int)
    requires 0 <= i < |headers|
    requires forall j :: i < j < |headers| ==> AsciiLower(headers[j].key) != AsciiLower(headers[i].key)
    ensures Field(WithHeaders(r, Some(headers)), headers[i].key) == Some(headers[i].value)
  {
    var init := headers[..|headers| - 1];
    if i < |headers| - 1 {
      forall j | i < j < |init|
        ensures AsciiLower(init[j].key) != AsciiLower(init[i].key)
      {
        assert init[j] == headers[j];
      }
      LastOccurrenceWins(r, init, i);
      assert init[i] == headers[i];
    }
  }

  /** The lower-cased names a header list sets. */
  function HeaderNames(headers: seq<Header>): set<string> {
    if headers == [] then {}
    else HeaderNames(headers[..|headers| - 1]) + {AsciiLower(headers[|headers| - 1].key)}
  }

  /** Setting headers never removes a field: the names afterwards are the
      old names plus those of the list. */
  lemma {:induction false} FieldNames(fields: map<string, string>, headers: seq<Header>)
    ensures FieldsAfter(fields, headers).Keys == fields.Keys + HeaderNames(headers)
  {
    if headers != [] {
      FieldNames(fields, headers[..|headers| - 1]);
    }
  }

  lemma {:induction false} FieldsAfterAppend(fields: map<string, string>, a: seq<Header>, b: seq<Header>)
    ensures FieldsAfter(fields, a + b) == FieldsAfter(FieldsAfter(fields, a), b)
  {
    if b == [] {
      assert a + b == a;
    } else {
      assert (a + b)[..|a + b| - 1] == a + b[..|b| - 1];
      FieldsAfterAppend(fields, a, b[..|b| - 1]);
    }
  }
}

/** DPRequestParametersProtocol.swift: the parameter bag as JSON bytes, as a
    string-keyed dictionary, as a query string and as multipart form parts. */
module RequestParameters {
  import opened Common
  import opened PercentEncoding
  import LegacyDataExtensions

  /** A value of the dictionary that JSONSerialization returns: a string, an
      array, or anything else (number, boolean, null, nested object). Arrays
      and other values carry the text Foundation's description prints for
      them through `"\(value)"`, which is not part of this model. */
  datatype Value = Str(s: string) | Arr(elements: seq<Value>, description: string) | Other(description: string)

  /** Swift's `"\(value)"`: a string is itself, anything else its description. */
  function Show(v: Value): string {
    if v.Str? then v.s else v.description
  }

  /** A dictionary in its iteration order, which Swift leaves unspecified;
      keys are distinct. */
  type Dict = d: seq<(string, Value)> | DistinctKeys(d)

  predicate DistinctKeys(d: seq<(string, Value)>) {
    forall i, j :: 0 <= i < j < |d| ==> d[i].0 != d[j].0
  }

  /** A parameter bag as the two foreign calls see it: `encoded` is what
      JSONEncoder produced (`toData`, nil on an encoding error), `decoded` is
      what JSONSerialization reads back from those bytes when the top level is
      a string-keyed dictionary. */
  datatype Parameters = Parameters(encoded: Option<Bytes>, decoded: Option<Dict>)

  function ToData(p: Parameters): Option<Bytes> {
    p.encoded
  }

  /** `toDictionary`: nil when `toData` is nil or the JSON is not a
      string-keyed dictionary. */
  function ToDictionary(p: Parameters): (r: Option<Dict>)
    ensures r.Some? <==> p.encoded.Some? && p.decoded.Some?
    ensures r.Some? ==> r == p.decoded
  {
    if p.encoded.None? then None else p.decoded
  }

  // ---------------------------------------------------------------------
  // Query string (`toQueryString`)

  /** An array element: strings verbatim, anything else through `"\(…)"`. */
  function ElementText(v: Value): string {
    if v.Str? then v.s else Show(v)
  }

  /** `arrayParameter` after the index loop: `key[]=value` per element that
      encodes, in array order. */
  function ArrayParameter(key: string, elements: seq<Value>): seq<string> {
    if elements == [] then []
    else
      var last := AddingPercentEncoding(ElementText(elements[|elements| - 1]));
      ArrayParameter(key, elements[..|elements| - 1]) + (if last.Some? then [key + "[]=" + last.value] else [])
  }

  /** The computed `item` of one dictionary entry; nil drops the entry. */
  function Item(key: string, value: Value): Option<string> {
    match AddingPercentEncoding(key)
    case None => None
    case Some(k) =>
      match value
      case Str(s) =>
        (match AddingPercentEncoding(s)
         case None => None
         case Some(e) => Some(k + "=" + e))
      case Arr(xs, _) => Some(Join("&", ArrayParameter(k, xs)))
      case Other(_) =>
        (match AddingPercentEncoding(Show(value))
         case None => None
         case Some(e) => Some(k + "=" + e))
  }

  /** `resultArray`: the items of the entries that have one, in order. */
  function Items(d: seq<(string, Value)>): seq<string> {
    if d == [] then []
    else
      var last := Item(d[|d| - 1].0, d[|d| - 1].1);
      Items(d[..|d| - 1]) + (if last.Some? then [last.value] else [])
  }

  function QueryString(d: seq<(string, Value)>): string {
    Join("&", Items(d))
  }

  function QueryStringOf(p: Parameters): Option<string> {
    match ToDictionary(p)
    case None => None
    case Some(d) => Some(QueryString(d))
  }

  /** The `item` of one entry, with the index loop over an array value. */
  method QueryItem(key: string, value: Value) returns (item: Option<string>)
    ensures item == Item(key, value)
  {
    var k := AddingPercentEncoding(key);
    if k.None? {
      return None;
    }
    match value {
      case Str(s) =>
        var e := AddingPercentEncoding(s);
        if e.None? {
          return None;
        }
        item := Some(k.value + "=" + e.value);
      case Arr(xs, _) =>
        var arrayParameter: seq<string> := [];
        for index := 0 to |xs|
          invariant arrayParameter == ArrayParameter(k.value, xs[..index])
        {
          ArrayParameterSnoc(k.value, xs, index);
          var element := ElementText(xs[index]);
          var e := AddingPercentEncoding(element);
          if e.None? {
            continue;
          }
          arrayParameter := arrayParameter + [k.value + "[]=" + e.value];
        }
        assert xs[..|xs|] == xs;
        item := Some(Join("&", arrayParameter));
      case Other(_) =>
        var e := AddingPercentEncoding(Show(value));
        if e.None? {
          return None;
        }
        item := Some(k.value + "=" + e.value);
    }
  }

  /** `toQueryString`: nil exactly when `toDictionary` is nil, otherwise the
      `&`-join of the entries' items. */
  method ToQueryString(p: Parameters) returns (r: Option<string>)
    ensures r == QueryStringOf(p)
    ensures r.None? <==> ToDictionary(p).None?
  {
    var dictionary := ToDictionary(p);
    if dictionary.None? {
      return None;
    }
    var d := dictionary.value;
    var resultArray: seq<string> := [];
    for n := 0 to |d|
      invariant resultArray == Items(d[..n])
    {
      assert d[..n + 1][..n] == d[..n];
      var item := QueryItem(d[n].0, d[n].1);
      if item.None? {
        continue;
      }
      resultArray := resultArray + [item.value];
    }
    assert d[..|d|] == d;
    r := Some(Join("&", resultArray));
  }

  lemma ArrayParameterSnoc(key: string, xs: seq<Value>, n: nat)
    requires n < |xs|
    ensures ArrayParameter(key, xs[..n + 1]) == ArrayParameter(key, xs[..n]) + [key + "[]=" + PercentEncode(ElementText(xs[n]))]
  {
    assert xs[..n + 1][..n] == xs[..n];
  }

  lemma EmptyDictionaryGivesEmptyString()
    ensures QueryString([]) == ""
  {
  }

  // ---------------------------------------------------------------------
  // What each entry contributes

  /** One `key[]=value` per element, in array order. */
  function ArrayItems(key: string, xs: seq<Value>): (r: seq<string>)
    ensures |r| == |xs|
  {
    seq(|xs|, i requires 0 <= i < |xs| => key + "[]=" + PercentEncode(ElementText(xs[i])))
  }

  lemma ArrayItemsSnoc(key: string, xs: seq<Value>)
    requires xs != []
    ensures ArrayItems(key, xs) ==
      ArrayItems(key, xs[..|xs| - 1]) + [key + "[]=" + PercentEncode(ElementText(xs[|xs| - 1]))]
  {
    var init := xs[..|xs| - 1];
    forall i | 0 <= i < |init|
      ensures ArrayItems(key, xs)[i] == ArrayItems(key, init)[i]
    {
      assert xs[i] == init[i];
    }
  }

  /** Every element encodes, so an array gives one `key[]=value` per element. */
  lemma {:induction false} ArrayParameterElements(key: string, xs: seq<Value>)
    ensures ArrayParameter(key, xs) == ArrayItems(key, xs)
  {
    if xs != [] {
      var n := |xs| - 1;
      ArrayParameterElements(key, xs[..n]);
      ArrayParameterSnoc(key, xs, n);
      ArrayItemsSnoc(key, xs);
      assert xs[..n + 1] == xs;
    }
  }

  /** The segments an entry adds between `&`s. An empty array still adds one
      empty segment, because its item is `""`. */
  function EntrySegments(key: string, value: Value): (r: seq<string>)
    ensures |r| >= 1
  {
    match value
    case Str(s) => [PercentEncode(key) + "=" + PercentEncode(s)]
    case Other(_) => [PercentEncode(key) + "=" + PercentEncode(Show(value))]
    case Arr(xs, _) =>
      if xs == [] then [""]
      else ArrayItems(PercentEncode(key), xs)
  }

  function Segments(d: seq<(string, Value)>): seq<string> {
    if d == [] then []
    else Segments(d[..|d| - 1]) + EntrySegments(d[|d| - 1].0, d[|d| - 1].1)
  }

  /** No entry is ever dropped, and each entry's item is its segments joined. */
  lemma ItemOfEntry(key: string, value: Value)
    ensures Item(key, value) == Some(Join("&", EntrySegments(key, value)))
  {
    if value.Arr? {
      var xs := value.elements;
      ArrayParameterElements(PercentEncode(key), xs);
    }
  }

  lemma {:induction false} QueryStringIsJoinOfSegments(d: seq<(string, Value)>)
    ensures |Items(d)| == |d|
    ensures QueryString(d) == Join("&", Segments(d))
  {
    if d != [] {
      var init := d[..|d| - 1];
      var (k, v) := d[|d| - 1];
      QueryStringIsJoinOfSegments(init);
      ItemOfEntry(k, v);
      if init != [] {
        JoinAppend("&", Items(init), [Join("&", EntrySegments(k, v))]);
        JoinAppend("&", Segments(init), EntrySegments(k, v));
      } else {
        assert Items(d) == [Join("&", EntrySegments(k, v))];
        assert Segments(d) == EntrySegments(k, v);
      }
    }
  }

  lemma EncodedHasNo(c: char, s: string)
    requires c in Reserved
    ensures c !in PercentEncode(s)
  {
    NoReservedCharacter(s);
  }

  /** Neither the key nor any value of an entry can carry a raw `&`. */
  lemma EntryHasNoAmpersand(key: string, value: Value)
    ensures forall i :: 0 <= i < |EntrySegments(key, value)| ==> '&' !in EntrySegments(key, value)[i]
  {
    EncodedHasNo('&', key);
    match value
    case Str(text) => EncodedHasNo('&', text);
    case Other(_) => EncodedHasNo('&', Show(value));
    case Arr(xs, _) =>
      forall x | x in xs {
        EncodedHasNo('&', ElementText(x));
      }
  }

  lemma NoAmpersandConcat(a: seq<string>, b: seq<string>)
    requires forall i :: 0 <= i < |a| ==> '&' !in a[i]
    requires forall i :: 0 <= i < |b| ==> '&' !in b[i]
    ensures forall i :: 0 <= i < |a + b| ==> '&' !in (a + b)[i]
  {
  }

  lemma {:induction false} SegmentsHaveNoAmpersand(d: seq<(string, Value)>)
    ensures forall i :: 0 <= i < |Segments(d)| ==> '&' !in Segments(d)[i]
  {
    if d != [] {
      SegmentsHaveNoAmpersand(d[..|d| - 1]);
      EntryHasNoAmpersand(d[|d| - 1].0, d[|d| - 1].1);
      NoAmpersandConcat(Segments(d[..|d| - 1]), EntrySegments(d[|d| - 1].0, d[|d| - 1].1));
    }
  }

  // ---------------------------------------------------------------------
  // Reading a query string back

  /** Splits one segment at its `=` and percent-decodes both sides. */
  function ReadSegment(segment: string): Option<(Bytes, Bytes)> {
    var parts := Split('=', segment);
    if |parts| != 2 then None
    else
      match (PercentDecode(parts[0]), PercentDecode(parts[1]))
      case (Some(k), Some(v)) => Some((k, v))
      case _ => None
  }

  function ReadQuery(q: string): seq<Option<(Bytes, Bytes)>> {
    var segments := Split('&', q);
    seq(|segments|, i requires 0 <= i < |segments| => ReadSegment(segments[i]))
  }

  /** What reading back yields per entry: the key's and the value's UTF-8
      bytes; for an array, `key[]` and each element; an empty array reads as
      an empty, unreadable segment. */
  function EntryPairs(key: string, value: Value): seq<Option<(Bytes, Bytes)>> {
    match value
    case Str(s) => [Some((Utf8(key), Utf8(s)))]
    case Other(_) => [Some((Utf8(key), Utf8(Show(value))))]
    case Arr(xs, _) =>
      if xs == [] then [None]
      else seq(|xs|, i requires 0 <= i < |xs| => Some((Utf8(key + "[]"), Utf8(ElementText(xs[i])))))
  }

  function Pairs(d: seq<(string, Value)>): seq<Option<(Bytes, Bytes)>> {
    if d == [] then [None]
    else if |d| == 1 then EntryPairs(d[0].0, d[0].1)
    else Pairs(d[..|d| - 1]) + EntryPairs(d[|d| - 1].0, d[|d| - 1].1)
  }

  lemma {:induction false} DecodeEncodedThen(s: string, t: string)
    ensures PercentDecode(PercentEncode(s) + t) == Prepend(Utf8(s), PercentDecode(t))
  {
    if s == [] {
      assert PercentEncode(s) + t == t;
      if PercentDecode(t).Some? {
        assert [] + PercentDecode(t).value == PercentDecode(t).value;
      }
    } else {
      assert PercentEncode(s) + t == EncodeChar(s[0]) + (PercentEncode(s[1..]) + t);
      DecodeChar(s[0], PercentEncode(s[1..]) + t);
      DecodeEncodedThen(s[1..], t);
      PrependTwice(CharUtf8(s[0]), Utf8(s[1..]), PercentDecode(t));
    }
  }

  lemma ReadPair(k: string, v: string)
    requires '=' !in k && '=' !in v
    ensures ReadSegment(k + "=" + v) == match (PercentDecode(k), PercentDecode(v))
      case (Some(a), Some(b)) => Some((a, b))
      case _ => None
  {
    SplitJoin('=', [k, v]);
    assert Join("=", [k, v]) == k + "=" + v;
  }

  lemma ReadStringEntry(key: string, text: string)
    ensures ReadSegment(PercentEncode(key) + "=" + PercentEncode(text)) == Some((Utf8(key), Utf8(text)))
  {
    EncodedHasNo('=', key);
    EncodedHasNo('=', text);
    ReadPair(PercentEncode(key), PercentEncode(text));
    RoundTrip(key);
    RoundTrip(text);
  }

  lemma ReadArrayElement(key: string, text: string)
    ensures ReadSegment(PercentEncode(key) + "[]=" + PercentEncode(text)) == Some((Utf8(key + "[]"), Utf8(text)))
  {
    var ek := PercentEncode(key) + "[]";
    EncodedHasNo('=', key);
    EncodedHasNo('=', text);
    AppendAssoc(PercentEncode(key), "[]", "=");
    assert "[]" + "=" == "[]=";
    assert '=' !in ek by {
      assert ek == PercentEncode(key) + ['[', ']'];
    }
    ReadPair(ek, PercentEncode(text));
    RoundTrip(text);
    DecodeKeyWithBrackets(key);
  }

  lemma DecodeKeyWithBrackets(key: string)
    ensures PercentDecode(PercentEncode(key) + "[]") == Some(Utf8(key + "[]"))
  {
    DecodeEncodedThen(key, "[]");
    DecodeBrackets();
    Utf8Append(key, "[]");
  }

  lemma DecodeBrackets()
    ensures PercentDecode("[]") == Some(Utf8("[]"))
  {
    assert "[]"[1..] == "]";
    assert "]"[1..] == [];
    assert Utf8("[]") == [0x5B, 0x5D];
  }

  lemma ReadEntry(key: string, value: Value)
    ensures |EntrySegments(key, value)| == |EntryPairs(key, value)|
    ensures forall i :: 0 <= i < |EntrySegments(key, value)| ==>
      ReadSegment(EntrySegments(key, value)[i]) == EntryPairs(key, value)[i]
  {
    match value
    case Str(s) => ReadStringEntry(key, s);
    case Other(_) => ReadStringEntry(key, Show(value));
    case Arr(xs, _) =>
      if xs == [] {
        assert ReadSegment("") == None;
      } else {
        forall i | 0 <= i < |xs|
          ensures ReadSegment(EntrySegments(key, value)[i]) == EntryPairs(key, value)[i]
        {
          ReadArrayElement(key, ElementText(xs[i]));
        }
      }
  }

  lemma {:induction false} ReadSegments(d: seq<(string, Value)>)
    requires d != []
    ensures |Segments(d)| == |Pairs(d)|
    ensures forall i :: 0 <= i < |Segments(d)| ==> ReadSegment(Segments(d)[i]) == Pairs(d)[i]
  {
    var (k, v) := d[|d| - 1];
    ReadEntry(k, v);
    if |d| == 1 {
      assert Segments(d) == Segments([]) + EntrySegments(k, v);
    } else {
      ReadSegments(d[..|d| - 1]);
    }
  }

  /** The query string is unambiguous: splitting it at `&` and `=` and
      percent-decoding gives back every entry's key and value text, in
      dictionary order, one pair per array element. */
  lemma QueryStringReadsBack(d: seq<(string, Value)>)
    ensures ReadQuery(QueryString(d)) == Pairs(d)
  {
    QueryStringIsJoinOfSegments(d);
    if d == [] {
      assert Split('&', "") == [""];
      assert ReadSegment("") == None;
    } else {
      SegmentsHaveNoAmpersand(d);
      SegmentsNonEmpty(d);
      SplitJoin('&', Segments(d));
      ReadSegments(d);
    }
  }

  lemma SegmentsNonEmpty(d: seq<(string, Value)>)
    requires d != []
    ensures |Segments(d)| >= 1
  {
  }

  // ---------------------------------------------------------------------
  // Form data (`toFormData`)

  /** The three strings appended per entry. */
  function PartLines(boundary: string, key: string, value: Value): seq<Option<string>> {
    [ Some("--" + boundary + "\r\n"),
      Some("Content-Disposition: form-data; name=\"" + key + "\"\r\n\r\n"),
      Some(Show(value) + "\r\n") ]
  }

  /** One part as text: delimiter line, disposition header, blank line,
      the value and a CRLF. */
  function FormPart(boundary: string, key: string, value: Value): string {
    "--" + boundary + "\r\n"
      + ("Content-Disposition: form-data; name=\"" + key + "\"\r\n\r\n")
      + (Show(value) + "\r\n")
  }

  function FormDataBytes(boundary: string, d: seq<(string, Value)>): Bytes {
    if d == [] then []
    else FormDataBytes(boundary, d[..|d| - 1]) + Utf8OfPresent(PartLines(boundary, d[|d| - 1].0, d[|d| - 1].1))
  }

  lemma FormDataBytesSnoc(boundary: string, d: seq<(string, Value)>, n: nat)
    requires n < |d|
    ensures FormDataBytes(boundary, d[..n + 1]) ==
      FormDataBytes(boundary, d[..n]) + Utf8OfPresent(PartLines(boundary, d[n].0, d[n].1))
  {
    assert d[..n + 1][..n] == d[..n];
  }

  function FormDataOf(p: Parameters, boundary: Boundary): Option<Bytes> {
    match ToDictionary(p)
    case None => None
    case Some(d) => if d == [] then None else Some(FormDataBytes(boundary.stringValue, d))
  }

  /** `toFormData`: nil for a nil or empty dictionary, otherwise one part per
      entry and no closing delimiter. */
  method ToFormData(p: Parameters, boundary: Boundary) returns (r: Option<Bytes>)
    ensures r == FormDataOf(p, boundary)
    ensures r.None? <==> ToDictionary(p).None? || |ToDictionary(p).value| == 0
  {
    var dictionary := ToDictionary(p);
    if dictionary.None? || dictionary.value == [] {
      return None;
    }
    var d := dictionary.value;
    var result: Bytes := [];
    for n := 0 to |d|
      invariant result == FormDataBytes(boundary.stringValue, d[..n])
    {
      FormDataBytesSnoc(boundary.stringValue, d, n);
      var (key, value) := d[n];
      result := LegacyDataExtensions.AppendStrings(result, PartLines(boundary.stringValue, key, value));
    }
    assert d[..|d|] == d;
    r := Some(result);
  }

  lemma PartLinesBytes(boundary: string, key: string, value: Value)
    ensures Utf8OfPresent(PartLines(boundary, key, value)) == Utf8(FormPart(boundary, key, value))
  {
    var a, b, c := "--" + boundary + "\r\n", "Content-Disposition: form-data; name=\"" + key + "\"\r\n\r\n", Show(value) + "\r\n";
    assert PartLines(boundary, key, value) == [Some(a), Some(b), Some(c)];
    Utf8OfThree(a, b, c);
    assert FormPart(boundary, key, value) == a + b + c;
  }

  /** The parts of the entries, one per entry, in order. */
  function Parts(boundary: string, d: seq<(string, Value)>): (r: seq<string>)
    ensures |r| == |d|
  {
    seq(|d|, i requires 0 <= i < |d| => FormPart(boundary, d[i].0, d[i].1))
  }

  lemma PartsSnoc(boundary: string, d: seq<(string, Value)>)
    requires d != []
    ensures Parts(boundary, d) == Parts(boundary, d[..|d| - 1]) + [FormPart(boundary, d[|d| - 1].0, d[|d| - 1].1)]
  {
    var init := d[..|d| - 1];
    forall i | 0 <= i < |init|
      ensures Parts(boundary, d)[i] == Parts(boundary, init)[i]
    {
      assert d[i] == init[i];
    }
  }

  /** The body is the UTF-8 of the parts, one per entry, in order. */
  lemma {:induction false} FormDataIsParts(boundary: string, d: seq<(string, Value)>)
    ensures FormDataBytes(boundary, d) == Utf8(Join("", Parts(boundary, d)))
  {
    if d != [] {
      var init := d[..|d| - 1];
      var initParts := Parts(boundary, init);
      FormDataIsParts(boundary, init);
      var last := FormPart(boundary, d[|d| - 1].0, d[|d| - 1].1);
      PartsSnoc(boundary, d);
      LegacyDataExtensions.JoinEmptySepAppend(initParts, last);
      Utf8Append(Join("", initParts), last);
      PartLinesBytes(boundary, d[|d| - 1].0, d[|d| - 1].1);
    }
  }
}

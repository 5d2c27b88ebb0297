/** Values shared by both source trees: bytes, Swift's Optional and Result,
    the library's error values, UTF-8 and the string helpers that Foundation
    supplies (`joined(separator:)`, `data(using: .utf8)`, `lowercased()`). */
module Common {

  type byte = x: int | 0 <= x < 0x100
  type Bytes = seq<byte>

  /** Swift's Optional. */
  datatype Option<T> = None | Some(value: T) {
    /** The `??` operator. */
    function GetOr(default: T): T {
      if Some? then value else default
    }
  }

  /** Swift's `Result<T, Error>`. */
  datatype Result<T> = Success(value: T) | Failure(error: Error)

  /** The errors that reach a completion handler. Errors raised outside the
      library (URLSession, JSONDecoder, a throwing `mapToModel`) are kept
      opaque and are told apart by their NSError code only. */
  datatype Error =
    | Foreign(code: int)
      // NetworkError / DPNetworkError `invalidRequest`: 999 and 1 respectively
    | InvalidRequest(code: int)
      // `responseErrorStatusCode(c)`: the status code is the NSError code
    | ResponseErrorStatusCode(statusCode: int)
      // DPNetworkError `unknown`, code 0
    | Unknown
      // `error(_:)`: a new NSError with the wrapped error's code, or 0
    | Wrapped(code: int)

  function Code(e: Error): int {
    match e
    case Foreign(c) => c
    case InvalidRequest(c) => c
    case ResponseErrorStatusCode(c) => c
    case Unknown => 0
    case Wrapped(c) => c
  }

  /** `NetworkError.error(_:)` and `DPNetworkError.error(_:)`: both build an
      NSError from an optional error and never return nil. */
  function ErrorFrom(e: Option<Error>): (r: Option<Error>)
    ensures r.Some? && r.value.Wrapped?
    ensures r.value.code == if e.Some? then Code(e.value) else 0
  {
    Some(Wrapped(if e.Some? then Code(e.value) else 0))
  }

  /** What URLSession hands a data task's completion handler: the body, the
      status code when the response is an `HTTPURLResponse` (None for no
      response or any other kind), and the transport error. */
  datatype Outcome = Outcome(data: Option<Bytes>, status: Option<int>, error: Option<Error>)

  /** The library's completion triple `(T?, HTTPURLResponse?, Error?)`, the
      response represented by its status code. */
  datatype Delivery<T> = Delivery(result: Option<T>, response: Option<int>, error: Option<Error>)

  /** `Boundary` / `DPBoundary`: the multipart delimiter token. Generation
      (`"Boundary-" + UUID`) is nondeterministic, so callers pass one in. */
  datatype Boundary = Boundary(stringValue: string)

  // ---------------------------------------------------------------------
  // UTF-8 (`String.data(using: .utf8)`, which cannot fail for a String)

  function CharUtf8(c: char): (r: Bytes)
    ensures 1 <= |r| <= 4
    ensures |r| == 1 <==> c as int < 0x80
    ensures |r| == 1 ==> r[0] == c as int
    ensures |r| > 1 ==> r[0] >= 0xC0
    ensures forall i :: 1 <= i < |r| ==> 0x80 <= r[i] < 0xC0
  {
    var cp := c as int;
    if cp < 0x80 then [cp]
    else if cp < 0x800 then [0xC0 + cp / 0x40, 0x80 + cp % 0x40]
    else if cp < 0x10000 then [0xE0 + cp / 0x1000, 0x80 + (cp / 0x40) % 0x40, 0x80 + cp % 0x40]
    else [0xF0 + cp / 0x40000, 0x80 + (cp / 0x1000) % 0x40, 0x80 + (cp / 0x40) % 0x40, 0x80 + cp % 0x40]
  }

  function Utf8(s: string): (r: Bytes)
    ensures |r| >= |s|
  {
    if s == [] then [] else CharUtf8(s[0]) + Utf8(s[1..])
  }

  lemma {:induction false} Utf8Append(a: string, b: string)
    ensures Utf8(a + b) == Utf8(a) + Utf8(b)
  {
    if a != [] {
      assert (a + b)[0] == a[0] && (a + b)[1..] == a[1..] + b;
      Utf8Append(a[1..], b);
    } else {
      assert a + b == b;
    }
  }

  /** ASCII text is its own UTF-8 encoding, one byte per character. */
  lemma {:induction false} Utf8Ascii(s: string)
    requires forall i :: 0 <= i < |s| ==> s[i] as int < 0x80
    ensures |Utf8(s)| == |s|
    ensures forall i :: 0 <= i < |s| ==> Utf8(s)[i] == s[i] as int
  {
    if s != [] {
      Utf8Ascii(s[1..]);
    }
  }

  // ---------------------------------------------------------------------
  // Strings and byte buffers

  /** `Array<String>.joined(separator:)`. */
  function Join(sep: string, parts: seq<string>): string {
    if parts == [] then ""
    else if |parts| == 1 then parts[0]
    else parts[0] + sep + Join(sep, parts[1..])
  }

  /** Splits `s` at every occurrence of `sep`; the inverse of `Join`. */
  function Split(sep: char, s: string): (r: seq<string>)
    ensures |r| >= 1
  {
    if s == [] then [""]
    else if s[0] == sep then [""] + Split(sep, s[1..])
    else
      var rest := Split(sep, s[1..]);
      [[s[0]] + rest[0]] + rest[1..]
  }

  lemma {:induction false} SplitPrefix(sep: char, p: string, t: string)
    requires sep !in p
    ensures Split(sep, p + [sep] + t) == [p] + Split(sep, t)
  {
    if p != [] {
      assert (p + [sep] + t)[0] == p[0] && (p + [sep] + t)[1..] == p[1..] + [sep] + t;
      SplitPrefix(sep, p[1..], t);
      assert [p[0]] + p[1..] == p;
    } else {
      assert p + [sep] + t == [sep] + t;
    }
  }

  lemma {:induction false} SplitWhole(sep: char, p: string)
    requires sep !in p
    ensures Split(sep, p) == [p]
  {
    if p != [] {
      SplitWhole(sep, p[1..]);
      assert [p[0]] + p[1..] == p;
    }
  }

  /** Joining parts that do not contain the separator can be undone. */
  lemma {:induction false} SplitJoin(sep: char, parts: seq<string>)
    requires |parts| >= 1
    requires forall i :: 0 <= i < |parts| ==> sep !in parts[i]
    ensures Split(sep, Join([sep], parts)) == parts
  {
    if |parts| == 1 {
      SplitWhole(sep, parts[0]);
    } else {
      SplitJoin(sep, parts[1..]);
      SplitPrefix(sep, parts[0], Join([sep], parts[1..]));
      assert [parts[0]] + parts[1..] == parts;
    }
  }

  lemma {:induction false} JoinAppend(sep: string, a: seq<string>, b: seq<string>)
    requires |a| >= 1 && |b| >= 1
    ensures Join(sep, a + b) == Join(sep, a) + sep + Join(sep, b)
  {
    if |a| == 1 {
      assert (a + b)[1..] == b;
    } else {
      assert (a + b)[1..] == a[1..] + b;
      JoinAppend(sep, a[1..], b);
    }
  }

  function Concat(parts: seq<Bytes>): (r: Bytes)
  {
    if parts == [] then [] else parts[0] + Concat(parts[1..])
  }

  lemma {:induction false} ConcatAppend(a: seq<Bytes>, b: seq<Bytes>)
    ensures Concat(a + b) == Concat(a) + Concat(b)
  {
    if a != [] {
      assert (a + b)[1..] == a[1..] + b;
      ConcatAppend(a[1..], b);
    } else {
      assert a + b == b;
    }
  }

  /** The present values of a sequence of optionals, in order
      (`compactMap { $0 }`). */
  function FilterSome<T>(xs: seq<Option<T>>): (r: seq<T>)
    ensures |r| <= |xs|
  {
    if xs == [] then []
    else if xs[0].Some? then [xs[0].value] + FilterSome(xs[1..])
    else FilterSome(xs[1..])
  }

  lemma {:induction false} FilterSomeAppend<T>(a: seq<Option<T>>, b: seq<Option<T>>)
    ensures FilterSome(a + b) == FilterSome(a) + FilterSome(b)
  {
    if a != [] {
      assert (a + b)[1..] == a[1..] + b;
      FilterSomeAppend(a[1..], b);
    } else {
      assert a + b == b;
    }
  }

  /** `String.lowercased()` restricted to ASCII letters. */
  function AsciiLower(s: string): (r: string)
    ensures |r| == |s|
  {
    if s == [] then []
    else [LowerChar(s[0])] + AsciiLower(s[1..])
  }

  function LowerChar(c: char): char {
    if 'A' <= c <= 'Z' then (c as int + 32) as char else c
  }

  /** Character by character: upper-case ASCII letters are lowered, every
      other character is kept. */
  lemma {:induction false} AsciiLowerChars(s: string)
    ensures forall i :: 0 <= i < |s| ==> AsciiLower(s)[i] == LowerChar(s[i])
  {
    if s != [] {
      AsciiLowerChars(s[1..]);
    }
  }

  /** The UTF-8 bytes of the present strings, in order, nils skipped. Defined
      from the end so that it grows the way a loop over the list does. */
  function Utf8OfPresent(strings: seq<Option<string>>): Bytes {
    if strings == [] then []
    else
      var last := strings[|strings| - 1];
      Utf8OfPresent(strings[..|strings| - 1]) + (if last.Some? then Utf8(last.value) else [])
  }

  lemma Utf8OfThree(a: string, b: string, c: string)
    ensures Utf8OfPresent([Some(a), Some(b), Some(c)]) == Utf8(a + b + c)
  {
    var lines := [Some(a), Some(b), Some(c)];
    assert lines[..2] == [Some(a), Some(b)];
    assert [Some(a), Some(b)][..1] == [Some(a)];
    assert [Some(a)][..0] == [];
    assert Utf8OfPresent([Some(a)]) == Utf8(a);
    assert Utf8OfPresent([Some(a), Some(b)]) == Utf8(a) + Utf8(b);
    assert Utf8OfPresent(lines) == Utf8(a) + Utf8(b) + Utf8(c);
    Utf8Append(a, b);
    Utf8Append(a + b, c);
  }

  /** The present byte buffers, in order, nils skipped. */
  function PresentBytes(datas: seq<Option<Bytes>>): Bytes {
    if datas == [] then []
    else
      var last := datas[|datas| - 1];
      PresentBytes(datas[..|datas| - 1]) + (if last.Some? then last.value else [])
  }

  function TotalLength(datas: seq<Option<Bytes>>): nat {
    if datas == [] then 0
    else
      var last := datas[|datas| - 1];
      TotalLength(datas[..|datas| - 1]) + (if last.Some? then |last.value| else 0)
  }

  // ---------------------------------------------------------------------
  // Helpers: facts about sequences, with no counterpart in the source

  lemma AppendAssoc<T>(a: seq<T>, b: seq<T>, c: seq<T>)
    ensures a + b + c == a + (b + c)
  {
  }

  lemma Utf8OfOne(a: string)
    ensures Utf8OfPresent([Some(a)]) == Utf8(a)
  {
    assert [Some(a)][..0] == [];
  }
}

/** NetworkWorker.swift (older tree): one data task per URL, kept in a table
    keyed by the URL's absolute string, and the classification of what the
    task returns. URLSession itself is not modelled: starting a task hands
    out a fresh task number, cancelling one records it, and its completion
    handler is the separate `Complete` method. */
module NetworkWorkers {
  import opened Common
  import opened ResponseStatusCodes

  /** `NetworkError.invalidRequest`. */
  const InvalidRequestCode := 999

  /** `String(data: body, encoding: .utf8)?.lowercased() == "ok"`. The only
      characters whose lower-case form is `o` or `k` are `o`, `O`, `k`, `K`
      and the Kelvin sign U+212A. */
  predicate IsOkBody(body: Bytes) {
    && |body| >= 2
    && (body[0] == 0x6F || body[0] == 0x4F)
    && (body[1..] == [0x6B] || body[1..] == [0x4B] || body[1..] == [0xE2, 0x84, 0xAA])
  }

  predicate IsOkLetters(s: string) {
    |s| == 2 && (s[0] == 'o' || s[0] == 'O') && (s[1] == 'k' || s[1] == 'K')
  }

  lemma OkBodyAsciiBytes(s: string)
    requires forall i :: 0 <= i < |s| ==> s[i] as int < 0x80
    ensures IsOkBody(Utf8(s)) <==> IsOkLetters(s)
  {
    var u := Utf8(s);
    Utf8Ascii(s);
    if |u| >= 2 {
      assert u[1..][0] == u[1] == s[1] as int < 0x80;
      if |s| == 2 {
        assert u[1..] == [u[1]];
      }
    }
  }

  lemma AsciiLowerOk(s: string)
    ensures AsciiLower(s) == "ok" <==> IsOkLetters(s)
  {
    AsciiLowerChars(s);
    if IsOkLetters(s) {
      assert AsciiLower(s) == [AsciiLower(s)[0], AsciiLower(s)[1]];
    }
    if AsciiLower(s) == "ok" {
      assert AsciiLower(s)[0] == 'o' && AsciiLower(s)[1] == 'k';
    }
  }

  /** For ASCII text the check is a case-insensitive comparison with "ok". */
  lemma OkBodyAscii(s: string)
    requires forall i :: 0 <= i < |s| ==> s[i] as int < 0x80
    ensures IsOkBody(Utf8(s)) <==> AsciiLower(s) == "ok"
  {
    OkBodyAsciiBytes(s);
    AsciiLowerOk(s);
  }

  lemma OkBodyKelvin()
    ensures IsOkBody(Utf8("oK")) && IsOkBody(Utf8("OK"))
  {
    assert "oK"[1..] == "K";
    assert Utf8("K") == [0xE2, 0x84, 0xAA] + Utf8([]);
    assert "OK"[1..] == "K";
    assert "K"[1..] == [];
  }

  /** The completion handler's checks, in source order: a transport failure,
      then missing data, then the status code, then a bare "ok" body, then
      decoding. */
  function HandleResponse<T>(
    codes: seq<ResponseStatusCode>, outcome: Outcome, decode: Bytes -> Result<T>): Delivery<T>
  {
    if outcome.status.None? || outcome.error.Some? then Delivery(None, None, outcome.error)
    else if outcome.data.None? then Delivery(None, outcome.status, outcome.error)
    else if !Contains(codes, outcome.status.value) then
      Delivery(None, outcome.status, Some(ResponseErrorStatusCode(outcome.status.value)))
    else if IsOkBody(outcome.data.value) then Delivery(None, outcome.status, None)
    else
      match decode(outcome.data.value)
      case Success(v) => Delivery(Some(v), outcome.status, None)
      case Failure(e) => Delivery(None, outcome.status, Some(e))
  }

  /** A decoded object arrives exactly when the response is HTTP, error-free,
      has a body with a successful status that is not "ok", and decodes. */
  lemma ObjectIff<T>(codes: seq<ResponseStatusCode>, o: Outcome, decode: Bytes -> Result<T>)
    ensures var d := HandleResponse(codes, o, decode);
      d.result.Some? <==>
        && o.status.Some? && o.error.None? && o.data.Some?
        && Contains(codes, o.status.value) && !IsOkBody(o.data.value)
        && decode(o.data.value).Success?
    ensures var d := HandleResponse(codes, o, decode);
      d.result.Some? ==> d.result.value == decode(o.data.value).value && d.error.None?
  {
  }

  /** The response reaches the caller exactly when it is HTTP and there is no
      transport error; a status outside the list is reported as an error
      carrying that status. */
  lemma ResponseAndErrorCases<T>(codes: seq<ResponseStatusCode>, o: Outcome, decode: Bytes -> Result<T>)
    ensures var d := HandleResponse(codes, o, decode);
      d.response.Some? <==> o.status.Some? && o.error.None?
    ensures var d := HandleResponse(codes, o, decode);
      o.status.Some? && o.error.None? && o.data.Some? && !Contains(codes, o.status.value) ==>
        d == Delivery(None, o.status, Some(ResponseErrorStatusCode(o.status.value)))
    ensures var d := HandleResponse(codes, o, decode);
      o.error.Some? ==> d == Delivery(None, None, o.error)
  {
  }

  /** Three paths end with all three values nil or with no error at all: a
      non-HTTP response without an error, a missing body, and an "ok" body. */
  lemma SilentPaths<T>(codes: seq<ResponseStatusCode>, o: Outcome, decode: Bytes -> Result<T>)
    ensures var d := HandleResponse(codes, o, decode);
      d.result.None? && d.error.None? <==>
        || (o.error.None? && o.status.None?)
        || (o.error.None? && o.status.Some? && o.data.None?)
        || (o.error.None? && o.status.Some? && o.data.Some? && Contains(codes, o.status.value) && IsOkBody(o.data.value))
  {
  }

  /** The status check comes first: an "OK" body with a status outside the
      list is still an error. */
  lemma OkBodyWithBadStatusIsError<T>(codes: seq<ResponseStatusCode>, status: int, decode: Bytes -> Result<T>)
    requires !Contains(codes, status)
    ensures HandleResponse(codes, Outcome(Some([0x4F, 0x4B]), Some(status), None), decode).error
      == Some(ResponseErrorStatusCode(status))
  {
  }

  /** What `execute` did with a request. */
  datatype Execution =
    | Rejected(error: Error)         // no URL: the completion ran at once
    | DuplicateCancelled(task: nat)  // the running task for the URL was cancelled, nothing started
    | Started(task: nat)

  class NetworkWorker {
    /** `activeTasks`: the running task for each URL string. */
    var activeTasks: map<string, nat>
    var nextTask: nat
    /** The tasks on which `cancel()` has been called, oldest first. */
    var cancelledTasks: seq<nat>
    const successfulResponseStatusCodes: seq<ResponseStatusCode>

    /** Every stored task was handed out before. */
    predicate Valid()
      reads this
    {
      forall url :: url in activeTasks ==> activeTasks[url] < nextTask
    }

    constructor(successfulResponseStatusCodes: seq<ResponseStatusCode>)
      ensures Valid()
      ensures activeTasks == map[] && nextTask == 0 && cancelledTasks == []
      ensures this.successfulResponseStatusCodes == successfulResponseStatusCodes
    {
      activeTasks := map[];
      nextTask := 0;
      cancelledTasks := [];
      this.successfulResponseStatusCodes := successfulResponseStatusCodes;
    }

    /** `execute`: no URL is rejected at once; a URL already in the table
        has its task cancelled and nothing else happens; otherwise a new task
        is stored under the URL and started. */
    method Execute(url: Option<string>) returns (e: Execution)
      requires Valid()
      modifies this
      ensures Valid()
      ensures url.None? ==> e == Rejected(InvalidRequest(InvalidRequestCode)) && unchanged(this)
      ensures url.Some? && url.value in old(activeTasks) ==>
        && e == DuplicateCancelled(old(activeTasks)[url.value])
        && activeTasks == old(activeTasks) && nextTask == old(nextTask)
        && cancelledTasks == old(cancelledTasks) + [old(activeTasks)[url.value]]
      ensures url.Some? && url.value !in old(activeTasks) ==>
        && e == Started(old(nextTask))
        && activeTasks == old(activeTasks)[url.value := old(nextTask)]
        && nextTask == old(nextTask) + 1 && cancelledTasks == old(cancelledTasks)
    {
      if url.None? {
        return Rejected(InvalidRequest(InvalidRequestCode));
      }
      var taskAbsoluteString := url.value;
      if taskAbsoluteString in activeTasks {
        var task := activeTasks[taskAbsoluteString];
        cancelledTasks := cancelledTasks + [task];
        return DuplicateCancelled(task);
      }
      activeTasks := activeTasks[taskAbsoluteString := nextTask];
      e := Started(nextTask);
      nextTask := nextTask + 1;
    }

    /** The task's completion handler: every path first removes the URL's
        entry, then delivers the classification. */
    method Complete<T>(url: string, outcome: Outcome, decode: Bytes -> Result<T>) returns (d: Delivery<T>)
      requires Valid()
      modifies this
      ensures Valid()
      ensures d == HandleResponse(successfulResponseStatusCodes, outcome, decode)
      ensures activeTasks == old(activeTasks) - {url} && url !in activeTasks
      ensures nextTask == old(nextTask) && cancelledTasks == old(cancelledTasks)
    {
      activeTasks := activeTasks - {url};
      d := HandleResponse(successfulResponseStatusCodes, outcome, decode);
    }

    /** `cancel`: cancels the URL's task if there is one; the entry stays
        until the data task's handler removes it. */
    method Cancel(url: Option<string>)
      requires Valid()
      modifies this
      ensures Valid()
      ensures activeTasks == old(activeTasks) && nextTask == old(nextTask)
      ensures cancelledTasks == if url.Some? && url.value in activeTasks
        then old(cancelledTasks) + [activeTasks[url.value]] else old(cancelledTasks)
    {
      if url.None? || url.value !in activeTasks {
        return;
      }
      cancelledTasks := cancelledTasks + [activeTasks[url.value]];
    }
  }
}

/** DPRequest.swift (newer tree): a request object that guards its loads with
    `isLoading`, which `forceReload` clears, and hands the `URLRequest` it is
    given to a `DPNetworkWorker`. */
module DPRequests {
  import opened Common
  import opened UrlRequests
  import opened ResponseStatusCodes
  import opened DPNetworkWorkers

  datatype MethodType = Get | Head | Post | Put | Patch | Delete | Upload

  /** `MethodType.httpMethod`. */
  function HttpMethod(m: MethodType): HTTPMethod {
    match m
    case Get => HTTPMethod.Get
    case Head => HTTPMethod.Head
    case Post => HTTPMethod.Post
    case Put => HTTPMethod.Put
    case Patch => HTTPMethod.Patch
    case Delete => HTTPMethod.Delete
    case Upload => HTTPMethod.Post
  }

  /** Each case maps to its namesake verb except `upload`, which is POST;
      that is the only collision. */
  lemma HttpMethodMapping(m: MethodType, n: MethodType)
    ensures HttpMethod(m) == HTTPMethod.Post <==> m == MethodType.Post || m == MethodType.Upload
    ensures HttpMethod(m) == HttpMethod(n) && m != n ==> {m, n} == {MethodType.Post, MethodType.Upload}
    ensures HttpMethod(m) != HTTPMethod.Options && HttpMethod(m) != HTTPMethod.Trace && HttpMethod(m) != HTTPMethod.Connect
  {
  }

  /** Declared by `DPRequest` but used by none of its methods. */
  datatype BodyType = NoBody | Json | FormData | FormUrlencoded

  /** The `result` computed in `load`'s callback. */
  function ResultOf<T>(d: Delivery<T>): Result<T> {
    if d.result.Some? && d.error.None? then Success(d.result.value)
    else Failure(d.error.GetOr(Unknown))
  }

  /** `load` succeeds exactly when the worker's decoding overload delivers a
      value, and then with that value; otherwise it fails with the error the
      worker delivered, so the `?? .unknown` fallback is never taken. */
  lemma ResultOfDecoded<T>(codes: seq<ResponseStatusCode>, o: Outcome, decode: Bytes -> Result<T>)
    ensures var r := ResultOf(Decoded(codes, o, decode));
      r.Success? <==>
        && o.status.Some? && o.error.None? && Contains(codes, o.status.value)
        && o.data.Some? && decode(o.data.value).Success?
    ensures var r := ResultOf(Decoded(codes, o, decode));
      r.Success? ==> r.value == decode(o.data.value).value
    ensures var r := ResultOf(Decoded(codes, o, decode));
      r.Failure? ==> Decoded(codes, o, decode).error == Some(r.error)
  {
    DecodedCases(codes, o, decode);
  }

  /** `loadEmpty` passes the plain overload's error straight through, so a
      successful status without a body is no error there, while `load`
      reports it as an error with code 0; and a nil request reaches
      `loadEmpty` as `invalidRequest` itself but `load` only as its code. */
  lemma EmptyAgainstDecoded<T>(codes: seq<ResponseStatusCode>, o: Outcome, decode: Bytes -> Result<T>)
    ensures o.status.Some? && o.error.None? && Contains(codes, o.status.value) && o.data.None? ==>
      HandleResponse(codes, o).error.None? && ResultOf(Decoded(codes, o, decode)) == Failure(Wrapped(0))
    ensures NilRequestDelivery().error == Some(InvalidRequest(InvalidRequestCode))
    ensures ResultOf(HandleDecoded(NilRequestDelivery(), decode)) == Failure(Wrapped(InvalidRequestCode))
  {
    NilRequestDecoded(decode);
  }

  /** What `load` / `loadEmpty` did. */
  datatype LoadStart<R> =
    | Ignored                               // a load is running: no session call, no completion
    | Finished(outcome: R, loadingSeen: bool) // the session answered at once; `loadingSeen` is `isLoading` as the completion saw it
    | Pending(task: nat)                    // a task was started; its completion comes later

  class DPRequest {
    /** `session`, which defaults to a `DPNetworkWorker`. */
    var session: DPNetworkWorker
    var isLoading: bool

    constructor()
      ensures fresh(session) && session.Valid() && session.dataTask == None && session.cancelledTasks == []
      ensures session.successfulResponseStatusCodes == DefaultSuccessful
      ensures !isLoading
    {
      session := new DPNetworkWorker(DefaultSuccessful);
      isLoading := false;
    }

    /** `cancel`: only the session's task is cancelled; `isLoading` stays. */
    method Cancel()
      requires session.Valid()
      modifies session
      ensures session.Valid() && session.dataTask == old(session.dataTask) && isLoading == old(isLoading)
      ensures session.cancelledTasks ==
        old(session.cancelledTasks) + (if session.dataTask.Some? then [session.dataTask.value] else [])
    {
      session.CancelDataTask();
    }

    /** `load`: `forceReload` clears the flag; a set flag makes the call a
        silent no-op; otherwise the flag is set before the one session
        call. A nil request is answered at once, and the completion runs
        before the flag is cleared. */
    method Load<T>(urlRequest: Option<URLRequest>, forceReload: bool, decode: Bytes -> Result<T>)
      returns (s: LoadStart<Result<T>>)
      requires session.Valid()
      modifies this, session
      ensures session == old(session) && session.Valid()
      ensures !forceReload && old(isLoading) ==> s == Ignored && isLoading && unchanged(session)
      ensures (forceReload || !old(isLoading)) && urlRequest.None? ==>
        && s == Finished(Failure(Wrapped(InvalidRequestCode)), true)
        && !isLoading && unchanged(session)
      ensures (forceReload || !old(isLoading)) && urlRequest.Some? ==>
        && s == Pending(old(session.nextTask)) && isLoading
        && session.dataTask == Some(old(session.nextTask)) && session.nextTask == old(session.nextTask) + 1
        && session.cancelledTasks == old(session.cancelledTasks)
             + (if old(session.dataTask).Some? then [old(session.dataTask).value] else [])
    {
      if forceReload {
        isLoading := false;
      }
      if isLoading {
        return Ignored;
      }
      isLoading := true;
      var l := session.LoadDecodedURLRequest(urlRequest, decode);
      match l {
        case Immediate(d) =>
          s := Finished(ResultOf(d), isLoading);
          isLoading := false;
        case Started(task) =>
          s := Pending(task);
      }
    }

    /** The callback of a pending `load`: the completion gets the result and
        sees the flag as it was; only then is the flag cleared. */
    method Complete<T>(outcome: Outcome, decode: Bytes -> Result<T>) returns (r: Result<T>, loadingSeen: bool)
      modifies this
      ensures session == old(session)
      ensures r == ResultOf(Decoded(session.successfulResponseStatusCodes, outcome, decode))
      ensures loadingSeen == old(isLoading) && !isLoading
    {
      var d := session.CompleteDecoded(outcome, decode);
      r := ResultOf(d);
      loadingSeen := isLoading;
      isLoading := false;
    }

    /** `loadEmpty`: the same guard and transitions as `load`, with the plain
        overload; a nil request reports `invalidRequest` itself. */
    method LoadEmpty(urlRequest: Option<URLRequest>, forceReload: bool) returns (s: LoadStart<Option<Error>>)
      requires session.Valid()
      modifies this, session
      ensures session == old(session) && session.Valid()
      ensures !forceReload && old(isLoading) ==> s == Ignored && isLoading && unchanged(session)
      ensures (forceReload || !old(isLoading)) && urlRequest.None? ==>
        && s == Finished(Some(InvalidRequest(InvalidRequestCode)), true)
        && !isLoading && unchanged(session)
      ensures (forceReload || !old(isLoading)) && urlRequest.Some? ==>
        && s == Pending(old(session.nextTask)) && isLoading
        && session.dataTask == Some(old(session.nextTask)) && session.nextTask == old(session.nextTask) + 1
        && session.cancelledTasks == old(session.cancelledTasks)
             + (if old(session.dataTask).Some? then [old(session.dataTask).value] else [])
    {
      if forceReload {
        isLoading := false;
      }
      if isLoading {
        return Ignored;
      }
      isLoading := true;
      var l := session.LoadURLRequest(urlRequest);
      match l {
        case Immediate(d) =>
          s := Finished(d.error, isLoading);
          isLoading := false;
        case Started(task) =>
          s := Pending(task);
      }
    }

    /** The callback of a pending `loadEmpty`: the worker's error, unchanged. */
    method CompleteEmpty(outcome: Outcome) returns (e: Option<Error>, loadingSeen: bool)
      modifies this
      ensures session == old(session)
      ensures e == HandleResponse(session.successfulResponseStatusCodes, outcome).error
      ensures loadingSeen == old(isLoading) && !isLoading
    {
      var d := session.Complete(outcome);
      e := d.error;
      loadingSeen := isLoading;
      isLoading := false;
    }
  }
}

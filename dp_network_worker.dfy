/** DPNetworkWorker.swift (newer tree): a single data-task slot and the
    classification of what a task returns, with and without decoding.
    URLSession itself is not modelled: starting a task hands out a fresh task
    number, cancelling one records it, and the data task's completion handler is
    the separate `Complete` / `CompleteDecoded` method. */
module DPNetworkWorkers {
  import opened Common
  import opened ResponseStatusCodes
  import opened UrlRequests
  import NetworkWorkers

  /** `DPNetworkError.invalidRequest`. */
  const InvalidRequestCode := 1

  /** The completion handler of `loadURLRequest(_:completion:)`: a non-HTTP
      response or a transport error, then the status code. */
  function HandleResponse(codes: seq<ResponseStatusCode>, outcome: Outcome): Delivery<Bytes> {
    if outcome.status.None? || outcome.error.Some? then Delivery(None, None, ErrorFrom(outcome.error))
    else if !Contains(codes, outcome.status.value) then
      Delivery(None, None, Some(ResponseErrorStatusCode(outcome.status.value)))
    else Delivery(outcome.data, outcome.status, None)
  }

  /** Exactly one of response and error reaches the caller; the response
      arrives, with the data as it came (possibly nil), exactly when it is
      HTTP, error-free and has a status in the list. */
  lemma DeliveryCases(codes: seq<ResponseStatusCode>, o: Outcome)
    ensures var d := HandleResponse(codes, o);
      d.response.Some? <==> o.status.Some? && o.error.None? && Contains(codes, o.status.value)
    ensures var d := HandleResponse(codes, o);
      d.response.Some? <==> d.error.None?
    ensures var d := HandleResponse(codes, o);
      d.response.Some? ==> d.response == o.status && d.result == o.data
    ensures var d := HandleResponse(codes, o);
      d.response.None? ==> d.result.None?
  {
  }

  /** Which error arrives: the wrapped transport error (code 0 when the
      response is not HTTP and there is no error), or the bad status. The
      `?? .unknown` fallback is never taken. */
  lemma DeliveryErrors(codes: seq<ResponseStatusCode>, o: Outcome)
    ensures var d := HandleResponse(codes, o);
      o.error.Some? ==> d.error == Some(Wrapped(Code(o.error.value)))
    ensures var d := HandleResponse(codes, o);
      o.error.None? && o.status.None? ==> d.error == Some(Wrapped(0))
    ensures var d := HandleResponse(codes, o);
      o.error.None? && o.status.Some? && !Contains(codes, o.status.value) ==>
        d.error == Some(ResponseErrorStatusCode(o.status.value))
    ensures HandleResponse(codes, o).error != Some(Unknown)
  {
  }

  /** Against the older worker: a status outside the list is the same error
      in both, but the newer worker drops the response and does not look for
      an "ok" body. */
  lemma BadStatusAgainstOlderWorker<T>(codes: seq<ResponseStatusCode>, o: Outcome, decode: Bytes -> Result<T>)
    requires o.status.Some? && o.error.None? && o.data.Some? && !Contains(codes, o.status.value)
    ensures HandleResponse(codes, o).error == NetworkWorkers.HandleResponse(codes, o, decode).error
    ensures HandleResponse(codes, o).response.None?
    ensures NetworkWorkers.HandleResponse(codes, o, decode).response == o.status
  {
  }

  /** The decoding overload's completion, fed with what the plain overload
      delivers: missing data or an error, then decoding. */
  function HandleDecoded<T>(d: Delivery<Bytes>, decode: Bytes -> Result<T>): Delivery<T> {
    if d.result.None? || d.error.Some? then Delivery(None, None, ErrorFrom(d.error))
    else
      match decode(d.result.value)
      case Success(v) => Delivery(Some(v), d.response, None)
      case Failure(e) => Delivery(None, None, Some(e))
  }

  function Decoded<T>(codes: seq<ResponseStatusCode>, o: Outcome, decode: Bytes -> Result<T>): Delivery<T> {
    HandleDecoded(HandleResponse(codes, o), decode)
  }

  /** After decoding, exactly one of value and error is present; the value
      and the response arrive together, exactly when the response is HTTP,
      error-free, successful, has data and the data decodes. */
  lemma DecodedCases<T>(codes: seq<ResponseStatusCode>, o: Outcome, decode: Bytes -> Result<T>)
    ensures var d := Decoded(codes, o, decode);
      d.result.Some? <==> d.error.None?
    ensures var d := Decoded(codes, o, decode);
      d.result.Some? <==>
        && o.status.Some? && o.error.None? && Contains(codes, o.status.value)
        && o.data.Some? && decode(o.data.value).Success?
    ensures var d := Decoded(codes, o, decode);
      d.result.Some? ==> d.result.value == decode(o.data.value).value && d.response == o.status
    ensures var d := Decoded(codes, o, decode);
      d.response.Some? <==> d.result.Some?
  {
  }

  /** Which error arrives after decoding: the decoder's own error, or an
      error rebuilt from the plain overload's, which keeps only the code. A
      bad status therefore loses its kind but keeps the status as its code,
      and a success without data becomes code 0. */
  lemma DecodedErrors<T>(codes: seq<ResponseStatusCode>, o: Outcome, decode: Bytes -> Result<T>)
    ensures var d := Decoded(codes, o, decode);
      (o.status.Some? && o.error.None? && Contains(codes, o.status.value) && o.data.Some?
        && decode(o.data.value).Failure?) ==> d.error == Some(decode(o.data.value).error)
    ensures var d := Decoded(codes, o, decode);
      o.status.Some? && o.error.None? && !Contains(codes, o.status.value) ==>
        d.error == Some(Wrapped(o.status.value))
    ensures var d := Decoded(codes, o, decode);
      o.status.Some? && o.error.None? && Contains(codes, o.status.value) && o.data.None? ==>
        d.error == Some(Wrapped(0))
    ensures var d := Decoded(codes, o, decode);
      o.error.Some? ==> d.error == Some(Wrapped(Code(o.error.value)))
  {
  }

  /** What a nil request delivers at once: `invalidRequest` to the plain
      overload, and the same code re-wrapped to the decoding one. */
  function NilRequestDelivery(): Delivery<Bytes> {
    Delivery(None, None, Some(InvalidRequest(InvalidRequestCode)))
  }

  lemma NilRequestDecoded<T>(decode: Bytes -> Result<T>)
    ensures HandleDecoded(NilRequestDelivery(), decode) == Delivery(None, None, Some(Wrapped(InvalidRequestCode)))
    ensures HandleDecoded(NilRequestDelivery(), decode) != Delivery(None, None, NilRequestDelivery().error)
  {
  }

  /** `ResponseStatusCode.defaultSuccessful` of the worker, and its `Array`
      forwarder. */
  const WorkerDefaultSuccessful: seq<ResponseStatusCode> := [ResponseStatusCode(200), ResponseStatusCode(204)]

  /** The worker's default list is the older tree's, so 200 and 204 exactly. */
  lemma WorkerDefaultSuccessfulMembership(status: int)
    ensures WorkerDefaultSuccessful == DefaultSuccessful
    ensures Contains(WorkerDefaultSuccessful, status) <==> status == 200 || status == 204
  {
    DefaultMembership(status);
  }

  /** What `loadURLRequest` did: answered at once (nil request), or started a
      task whose completion comes later. */
  datatype Load<T> = Immediate(delivery: Delivery<T>) | Started(task: nat)

  class DPNetworkWorker {
    const successfulResponseStatusCodes: seq<ResponseStatusCode>
    /** `dataTask`: the one task slot. */
    var dataTask: Option<nat>
    var nextTask: nat
    /** The tasks on which `cancel()` has been called, oldest first. */
    var cancelledTasks: seq<nat>

    /** The slot holds a task that was handed out before. */
    predicate Valid()
      reads this
    {
      dataTask.Some? ==> dataTask.value < nextTask
    }

    constructor(successfulResponseStatusCodes: seq<ResponseStatusCode>)
      ensures Valid()
      ensures dataTask == None && nextTask == 0 && cancelledTasks == []
      ensures this.successfulResponseStatusCodes == successfulResponseStatusCodes
    {
      this.successfulResponseStatusCodes := successfulResponseStatusCodes;
      dataTask := None;
      nextTask := 0;
      cancelledTasks := [];
    }

    /** `cancelDataTask`: cancels the held task, if any, and keeps it in the
        slot. */
    method CancelDataTask()
      requires Valid()
      modifies this
      ensures Valid()
      ensures dataTask == old(dataTask) && nextTask == old(nextTask)
      ensures cancelledTasks == old(cancelledTasks) + (if dataTask.Some? then [dataTask.value] else [])
    {
      if dataTask.Some? {
        cancelledTasks := cancelledTasks + [dataTask.value];
      }
    }

    /** `loadURLRequest(_:completion:)`: a nil request is answered at once and
        nothing else happens; otherwise the held task is cancelled and a new
        one takes the slot. */
    method LoadURLRequest(urlRequest: Option<URLRequest>) returns (l: Load<Bytes>)
      requires Valid()
      modifies this
      ensures Valid()
      ensures urlRequest.None? ==> l == Immediate(NilRequestDelivery()) && unchanged(this)
      ensures urlRequest.Some? ==>
        && l == Started(old(nextTask))
        && dataTask == Some(old(nextTask)) && nextTask == old(nextTask) + 1
        && cancelledTasks == old(cancelledTasks) + (if old(dataTask).Some? then [old(dataTask).value] else [])
    {
      if urlRequest.None? {
        return Immediate(NilRequestDelivery());
      }
      CancelDataTask();
      dataTask := Some(nextTask);
      l := Started(nextTask);
      nextTask := nextTask + 1;
    }

    /** `loadURLRequest(_:decodeTo:completion:)`: the same slot handling; a
        nil request is answered at once with the code of `invalidRequest`. */
    method LoadDecodedURLRequest<T>(urlRequest: Option<URLRequest>, decode: Bytes -> Result<T>) returns (l: Load<T>)
      requires Valid()
      modifies this
      ensures Valid()
      ensures urlRequest.None? ==>
        l == Immediate(Delivery(None, None, Some(Wrapped(InvalidRequestCode)))) && unchanged(this)
      ensures urlRequest.Some? ==>
        && l == Started(old(nextTask))
        && dataTask == Some(old(nextTask)) && nextTask == old(nextTask) + 1
        && cancelledTasks == old(cancelledTasks) + (if old(dataTask).Some? then [old(dataTask).value] else [])
    {
      var plain := LoadURLRequest(urlRequest);
      match plain {
        case Immediate(d) =>
          l := Immediate(HandleDecoded(d, decode));
        case Started(task) =>
          l := Started(task);
      }
    }

    /** A started task's completion handler for the plain overload. */
    method Complete(outcome: Outcome) returns (d: Delivery<Bytes>)
      ensures d == HandleResponse(successfulResponseStatusCodes, outcome)
    {
      d := HandleResponse(successfulResponseStatusCodes, outcome);
    }

    /** A started task's completion handler for the decoding overload. */
    method CompleteDecoded<T>(outcome: Outcome, decode: Bytes -> Result<T>) returns (d: Delivery<T>)
      ensures d == Decoded(successfulResponseStatusCodes, outcome, decode)
    {
      var plain := Complete(outcome);
      d := HandleDecoded(plain, decode);
    }
  }
}

/** DPURLSession.swift (newer tree): a URLSession subclass with the same
    single task slot and the same classification as `DPNetworkWorker`. The
    two classes classify responses and manage the task slot identically; they
    implement different protocols, and only the worker has the `identifer`
    and `session` fields, which are not modelled. The classification
    functions are shared with the worker's module. */
module DPURLSessions {
  import opened Common
  import opened ResponseStatusCodes
  import opened UrlRequests
  import opened DPNetworkWorkers

  /** `ResponseStatusCode.defaultSuccessful` of the session, and its
      `Array` forwarder. */
  const SessionDefaultSuccessful: seq<ResponseStatusCode> := [ResponseStatusCode(200), ResponseStatusCode(204)]

  /** The session's default list is the older tree's, so 200 and 204 exactly. */
  lemma SessionDefaultSuccessfulMembership(status: int)
    ensures SessionDefaultSuccessful == DefaultSuccessful
    ensures Contains(SessionDefaultSuccessful, status) <==> status == 200 || status == 204
  {
    DefaultMembership(status);
  }

  class DPURLSession {
    const successfulResponseStatusCodes: seq<ResponseStatusCode>
    /** `dataTask`: the one task slot. */
    var dataTask: Option<nat>
    var nextTask: nat
    /** The tasks on which `cancel()` has been called, oldest first. */
    var cancelledTasks: seq<nat>

    /** The slot holds a task that was handed out before. */
    predicate Valid()
      reads this
    {
      dataTask.Some? ==> dataTask.value < nextTask
    }

    constructor(successfulResponseStatusCodes: seq<ResponseStatusCode>)
      ensures Valid()
      ensures dataTask == None && nextTask == 0 && cancelledTasks == []
      ensures this.successfulResponseStatusCodes == successfulResponseStatusCodes
    {
      this.successfulResponseStatusCodes := successfulResponseStatusCodes;
      dataTask := None;
      nextTask := 0;
      cancelledTasks := [];
    }

    /** `cancelDataTask`: cancels the held task, if any, and keeps it in the
        slot. */
    method CancelDataTask()
      requires Valid()
      modifies this
      ensures Valid()
      ensures dataTask == old(dataTask) && nextTask == old(nextTask)
      ensures cancelledTasks == old(cancelledTasks) + (if dataTask.Some? then [dataTask.value] else [])
    {
      if dataTask.Some? {
        cancelledTasks := cancelledTasks + [dataTask.value];
      }
    }

    /** `loadURLRequest(_:completion:)`: a nil request is answered at once and
        nothing else happens; otherwise the held task is cancelled and a new
        one takes the slot. */
    method LoadURLRequest(urlRequest: Option<URLRequest>) returns (l: Load<Bytes>)
      requires Valid()
      modifies this
      ensures Valid()
      ensures urlRequest.None? ==> l == Immediate(NilRequestDelivery()) && unchanged(this)
      ensures urlRequest.Some? ==>
        && l == Started(old(nextTask))
        && dataTask == Some(old(nextTask)) && nextTask == old(nextTask) + 1
        && cancelledTasks == old(cancelledTasks) + (if old(dataTask).Some? then [old(dataTask).value] else [])
    {
      if urlRequest.None? {
        return Immediate(NilRequestDelivery());
      }
      CancelDataTask();
      dataTask := Some(nextTask);
      l := Started(nextTask);
      nextTask := nextTask + 1;
    }

    /** `loadURLRequest(_:decodeTo:completion:)`: the same slot handling; a
        nil request is answered at once with the code of `invalidRequest`. */
    method LoadDecodedURLRequest<T>(urlRequest: Option<URLRequest>, decode: Bytes -> Result<T>) returns (l: Load<T>)
      requires Valid()
      modifies this
      ensures Valid()
      ensures urlRequest.None? ==>
        l == Immediate(Delivery(None, None, Some(Wrapped(InvalidRequestCode)))) && unchanged(this)
      ensures urlRequest.Some? ==>
        && l == Started(old(nextTask))
        && dataTask == Some(old(nextTask)) && nextTask == old(nextTask) + 1
        && cancelledTasks == old(cancelledTasks) + (if old(dataTask).Some? then [old(dataTask).value] else [])
    {
      var plain := LoadURLRequest(urlRequest);
      match plain {
        case Immediate(d) =>
          l := Immediate(HandleDecoded(d, decode));
        case Started(task) =>
          l := Started(task);
      }
    }

    /** A started task's completion handler for the plain overload. */
    method Complete(outcome: Outcome) returns (d: Delivery<Bytes>)
      ensures d == HandleResponse(successfulResponseStatusCodes, outcome)
    {
      d := HandleResponse(successfulResponseStatusCodes, outcome);
    }

    /** A started task's completion handler for the decoding overload. */
    method CompleteDecoded<T>(outcome: Outcome, decode: Bytes -> Result<T>) returns (d: Delivery<T>)
      ensures d == Decoded(successfulResponseStatusCodes, outcome, decode)
    {
      var plain := Complete(outcome);
      d := HandleDecoded(plain, decode);
    }
  }
}

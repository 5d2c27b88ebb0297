/** DPRequestWithMappingResponse.swift (newer tree): a `DPRequest` that maps
    what it decodes into models, and for lists remembers whether the last
    page was short (`modelsIsLoadingAll`), which stops further non-forced
    loads. Swift subclassing is modelled by composition: the inherited
    request state is the `request` field. */
module DPRequestsWithMappingResponse {
  import opened Common
  import opened UrlRequests
  import opened ResponseStatusCodes
  import opened DPNetworkWorkers
  import opened DPRequests
  import ResponseMappings

  /** The `result` computed in `loadModel`'s callback. */
  function ModelResult<R, M>(loadResult: Result<R>, mapToModel: R -> Option<M>): Result<Option<M>> {
    match loadResult
    case Success(response) => Success(mapToModel(response))
    case Failure(e) => Failure(e)
  }

  /** The `result` computed in `loadModels`' callback: the responses that
      map, in order. */
  function ModelsResult<R, M>(loadResult: Result<seq<R>>, mapToModel: R -> Option<M>): Result<seq<M>> {
    match loadResult
    case Success(responses) => Success(ResponseMappings.Models(responses, mapToModel))
    case Failure(e) => Failure(e)
  }

  /** `modelsIsLoadingAll` once a completion has evaluated `result`: with a
      limit, a successful page decides it; otherwise it stays. Both source
      trees share this rule. */
  function LoadingAllAfter<M>(loadingAll: bool, result: Result<seq<M>>, limit: Option<int>): bool {
    if result.Success? && limit.Some? then |result.value| < limit.value else loadingAll
  }

  /** `loadModel` succeeds exactly when the worker delivers a decoded
      response, and then with that response's model, which may be nil; every
      other path fails with the worker's error. */
  lemma LoadModelOutcome<R, M>(codes: seq<ResponseStatusCode>, o: Outcome, decode: Bytes -> Result<R>,
                               mapToModel: R -> Option<M>)
    ensures var r := ModelResult(ResultOf(Decoded(codes, o, decode)), mapToModel);
      r.Success? <==>
        && o.status.Some? && o.error.None? && Contains(codes, o.status.value)
        && o.data.Some? && decode(o.data.value).Success?
    ensures var r := ModelResult(ResultOf(Decoded(codes, o, decode)), mapToModel);
      r.Success? ==> r.value == mapToModel(decode(o.data.value).value)
    ensures var r := ModelResult(ResultOf(Decoded(codes, o, decode)), mapToModel);
      r.Failure? ==> Decoded(codes, o, decode).error == Some(r.error)
  {
    ResultOfDecoded(codes, o, decode);
  }

  /** `loadModels` succeeds under the same conditions, with the models of
      the decoded responses that map. */
  lemma LoadModelsOutcome<R, M>(codes: seq<ResponseStatusCode>, o: Outcome, decode: Bytes -> Result<seq<R>>,
                                mapToModel: R -> Option<M>)
    ensures var r := ModelsResult(ResultOf(Decoded(codes, o, decode)), mapToModel);
      r.Success? <==>
        && o.status.Some? && o.error.None? && Contains(codes, o.status.value)
        && o.data.Some? && decode(o.data.value).Success?
    ensures var r := ModelsResult(ResultOf(Decoded(codes, o, decode)), mapToModel);
      r.Success? ==> r.value == ResponseMappings.Models(decode(o.data.value).value, mapToModel)
    ensures var r := ModelsResult(ResultOf(Decoded(codes, o, decode)), mapToModel);
      r.Failure? ==> Decoded(codes, o, decode).error == Some(r.error)
  {
    ResultOfDecoded(codes, o, decode);
  }

  /** The flag counts mapped models, not decoded responses: a page shorter
      than the limit always ends paging; a page that fills the limit ends it
      exactly when one of its responses does not map. */
  lemma LoadingAllCountsModels<R, M>(loadingAll: bool, responses: seq<R>, mapToModel: R -> Option<M>, limit: int)
    ensures var flag := LoadingAllAfter(loadingAll, ModelsResult(Success(responses), mapToModel), Some(limit));
      |responses| < limit ==> flag
    ensures var flag := LoadingAllAfter(loadingAll, ModelsResult(Success(responses), mapToModel), Some(limit));
      |responses| == limit ==>
        (flag <==> exists i :: 0 <= i < |responses| && mapToModel(responses[i]).None?)
    ensures var flag := LoadingAllAfter(loadingAll, ModelsResult(Success(responses), mapToModel), Some(limit));
      (forall i :: 0 <= i < |responses| ==> mapToModel(responses[i]).Some?) ==> (flag <==> |responses| < limit)
  {
    ResponseMappings.ModelsCount(responses, mapToModel);
  }

  class DPRequestWithMappingResponse {
    /** The inherited `DPRequest` state. */
    const request: DPRequest
    var modelsIsLoadingAll: bool

    constructor()
      ensures fresh(request) && fresh(request.session) && request.session.Valid()
      ensures request.session.dataTask == None && request.session.cancelledTasks == []
      ensures !request.isLoading && !modelsIsLoadingAll
    {
      request := new DPRequest();
      modelsIsLoadingAll := false;
    }

    /** `loadModel`: `load` with the model mapping on top; the flag of list
        loads is not involved. */
    method LoadModel<R, M>(urlRequest: Option<URLRequest>, forceReload: bool,
                           decode: Bytes -> Result<R>, mapToModel: R -> Option<M>)
      returns (s: LoadStart<Result<Option<M>>>)
      requires request.session.Valid()
      modifies request, request.session
      ensures request.session == old(request.session) && request.session.Valid()
      ensures modelsIsLoadingAll == old(modelsIsLoadingAll)
      ensures !forceReload && old(request.isLoading) ==>
        s == Ignored && request.isLoading && unchanged(request.session)
      ensures (forceReload || !old(request.isLoading)) && urlRequest.None? ==>
        && s == Finished(Failure(Wrapped(InvalidRequestCode)), true)
        && !request.isLoading && unchanged(request.session)
      ensures (forceReload || !old(request.isLoading)) && urlRequest.Some? ==>
        && s == Pending(old(request.session.nextTask)) && request.isLoading
        && request.session.dataTask == Some(old(request.session.nextTask))
        && request.session.nextTask == old(request.session.nextTask) + 1
        && request.session.cancelledTasks == old(request.session.cancelledTasks)
             + (if old(request.session.dataTask).Some? then [old(request.session.dataTask).value] else [])
    {
      var l := request.Load(urlRequest, forceReload, decode);
      match l {
        case Ignored => s := Ignored;
        case Finished(r, seen) => s := Finished(ModelResult(r, mapToModel), seen);
        case Pending(task) => s := Pending(task);
      }
    }

    /** The callback of a pending `loadModel`. */
    method CompleteModel<R, M>(outcome: Outcome, decode: Bytes -> Result<R>, mapToModel: R -> Option<M>)
      returns (r: Result<Option<M>>, loadingSeen: bool)
      modifies request
      ensures request.session == old(request.session) && modelsIsLoadingAll == old(modelsIsLoadingAll)
      ensures r == ModelResult(ResultOf(Decoded(request.session.successfulResponseStatusCodes, outcome, decode)), mapToModel)
      ensures loadingSeen == old(request.isLoading) && !request.isLoading
    {
      var loadResult;
      loadResult, loadingSeen := request.Complete(outcome, decode);
      r := ModelResult(loadResult, mapToModel);
    }

    /** `loadModels`: `forceReload` clears the flag; a set flag makes the
        call a silent no-op before `load` is reached; otherwise `load` runs
        with the same `forceReload`. A nil request fails at once, which
        leaves the flag clear. */
    method LoadModels<R, M>(urlRequest: Option<URLRequest>, forceReload: bool, limit: Option<int>,
                            decode: Bytes -> Result<seq<R>>, mapToModel: R -> Option<M>)
      returns (s: LoadStart<Result<seq<M>>>)
      requires request.session.Valid()
      modifies this, request, request.session
      ensures request.session == old(request.session) && request.session.Valid()
      ensures !forceReload && old(modelsIsLoadingAll) ==>
        && s == Ignored && modelsIsLoadingAll
        && request.isLoading == old(request.isLoading) && unchanged(request.session)
      ensures forceReload || !old(modelsIsLoadingAll) ==>
        && !modelsIsLoadingAll
        && (!forceReload && old(request.isLoading) ==>
              s == Ignored && request.isLoading && unchanged(request.session))
        && ((forceReload || !old(request.isLoading)) && urlRequest.None? ==>
              && s == Finished(Failure(Wrapped(InvalidRequestCode)), true)
              && !request.isLoading && unchanged(request.session))
        && ((forceReload || !old(request.isLoading)) && urlRequest.Some? ==>
              && s == Pending(old(request.session.nextTask)) && request.isLoading
              && request.session.dataTask == Some(old(request.session.nextTask))
              && request.session.nextTask == old(request.session.nextTask) + 1
              && request.session.cancelledTasks == old(request.session.cancelledTasks)
                   + (if old(request.session.dataTask).Some? then [old(request.session.dataTask).value] else []))
    {
      if forceReload {
        modelsIsLoadingAll := false;
      }
      if modelsIsLoadingAll {
        return Ignored;
      }
      var l := request.Load(urlRequest, forceReload, decode);
      match l {
        case Ignored => s := Ignored;
        case Finished(loadResult, seen) =>
          var result := ModelsResult(loadResult, mapToModel);
          modelsIsLoadingAll := LoadingAllAfter(modelsIsLoadingAll, result, limit);
          s := Finished(result, seen);
        case Pending(task) => s := Pending(task);
      }
    }

    /** The callback of a pending `loadModels`. `result` is only evaluated
        by `completion?(result)`: without a completion nothing is mapped and
        the flag stays; with one, the completion gets the mapped page and a
        limit sets the flag from the number of models. */
    method CompleteModels<R, M>(outcome: Outcome, limit: Option<int>, hasCompletion: bool,
                                decode: Bytes -> Result<seq<R>>, mapToModel: R -> Option<M>)
      returns (delivered: Option<Result<seq<M>>>, loadingSeen: bool)
      modifies this, request
      ensures request.session == old(request.session)
      ensures loadingSeen == old(request.isLoading) && !request.isLoading
      ensures !hasCompletion ==> delivered == None && modelsIsLoadingAll == old(modelsIsLoadingAll)
      ensures hasCompletion ==>
        var r := ModelsResult(ResultOf(Decoded(request.session.successfulResponseStatusCodes, outcome, decode)), mapToModel);
        delivered == Some(r) && modelsIsLoadingAll == LoadingAllAfter(old(modelsIsLoadingAll), r, limit)
    {
      var loadResult;
      loadResult, loadingSeen := request.Complete(outcome, decode);
      if !hasCompletion {
        return None, loadingSeen;
      }
      match loadResult {
        case Success(responses) =>
          var models := ResponseMappings.MapToModels(responses, mapToModel);
          if limit.Some? {
            modelsIsLoadingAll := |models| < limit.value;
          }
          delivered := Some(Success(models));
        case Failure(e) =>
          delivered := Some(Failure(e));
      }
    }
  }
}

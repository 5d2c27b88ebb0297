/** DPRequestWithMappingResponse.swift (older tree): the same request with
    model mapping, where `mapToModel()` throws instead of returning nil. A
    throw becomes a `Failure`. The request it extends is the newer tree's
    `DPRequest`, whose `load(_:forceReload:decodeTo:completion:)` it calls. */
module LegacyDPRequestsWithMappingResponse {
  import opened Common
  import opened UrlRequests
  import opened ResponseStatusCodes
  import opened DPNetworkWorkers
  import opened DPRequests
  import DPRequestsWithMappingResponse

  /** `try responses.map { try $0.mapToModel() }`: maps in order and stops
      at the first throw, whose error it reports. */
  function TryMap<R, M>(responses: seq<R>, mapToModel: R -> Result<M>): Result<seq<M>> {
    if responses == [] then Success([])
    else
      match TryMap(responses[..|responses| - 1], mapToModel)
      case Failure(e) => Failure(e)
      case Success(models) =>
        match mapToModel(responses[|responses| - 1])
        case Success(m) => Success(models + [m])
        case Failure(e) => Failure(e)
  }

  /** The `result` computed in `loadModel`'s callback. */
  function ModelResult<R, M>(loadResult: Result<R>, mapToModel: R -> Result<M>): Result<M> {
    match loadResult
    case Success(response) => mapToModel(response)
    case Failure(e) => Failure(e)
  }

  /** The `result` computed in `loadModels`' callback. */
  function ModelsResult<R, M>(loadResult: Result<seq<R>>, mapToModel: R -> Result<M>): Result<seq<M>> {
    match loadResult
    case Success(responses) => TryMap(responses, mapToModel)
    case Failure(e) => Failure(e)
  }

  /** Mapping succeeds exactly when no response throws, and then gives one
      model per response in order; otherwise it fails with the error of the
      first response that throws. */
  lemma {:induction false} TryMapCases<R, M>(responses: seq<R>, mapToModel: R -> Result<M>)
    ensures var r := TryMap(responses, mapToModel);
      r.Success? <==> forall i :: 0 <= i < |responses| ==> mapToModel(responses[i]).Success?
    ensures var r := TryMap(responses, mapToModel);
      r.Success? ==>
        |r.value| == |responses| && forall i :: 0 <= i < |responses| ==> r.value[i] == mapToModel(responses[i]).value
    ensures var r := TryMap(responses, mapToModel);
      r.Failure? ==> exists i :: FirstThrow(responses, mapToModel, i) && r.error == mapToModel(responses[i]).error
  {
    if responses != [] {
      var n := |responses| - 1;
      var init := responses[..n];
      TryMapCases(init, mapToModel);
      forall i | 0 <= i < n
        ensures init[i] == responses[i]
      {
      }
      var r := TryMap(responses, mapToModel);
      if TryMap(init, mapToModel).Failure? {
        var i :| FirstThrow(init, mapToModel, i) && TryMap(init, mapToModel).error == mapToModel(init[i]).error;
        assert FirstThrow(responses, mapToModel, i);
      } else if mapToModel(responses[n]).Failure? {
        assert FirstThrow(responses, mapToModel, n);
      }
    }
  }

  /** Response `i` is the first one whose mapping throws. */
  predicate FirstThrow<R, M>(responses: seq<R>, mapToModel: R -> Result<M>, i: int) {
    && 0 <= i < |responses| && mapToModel(responses[i]).Failure?
    && forall j :: 0 <= j < i ==> mapToModel(responses[j]).Success?
  }

  /** `loadModel` succeeds exactly when the worker delivers a decoded
      response that maps; a throwing mapping fails with its own error. */
  lemma LoadModelOutcome<R, M>(codes: seq<ResponseStatusCode>, o: Outcome, decode: Bytes -> Result<R>,
                               mapToModel: R -> Result<M>)
    ensures var r := ModelResult(ResultOf(Decoded(codes, o, decode)), mapToModel);
      r.Success? <==>
        && o.status.Some? && o.error.None? && Contains(codes, o.status.value)
        && o.data.Some? && decode(o.data.value).Success?
        && mapToModel(decode(o.data.value).value).Success?
    ensures var r := ModelResult(ResultOf(Decoded(codes, o, decode)), mapToModel);
      r.Success? ==> r.value == mapToModel(decode(o.data.value).value).value
    ensures var r := ModelResult(ResultOf(Decoded(codes, o, decode)), mapToModel);
      r.Failure? && Decoded(codes, o, decode).result.Some? ==>
        r.error == mapToModel(decode(o.data.value).value).error
  {
    ResultOfDecoded(codes, o, decode);
    DecodedCases(codes, o, decode);
  }

  /** The flag is set only by a page in which every response maps, and then
      from the number of responses; a throw leaves it as it was. */
  lemma LoadingAllAfterMapping<R, M>(loadingAll: bool, responses: seq<R>, mapToModel: R -> Result<M>, limit: int)
    ensures var flag := DPRequestsWithMappingResponse.LoadingAllAfter(
        loadingAll, ModelsResult(Success(responses), mapToModel), Some(limit));
      (forall i :: 0 <= i < |responses| ==> mapToModel(responses[i]).Success?) ==> (flag <==> |responses| < limit)
    ensures var flag := DPRequestsWithMappingResponse.LoadingAllAfter(
        loadingAll, ModelsResult(Success(responses), mapToModel), Some(limit));
      (exists i :: 0 <= i < |responses| && mapToModel(responses[i]).Failure?) ==> flag == loadingAll
  {
    TryMapCases(responses, mapToModel);
  }

  class DPRequestWithMappingResponse {
    /** The inherited `DPRequest` state. */
    const request: DPRequest
    var modelsIsLoadingAll: bool

    constructor()
      ensures fresh(request) && fresh(request.session) && request.session.Valid()
      ensures request.session.dataTask == None && request.session.cancelledTasks == []
      ensures !request.isLoading && !modelsIsLoadingAll
    {
      request := new DPRequest();
      modelsIsLoadingAll := false;
    }

    /** `loadModel`: `load` with the throwing mapping on top. */
    method LoadModel<R, M>(urlRequest: Option<URLRequest>, forceReload: bool,
                           decode: Bytes -> Result<R>, mapToModel: R -> Result<M>)
      returns (s: LoadStart<Result<M>>)
      requires request.session.Valid()
      modifies request, request.session
      ensures request.session == old(request.session) && request.session.Valid()
      ensures modelsIsLoadingAll == old(modelsIsLoadingAll)
      ensures !forceReload && old(request.isLoading) ==>
        s == Ignored && request.isLoading && unchanged(request.session)
      ensures (forceReload || !old(request.isLoading)) && urlRequest.None? ==>
        && s == Finished(Failure(Wrapped(InvalidRequestCode)), true)
        && !request.isLoading && unchanged(request.session)
      ensures (forceReload || !old(request.isLoading)) && urlRequest.Some? ==>
        && s == Pending(old(request.session.nextTask)) && request.isLoading
        && request.session.dataTask == Some(old(request.session.nextTask))
        && request.session.nextTask == old(request.session.nextTask) + 1
        && request.session.cancelledTasks == old(request.session.cancelledTasks)
             + (if old(request.session.dataTask).Some? then [old(request.session.dataTask).value] else [])
    {
      var l := request.Load(urlRequest, forceReload, decode);
      match l {
        case Ignored => s := Ignored;
        case Finished(r, seen) => s := Finished(ModelResult(r, mapToModel), seen);
        case Pending(task) => s := Pending(task);
      }
    }

    /** The callback of a pending `loadModel`. */
    method CompleteModel<R, M>(outcome: Outcome, decode: Bytes -> Result<R>, mapToModel: R -> Result<M>)
      returns (r: Result<M>, loadingSeen: bool)
      modifies request
      ensures request.session == old(request.session) && modelsIsLoadingAll == old(modelsIsLoadingAll)
      ensures r == ModelResult(ResultOf(Decoded(request.session.successfulResponseStatusCodes, outcome, decode)), mapToModel)
      ensures loadingSeen == old(request.isLoading) && !request.isLoading
    {
      var loadResult;
      loadResult, loadingSeen := request.Complete(outcome, decode);
      r := ModelResult(loadResult, mapToModel);
    }

    /** `loadModels`: the same reset, guard and `load` as the newer tree. */
    method LoadModels<R, M>(urlRequest: Option<URLRequest>, forceReload: bool, limit: Option<int>,
                            decode: Bytes -> Result<seq<R>>, mapToModel: R -> Result<M>)
      returns (s: LoadStart<Result<seq<M>>>)
      requires request.session.Valid()
      modifies this, request, request.session
      ensures request.session == old(request.session) && request.session.Valid()
      ensures !forceReload && old(modelsIsLoadingAll) ==>
        && s == Ignored && modelsIsLoadingAll
        && request.isLoading == old(request.isLoading) && unchanged(request.session)
      ensures forceReload || !old(modelsIsLoadingAll) ==>
        && !modelsIsLoadingAll
        && (!forceReload && old(request.isLoading) ==>
              s == Ignored && request.isLoading && unchanged(request.session))
        && ((forceReload || !old(request.isLoading)) && urlRequest.None? ==>
              && s == Finished(Failure(Wrapped(InvalidRequestCode)), true)
              && !request.isLoading && unchanged(request.session))
        && ((forceReload || !old(request.isLoading)) && urlRequest.Some? ==>
              && s == Pending(old(request.session.nextTask)) && request.isLoading
              && request.session.dataTask == Some(old(request.session.nextTask))
              && request.session.nextTask == old(request.session.nextTask) + 1
              && request.session.cancelledTasks == old(request.session.cancelledTasks)
                   + (if old(request.session.dataTask).Some? then [old(request.session.dataTask).value] else []))
    {
      if forceReload {
        modelsIsLoadingAll := false;
      }
      if modelsIsLoadingAll {
        return Ignored;
      }
      var l := request.Load(urlRequest, forceReload, decode);
      match l {
        case Ignored => s := Ignored;
        case Finished(loadResult, seen) =>
          var result := ModelsResult(loadResult, mapToModel);
          modelsIsLoadingAll := DPRequestsWithMappingResponse.LoadingAllAfter(modelsIsLoadingAll, result, limit);
          s := Finished(result, seen);
        case Pending(task) => s := Pending(task);
      }
    }

    /** The callback of a pending `loadModels`: as in the newer tree the
        flag is only touched when a completion evaluates `result`; a throw
        skips the flag and fails with the thrown error. */
    method CompleteModels<R, M>(outcome: Outcome, limit: Option<int>, hasCompletion: bool,
                                decode: Bytes -> Result<seq<R>>, mapToModel: R -> Result<M>)
      returns (delivered: Option<Result<seq<M>>>, loadingSeen: bool)
      modifies this, request
      ensures request.session == old(request.session)
      ensures loadingSeen == old(request.isLoading) && !request.isLoading
      ensures !hasCompletion ==> delivered == None && modelsIsLoadingAll == old(modelsIsLoadingAll)
      ensures hasCompletion ==>
        var r := ModelsResult(ResultOf(Decoded(request.session.successfulResponseStatusCodes, outcome, decode)), mapToModel);
        && delivered == Some(r)
        && modelsIsLoadingAll == DPRequestsWithMappingResponse.LoadingAllAfter(old(modelsIsLoadingAll), r, limit)
    {
      var loadResult;
      loadResult, loadingSeen := request.Complete(outcome, decode);
      if !hasCompletion {
        return None, loadingSeen;
      }
      match loadResult {
        case Success(responses) =>
          var models := TryMap(responses, mapToModel);
          if models.Success? && limit.Some? {
            modelsIsLoadingAll := |models.value| < limit.value;
          }
          delivered := Some(models);
        case Failure(e) =>
          delivered := Some(Failure(e));
      }
    }
  }
}

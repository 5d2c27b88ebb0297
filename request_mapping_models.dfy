/** RequestMappingModels.swift (older tree): a `Request` that loads a page of
    responses, maps them all-or-nothing, and sets `isLoadingAll` from the
    number of decoded responses. Swift subclassing is modelled by
    composition: the inherited request state is the `request` field. */
module RequestsMappingModels {
  import opened Common
  import opened ResponseStatusCodes
  import NetworkWorkers
  import LegacyRequest
  import LegacyResponseMappings
  import ResponseMappings
  import DPRequestsWithMappingResponse

  /** `isLoadingAll` after a completion: a limit and a decoded page set it
      from the raw number of responses; otherwise it stays. */
  function LoadingAllAfter<R>(loadingAll: bool, result: Option<seq<R>>, limit: Option<int>): bool {
    if limit.Some? && result.Some? then limit.value > |result.value| else loadingAll
  }

  /** `result?.map { $0.mapToModel() } as? [ModelType] ?? []`. */
  function PageModels<R, M>(result: Option<seq<R>>, mapToModel: R -> Option<M>): seq<M> {
    if result.Some? then LegacyResponseMappings.MapToModels(result.value, mapToModel) else []
  }

  /** What the completion receives: models only from a decoded page with
      no error, either one per response or none at all. */
  lemma CompletionModels<R, M>(codes: seq<ResponseStatusCode>, o: Outcome, decode: Bytes -> Result<seq<R>>,
                               mapToModel: R -> Option<M>)
    ensures var d := NetworkWorkers.HandleResponse(codes, o, decode);
      PageModels(d.result, mapToModel) != [] ==> d.error.None? && d.response == o.status
    ensures var d := NetworkWorkers.HandleResponse(codes, o, decode);
      d.result.Some? ==>
        PageModels(d.result, mapToModel) == [] || |PageModels(d.result, mapToModel)| == |d.result.value|
    ensures var d := NetworkWorkers.HandleResponse(codes, o, decode);
      d.result.Some? && (forall i :: 0 <= i < |d.result.value| ==> mapToModel(d.result.value[i]).Some?) ==>
        PageModels(d.result, mapToModel) == ResponseMappings.Models(d.result.value, mapToModel)
  {
    var d := NetworkWorkers.HandleResponse(codes, o, decode);
    NetworkWorkers.ObjectIff(codes, o, decode);
    NetworkWorkers.ResponseAndErrorCases(codes, o, decode);
    if d.result.Some? {
      LegacyResponseMappings.AllOrNothing(d.result.value, mapToModel);
      LegacyResponseMappings.AgainstNewer(d.result.value, mapToModel);
    }
  }

  /** The flag counts decoded responses, mapped or not. On a full page with
      one unmappable response this class delivers no models and keeps
      paging, while the newer `loadModels` delivers the others and stops. */
  lemma RawCountAgainstMapped<R, M>(loadingAll: bool, responses: seq<R>, mapToModel: R -> Option<M>, limit: int)
    ensures LoadingAllAfter(loadingAll, Some(responses), Some(limit)) <==> |responses| < limit
    ensures (exists i :: 0 <= i < |responses| && mapToModel(responses[i]).None?) && |responses| == limit ==>
      && !LoadingAllAfter(loadingAll, Some(responses), Some(limit))
      && PageModels(Some(responses), mapToModel) == []
      && DPRequestsWithMappingResponse.LoadingAllAfter(
           loadingAll, DPRequestsWithMappingResponse.ModelsResult(Success(responses), mapToModel), Some(limit))
  {
    LegacyResponseMappings.AllOrNothing(responses, mapToModel);
    DPRequestsWithMappingResponse.LoadingAllCountsModels(loadingAll, responses, mapToModel, limit);
  }

  /** What `loadModels` did. */
  datatype ModelsLoad = Skipped | Loaded(start: LegacyRequest.LoadStart)

  class RequestMappingModels {
    /** The inherited `Request` state. */
    const request: LegacyRequest.Request
    var isLoadingAll: bool

    constructor(request: LegacyRequest.Request)
      ensures this.request == request && !isLoadingAll
    {
      this.request := request;
      isLoadingAll := false;
    }

    /** `loadModels`: `isReload` clears the flag; a set flag returns before
        anything else; otherwise the request's URL is cancelled and then
        loaded. A cancelled task stays in the worker's table until its
        handler runs, so a load of the same URL right after finds it there,
        cancels it once more and starts nothing. */
    method LoadModels(isReload: bool, boundary: Boundary, validUrl: string -> bool) returns (s: ModelsLoad)
      requires request.worker.Valid()
      modifies this, request, request.worker
      ensures request.worker == old(request.worker) && request.worker.Valid()
      ensures !isReload && old(isLoadingAll) ==>
        s == Skipped && isLoadingAll && unchanged(request, request.worker)
      ensures isReload || !old(isLoadingAll) ==>
        && !isLoadingAll && s.Loaded?
        && (request.Built(boundary, validUrl).None? ==>
              && s.start == LegacyRequest.NoRequest && request.isLoading == old(request.isLoading)
              && request.worker.activeTasks == old(request.worker.activeTasks)
              && request.worker.nextTask == old(request.worker.nextTask)
              && request.worker.cancelledTasks == old(request.worker.cancelledTasks))
      ensures (isReload || !old(isLoadingAll)) && request.Built(boundary, validUrl).Some? ==>
        var url := request.Built(boundary, validUrl).value.url;
        var cancelled := if url in old(request.worker.activeTasks) then [old(request.worker.activeTasks)[url]] else [];
        && request.isLoading
        && (old(request.isLoading) ==>
              && s.start == LegacyRequest.AlreadyLoading
              && request.worker.activeTasks == old(request.worker.activeTasks)
              && request.worker.cancelledTasks == old(request.worker.cancelledTasks) + cancelled)
        && (!old(request.isLoading) && url in old(request.worker.activeTasks) ==>
              && s.start == LegacyRequest.Dropped(old(request.worker.activeTasks)[url])
              && request.worker.activeTasks == old(request.worker.activeTasks)
              && request.worker.cancelledTasks == old(request.worker.cancelledTasks) + cancelled + cancelled)
        && (!old(request.isLoading) && url !in old(request.worker.activeTasks) ==>
              && s.start == LegacyRequest.Pending(url, old(request.worker.nextTask))
              && request.worker.activeTasks == old(request.worker.activeTasks)[url := old(request.worker.nextTask)]
              && request.worker.cancelledTasks == old(request.worker.cancelledTasks))
    {
      if isReload {
        isLoadingAll := false;
      }
      if isLoadingAll {
        return Skipped;
      }
      ghost var built := request.Built(boundary, validUrl);
      ghost var before := request.worker.cancelledTasks;
      request.Cancel(boundary, validUrl);
      ghost var afterCancel := request.worker.cancelledTasks;
      var start := request.Load(boundary, validUrl);
      s := Loaded(start);
      if built.Some? && start.Dropped? {
        var t := start.cancelledTask;
        assert afterCancel == before + [t];
        assert request.worker.cancelledTasks == afterCancel + [t];
      }
    }

    /** The callback of a pending `loadModels`: the request clears
        `isLoading`, then the flag is updated (with or without a completion)
        and the completion gets the models, the response and the error. */
    method CompleteModels<R, M>(url: string, outcome: Outcome, limit: Option<int>,
                                decode: Bytes -> Result<seq<R>>, mapToModel: R -> Option<M>)
      returns (models: seq<M>, response: Option<int>, error: Option<Error>)
      requires request.worker.Valid()
      modifies this, request, request.worker
      ensures request.worker == old(request.worker) && request.worker.Valid()
      ensures var d := NetworkWorkers.HandleResponse(request.worker.successfulResponseStatusCodes, outcome, decode);
        && models == PageModels(d.result, mapToModel) && response == d.response && error == d.error
        && isLoadingAll == LoadingAllAfter(old(isLoadingAll), d.result, limit)
      ensures request.worker.activeTasks == old(request.worker.activeTasks) - {url} && !request.isLoading
    {
      var d, _ := request.Complete(url, outcome, decode);
      if limit.Some? && d.result.Some? {
        isLoadingAll := limit.value > |d.result.value|;
      }
      models := if d.result.Some? then LegacyResponseMappings.MapToModels(d.result.value, mapToModel) else [];
      response, error := d.response, d.error;
    }
  }
}

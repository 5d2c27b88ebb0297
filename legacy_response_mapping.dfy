/** DPResponseMappingProtocol.swift (older tree): `mapToModels` maps every
    response and then casts the array of optionals to an array of models,
    falling back to the empty array when the cast fails. */
module LegacyResponseMappings {
  import opened Common
  import ResponseMappings

  /** `as? [ModelType]` on an array of optionals: succeeds exactly when no
      element is nil. */
  function Cast<M>(ms: seq<Option<M>>): (r: Option<seq<M>>)
    ensures r.Some? <==> forall i :: 0 <= i < |ms| ==> ms[i].Some?
    ensures r.Some? ==> |r.value| == |ms| && forall i :: 0 <= i < |ms| ==> r.value[i] == ms[i].value
  {
    if ms == [] then Some([])
    else
      match (ms[0], Cast(ms[1..]))
      case (Some(m), Some(rest)) => Some([m] + rest)
      case _ => None
  }

  /** `mapToModels`: `map`, then the cast, then `?? []`. */
  function MapToModels<R, M>(responses: seq<R>, mapToModel: R -> Option<M>): seq<M> {
    Cast(seq(|responses|, i requires 0 <= i < |responses| => mapToModel(responses[i]))).GetOr([])
  }

  /** All or nothing: every model in order when every response maps, and
      the empty array as soon as one does not. So the length is 0 or the
      number of responses, and no responses give no models. */
  lemma AllOrNothing<R, M>(responses: seq<R>, mapToModel: R -> Option<M>)
    ensures var r := MapToModels(responses, mapToModel);
      (forall i :: 0 <= i < |responses| ==> mapToModel(responses[i]).Some?) ==>
        |r| == |responses| && forall i :: 0 <= i < |responses| ==> r[i] == mapToModel(responses[i]).value
    ensures var r := MapToModels(responses, mapToModel);
      (exists i :: 0 <= i < |responses| && mapToModel(responses[i]).None?) ==> r == []
    ensures var r := MapToModels(responses, mapToModel);
      |r| == 0 || |r| == |responses|
  {
    var mapped := seq(|responses|, i requires 0 <= i < |responses| => mapToModel(responses[i]));
    if exists i :: 0 <= i < |responses| && mapToModel(responses[i]).None? {
      var i :| 0 <= i < |responses| && mapToModel(responses[i]).None?;
      assert mapped[i].None?;
    }
  }

  /** Against the newer revision: the same models when every response maps,
      none at all where the newer one would drop only the unmappable ones. */
  lemma AgainstNewer<R, M>(responses: seq<R>, mapToModel: R -> Option<M>)
    ensures (forall i :: 0 <= i < |responses| ==> mapToModel(responses[i]).Some?) ==>
      MapToModels(responses, mapToModel) == ResponseMappings.Models(responses, mapToModel)
    ensures (exists i :: 0 <= i < |responses| && mapToModel(responses[i]).None?) ==>
      MapToModels(responses, mapToModel) == [] &&
      |ResponseMappings.Models(responses, mapToModel)| < |responses|
  {
    AllOrNothing(responses, mapToModel);
    ResponseMappings.ModelsCount(responses, mapToModel);
    if forall i :: 0 <= i < |responses| ==> mapToModel(responses[i]).Some? {
      ResponseMappings.AllMapInOrder(responses, mapToModel);
    }
  }
}

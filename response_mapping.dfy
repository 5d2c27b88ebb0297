/** DPResponseMappingProtocol.swift (newer tree): turning decoded responses
    into models. `mapToModel()` is a parameter, since each response type
    supplies its own; nil means the response does not map. */
module ResponseMappings {
  import opened Common

  /** The models of the responses that map, in input order. */
  function Models<R, M>(responses: seq<R>, mapToModel: R -> Option<M>): seq<M> {
    if responses == [] then []
    else
      var last := mapToModel(responses[|responses| - 1]);
      Models(responses[..|responses| - 1], mapToModel) + (if last.Some? then [last.value] else [])
  }

  /** The responses that are present, in input order. */
  function Present<R>(responses: seq<Option<R>>): seq<R> {
    if responses == [] then []
    else
      var last := responses[|responses| - 1];
      Present(responses[..|responses| - 1]) + (if last.Some? then [last.value] else [])
  }

  /** `mapOptionalsToModels`: the models of the present responses that map. */
  function OptionalModels<R, M>(responses: seq<Option<R>>, mapToModel: R -> Option<M>): seq<M> {
    if responses == [] then []
    else
      var last := responses[|responses| - 1];
      var model := if last.Some? then mapToModel(last.value) else None;
      OptionalModels(responses[..|responses| - 1], mapToModel) + (if model.Some? then [model.value] else [])
  }

  /** `mapToModels`: each response that maps adds its model at the end. */
  method MapToModels<R, M>(responses: seq<R>, mapToModel: R -> Option<M>) returns (result: seq<M>)
    ensures result == Models(responses, mapToModel)
  {
    result := [];
    for i := 0 to |responses|
      invariant result == Models(responses[..i], mapToModel)
    {
      assert responses[..i + 1][..i] == responses[..i];
      var model := mapToModel(responses[i]);
      if model.Some? {
        result := result + [model.value];
      }
    }
    assert responses[..|responses|] == responses;
  }

  /** `mapOptionalsToModels`: a nil response and a nil model are both
      skipped. */
  method MapOptionalsToModels<R, M>(responses: seq<Option<R>>, mapToModel: R -> Option<M>) returns (result: seq<M>)
    ensures result == OptionalModels(responses, mapToModel)
  {
    result := [];
    for i := 0 to |responses|
      invariant result == OptionalModels(responses[..i], mapToModel)
    {
      assert responses[..i + 1][..i] == responses[..i];
      var response := responses[i];
      if response.Some? {
        var model := mapToModel(response.value);
        if model.Some? {
          result := result + [model.value];
        }
      }
    }
    assert responses[..|responses|] == responses;
  }

  /** Mapping is done response by response: mapping a concatenation maps
      each half, and the halves keep their order. */
  lemma {:induction false} ModelsAppend<R, M>(a: seq<R>, b: seq<R>, mapToModel: R -> Option<M>)
    ensures Models(a + b, mapToModel) == Models(a, mapToModel) + Models(b, mapToModel)
  {
    if b != [] {
      var init := b[..|b| - 1];
      assert (a + b)[..|a + b| - 1] == a + init;
      ModelsAppend(a, init, mapToModel);
      var last := mapToModel(b[|b| - 1]);
      AppendAssoc(Models(a, mapToModel), Models(init, mapToModel), if last.Some? then [last.value] else []);
    } else {
      assert a + b == a;
    }
  }

  /** A single response gives its model, or nothing when it does not map. */
  lemma ModelsOfOne<R, M>(response: R, mapToModel: R -> Option<M>)
    ensures Models([response], mapToModel) ==
      if mapToModel(response).Some? then [mapToModel(response).value] else []
  {
    assert [response][..0] == [];
  }

  /** Every model comes from some response, and every response that maps
      contributes its model. */
  lemma {:induction false} ModelsMembership<R, M>(responses: seq<R>, mapToModel: R -> Option<M>, m: M)
    ensures m in Models(responses, mapToModel) <==>
      exists i :: 0 <= i < |responses| && mapToModel(responses[i]) == Some(m)
  {
    if responses != [] {
      var n := |responses| - 1;
      var init := responses[..n];
      ModelsMembership(init, mapToModel, m);
      if exists i :: 0 <= i < |responses| && mapToModel(responses[i]) == Some(m) {
        var i :| 0 <= i < |responses| && mapToModel(responses[i]) == Some(m);
        if i < n {
          assert init[i] == responses[i];
        }
      }
      if exists i :: 0 <= i < n && mapToModel(init[i]) == Some(m) {
        var i :| 0 <= i < n && mapToModel(init[i]) == Some(m);
        assert responses[i] == init[i];
      }
    }
  }

  /** At most one model per response, and exactly one each precisely when
      every response maps. */
  lemma {:induction false} ModelsCount<R, M>(responses: seq<R>, mapToModel: R -> Option<M>)
    ensures |Models(responses, mapToModel)| <= |responses|
    ensures |Models(responses, mapToModel)| == |responses| <==>
      forall i :: 0 <= i < |responses| ==> mapToModel(responses[i]).Some?
  {
    if responses != [] {
      var n := |responses| - 1;
      var init := responses[..n];
      ModelsCount(init, mapToModel);
      if forall i :: 0 <= i < |responses| ==> mapToModel(responses[i]).Some? {
        forall i | 0 <= i < n
          ensures mapToModel(init[i]).Some?
        {
          assert init[i] == responses[i];
        }
      }
      if forall i :: 0 <= i < n ==> mapToModel(init[i]).Some? {
        forall i | 0 <= i < n
          ensures mapToModel(responses[i]).Some?
        {
          assert init[i] == responses[i];
        }
      }
    }
  }

  /** When every response maps, the models are the mapped responses one to
      one, in order. */
  lemma {:induction false} AllMapInOrder<R, M>(responses: seq<R>, mapToModel: R -> Option<M>)
    requires forall i :: 0 <= i < |responses| ==> mapToModel(responses[i]).Some?
    ensures |Models(responses, mapToModel)| == |responses|
    ensures forall i :: 0 <= i < |responses| ==>
      Models(responses, mapToModel)[i] == mapToModel(responses[i]).value
  {
    if responses != [] {
      var n := |responses| - 1;
      var init := responses[..n];
      forall i | 0 <= i < n
        ensures mapToModel(init[i]).Some?
      {
        assert init[i] == responses[i];
      }
      AllMapInOrder(init, mapToModel);
      forall i | 0 <= i < n
        ensures Models(responses, mapToModel)[i] == mapToModel(responses[i]).value
      {
        assert init[i] == responses[i];
      }
    }
  }

  /** `mapOptionalsToModels` is `mapToModels` over the present responses:
      nil responses are dropped first. */
  lemma {:induction false} OptionalsSkipNil<R, M>(responses: seq<Option<R>>, mapToModel: R -> Option<M>)
    ensures OptionalModels(responses, mapToModel) == Models(Present(responses), mapToModel)
  {
    if responses != [] {
      var init := responses[..|responses| - 1];
      var last := responses[|responses| - 1];
      OptionalsSkipNil(init, mapToModel);
      if last.Some? {
        ModelsAppend(Present(init), [last.value], mapToModel);
        ModelsOfOne(last.value, mapToModel);
      } else {
        assert Present(responses) == Present(init);
      }
    }
  }

  /** A missing response and a response that does not map count alike. */
  lemma {:induction false} OptionalModelsCount<R, M>(responses: seq<Option<R>>, mapToModel: R -> Option<M>)
    ensures |OptionalModels(responses, mapToModel)| <= |Present(responses)| <= |responses|
  {
    OptionalsSkipNil(responses, mapToModel);
    ModelsCount(Present(responses), mapToModel);
    PresentCount(responses);
  }

  lemma {:induction false} PresentCount<R>(responses: seq<Option<R>>)
    ensures |Present(responses)| <= |responses|
  {
    if responses != [] {
      PresentCount(responses[..|responses| - 1]);
    }
  }
}

/** ResponseStatusCode.swift: a status code wrapper and the default list of
    codes that count as success. `DPNetworkWorker.ResponseStatusCode` and
    `DPURLSession.ResponseStatusCode` of the newer tree are the same type
    and use the same list. */
module ResponseStatusCodes {

  /** Equality is structural, that is, by `intValue`. */
  datatype ResponseStatusCode = ResponseStatusCode(intValue: int)

  /** `defaultSuccessful`: 200 and 204, in that order. */
  const DefaultSuccessful: seq<ResponseStatusCode> := [ResponseStatusCode(200), ResponseStatusCode(204)]

  /** `Array.defaultSuccessful` forwards to the element's list. */
  const ArrayDefaultSuccessful: seq<ResponseStatusCode> := DefaultSuccessful

  /** `codes.contains(.init(intValue: status))`. */
  predicate Contains(codes: seq<ResponseStatusCode>, status: int) {
    ResponseStatusCode(status) in codes
  }

  lemma EqualIffSameValue(a: ResponseStatusCode, b: ResponseStatusCode)
    ensures a == b <==> a.intValue == b.intValue
  {
  }

  /** Exactly 200 and 204 are successful by default. */
  lemma DefaultMembership(status: int)
    ensures Contains(DefaultSuccessful, status) <==> status == 200 || status == 204
    ensures Contains(ArrayDefaultSuccessful, status) == Contains(DefaultSuccessful, status)
  {
    if Contains(DefaultSuccessful, status) {
      var i :| 0 <= i < |DefaultSuccessful| && DefaultSuccessful[i] == ResponseStatusCode(status);
    }
  }
}

/** Scenario steps as the run time sees them. */
module Scenario {

  datatype VariableScope = IterationScope | RunScope

  datatype Capture = Capture(name: string, scope: VariableScope)

  datatype FailureMode = ContinueMode | StopMode | CountOnlyMode

  /** `resultIndex` is the slot of the verdict; `requestMetricsIndex` names the
      request an assertion is bound to, or is -1. */
  datatype Assertion = Assertion(resultIndex: nat, failureMode: FailureMode, requestMetricsIndex: int)

  datatype RequestStep = RequestStep(
    metricsIndex: nat,
    captures: seq<Capture>,
    templateNames: seq<string>,
    assertions: seq<Assertion>)

  datatype ScenarioStep =
    | RequestKind(id: string, request: RequestStep)
    | DelayKind(id: string)
    | AssertKind(id: string, assertion: Assertion)
}

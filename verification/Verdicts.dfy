/** The verdict of engine/verdict/derivation.py as a value; how it is derived is not part of this model. */
module Verdicts {
  import opened Options

  datatype VerdictState = VERIFIED | PARTIAL | FAILED | UNPROVEN | UNAVAILABLE | UNSUPPORTED | ERROR

  datatype Verdict = Verdict(
    state: VerdictState, workloadId: string, runId: string, sourceHash: string, candidateHash: Option<string>,
    oracleId: string, oracleDigest: string, executedCheckCount: int, skippedCount: int, unavailableCount: int,
    supportedScope: string, manifestHash: string, derivationTimestamp: string, differences: seq<string>)
}

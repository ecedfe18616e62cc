/** Ledger facts, balance targets and what is derived for them. */
module BalanceModels {
  import opened Wrappers

  datatype Leg = Leg(location: Option<string>, instrument: string, quantity: real)

  datatype Fact = Fact(source: string, location: string, timestamp: int, legs: seq<Leg>)

  datatype Precision = Date | Timestamp

  datatype BalanceTarget = BalanceTarget(
    source: string, location: string, instrument: string, kind: string, at: int, precision: Precision)

  /** The exact-instant identity by which targets match; precision is not part of it. */
  datatype MatchKey = MatchKey(source: string, location: string, instrument: string, kind: string, at: int)

  function KeyOf(t: BalanceTarget): MatchKey {
    MatchKey(t.source, t.location, t.instrument, t.kind, t.at)
  }

  datatype BalanceSnapshot = BalanceSnapshot(target: BalanceTarget, quantity: real)

  datatype BalanceReference = BalanceReference(
    target: BalanceTarget, kind: string, observedAt: int, observedPrecision: Precision, supportRef: string, quantity: real)

  datatype IssueKind = MissingFacts | MissingFactCoverage | MissingReference | UnsupportedProvider | Unanswered(reason: string)

  datatype Issue = Issue(target: BalanceTarget, kind: IssueKind)
}

/** Build rows and their statuses (internal/models/build.go, internal/repository/build_repo.go). */
module BuildStatus {
  datatype Status = Pending | Building | Signing | Publishing | Verifying | Success | Failed | Cancelled {
    predicate Terminal() { Success? || Failed? || Cancelled? }
  }

  type Stage = n: nat | n < 4 witness 0

  const STAGES: seq<Status> := [Building, Signing, Publishing, Verifying]

  function StageStatus(i: Stage): Status { STAGES[i] }

  // log: every status the row has had, the newest last.
  datatype Row = Row(product: int, log: seq<Status>) {
    predicate Valid() { log != [] }
    function Status(): Status
      requires Valid()
    {
      log[|log| - 1]
    }
    /** The statuses that HasRunningBuild counts. */
    predicate Running() { Valid() && !Status().Terminal() }
  }

  function WriteStatus(row: Row, s: Status): Row { row.(log := row.log + [s]) }

  /** Pending, then stage statuses in order. */
  predicate InStages(log: seq<Status>, n: nat) {
    n <= 4 && log == [Pending] + STAGES[..n]
  }

  /** The writes of one build: a prefix of the stages, then at most one terminal status. */
  predicate StagesInOrder(log: seq<Status>, n: nat) {
    InStages(log, n) || Ended(log, n)
  }

  predicate Ended(log: seq<Status>, n: nat) {
    log != [] && InStages(log[..|log| - 1], n) && log[|log| - 1].Terminal() && (log[|log| - 1].Success? ==> n == 4)
  }
}

/** Builds as a transition system: triggers under the service mutex, one goroutine a build,
    cancellation, and the cleanup when a goroutine ends (internal/service/build_service.go,
    internal/pipeline/pipeline.go). */
module BuildProtocol {
  import opened BuildStatus
  import opened Subsequences

  /** Where the goroutine of a build is. */
  datatype Pc =
    | Starting                                // UpdateStarted, which leaves the status alone
    | MakingStaging
    | Checking(stage: Stage)                  // the ctx.Done check before a stage
    | Announcing(stage: Stage)                // UpdateStatus
    | Running(stage: Stage)                   // the stage itself
    | Finishing(status: Status, staged: bool) // UpdateFinished
    | RemovingStaging
    | Unregistering                           // delete(running, product), under the mutex
    | DroppingWriter
    | ClosingLog
    | Done

  // writes: the statuses this build tried to write; stored: for each, whether the database took it;
  // passed: stages that returned nil; begun: stages started.
  datatype Thread = Thread(product: int, pc: Pc, cancelled: bool, writes: seq<Status>, stored: seq<bool>,
                           passed: nat, begun: nat)

  /** The mutex: free, or held by a TriggerBuild at some point of its body. */
  datatype Mutex =
    | Free
    | AtRunning(product: int)
    | AtRows(product: int)
    | AtCreate(product: int)
    | AtLog(product: int, id: nat)
    | AtWriter(product: int, id: nat)
    | AtStart(product: int, id: nat)

  // armed: the builds whose cancel function some CancelBuild has picked up.
  datatype State = State(rows: map<nat, Row>, running: map<int, nat>, writers: set<nat>,
                         threads: map<nat, Thread>, armed: set<nat>, nextId: nat, mutex: Mutex)

  datatype Action =
    | Lock(product: int)
    | Trigger(ok: bool, dbOk: bool)    // the next step of the TriggerBuild that holds the mutex
    | Step(id: nat, ok: bool, dbOk: bool)
    | PickCancel(product: int)         // CancelBuild reads running under the mutex
    | FireCancel(id: nat)              // and calls the function after releasing it

  predicate Enabled(s: State, a: Action) {
    match a
    case Lock(_) => s.mutex == Free
    case Trigger(_, _) => s.mutex != Free
    case Step(id, _, _) =>
      id in s.threads && s.threads[id].pc != Done && (s.threads[id].pc == Unregistering ==> s.mutex == Free)
    case PickCancel(_) => s.mutex == Free
    case FireCancel(id) => id in s.armed
  }

  /** HasRunningBuild. */
  predicate HasRunning(rows: map<nat, Row>, product: int) {
    exists id :: id in rows && rows[id].product == product && rows[id].Running()
  }

  function Write(rows: map<nat, Row>, id: nat, status: Status, dbOk: bool): map<nat, Row> {
    if dbOk && id in rows then rows[id := WriteStatus(rows[id], status)] else rows
  }

  /** TriggerBuild, one step of its body; `ok` is the outcome of the step's call. */
  function NextTrigger(s: State, ok: bool, dbOk: bool): State {
    match s.mutex
    case Free => s
    case AtRunning(p) => s.(mutex := if p in s.running then Free else AtRows(p))
    case AtRows(p) => s.(mutex := if !ok || HasRunning(s.rows, p) then Free else AtCreate(p))
    case AtCreate(p) =>
      if !ok then s.(mutex := Free)
      else s.(rows := s.rows[s.nextId := Row(p, [Pending])], nextId := s.nextId + 1, mutex := AtLog(p, s.nextId))
    case AtLog(p, id) =>
      if ok then s.(mutex := AtWriter(p, id))
      else s.(rows := Write(s.rows, id, Failed, dbOk), mutex := Free)
    case AtWriter(p, id) => s.(writers := s.writers + {id}, mutex := AtStart(p, id))
    case AtStart(p, id) =>
      s.(running := s.running[p := id],
         threads := s.threads[id := Thread(p, Starting, false, [Pending], [true], 0, 0)],
         mutex := Free)
  }

  /** One step of a goroutine, on its own variables; `ok` is the outcome of the step's call. */
  function NextThread(t: Thread, ok: bool, dbOk: bool): Thread {
    match t.pc
    case Starting => t.(pc := MakingStaging)
    case MakingStaging => t.(pc := if ok then Checking(0) else Finishing(Failed, false))
    case Checking(i) => t.(pc := if t.cancelled then Finishing(Cancelled, true) else Announcing(i))
    case Announcing(i) =>
      Wrote(t, StageStatus(i), dbOk).(pc := Running(i), begun := t.begun + 1)
    case Running(i) =>
      if !ok then t.(pc := Finishing(Failed, true))
      else t.(pc := if i == 3 then Finishing(Success, true) else Checking(i + 1), passed := t.passed + 1)
    case Finishing(status, staged) =>
      Wrote(t, status, dbOk).(pc := if staged then RemovingStaging else Unregistering)
    case RemovingStaging => t.(pc := Unregistering)
    case Unregistering => t.(pc := DroppingWriter)
    case DroppingWriter => t.(pc := ClosingLog)
    case ClosingLog => t.(pc := Done)
    case Done => t
  }

  function Wrote(t: Thread, status: Status, dbOk: bool): Thread {
    t.(writes := t.writes + [status], stored := t.stored + [dbOk])
  }

  function Next(s: State, a: Action): State {
    match a
    case Lock(p) => s.(mutex := AtRunning(p))
    case Trigger(ok, dbOk) => NextTrigger(s, ok, dbOk)
    case Step(id, ok, dbOk) => if id in s.threads then NextStep(s, id, ok, dbOk) else s
    case PickCancel(p) => if p in s.running then s.(armed := s.armed + {s.running[p]}) else s
    case FireCancel(id) =>
      if id in s.threads then s.(threads := s.threads[id := s.threads[id].(cancelled := true)]) else s
  }

  function NextStep(s: State, id: nat, ok: bool, dbOk: bool): State
    requires id in s.threads
  {
    var t := s.threads[id];
    var s := s.(threads := s.threads[id := NextThread(t, ok, dbOk)]);
    match t.pc
    case Announcing(i) => s.(rows := Write(s.rows, id, StageStatus(i), dbOk))
    case Finishing(status, _) => s.(rows := Write(s.rows, id, status, dbOk))
    case Unregistering => s.(running := s.running - {t.product})
    case DroppingWriter => s.(writers := s.writers - {id})
    case _ => s
  }

  // ---- the invariant ----

  /** The goroutine is registered in `running` until it deletes its entry. */
  predicate Live(pc: Pc) { !pc.DroppingWriter? && !pc.ClosingLog? && !pc.Done? }

  predicate HasWriter(pc: Pc) { !pc.ClosingLog? && !pc.Done? }

  /** What a goroutine has written and passed, by where it is. */
  predicate Progress(t: Thread) {
    t.passed <= t.begun <= 4 &&
    match t.pc
    case Starting => InStages(t.writes, 0) && t.begun == 0
    case MakingStaging => InStages(t.writes, 0) && t.begun == 0
    case Checking(i) => InStages(t.writes, i) && t.passed == t.begun == i
    case Announcing(i) => InStages(t.writes, i) && t.passed == t.begun == i
    case Running(i) => InStages(t.writes, i + 1) && t.passed == i && t.begun == i + 1
    case Finishing(status, _) =>
      InStages(t.writes, t.begun) && status.Terminal() && (status.Success? ==> t.passed == 4)
    case _ => Ended(t.writes, t.begun) && (t.writes[|t.writes| - 1].Success? ==> t.passed == 4)
  }

  /** The writes that did not fail. */
  function Stored(writes: seq<Status>, stored: seq<bool>): seq<Status>
    requires |stored| == |writes|
  {
    if writes == [] then []
    else
      var n := |writes| - 1;
      var before := Stored(writes[..n], stored[..n]);
      if stored[n] then before + [writes[n]] else before
  }

  lemma StoredGrows(writes: seq<Status>, stored: seq<bool>, status: Status, ok: bool)
    requires |stored| == |writes|
    ensures Stored(writes + [status], stored + [ok]) ==
      if ok then Stored(writes, stored) + [status] else Stored(writes, stored)
  {
    assert (writes + [status])[..|writes|] == writes && (stored + [ok])[..|stored|] == stored;
  }

  lemma {:induction false} StoredAreWrites(writes: seq<Status>, stored: seq<bool>)
    requires |stored| == |writes|
    ensures Subsequence(Stored(writes, stored), writes)
    ensures false !in stored ==> Stored(writes, stored) == writes
  {
    if writes != [] {
      var n := |writes| - 1;
      StoredAreWrites(writes[..n], stored[..n]);
      SubsequenceTakes(Stored(writes[..n], stored[..n]), writes[..n], writes[n]);
      SubsequenceSkips(Stored(writes[..n], stored[..n]), writes[..n], writes[n]);
      assert writes == writes[..n] + [writes[n]];
    }
  }

  predicate ThreadOk(t: Thread, row: Row) {
    && Progress(t) && row.product == t.product
    && |t.stored| == |t.writes| && row.log == Stored(t.writes, t.stored)
  }

  ghost predicate ThreadsOk(s: State) {
    forall id :: id in s.threads ==> id in s.rows && ThreadOk(s.threads[id], s.rows[id])
  }

  ghost predicate Registered(s: State) {
    && (forall p :: p in s.running ==>
          s.running[p] in s.threads && s.threads[s.running[p]].product == p && Live(s.threads[s.running[p]].pc))
    && (forall id :: id in s.threads && Live(s.threads[id].pc) ==>
          s.threads[id].product in s.running && s.running[s.threads[id].product] == id)
  }

  ghost predicate OneRunning(rows: map<nat, Row>) {
    forall i, j | i in rows && j in rows && rows[i].Running() && rows[j].Running() ::
      rows[i].product == rows[j].product ==> i == j
  }

  ghost predicate RowsOk(s: State) {
    forall id :: id in s.rows ==> id < s.nextId && s.rows[id].Valid()
  }

  predicate Fresh(s: State, p: int, id: nat) {
    id in s.rows && s.rows[id] == Row(p, [Pending]) && id !in s.threads && p !in s.running
  }

  ghost predicate MutexOk(s: State) {
    match s.mutex
    case Free => true
    case AtRunning(_) => true
    case AtRows(p) => p !in s.running
    case AtCreate(p) => p !in s.running && !HasRunning(s.rows, p)
    case AtLog(p, id) => Fresh(s, p, id) && id !in s.writers
    case AtWriter(p, id) => Fresh(s, p, id) && id !in s.writers
    case AtStart(p, id) => Fresh(s, p, id) && id in s.writers
  }

  ghost predicate WritersOk(s: State) {
    && (forall id :: id in s.writers ==>
          (id in s.threads && HasWriter(s.threads[id].pc)) || (s.mutex.AtStart? && s.mutex.id == id))
    && (forall id :: id in s.threads && HasWriter(s.threads[id].pc) ==> id in s.writers)
  }

  ghost predicate ArmedOk(s: State) { forall id :: id in s.armed ==> id in s.threads }

  ghost predicate Inv(s: State) {
    ThreadsOk(s) && Registered(s) && OneRunning(s.rows) && RowsOk(s) && MutexOk(s) && WritersOk(s) && ArmedOk(s)
  }

  // ---- every step keeps it ----

  lemma {:induction false} StagesRun(log: seq<Status>, n: nat)
    requires InStages(log, n)
    ensures forall x :: x in log ==> !x.Terminal()
  {
    forall x | x in log
      ensures !x.Terminal()
    {
      assert x == Pending || x in STAGES[..n];
    }
  }

  lemma UnfinishedRuns(t: Thread, row: Row, n: nat)
    requires ThreadOk(t, row) && row.Valid() && InStages(t.writes, n)
    ensures row.Running()
  {
    StoredAreWrites(t.writes, t.stored);
    SubsequenceMember(row.log, t.writes, row.Status());
    StagesRun(t.writes, n);
  }

  lemma StageGrows(log: seq<Status>, i: Stage)
    requires InStages(log, i)
    ensures InStages(log + [StageStatus(i)], i + 1)
  {
  }

  lemma EndGrows(log: seq<Status>, n: nat, status: Status)
    requires InStages(log, n) && status.Terminal() && (status.Success? ==> n == 4)
    ensures Ended(log + [status], n)
  {
    assert (log + [status])[..|log|] == log;
  }

  lemma LastOf(log: seq<Status>, status: Status)
    ensures var l := log + [status]; l[|l| - 1] == status
  {
  }

  lemma AnnounceProgress(t: Thread, dbOk: bool)
    requires Progress(t) && t.pc.Announcing?
    ensures Progress(NextThread(t, true, dbOk))
  {
    hide InStages, Ended, StageStatus;
    StageGrows(t.writes, t.pc.stage);
  }

  lemma FinishProgress(t: Thread, dbOk: bool)
    requires Progress(t) && t.pc.Finishing?
    ensures Progress(NextThread(t, true, dbOk))
  {
    hide InStages, Ended;
    EndGrows(t.writes, t.begun, t.pc.status);
    LastOf(t.writes, t.pc.status);
  }

  /** A goroutine's own step keeps its progress in order. */
  lemma StepProgress(t: Thread, ok: bool, dbOk: bool)
    requires Progress(t)
    ensures Progress(NextThread(t, ok, dbOk))
  {
    if t.pc.Announcing? {
      AnnounceProgress(t, dbOk);
    } else if t.pc.Finishing? {
      FinishProgress(t, dbOk);
    } else {
      QuietProgress(t, ok, dbOk);
    }
  }

  lemma QuietProgress(t: Thread, ok: bool, dbOk: bool)
    requires Progress(t) && !t.pc.Announcing? && !t.pc.Finishing?
    ensures Progress(NextThread(t, ok, dbOk))
  {
    hide InStages, Ended, Wrote;
  }

  /** A write to a row of a goroutine, which may fail. */
  lemma WriteOk(t: Thread, row: Row, status: Status, dbOk: bool)
    requires |t.stored| == |t.writes| && row.log == Stored(t.writes, t.stored)
    ensures var t', row' := Wrote(t, status, dbOk), if dbOk then WriteStatus(row, status) else row;
      |t'.stored| == |t'.writes| && row'.log == Stored(t'.writes, t'.stored)
  {
    StoredGrows(t.writes, t.stored, status, dbOk);
  }

  lemma OwnStep(s: State, id: nat, ok: bool, dbOk: bool)
    requires id in s.threads && id in s.rows && ThreadOk(s.threads[id], s.rows[id])
    ensures id in NextStep(s, id, ok, dbOk).rows
    ensures ThreadOk(NextThread(s.threads[id], ok, dbOk), NextStep(s, id, ok, dbOk).rows[id])
  {
    hide Progress, Stored, StageStatus;
    var t, row := s.threads[id], s.rows[id];
    StepProgress(t, ok, dbOk);
    if t.pc.Announcing? {
      WriteOk(t, row, StageStatus(t.pc.stage), dbOk);
    } else if t.pc.Finishing? {
      WriteOk(t, row, t.pc.status, dbOk);
    }
  }

  /** A step changes no other goroutine and no other row. */
  lemma OtherUnchanged(s: State, id: nat, ok: bool, dbOk: bool)
    requires id in s.threads && id in s.rows
    ensures var s' := NextStep(s, id, ok, dbOk);
      && s'.threads == s.threads[id := NextThread(s.threads[id], ok, dbOk)]
      && s'.rows == s.rows[id := s'.rows[id]]
      && s'.nextId == s.nextId && s'.armed == s.armed && s'.mutex == s.mutex
      && s'.rows[id].product == s.rows[id].product
  {
  }

  lemma StepThreads(s: State, id: nat, ok: bool, dbOk: bool)
    requires ThreadsOk(s) && id in s.threads
    ensures ThreadsOk(NextStep(s, id, ok, dbOk))
  {
    hide ThreadOk, NextStep, NextThread;
    OwnStep(s, id, ok, dbOk);
    OtherUnchanged(s, id, ok, dbOk);
  }

  /** A row stops running only by a terminal write, and never runs again. */
  lemma RowStopsOnce(s: State, id: nat, ok: bool, dbOk: bool)
    requires id in s.threads && id in s.rows && ThreadOk(s.threads[id], s.rows[id]) && s.rows[id].Valid()
    ensures var row := NextStep(s, id, ok, dbOk).rows[id];
      row.Valid() && (row.Running() ==> s.rows[id].Running())
    ensures !Live(s.threads[id].pc) ==> NextStep(s, id, ok, dbOk).rows == s.rows
  {
    hide Stored, InStages, Ended;
    var t := s.threads[id];
    if t.pc.Announcing? {
      UnfinishedRuns(t, s.rows[id], t.begun);
    }
  }

  lemma StepInv(s: State, id: nat, ok: bool, dbOk: bool)
    requires Inv(s) && Enabled(s, Step(id, ok, dbOk))
    ensures Inv(NextStep(s, id, ok, dbOk))
  {
    hide ThreadOk, NextThread;
    StepThreads(s, id, ok, dbOk);
    RowStopsOnce(s, id, ok, dbOk);
    OtherUnchanged(s, id, ok, dbOk);
    StepRegistered(s, id, ok, dbOk);
    StepRows(s, id, ok, dbOk);
    StepMutex(s, id, ok, dbOk);
    StepWriters(s, id, ok, dbOk);
  }

  /** What a step does to the shared maps, and when a goroutine stops being registered. */
  lemma StepShape(s: State, id: nat, ok: bool, dbOk: bool)
    requires id in s.threads
    ensures var t, t', s' := s.threads[id], NextThread(s.threads[id], ok, dbOk), NextStep(s, id, ok, dbOk);
      && s'.running == (if t.pc.Unregistering? then s.running - {t.product} else s.running)
      && s'.writers == (if t.pc.DroppingWriter? then s.writers - {id} else s.writers)
      && t'.product == t.product
      && (Live(t'.pc) <==> Live(t.pc) && !t.pc.Unregistering?)
      && (HasWriter(t'.pc) <==> HasWriter(t.pc) && !t.pc.DroppingWriter?)
  {
  }

  lemma StepRegistered(s: State, id: nat, ok: bool, dbOk: bool)
    requires Registered(s) && id in s.threads && id in s.rows
    ensures Registered(NextStep(s, id, ok, dbOk))
  {
    hide NextStep, NextThread, Live;
    StepShape(s, id, ok, dbOk);
    OtherUnchanged(s, id, ok, dbOk);
    PcUnregistering();
  }

  lemma PcUnregistering()
    ensures Live(Unregistering) && HasWriter(DroppingWriter)
  {
  }

  lemma StepRows(s: State, id: nat, ok: bool, dbOk: bool)
    requires OneRunning(s.rows) && RowsOk(s) && id in s.threads && id in s.rows
    requires var row := NextStep(s, id, ok, dbOk).rows[id]; row.Valid() && (row.Running() ==> s.rows[id].Running())
    ensures OneRunning(NextStep(s, id, ok, dbOk).rows) && RowsOk(NextStep(s, id, ok, dbOk))
  {
    hide NextStep;
    OtherUnchanged(s, id, ok, dbOk);
  }

  lemma StepMutex(s: State, id: nat, ok: bool, dbOk: bool)
    requires Inv(s) && Enabled(s, Step(id, ok, dbOk))
    ensures MutexOk(NextStep(s, id, ok, dbOk))
  {
    hide NextStep, NextThread, ThreadOk, Live, HasWriter;
    StepShape(s, id, ok, dbOk);
    OtherUnchanged(s, id, ok, dbOk);
    RowStopsOnce(s, id, ok, dbOk);
  }

  lemma StepWriters(s: State, id: nat, ok: bool, dbOk: bool)
    requires WritersOk(s) && ArmedOk(s) && id in s.threads && id in s.rows
    ensures WritersOk(NextStep(s, id, ok, dbOk)) && ArmedOk(NextStep(s, id, ok, dbOk))
  {
    hide NextStep, NextThread, HasWriter;
    StepShape(s, id, ok, dbOk);
    OtherUnchanged(s, id, ok, dbOk);
    PcUnregistering();
  }

  lemma TriggerInv(s: State, ok: bool, dbOk: bool)
    requires Inv(s) && s.mutex != Free
    ensures Inv(NextTrigger(s, ok, dbOk))
  {
    match s.mutex
    case AtRunning(p) =>
    case AtRows(p) =>
    case AtCreate(p) => CreateInv(s, ok);
    case AtLog(p, id) => LogInv(s, ok, dbOk);
    case AtWriter(p, id) =>
    case AtStart(p, id) => StartInv(s);
  }

  lemma CreateInv(s: State, ok: bool)
    requires Inv(s) && s.mutex.AtCreate?
    ensures Inv(NextTrigger(s, ok, true))
  {
    hide ThreadOk, Live, HasWriter;
    var s' := NextTrigger(s, ok, true);
    if ok {
      forall id | id in s.rows && s.rows[id].Running()
        ensures s.rows[id].product != s.mutex.product
      {
      }
    }
  }

  lemma LogInv(s: State, ok: bool, dbOk: bool)
    requires Inv(s) && s.mutex.AtLog?
    ensures Inv(NextTrigger(s, ok, dbOk))
  {
    hide ThreadOk, Live, HasWriter;
  }

  lemma StartInv(s: State)
    requires Inv(s) && s.mutex.AtStart?
    ensures Inv(NextTrigger(s, true, true))
  {
    hide ThreadOk;
    var t := Thread(s.mutex.product, Starting, false, [Pending], [true], 0, 0);
    NewThreadOk(t, s.rows[s.mutex.id]);
  }

  lemma NewThreadOk(t: Thread, row: Row)
    requires t == Thread(row.product, Starting, false, [Pending], [true], 0, 0) && row.log == [Pending]
    ensures ThreadOk(t, row)
  {
    assert [Pending] + STAGES[..0] == [Pending];
    StoredAreWrites([Pending], [true]);
  }

  lemma CancelledProgress(t: Thread)
    requires Progress(t)
    ensures Progress(t.(cancelled := true))
  {
  }

  lemma FireInv(s: State, id: nat)
    requires Inv(s) && id in s.armed
    ensures Inv(Next(s, FireCancel(id)))
  {
    hide ThreadOk, Live, HasWriter;
    var t' := s.threads[id].(cancelled := true);
    CancelledOk(s.threads[id], s.rows[id]);
    SameRegistration(s.threads[id].pc);
  }

  lemma CancelledOk(t: Thread, row: Row)
    requires ThreadOk(t, row)
    ensures ThreadOk(t.(cancelled := true), row)
  {
    hide Progress, Stored;
    CancelledProgress(t);
  }

  lemma SameRegistration(pc: Pc)
    ensures Live(pc) ==> HasWriter(pc)
  {
  }

  lemma PickInv(s: State, p: int)
    requires Inv(s)
    ensures Inv(Next(s, PickCancel(p)))
  {
    hide ThreadOk, Live, HasWriter;
  }

  lemma LockInv(s: State, p: int)
    requires Inv(s) && s.mutex == Free
    ensures Inv(Next(s, Lock(p)))
  {
    hide ThreadOk, Live, HasWriter;
  }

  /** Every step of every participant keeps the invariant. */
  lemma NextInv(s: State, a: Action)
    requires Inv(s) && Enabled(s, a)
    ensures Inv(Next(s, a))
  {
    hide Inv, NextTrigger, NextStep;
    match a
    case Trigger(ok, dbOk) => TriggerInv(s, ok, dbOk);
    case Step(id, ok, dbOk) => StepInv(s, id, ok, dbOk);
    case Lock(p) => LockInv(s, p);
    case PickCancel(p) => PickInv(s, p);
    case FireCancel(id) => FireInv(s, id);
  }

  /** What any step does to the variables of one goroutine. */
  lemma ThreadAfter(s: State, a: Action, id: nat)
    requires MutexOk(s) && Enabled(s, a) && id in s.threads
    ensures id in Next(s, a).threads
    ensures Next(s, a).threads[id] ==
      if a.Step? && a.id == id then NextThread(s.threads[id], a.ok, a.dbOk)
      else if a.FireCancel? && a.id == id then s.threads[id].(cancelled := true)
      else s.threads[id]
  {
    hide NextThread, Write;
  }

  // ---- runs ----

  /** The service at start-up, with the rows an earlier process left. */
  ghost predicate Initial(s: State) {
    && s.running == map[] && s.writers == {} && s.threads == map[] && s.armed == {} && s.mutex == Free
    && OneRunning(s.rows) && RowsOk(s)
  }

  ghost function Run(s: State, actions: seq<Action>): State {
    if actions == [] then s else Next(Run(s, actions[..|actions| - 1]), actions[|actions| - 1])
  }

  ghost predicate LegalRun(s: State, actions: seq<Action>) {
    actions == [] ||
    (LegalRun(s, actions[..|actions| - 1]) && Enabled(Run(s, actions[..|actions| - 1]), actions[|actions| - 1]))
  }

  lemma {:induction false} RunInv(s: State, actions: seq<Action>)
    requires Inv(s) && LegalRun(s, actions)
    ensures Inv(Run(s, actions))
  {
    if actions != [] {
      hide Inv, Next, Enabled;
      RunInv(s, actions[..|actions| - 1]);
      NextInv(Run(s, actions[..|actions| - 1]), actions[|actions| - 1]);
    }
  }
}

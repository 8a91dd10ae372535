/** The build service and its table of builds, as objects (internal/service/build_service.go,
    internal/repository/build_repo.go). Each method is one or more steps of BuildProtocol. */
module BuildService {
  import opened Wrappers
  import opened BuildStatus
  import opened BuildProtocol

  class BuildRepo {
    var rows: map<nat, Row>
    var nextId: nat

    constructor (rows: map<nat, Row>, nextId: nat)
      ensures this.rows == rows && this.nextId == nextId
    {
      this.rows, this.nextId := rows, nextId;
    }

    /** Inserts a pending row, unless the database fails. */
    method Create(product: int, dbOk: bool) returns (id: Option<nat>)
      modifies this
      ensures id == if dbOk then Some(old(nextId)) else None
      ensures rows == if dbOk then old(rows)[old(nextId) := Row(product, [Pending])] else old(rows)
      ensures nextId == if dbOk then old(nextId) + 1 else old(nextId)
    {
      if !dbOk { return None; }
      rows := rows[nextId := Row(product, [Pending])];
      id := Some(nextId);
      nextId := nextId + 1;
    }

    /** UpdateStatus and UpdateFinished, as far as the status goes. */
    method UpdateStatus(id: nat, status: Status, dbOk: bool)
      modifies this`rows
      ensures rows == Write(old(rows), id, status, dbOk)
    {
      if dbOk && id in rows {
        rows := rows[id := WriteStatus(rows[id], status)];
      }
    }

    method HasRunningBuild(product: int) returns (running: bool)
      ensures running <==> HasRunning(rows, product)
    {
      var count := 0;
      var todo := rows.Keys;
      while todo != {}
        invariant todo <= rows.Keys && count >= 0
        invariant count > 0 <==>
          exists id :: id in rows.Keys - todo && rows[id].product == product && rows[id].Running()
        decreases |todo|
      {
        var id :| id in todo;
        if rows[id].product == product && rows[id].Running() {
          count := count + 1;
        }
        todo := todo - {id};
      }
      return count > 0;
    }
  }

  // The outcomes of the calls of one TriggerBuild.
  datatype Calls = Calls(lookupOk: bool, createOk: bool, logOk: bool, updateOk: bool)

  /** The whole body of TriggerBuild, as steps of the protocol under one hold of the mutex. */
  function Triggered(s: State, product: int, calls: Calls): State {
    var s := NextTrigger(Next(s, Lock(product)), true, true);
    var s := NextTrigger(s, calls.lookupOk, true);
    var s := NextTrigger(s, calls.createOk, true);
    var s := NextTrigger(s, calls.logOk, calls.updateOk);
    NextTrigger(NextTrigger(s, true, true), true, true)
  }

  /** The effect of TriggerBuild, by the call that ends it. */
  lemma TriggeredIs(s: State, product: int, calls: Calls)
    requires s.mutex == Free
    ensures Triggered(s, product, calls) ==
      if product in s.running || !calls.lookupOk || HasRunning(s.rows, product) || !calls.createOk then s
      else
        var id := s.nextId;
        var rows := s.rows[id := Row(product, [Pending])];
        if !calls.logOk then s.(rows := Write(rows, id, Failed, calls.updateOk), nextId := id + 1)
        else
          s.(rows := rows, nextId := id + 1, writers := s.writers + {id}, running := s.running[product := id],
             threads := s.threads[id := Thread(product, Starting, false, [Pending], [true], 0, 0)])
  {
    hide HasRunning, Write;
  }

  class Service {
    const repo: BuildRepo
    var running: map<int, nat>
    var logWriters: set<nat>
    var goroutines: map<nat, Thread>
    var armed: set<nat>

    constructor (repo: BuildRepo)
      ensures this.repo == repo && running == map[] && logWriters == {} && goroutines == map[] && armed == {}
    {
      this.repo := repo;
      running, logWriters, goroutines, armed := map[], {}, map[], {};
    }

    /** The state of the protocol while no method runs. */
    function View(): State
      reads this, repo
    {
      State(repo.rows, running, logWriters, goroutines, armed, repo.nextId, Free)
    }

    method TriggerBuild(product: int, calls: Calls) returns (id: Option<nat>)
      modifies this, repo
      ensures View() == Triggered(old(View()), product, calls)
      ensures id.Some? <==>
        && product !in old(running) && !HasRunning(old(repo.rows), product)
        && calls.lookupOk && calls.createOk && calls.logOk
      ensures id.Some? ==> product in running && running[product] == id.value && id.value in logWriters
    {
      hide HasRunning, Write, Triggered;
      TriggeredIs(View(), product, calls);
      if product in running { return None; }
      var busy := repo.HasRunningBuild(product);
      if !calls.lookupOk || busy { return None; }
      var created := repo.Create(product, calls.createOk);
      if created.None? { return None; }
      if !calls.logOk {
        repo.UpdateStatus(created.value, Failed, calls.updateOk);
        return None;
      }
      logWriters := logWriters + {created.value};
      running := running[product := created.value];
      goroutines := goroutines[created.value := Thread(product, Starting, false, [Pending], [true], 0, 0)];
      return created;
    }

    method CancelBuild(id: nat) returns (ok: bool)
      modifies this
      ensures ok <==> id in repo.rows && repo.rows[id].product in old(running)
      ensures View() ==
        if ok then
          var product := repo.rows[id].product;
          Next(Next(old(View()), PickCancel(product)), FireCancel(old(running)[product]))
        else old(View())
    {
      if id !in repo.rows { return false; }
      var product := repo.rows[id].product;
      if product !in running { return false; }
      var target := running[product];
      armed := armed + {target};
      if target in goroutines {
        goroutines := goroutines[target := goroutines[target].(cancelled := true)];
      }
      return true;
    }

    /** The deferred function of a goroutine whose pipeline has returned. */
    method Exit(id: nat)
      requires id in goroutines && goroutines[id].pc == Unregistering
      modifies this
      ensures View() == NextStep(NextStep(NextStep(old(View()), id, true, true), id, true, true), id, true, true)
      ensures goroutines[id].pc == Done && id !in logWriters
    {
      var t := goroutines[id];
      running := running - {t.product};
      logWriters := logWriters - {id};
      goroutines := goroutines[id := t.(pc := Done)];
    }
  }

  /** One call of TriggerBuild keeps the protocol's invariant. */
  lemma TriggeredInv(s: State, product: int, calls: Calls)
    requires Inv(s) && s.mutex == Free
    ensures Inv(Triggered(s, product, calls)) && Triggered(s, product, calls).mutex == Free
  {
    hide Inv, NextTrigger, Next;
    LockInv(s, product);
    StepOfTrigger(Next(s, Lock(product)), true, true);
    var s1 := NextTrigger(Next(s, Lock(product)), true, true);
    StepOfTrigger(s1, calls.lookupOk, true);
    var s2 := NextTrigger(s1, calls.lookupOk, true);
    StepOfTrigger(s2, calls.createOk, true);
    var s3 := NextTrigger(s2, calls.createOk, true);
    StepOfTrigger(s3, calls.logOk, calls.updateOk);
    var s4 := NextTrigger(s3, calls.logOk, calls.updateOk);
    StepOfTrigger(s4, true, true);
    StepOfTrigger(NextTrigger(s4, true, true), true, true);
    TriggerEnds(s, product, calls);
  }

  lemma StepOfTrigger(s: State, ok: bool, dbOk: bool)
    requires Inv(s)
    ensures Inv(NextTrigger(s, ok, dbOk))
  {
    hide Inv;
    if s.mutex != Free {
      TriggerInv(s, ok, dbOk);
    }
  }

  lemma TriggerEnds(s: State, product: int, calls: Calls)
    ensures Triggered(s, product, calls).mutex == Free
  {
    hide HasRunning, Write;
  }
}

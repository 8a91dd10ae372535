/** The challenge service of internal/auth/challenge.go: a solution is accepted once. */
module Challenge {
  import opened RateLimiter

  const CHALLENGE_TTL := 5 * MINUTE

  // What altcha.VerifySolution answers for a payload at a time.
  type Checker = (string, int) -> bool

  /** A payload verifies only while its challenge lives: between its creation and 5 minutes later. */
  ghost predicate Expires(valid: Checker) {
    forall p, t, u :: valid(p, t) && valid(p, u) ==> u - t <= CHALLENGE_TTL
  }

  type Used = map<string, int>

  function Forgotten(used: Used, now: int): Used {
    map p | p in used && now - used[p] <= CHALLENGE_TTL + MINUTE :: used[p]
  }

  class Service {
    var used: Used

    constructor ()
      ensures used == map[]
    {
      used := map[];
    }

    /** The expiry check reads the clock at checkedAt, the replay check at lockedAt. */
    method Verify(valid: Checker, payload: string, checkedAt: int, lockedAt: int) returns (ok: bool)
      modifies this
      ensures ok <==> valid(payload, checkedAt) && payload !in old(used)
      ensures used == if ok then old(used)[payload := lockedAt] else old(used)
    {
      if !valid(payload, checkedAt) { return false; }
      if payload in used { return false; }
      used := used[payload := lockedAt];
      return true;
    }

    /** One tick of the background cleanup. */
    method CleanupUsed(now: int)
      modifies this
      ensures used == Forgotten(old(used), now)
      ensures forall p :: p in used <==> p in old(used) && now - old(used)[p] <= 360 * SECOND
    {
      var todo := used.Keys;
      while todo != {}
        invariant todo <= old(used.Keys)
        invariant used == map p | p in old(used)
          && (p in todo || now - old(used)[p] <= CHALLENGE_TTL + MINUTE) :: old(used)[p]
        decreases |todo|
      {
        var p :| p in todo;
        if now - used[p] > CHALLENGE_TTL + MINUTE {
          used := used - {p};
        }
        todo := todo - {p};
      }
    }
  }

  // ---- runs ----

  datatype Event =
    | Verify(payload: string, checkedAt: int, lockedAt: int)
    | Cleanup(now: int)
  {
    function At(): int { if Verify? then lockedAt else now }
  }

  datatype State = State(used: Used, now: int)

  predicate Accepts(valid: Checker, s: State, e: Event) {
    e.Verify? && valid(e.payload, e.checkedAt) && e.payload !in s.used
  }

  function Next(valid: Checker, s: State, e: Event): State {
    match e
    case Verify(p, _, lockedAt) =>
      State(if Accepts(valid, s, e) then s.used[p := lockedAt] else s.used, lockedAt)
    case Cleanup(now) => State(Forgotten(s.used, now), now)
  }

  function Run(valid: Checker, events: seq<Event>): State {
    if events == [] then State(map[], 0)
    else Next(valid, Run(valid, events[..|events| - 1]), events[|events| - 1])
  }

  /** The clock does not go back, and no caller waits longer than `delay` for the lock. */
  predicate Legal(events: seq<Event>, delay: int) {
    && (forall i :: 0 <= i < |events| ==> 0 <= events[i].At())
    && (forall i, j :: 0 <= i < j < |events| ==> events[i].At() <= events[j].At())
    && (forall i :: 0 <= i < |events| && events[i].Verify? ==>
          events[i].checkedAt <= events[i].lockedAt <= events[i].checkedAt + delay)
  }

  /** Number of times a run accepts a payload. */
  function Acceptances(valid: Checker, events: seq<Event>, payload: string): nat {
    if events == [] then 0
    else
      var before, e := events[..|events| - 1], events[|events| - 1];
      Acceptances(valid, before, payload) +
      (if Accepts(valid, Run(valid, before), e) && e.payload == payload then 1 else 0)
  }

  /** A payload was accepted with expiry check at t and stamp u, and is remembered until it can no longer verify. */
  ghost predicate GuardedBy(valid: Checker, s: State, payload: string, t: int, u: int) {
    && valid(payload, t) && t <= u <= s.now
    && (payload in s.used ==> s.used[payload] == u)
    && (payload !in s.used ==> s.now - u > CHALLENGE_TTL + MINUTE)
  }

  ghost predicate Guarded(valid: Checker, s: State, payload: string) {
    exists t, u :: GuardedBy(valid, s, payload, t, u)
  }

  lemma {:induction false} AcceptedOnce(valid: Checker, events: seq<Event>, delay: int, payload: string)
    requires Expires(valid) && Legal(events, delay) && delay <= MINUTE
    ensures Acceptances(valid, events, payload) <= 1
    ensures Acceptances(valid, events, payload) == 1 ==> Guarded(valid, Run(valid, events), payload)
    ensures Acceptances(valid, events, payload) == 0 ==> payload !in Run(valid, events).used
    ensures Run(valid, events).now == if events == [] then 0 else events[|events| - 1].At()
  {
    if events != [] {
      var n := |events| - 1;
      AcceptedOnce(valid, events[..n], delay, payload);
      var s, e := Run(valid, events[..n]), events[n];
      assert n > 0 ==> events[..n][n - 1] == events[n - 1];
      if Acceptances(valid, events[..n], payload) == 1 {
        GuardHolds(valid, s, e, delay, payload);
      } else if Accepts(valid, s, e) && e.payload == payload {
        assert GuardedBy(valid, Next(valid, s, e), payload, e.checkedAt, e.lockedAt);
      }
    }
  }

  lemma GuardHolds(valid: Checker, s: State, e: Event, delay: int, payload: string)
    requires Expires(valid) && delay <= MINUTE && Guarded(valid, s, payload)
    requires s.now <= e.At() && (e.Verify? ==> e.checkedAt <= e.lockedAt <= e.checkedAt + delay)
    ensures Guarded(valid, Next(valid, s, e), payload)
    ensures !(Accepts(valid, s, e) && e.payload == payload)
  {
    var t, u :| GuardedBy(valid, s, payload, t, u);
    if Accepts(valid, s, e) && e.payload == payload {
      assert false;
    }
    assert GuardedBy(valid, Next(valid, s, e), payload, t, u);
  }

  /** In every run with this delay bound, every payload is accepted at most once. */
  ghost predicate AlwaysOnce(delay: int) {
    forall valid: Checker, events, payload :: Expires(valid) && Legal(events, delay) ==>
      Acceptances(valid, events, payload) <= 1
  }

  /** A cleanup in the nanosecond after the memory ends, then the same payload checked in time but locked late. */
  function LateReplay(): seq<Event> {
    var end := CHALLENGE_TTL + MINUTE + 1;
    [Verify("", 0, 0), Cleanup(end), Verify("", CHALLENGE_TTL, end)]
  }

  lemma LateReplayAccepted(valid: Checker, delay: int)
    requires delay > MINUTE && valid == ((p: string, t: int) => 0 <= t <= CHALLENGE_TTL)
    ensures Expires(valid) && Legal(LateReplay(), delay)
    ensures Acceptances(valid, LateReplay(), "") == 2
  {
    var end := CHALLENGE_TTL + MINUTE + 1;
    var e1: seq<Event> := [Verify("", 0, 0)];
    var e2 := e1 + [Cleanup(end)];
    var e3 := e2 + [Verify("", CHALLENGE_TTL, end)];
    assert e1[..0] == [] && e2[..1] == e1 && e3[..2] == e2 && e3 == LateReplay();
    assert Run(valid, e1) == State(map["" := 0], 0);
    assert Run(valid, e2) == State(map[], end);
    assert Acceptances(valid, e1, "") == 1;
    assert Acceptances(valid, e2, "") == 1;
  }

  /** Accept-once holds exactly when no caller waits more than one minute between the
      expiry check and the lock: the memory time is the challenge's life plus one minute. */
  lemma OnceExactlyWhenPrompt(delay: int)
    ensures AlwaysOnce(delay) <==> delay <= MINUTE
  {
    if delay <= MINUTE {
      forall valid: Checker, events, payload | Expires(valid) && Legal(events, delay)
        ensures Acceptances(valid, events, payload) <= 1
      {
        AcceptedOnce(valid, events, delay, payload);
      }
    } else {
      var valid: Checker := (p: string, t: int) => 0 <= t <= CHALLENGE_TTL;
      LateReplayAccepted(valid, delay);
      if AlwaysOnce(delay) {
        assert false;
      }
    }
  }
}

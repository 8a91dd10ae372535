/** The login handler of internal/handler/auth_handler.go. */
module AuthHandler {
  import opened Wrappers
  import opened RateLimiter
  import Challenge
  import LoginRuns

  datatype LoginRequest = LoginRequest(username: string, password: string, altcha: string)

  // When each part of a request reads the clock.
  datatype Clock = Clock(began: int, checkedAt: int, lockedAt: int, ended: int)

  const OK := 200
  const BAD_REQUEST := 400
  const UNAUTHORIZED := 401
  const TOO_MANY_REQUESTS := 429
  const INTERNAL_ERROR := 500

  /** The limiter steps a login takes, by the answer it gives. */
  function Steps(ip: string, status: int, clock: Clock): seq<LoginRuns.Event> {
    var begin := LoginRuns.Event(clock.began, LoginRuns.Begin(ip));
    if status == TOO_MANY_REQUESTS then [begin]
    else if status == UNAUTHORIZED then [begin, LoginRuns.Event(clock.ended, LoginRuns.Fail(ip))]
    else if status == OK then [begin, LoginRuns.Event(clock.ended, LoginRuns.Succeed(ip))]
    else [begin, LoginRuns.Event(clock.ended, LoginRuns.Abandon(ip))]
  }

  function After(w: LoginRuns.World, events: seq<LoginRuns.Event>): LoginRuns.World {
    if events == [] then w else LoginRuns.Next(After(w, events[..|events| - 1]), events[|events| - 1])
  }

  predicate HasProof(body: Option<LoginRequest>) {
    body.Some? && body.value.altcha != ""
  }

  /** The request carries a proof of work that verifies and was not used before. */
  predicate Proves(body: Option<LoginRequest>, valid: Challenge.Checker, at: int, used: Challenge.Used) {
    HasProof(body) && valid(body.value.altcha, at) && body.value.altcha !in used
  }

  /** The failures of an address that still count when a login begins: none when a block of it is over. */
  function CountedFailures(entries: RateLimiter.Entries, ip: string, now: int): nat {
    if ip in entries && !BlockExpired(entries[ip], now) then entries[ip].failures else 0
  }

  class Handler {
    const limiter: Limiter
    const challenges: Challenge.Service

    constructor ()
      ensures fresh(limiter) && fresh(challenges)
      ensures limiter.entries == map[] && challenges.used == map[]
    {
      limiter := new Limiter();
      challenges := new Challenge.Service();
    }

    /** Asking for a challenge is refused while an address is blocked, but not during a backoff. */
    method Challenge(ip: string, now: int, generateOk: bool) returns (status: int)
      modifies limiter
      ensures limiter.entries ==
        LoginRuns.Next(LoginRuns.World(old(limiter.entries), map[], now),
                       LoginRuns.Event(now, LoginRuns.Ask(ip))).entries
      ensures var blocked := ip in old(limiter.entries) && Blocked(old(limiter.entries)[ip], now);
        && (status == TOO_MANY_REQUESTS <==> blocked)
        && (status == INTERNAL_ERROR <==> !blocked && !generateOk)
        && (status == OK <==> !blocked && generateOk)
    {
      var _, blocked := limiter.Check(ip, now);
      if blocked { return TOO_MANY_REQUESTS; }
      if !generateOk { return INTERNAL_ERROR; }
      return OK;
    }

    /** A body of None cannot be decoded. passwordOk and tokenOk are the answers of the auth service. */
    method Login(ip: string, body: Option<LoginRequest>, clock: Clock, valid: Challenge.Checker,
                 passwordOk: bool, tokenOk: bool) returns (status: int)
      modifies limiter, challenges
      ensures limiter.entries ==
        After(LoginRuns.World(old(limiter.entries), map[], clock.began), Steps(ip, status, clock)).entries
      ensures var admitted := Admits(old(limiter.entries), ip, clock.began);
        var accepted := admitted && Proves(body, valid, clock.checkedAt, old(challenges.used));
        && (status == TOO_MANY_REQUESTS <==> !admitted)
        && (status == BAD_REQUEST <==> admitted && !HasProof(body))
        && (status == UNAUTHORIZED <==> admitted && HasProof(body) && !(accepted && passwordOk))
        && (status == INTERNAL_ERROR <==> accepted && passwordOk && !tokenOk)
        && (status == OK <==> accepted && passwordOk && tokenOk)
        && (status == UNAUTHORIZED ==>
              && ip in limiter.entries && limiter.entries[ip].lastFail == clock.ended
              && limiter.entries[ip].failures == 1 + CountedFailures(old(limiter.entries), ip, clock.began))
        && (status == OK ==> ip !in limiter.entries)
        && (status != UNAUTHORIZED && status != OK ==>
              limiter.entries == Checked(old(limiter.entries), ip, clock.began))
        && (forall x :: x != ip ==> (x in limiter.entries <==> x in old(limiter.entries)))
        && (forall x :: x != ip && x in limiter.entries ==> limiter.entries[x] == old(limiter.entries)[x])
        && challenges.used ==
             if accepted then old(challenges.used)[body.value.altcha := clock.lockedAt] else old(challenges.used)
    {
      hide Judge, Backoff;
      WaitIsLeast(limiter.entries, ip, clock.began);
      ghost var w := LoginRuns.World(limiter.entries, map[], clock.began);
      OneStep(w, ip, clock);
      var waitSec, blocked := limiter.Check(ip, clock.began);
      if blocked || waitSec > 0 { return TOO_MANY_REQUESTS; }
      TwoSteps(w, ip, clock);
      if body.None? { return BAD_REQUEST; }
      if body.value.altcha == "" { return BAD_REQUEST; }
      var ok := challenges.Verify(valid, body.value.altcha, clock.checkedAt, clock.lockedAt);
      if !ok {
        limiter.RecordFailure(ip, clock.ended);
        return UNAUTHORIZED;
      }
      if !passwordOk {
        limiter.RecordFailure(ip, clock.ended);
        return UNAUTHORIZED;
      }
      if !tokenOk { return INTERNAL_ERROR; }
      limiter.Reset(ip);
      return OK;
    }
  }

  lemma OneStep(w: LoginRuns.World, ip: string, clock: Clock)
    ensures After(w, Steps(ip, TOO_MANY_REQUESTS, clock)).entries == Checked(w.entries, ip, clock.began)
  {
    var s := Steps(ip, TOO_MANY_REQUESTS, clock);
    assert s[..0] == [];
  }

  lemma TwoSteps(w: LoginRuns.World, ip: string, clock: Clock)
    ensures var checked := Checked(w.entries, ip, clock.began);
      && After(w, Steps(ip, UNAUTHORIZED, clock)).entries == Failed(checked, ip, clock.ended)
      && After(w, Steps(ip, OK, clock)).entries == checked - {ip}
      && After(w, Steps(ip, BAD_REQUEST, clock)).entries == checked
      && After(w, Steps(ip, INTERNAL_ERROR, clock)).entries == checked
  {
    hide Judge, Checked, Failed;
    OneStep(w, ip, clock);
    forall status | status in {OK, BAD_REQUEST, UNAUTHORIZED, INTERNAL_ERROR}
      ensures Steps(ip, status, clock)[..1] == Steps(ip, TOO_MANY_REQUESTS, clock)
    {
    }
  }
}

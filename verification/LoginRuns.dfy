/** Runs of logins, challenge requests and limiter cleanups, in any interleaving. */
module LoginRuns {
  import opened Wrappers
  import opened RateLimiter
  import opened Words

  /** The atomic steps: each is one critical section of the limiter, or a login that ends without one. */
  datatype Action =
    | Begin(ip: string)      // a login's Check
    | Fail(ip: string)       // its RecordFailure
    | Succeed(ip: string)    // its Reset
    | Abandon(ip: string)    // it ends with neither
    | Ask(ip: string)        // the Check of a challenge request
    | Clean                  // one cleanup tick

  datatype Event = Event(at: int, action: Action)

  // inFlight counts the logins of an address that passed Check and have not ended.
  datatype World = World(entries: Entries, inFlight: map<string, nat>, now: int)

  function InFlight(w: World, ip: string): nat {
    if ip in w.inFlight then w.inFlight[ip] else 0
  }

  /** At most c logins of one address are handled at a time; the clock does not go back. */
  predicate Legal(w: World, e: Event, c: nat) {
    && w.now <= e.at
    && match e.action
       case Begin(ip) => InFlight(w, ip) < c
       case Fail(ip) => InFlight(w, ip) > 0
       case Succeed(ip) => InFlight(w, ip) > 0
       case Abandon(ip) => InFlight(w, ip) > 0
       case Ask(_) => true
       case Clean => true
  }

  function Next(w: World, e: Event): World {
    var w := w.(now := e.at);
    match e.action
    case Begin(ip) =>
      var admitted := if Judge(w.entries, ip, e.at).Passes() then 1 else 0;
      w.(entries := Checked(w.entries, ip, e.at), inFlight := w.inFlight[ip := InFlight(w, ip) + admitted])
    case Fail(ip) => Ended(w, ip).(entries := Failed(w.entries, ip, e.at))
    case Succeed(ip) => Ended(w, ip).(entries := w.entries - {ip})
    case Abandon(ip) => Ended(w, ip)
    case Ask(ip) => w.(entries := Checked(w.entries, ip, e.at))
    case Clean => w.(entries := Cleaned(w.entries, e.at))
  }

  function Ended(w: World, ip: string): World {
    w.(inFlight := w.inFlight[ip := if InFlight(w, ip) > 0 then InFlight(w, ip) - 1 else 0])
  }

  const START := World(map[], map[], 0)

  function Run(events: seq<Event>): World {
    if events == [] then START else Next(Run(events[..|events| - 1]), events[|events| - 1])
  }

  predicate LegalRun(events: seq<Event>, c: nat) {
    events == [] ||
    (LegalRun(events[..|events| - 1], c) && Legal(Run(events[..|events| - 1]), events[|events| - 1], c))
  }

  /** The times of the failures of an address since its last success. */
  function Failures(events: seq<Event>, ip: string): seq<int> {
    if events == [] then [] else NextFailures(Failures(events[..|events| - 1], ip), events[|events| - 1], ip)
  }

  function NextFailures(h: seq<int>, e: Event, ip: string): seq<int> {
    if e.action == Fail(ip) then h + [e.at] else if e.action == Succeed(ip) then [] else h
  }

  function Count(w: World, ip: string): nat {
    if ip in w.entries then w.entries[ip].failures else 0
  }

  ghost predicate Sorted(h: seq<int>) { forall i, j :: 0 <= i < j < |h| ==> h[i] <= h[j] }

  /** Any n consecutive failures span at least the block duration. */
  ghost predicate Spaced(h: seq<int>, n: nat) {
    forall i, j :: 0 <= i < j < |h| && j == i + n - 1 ==> h[j] - h[i] >= BLOCK_DURATION
  }

  /** The limiter's knowledge of one address: failures counted, time of the last, logins in flight, clock. */
  datatype View = View(count: nat, last: int, inFlight: nat, now: int)

  function ViewOf(w: World, ip: string): View {
    View(Count(w, ip), if ip in w.entries then w.entries[ip].lastFail else 0, InFlight(w, ip), w.now)
  }

  /** How the failures h since the last success relate to what the limiter still counts. */
  ghost predicate Remembers(v: View, h: seq<int>, c: nat) {
    var n := |h|;
    && v.count <= n && v.inFlight <= c
    && (n > 0 ==> h[n - 1] <= v.now)
    && (v.count > 0 ==> v.last == h[n - 1])
    && (v.count == 0 < n ==> v.now - h[n - 1] >= BLOCK_DURATION)
    && (0 < v.count < n ==> h[n - v.count] - h[n - v.count - 1] >= BLOCK_DURATION)
    && (v.count >= BLOCK_THRESHOLD ==> v.count + v.inFlight <= c + 4)
  }

  /** A step that records nothing keeps the count, or forgets it after the block duration. */
  predicate Evolves(v: View, v': View, c: nat) {
    && v.now <= v'.now && v'.inFlight <= c
    && (|| (v'.count == v.count && v'.last == v.last
            && (v'.inFlight <= v.inFlight || v.count < BLOCK_THRESHOLD))
        || (v'.count == 0 < v.count && v'.now - v.last >= BLOCK_DURATION))
  }

  lemma StepEvolves(w: World, e: Event, ip: string, c: nat)
    requires Legal(w, e, c) && InFlight(w, ip) <= c
    requires e.action != Fail(ip) && e.action != Succeed(ip)
    ensures Evolves(ViewOf(w, ip), ViewOf(Next(w, e), ip), c)
  {
    if e.action == Begin(ip) {
      hide Judge, Backoff;
      WaitIsLeast(w.entries, ip, e.at);
    }
  }

  lemma EvolvesRemembers(v: View, v': View, h: seq<int>, c: nat)
    requires Remembers(v, h, c) && Evolves(v, v', c)
    ensures Remembers(v', h, c)
  {
  }

  lemma FailRemembers(v: View, h: seq<int>, c: nat, at: int)
    requires c >= 1 && Remembers(v, h, c) && v.now <= at && v.inFlight > 0
    ensures v.count + 1 <= c + 4
    ensures Remembers(View(v.count + 1, at, v.inFlight - 1, at), h + [at], c)
  {
  }

  lemma FailSpaced(v: View, h: seq<int>, c: nat, at: int)
    requires Remembers(v, h, c) && v.now <= at && v.count + 1 <= c + 4
    requires Sorted(h) && Spaced(h, c + 5)
    ensures Sorted(h + [at]) && Spaced(h + [at], c + 5)
  {
    var h', n := h + [at], |h|;
    forall i, j | 0 <= i < j < |h'| && j == i + (c + 5) - 1
      ensures h'[j] - h'[i] >= BLOCK_DURATION
    {
      if j == n {
        assert i <= n - v.count - 1;
        assert h[i] <= h[n - v.count - 1];
      }
    }
  }

  lemma StepRemembers(w: World, e: Event, ip: string, h: seq<int>, c: nat)
    requires c >= 1 && Legal(w, e, c) && Remembers(ViewOf(w, ip), h, c)
    ensures Remembers(ViewOf(Next(w, e), ip), NextFailures(h, e, ip), c)
  {
    if e.action == Fail(ip) {
      FailRemembers(ViewOf(w, ip), h, c, e.at);
    } else if e.action != Succeed(ip) {
      hide Next;
      StepEvolves(w, e, ip, c);
      EvolvesRemembers(ViewOf(w, ip), ViewOf(Next(w, e), ip), h, c);
    }
  }

  lemma {:induction false} RunRemembers(events: seq<Event>, ip: string, c: nat)
    requires c >= 1 && LegalRun(events, c)
    ensures Remembers(ViewOf(Run(events), ip), Failures(events, ip), c)
    ensures Sorted(Failures(events, ip)) && Spaced(Failures(events, ip), c + 5)
  {
    if events == [] {
      NothingIsSpaced(c + 5);
    } else {
      hide Sorted, Spaced, Remembers, Next, Legal, ViewOf;
      var n := |events| - 1;
      var w, h, e := Run(events[..n]), Failures(events[..n], ip), events[n];
      RunRemembers(events[..n], ip, c);
      StepRemembers(w, e, ip, h, c);
      if e.action == Fail(ip) {
        StepSpaced(w, h, ip, c, e);
      } else {
        NothingIsSpaced(c + 5);
      }
    }
  }

  lemma StepSpaced(w: World, h: seq<int>, ip: string, c: nat, e: Event)
    requires c >= 1 && Legal(w, e, c) && Remembers(ViewOf(w, ip), h, c) && e.action == Fail(ip)
    requires Sorted(h) && Spaced(h, c + 5)
    ensures Sorted(h + [e.at]) && Spaced(h + [e.at], c + 5)
  {
    hide Sorted, Spaced;
    FailRemembers(ViewOf(w, ip), h, c, e.at);
    FailSpaced(ViewOf(w, ip), h, c, e.at);
  }

  lemma NothingIsSpaced(n: nat)
    ensures Sorted([]) && Spaced([], n)
  {
  }

  /** With at most c logins of an address in flight, any c + 5 consecutive failures
      without a success between them span at least 15 minutes. */
  lemma FailuresAreSpaced(events: seq<Event>, ip: string, c: nat)
    requires c >= 1 && LegalRun(events, c)
    ensures Sorted(Failures(events, ip)) && Spaced(Failures(events, ip), c + 5)
  {
    RunRemembers(events, ip, c);
  }

  lemma {:induction false} SpansAdd(h: seq<int>, n: nat, i: nat, j: nat, m: nat)
    requires n > 0 && Spaced(h, n + 1) && Sorted(h) && i + m * n <= j < |h|
    ensures h[j] - h[i] >= m * BLOCK_DURATION
    decreases m
  {
    if m == 0 {
      assert i == j || h[i] <= h[j];
    } else {
      assert i + m * n == (i + n) + (m - 1) * n;
      MulAtLeast(n, m);
      assert m * n - n == (m - 1) * n;
      StepsForward(m - 1, n);
      SpansAdd(h, n, i + n, j, m - 1);
      assert h[i + n] - h[i] >= BLOCK_DURATION;
    }
  }

  lemma StepsForward(m: nat, n: nat)
    ensures m * n >= 0
  {
  }

  /** A stretch of time T holds at most (c + 4) * (T / 15 min + 1) failures. */
  lemma WindowHoldsFew(events: seq<Event>, ip: string, c: nat, i: nat, j: nat, T: nat)
    requires c >= 1 && LegalRun(events, c)
    requires i <= j < |Failures(events, ip)| && Failures(events, ip)[j] - Failures(events, ip)[i] <= T
    ensures j - i + 1 <= (c + 4) * (T / BLOCK_DURATION + 1)
  {
    FailuresAreSpaced(events, ip, c);
    var h, m, n := Failures(events, ip), T / BLOCK_DURATION + 1, c + 4;
    assert m * n == n * m;
    if j - i >= m * n {
      SpansAdd(h, n, i, j, m);
      assert false;
    }
  }

  // ---- the bound is the best one ----

  function Repeat(e: Event, n: nat): seq<Event> { seq(n, i => e) }

  /** Four failures as fast as the backoff allows, then c logins at once that all fail. */
  function Burst(ip: string, c: nat, ends: nat): seq<Event> {
    FourFailures(ip) + Repeat(Event(15 * SECOND, Begin(ip)), c) + Repeat(Event(15 * SECOND, Fail(ip)), ends)
  }

  function FourFailures(ip: string): seq<Event> {
    [Event(0, Begin(ip)), Event(0, Fail(ip)),
     Event(1 * SECOND, Begin(ip)), Event(1 * SECOND, Fail(ip)),
     Event(3 * SECOND, Begin(ip)), Event(3 * SECOND, Fail(ip)),
     Event(7 * SECOND, Begin(ip)), Event(7 * SECOND, Fail(ip))]
  }

  lemma Extend(events: seq<Event>, e: Event, ip: string, c: nat)
    requires LegalRun(events, c) && Legal(Run(events), e, c)
    ensures LegalRun(events + [e], c) && Run(events + [e]) == Next(Run(events), e)
    ensures Failures(events + [e], ip) == NextFailures(Failures(events, ip), e, ip)
  {
    assert (events + [e])[..|events|] == events;
  }

  lemma OneFailure(events: seq<Event>, at: int, ip: string, c: nat)
    requires c >= 1 && LegalRun(events, c) && InFlight(Run(events), ip) == 0 && Run(events).now <= at
    requires Admits(Run(events).entries, ip, at) && Count(Run(events), ip) < BLOCK_THRESHOLD
    ensures var longer := events + [Event(at, Begin(ip)), Event(at, Fail(ip))];
      && LegalRun(longer, c) && Run(longer).now == at && InFlight(Run(longer), ip) == 0
      && ip in Run(longer).entries
      && Run(longer).entries[ip] == Entry(Count(Run(events), ip) + 1, at)
      && Failures(longer, ip) == Failures(events, ip) + [at]
  {
    var begun := events + [Event(at, Begin(ip))];
    WaitIsLeast(Run(events).entries, ip, at);
    Extend(events, Event(at, Begin(ip)), ip, c);
    Extend(begun, Event(at, Fail(ip)), ip, c);
    assert begun + [Event(at, Fail(ip))] == events + [Event(at, Begin(ip)), Event(at, Fail(ip))];
  }

  lemma FourFailuresHappen(ip: string, c: nat)
    requires c >= 1
    ensures var events := FourFailures(ip);
      && LegalRun(events, c) && Run(events).now == 7 * SECOND && InFlight(Run(events), ip) == 0
      && ip in Run(events).entries && Run(events).entries[ip] == Entry(4, 7 * SECOND)
      && Failures(events, ip) == [0, 1 * SECOND, 3 * SECOND, 7 * SECOND]
  {
    hide Next, Legal;
    var e0: seq<Event> := [];
    OneFailure(e0, 0, ip, c);
    var e1 := e0 + [Event(0, Begin(ip)), Event(0, Fail(ip))];
    BackoffPasses(Run(e1).entries, ip, 1 * SECOND);
    OneFailure(e1, 1 * SECOND, ip, c);
    var e2 := e1 + [Event(1 * SECOND, Begin(ip)), Event(1 * SECOND, Fail(ip))];
    BackoffPasses(Run(e2).entries, ip, 3 * SECOND);
    OneFailure(e2, 3 * SECOND, ip, c);
    var e3 := e2 + [Event(3 * SECOND, Begin(ip)), Event(3 * SECOND, Fail(ip))];
    BackoffPasses(Run(e3).entries, ip, 7 * SECOND);
    OneFailure(e3, 7 * SECOND, ip, c);
    assert FourFailures(ip) == e3 + [Event(7 * SECOND, Begin(ip)), Event(7 * SECOND, Fail(ip))];
  }

  lemma BackoffPasses(entries: Entries, ip: string, now: int)
    requires ip in entries && entries[ip].failures < BLOCK_THRESHOLD
    requires now - entries[ip].lastFail >= Pow2(entries[ip].failures - 1) * SECOND
    ensures Admits(entries, ip, now)
  {
  }

  lemma {:induction false} AllBegin(ip: string, c: nat, begun: nat)
    requires c >= 1 && begun <= c
    ensures var events := FourFailures(ip) + Repeat(Event(15 * SECOND, Begin(ip)), begun);
      && LegalRun(events, c) && Run(events).now <= 15 * SECOND && InFlight(Run(events), ip) == begun
      && ip in Run(events).entries && Run(events).entries[ip] == Entry(4, 7 * SECOND)
      && Failures(events, ip) == [0, 1 * SECOND, 3 * SECOND, 7 * SECOND]
  {
    FourFailuresHappen(ip, c);
    if begun == 0 {
      assert FourFailures(ip) + Repeat(Event(15 * SECOND, Begin(ip)), 0) == FourFailures(ip);
    } else {
      var events := FourFailures(ip) + Repeat(Event(15 * SECOND, Begin(ip)), begun - 1);
      AllBegin(ip, c, begun - 1);
      var e := Event(15 * SECOND, Begin(ip));
      assert Pow2(3) == 8;
      WaitIsLeast(Run(events).entries, ip, 15 * SECOND);
      Extend(events, e, ip, c);
      assert events + [e] == FourFailures(ip) + Repeat(e, begun);
    }
  }

  lemma BurstGrows(ip: string, c: nat, ends: nat)
    requires ends > 0
    ensures Burst(ip, c, ends) == Burst(ip, c, ends - 1) + [Event(15 * SECOND, Fail(ip))]
  {
  }

  /** A burst in which `ends` of the c logins begun at once have failed. */
  ghost predicate Bursting(events: seq<Event>, ip: string, c: nat, ends: nat) {
    && LegalRun(events, c) && Run(events).now <= 15 * SECOND && InFlight(Run(events), ip) + ends == c
    && |Failures(events, ip)| == 4 + ends
    && forall t :: t in Failures(events, ip) ==> 0 <= t <= 15 * SECOND
  }

  lemma BurstingGoesOn(events: seq<Event>, ip: string, c: nat, ends: nat)
    requires Bursting(events, ip, c, ends) && ends < c
    ensures Bursting(events + [Event(15 * SECOND, Fail(ip))], ip, c, ends + 1)
  {
    hide Run, Failures, LegalRun, Failed;
    Extend(events, Event(15 * SECOND, Fail(ip)), ip, c);
  }

  lemma {:induction false} AllFail(ip: string, c: nat, ends: nat)
    requires c >= 1 && ends <= c
    ensures Bursting(Burst(ip, c, ends), ip, c, ends)
  {
    hide Run, Failures, LegalRun;
    if ends == 0 {
      AllBegin(ip, c, c);
      assert Burst(ip, c, 0) == FourFailures(ip) + Repeat(Event(15 * SECOND, Begin(ip)), c);
    } else {
      AllFail(ip, c, ends - 1);
      BurstGrows(ip, c, ends);
      BurstingGoesOn(Burst(ip, c, ends - 1), ip, c, ends - 1);
    }
  }

  /** In every run with at most c logins at once, any n consecutive failures span the block duration. */
  ghost predicate AlwaysSpaced(ip: string, c: nat, n: nat) {
    forall events :: LegalRun(events, c) ==> Spaced(Failures(events, ip), n)
  }

  /** That holds for n = c + 5 and for no smaller n: with c logins at once,
      c + 4 failures can fall within 15 seconds. */
  lemma SpacingIsExact(ip: string, c: nat, n: nat)
    requires c >= 1 && n >= 2
    ensures AlwaysSpaced(ip, c, n) <==> n >= c + 5
  {
    if n >= c + 5 {
      forall events | LegalRun(events, c)
        ensures Spaced(Failures(events, ip), n)
      {
        FailuresAreSpaced(events, ip, c);
        WiderSpaced(Failures(events, ip), c + 5, n);
      }
    } else {
      BurstIsTight(ip, c, n);
      if AlwaysSpaced(ip, c, n) {
        assert false;
      }
    }
  }

  lemma BurstIsTight(ip: string, c: nat, n: nat)
    requires c >= 1 && 2 <= n < c + 5
    ensures LegalRun(Burst(ip, c, c), c) && !Spaced(Failures(Burst(ip, c, c), ip), n)
  {
    AllFail(ip, c, c);
    var h := Failures(Burst(ip, c, c), ip);
    assert h[0] in h && h[n - 1] in h;
    assert h[n - 1] - h[0] < BLOCK_DURATION;
  }

  lemma WiderSpaced(h: seq<int>, n: nat, m: nat)
    requires Sorted(h) && Spaced(h, n) && 2 <= n <= m
    ensures Spaced(h, m)
  {
    forall i, j | 0 <= i < j < |h| && j == i + m - 1
      ensures h[j] - h[i] >= BLOCK_DURATION
    {
      var k := i + n - 1;
      assert h[k] - h[i] >= BLOCK_DURATION;
    }
  }
}

/** The login rate limiter of internal/auth/ratelimit.go. Times are integer nanoseconds. */
module RateLimiter {
  import opened Wrappers
  import opened Words

  const SECOND := 1_000_000_000
  const MINUTE := 60 * SECOND

  const BLOCK_THRESHOLD := 5
  const BLOCK_DURATION := 15 * MINUTE
  const ENTRY_TTL := 30 * MINUTE

  type Positive = n: nat | n > 0 witness 1

  datatype Entry = Entry(failures: Positive, lastFail: int)

  type Entries = map<string, Entry>

  /** A duration rounded up to whole seconds. */
  function CeilSeconds(d: int): int { -((-d) / SECOND) }

  /** What `Check` answers about an entry. */
  datatype Verdict = Verdict(waitSeconds: int, blocked: bool) {
    predicate Passes() { waitSeconds <= 0 && !blocked }
  }

  predicate Blocked(e: Entry, now: int) {
    e.failures >= BLOCK_THRESHOLD && now - e.lastFail < BLOCK_DURATION
  }

  predicate BlockExpired(e: Entry, now: int) {
    e.failures >= BLOCK_THRESHOLD && now - e.lastFail >= BLOCK_DURATION
  }

  /** Time still to wait after 1 to 4 failures: 1, 2, 4, 8 seconds from the last one. */
  function Backoff(e: Entry, now: int): int {
    if 0 < e.failures < BLOCK_THRESHOLD then Pow2(e.failures - 1) * SECOND - (now - e.lastFail) else 0
  }

  function Judge(entries: Entries, ip: string, now: int): Verdict {
    if ip !in entries || BlockExpired(entries[ip], now) then Verdict(0, false)
    else if Blocked(entries[ip], now) then Verdict(CeilSeconds(BLOCK_DURATION - (now - entries[ip].lastFail)), true)
    else if Backoff(entries[ip], now) > 0 then Verdict(CeilSeconds(Backoff(entries[ip], now)), false)
    else Verdict(0, false)
  }

  function Checked(entries: Entries, ip: string, now: int): Entries {
    if ip in entries && BlockExpired(entries[ip], now) then entries - {ip} else entries
  }

  function Failed(entries: Entries, ip: string, now: int): Entries {
    entries[ip := Entry(if ip in entries then entries[ip].failures + 1 else 1, now)]
  }

  function Cleaned(entries: Entries, now: int): Entries {
    map ip | ip in entries && now - entries[ip].lastFail <= ENTRY_TTL :: entries[ip]
  }

  class Limiter {
    var entries: Entries

    constructor ()
      ensures entries == map[]
    {
      entries := map[];
    }

    method Check(ip: string, now: int) returns (waitSeconds: int, blocked: bool)
      modifies this
      ensures entries == Checked(old(entries), ip, now)
      ensures Verdict(waitSeconds, blocked) == Judge(old(entries), ip, now)
    {
      if ip !in entries { return 0, false; }
      var entry := entries[ip];
      if entry.failures >= BLOCK_THRESHOLD {
        var elapsed := now - entry.lastFail;
        if elapsed < BLOCK_DURATION {
          return CeilSeconds(BLOCK_DURATION - elapsed), true;
        }
        entries := entries - {ip};
        return 0, false;
      }
      if entry.failures > 0 {
        var wait := Pow2(entry.failures - 1);
        var elapsed := now - entry.lastFail;
        var remaining := wait * SECOND - elapsed;
        if remaining > 0 {
          return CeilSeconds(remaining), false;
        }
      }
      return 0, false;
    }

    method RecordFailure(ip: string, now: int)
      modifies this
      ensures entries == Failed(old(entries), ip, now)
    {
      var failures: nat := if ip in entries then entries[ip].failures else 0;
      entries := entries[ip := Entry(failures + 1, now)];
    }

    method Reset(ip: string)
      modifies this
      ensures entries == old(entries) - {ip}
    {
      entries := entries - {ip};
    }

    /** One tick of the background cleanup. */
    method Cleanup(now: int)
      modifies this
      ensures entries == Cleaned(old(entries), now)
    {
      var todo := entries.Keys;
      while todo != {}
        invariant todo <= old(entries.Keys)
        invariant entries == map ip | ip in old(entries)
          && (ip in todo || now - old(entries)[ip].lastFail <= ENTRY_TTL) :: old(entries)[ip]
        decreases |todo|
      {
        var ip :| ip in todo;
        if now - entries[ip].lastFail > ENTRY_TTL {
          entries := entries - {ip};
        }
        todo := todo - {ip};
      }
    }
  }

  /** Whether a login from this address may go on now. */
  predicate Admits(entries: Entries, ip: string, now: int) {
    || ip !in entries
    || BlockExpired(entries[ip], now)
    || (entries[ip].failures < BLOCK_THRESHOLD && Backoff(entries[ip], now) <= 0)
  }

  /** The wait announced to a refused address is the least number of whole seconds that helps. */
  lemma WaitIsLeast(entries: Entries, ip: string, now: int)
    ensures Judge(entries, ip, now).Passes() <==> Admits(entries, ip, now)
    ensures !Admits(entries, ip, now) ==> Judge(entries, ip, now).waitSeconds >= 1
    ensures forall s: nat :: !Admits(entries, ip, now) ==>
      (Admits(entries, ip, now + s * SECOND) <==> Judge(entries, ip, now).waitSeconds <= s)
  {
    if ip in entries {
      var e := entries[ip];
      CeilBounds(if e.failures >= BLOCK_THRESHOLD then BLOCK_DURATION - (now - e.lastFail) else Backoff(e, now));
    }
  }

  /** The time an address must wait after its last failure: 1, 2, 4 or 8 seconds, then 15 minutes. */
  lemma BackoffSchedule(entries: Entries, ip: string, now: int)
    requires ip in entries
    ensures var f, since := entries[ip].failures, now - entries[ip].lastFail;
      Admits(entries, ip, now) <==>
        since >= SECOND *
          (if f == 1 then 1 else if f == 2 then 2 else if f == 3 then 4 else if f == 4 then 8 else 900)
  {
    assert Pow2(0) == 1 && Pow2(1) == 2 && Pow2(2) == 4 && Pow2(3) == 8;
  }

  /** A cleanup forgets exactly what is more than 30 minutes old, and changes no answer that is given from then on. */
  lemma CleanupIsUnseen(entries: Entries, now: int, ip: string, later: int)
    requires now <= later
    ensures var left := Cleaned(entries, now);
      && (ip in left <==> ip in entries && now - entries[ip].lastFail <= 1800 * SECOND)
      && (ip in left ==> left[ip] == entries[ip])
      && Judge(left, ip, later) == Judge(entries, ip, later)
  {
    assert Pow2(0) == 1 && Pow2(1) == 2 && Pow2(2) == 4 && Pow2(3) == 8;
  }

  lemma CeilBounds(d: int)
    ensures (CeilSeconds(d) - 1) * SECOND < d <= CeilSeconds(d) * SECOND
  {
  }
}

/**
 The two sliding-window limiters. Instants are microseconds and windows are seconds; every check
 is one atomic step at one instant.
 */
module RateLimiters {
  import opened Money

  const SECOND := 1_000_000

  datatype Limit = Limit(max: int, window: int)

  /** The process-local limiter fails on an empty list when the limit is not positive. */
  datatype Outcome = Admitted | Rejected(retryAfter: int) | IndexError

  datatype Attempt = Attempt(key: string, now: int)

  type Policy = string -> Limit

  /** A whole number of seconds, a fraction dropped. */
  function WholeSeconds(micros: int): int {
    if micros >= 0 then micros / SECOND else -(-micros / SECOND)
  }

  function Cutoff(now: int, limit: Limit): int { now - limit.window * SECOND }

  // ----- The process-local limiter

  type Stored = map<string, seq<int>>

  function TimesAt(requests: Stored, key: string): seq<int> {
    if key in requests then requests[key] else []
  }

  /** The entries after the cutoff, in order. */
  function After(times: seq<int>, cutoff: int): (kept: seq<int>)
    ensures |kept| <= |times|
  {
    if times == [] then []
    else
      var last := times[|times| - 1];
      var front := After(times[..|times| - 1], cutoff);
      if last > cutoff then front + [last] else front
  }

  function MemoryOutcome(times: seq<int>, limit: Limit, now: int): Outcome {
    var kept := After(times, Cutoff(now, limit));
    if |kept| < limit.max then Admitted
    else if kept == [] then IndexError
    else Rejected(Max(0, WholeSeconds(kept[0] + limit.window * SECOND - now)))
  }

  function MemoryTimes(times: seq<int>, limit: Limit, now: int): seq<int> {
    var kept := After(times, Cutoff(now, limit));
    if MemoryOutcome(times, limit, now) == Admitted then kept + [now] else kept
  }

  class InMemoryRateLimiter {
    var requests: Stored

    constructor ()
      ensures requests == map[]
    {
      requests := map[];
    }

    method CheckRateLimit(key: string, limit: Limit, now: int) returns (outcome: Outcome)
      modifies this
      ensures outcome == MemoryOutcome(TimesAt(old(requests), key), limit, now)
      ensures requests == old(requests)[key := MemoryTimes(TimesAt(old(requests), key), limit, now)]
    {
      var cutoff := now - limit.window * SECOND;
      requests := requests[key := After(TimesAt(requests, key), cutoff)];
      if |requests[key]| >= limit.max {
        if requests[key] == [] {
          return IndexError;
        }
        var oldest := requests[key][0];
        return Rejected(Max(0, WholeSeconds(oldest + limit.window * SECOND - now)));
      }
      requests := requests[key := requests[key] + [now]];
      outcome := Admitted;
    }
  }

  // ----- Runs of the process-local limiter

  datatype MemoryRun = MemoryRun(requests: Stored, outcomes: seq<Outcome>)

  function RunMemory(trace: seq<Attempt>, policy: Policy): (r: MemoryRun)
    ensures |r.outcomes| == |trace|
  {
    if trace == [] then MemoryRun(map[], [])
    else
      var before, a := RunMemory(trace[..|trace| - 1], policy), trace[|trace| - 1];
      var times := TimesAt(before.requests, a.key);
      MemoryRun(before.requests[a.key := MemoryTimes(times, policy(a.key), a.now)],
                before.outcomes + [MemoryOutcome(times, policy(a.key), a.now)])
  }

  /** The instants of the attempts of `key` that were admitted, in order. */
  function AdmittedTimes(trace: seq<Attempt>, policy: Policy, key: string): seq<int> {
    if trace == [] then []
    else
      var n := |trace| - 1;
      var front := AdmittedTimes(trace[..n], policy, key);
      if trace[n].key == key && RunMemory(trace, policy).outcomes[n] == Admitted then front + [trace[n].now] else front
  }

  ghost predicate Ordered(times: seq<int>) {
    forall i, j :: 0 <= i < j < |times| ==> times[i] <= times[j]
  }

  /** The clock never goes back. */
  ghost predicate ClockOrdered(trace: seq<Attempt>) {
    forall i, j :: 0 <= i < j < |trace| ==> trace[i].now <= trace[j].now
  }

  /** The clock never goes back between two attempts of `key`. */
  ghost predicate KeyOrdered(trace: seq<Attempt>, key: string) {
    forall i, j :: 0 <= i < j < |trace| && trace[i].key == trace[j].key == key ==> trace[i].now <= trace[j].now
  }

  /** The instant of the last attempt of `key`. */
  function LastAttempt(trace: seq<Attempt>, key: string): Option<int> {
    if trace == [] then None
    else if trace[|trace| - 1].key == key then Some(trace[|trace| - 1].now)
    else LastAttempt(trace[..|trace| - 1], key)
  }

  lemma {:induction false} AfterAll(times: seq<int>, cutoff: int)
    requires forall i :: 0 <= i < |times| ==> cutoff < times[i]
    ensures After(times, cutoff) == times
  {
    if times != [] {
      AfterAll(times[..|times| - 1], cutoff);
    }
  }

  lemma {:induction false} AfterNone(times: seq<int>, late: seq<int>, cutoff: int)
    requires forall i :: 0 <= i < |times| ==> times[i] <= cutoff
    ensures After(times + late, cutoff) == After(late, cutoff)
  {
    hide After;
    if late == [] {
      NoneAfter(times, cutoff);
      NoneAfter(late, cutoff);
      assert times + late == times;
    } else {
      var front, last := late[..|late| - 1], late[|late| - 1];
      AfterNone(times, front, cutoff);
      AfterAppend(times + front, last, cutoff);
      AfterAppend(front, last, cutoff);
      assert late == front + [last] && times + late == times + front + [last];
    }
  }

  lemma {:induction false} NoneAfter(times: seq<int>, cutoff: int)
    requires forall i :: 0 <= i < |times| ==> times[i] <= cutoff
    ensures After(times, cutoff) == []
  {
    if times != [] {
      NoneAfter(times[..|times| - 1], cutoff);
    }
  }

  /** What is kept is what came strictly after the cutoff. */
  lemma {:induction false} AfterMembers(times: seq<int>, cutoff: int, t: int)
    ensures t in After(times, cutoff) <==> t in times && cutoff < t
  {
    if times != [] {
      var n := |times| - 1;
      AfterMembers(times[..n], cutoff, t);
      assert times == times[..n] + [times[n]];
    }
  }

  /** On ordered instants the ones after a cutoff are a suffix. */
  lemma AfterSplits(times: seq<int>, cutoff: int) returns (k: nat)
    requires Ordered(times)
    ensures k <= |times| && After(times, cutoff) == times[k..]
    ensures forall i :: 0 <= i < k ==> times[i] <= cutoff
    ensures forall i :: k <= i < |times| ==> cutoff < times[i]
  {
    k := 0;
    while k < |times| && times[k] <= cutoff
      invariant k <= |times|
      invariant forall i :: 0 <= i < k ==> times[i] <= cutoff
    {
      k := k + 1;
    }
    assert times == times[..k] + times[k..];
    AfterNone(times[..k], times[k..], cutoff);
    AfterAll(times[k..], cutoff);
  }

  lemma {:induction false} AfterAfter(times: seq<int>, early: int, late: int)
    requires early <= late
    ensures After(After(times, early), late) == After(times, late)
  {
    if times != [] {
      var n := |times| - 1;
      AfterAfter(times[..n], early, late);
      AfterAppend(After(times[..n], early), times[n], late);
    }
  }

  lemma AfterAppend(times: seq<int>, t: int, cutoff: int)
    ensures After(times + [t], cutoff) == if t > cutoff then After(times, cutoff) + [t] else After(times, cutoff)
  {
    assert (times + [t])[..|times|] == times;
  }

  /** The admissions of one key are in order and up to its last attempt, and the list kept is
      exactly the admissions still inside the window at that attempt. */
  ghost predicate KeepsWindow(admitted: seq<int>, stored: seq<int>, last: Option<int>, limit: Limit) {
    && Ordered(admitted)
    && |stored| <= limit.max
    && if last.None? then admitted == stored == []
       else
         && (forall i :: 0 <= i < |admitted| ==> admitted[i] <= last.value)
         && stored == After(admitted, Cutoff(last.value, limit))
  }

  /** Every admission is a whole window after the one `max` places before it. */
  ghost predicate Spaced(admitted: seq<int>, limit: Limit)
    requires limit.max >= 0
  {
    forall i :: 0 <= i < |admitted| - limit.max ==>
      limit.window * SECOND <= admitted[i + limit.max] - admitted[i]
  }

  lemma WindowKept(admitted: seq<int>, stored: seq<int>, last: Option<int>, limit: Limit, now: int) returns (k: nat)
    requires limit.max >= 1
    requires KeepsWindow(admitted, stored, last, limit) && (last.Some? ==> last.value <= now)
    ensures k <= |admitted| && |admitted| - k <= limit.max
    ensures After(stored, Cutoff(now, limit)) == After(admitted, Cutoff(now, limit)) == admitted[k..]
    ensures forall i :: 0 <= i < k ==> admitted[i] <= Cutoff(now, limit)
    ensures forall i :: 0 <= i < |admitted| ==> admitted[i] <= now
  {
    if last.Some? {
      AfterAfter(admitted, Cutoff(last.value, limit), Cutoff(now, limit));
    }
    hide After;
    k := AfterSplits(admitted, Cutoff(now, limit));
  }

  lemma WindowStep(admitted: seq<int>, stored: seq<int>, last: Option<int>, limit: Limit, now: int)
    requires limit.max >= 1 && limit.window >= 1
    requires KeepsWindow(admitted, stored, last, limit) && (last.Some? ==> last.value <= now)
    ensures var after := if MemoryOutcome(stored, limit, now) == Admitted then admitted + [now] else admitted;
            && KeepsWindow(after, MemoryTimes(stored, limit, now), Some(now), limit)
            && (Spaced(admitted, limit) ==> Spaced(after, limit))
  {
    hide After;
    var k := WindowKept(admitted, stored, last, limit, now);
    AfterAppend(admitted, now, Cutoff(now, limit));
    if MemoryOutcome(stored, limit, now) == Admitted {
      assert |admitted| - k < limit.max;
      assert Ordered(admitted + [now]);
    }
  }

  lemma {:induction false} LastAttemptSeen(trace: seq<Attempt>, key: string)
    ensures var last := LastAttempt(trace, key);
            last.Some? ==> exists i :: 0 <= i < |trace| && trace[i].key == key && trace[i].now == last.value
  {
    if trace != [] && trace[|trace| - 1].key != key {
      LastAttemptSeen(trace[..|trace| - 1], key);
    }
  }

  /** Over any run of mixed keys: the list kept for a key is its admissions inside the window, and
      the i-th and (i + max)-th admissions are at least a window apart. */
  lemma {:induction false} SlidingWindow(trace: seq<Attempt>, policy: Policy, key: string)
    requires KeyOrdered(trace, key) && policy(key).max >= 1 && policy(key).window >= 1
    ensures var admitted := AdmittedTimes(trace, policy, key);
            && KeepsWindow(admitted, TimesAt(RunMemory(trace, policy).requests, key), LastAttempt(trace, key),
                           policy(key))
            && Spaced(admitted, policy(key))
  {
    if trace != [] {
      var n := |trace| - 1;
      var before := trace[..n];
      SlidingWindow(before, policy, key);
      if trace[n].key == key {
        LastAttemptSeen(before, key);
        hide MemoryOutcome, MemoryTimes;
        WindowStep(AdmittedTimes(before, policy, key), TimesAt(RunMemory(before, policy).requests, key),
                   LastAttempt(before, key), policy(key), trace[n].now);
      }
    }
  }

  /** Whole seconds: as many as fit, towards zero. */
  lemma WholeSecondsFit(micros: int)
    ensures micros >= 0 ==> 0 <= micros - 1_000_000 * WholeSeconds(micros) < 1_000_000
    ensures micros < 0 ==> -1_000_000 < micros - 1_000_000 * WholeSeconds(micros) <= 0
  {
  }

  /** What one check answers, from the admissions of its key: it admits while fewer than the limit are
      inside the window, and otherwise tells the whole seconds until the oldest of them leaves it. */
  lemma OutcomeExactly(admitted: seq<int>, stored: seq<int>, last: Option<int>, limit: Limit, now: int)
    requires limit.max >= 1
    requires KeepsWindow(admitted, stored, last, limit) && (last.Some? ==> last.value <= now)
    ensures var inside := After(admitted, now - limit.window * 1_000_000);
            && (MemoryOutcome(stored, limit, now) == Admitted <==> |inside| < limit.max)
            && (|inside| >= limit.max ==>
                  && MemoryOutcome(stored, limit, now).Rejected?
                  && var left := inside[0] + limit.window * 1_000_000 - now;
                     0 < left && 0 <= left - 1_000_000 * MemoryOutcome(stored, limit, now).retryAfter < 1_000_000)
  {
    hide After, KeepsWindow;
    var k := WindowKept(admitted, stored, last, limit, now);
    var inside := After(admitted, Cutoff(now, limit));
    if |inside| >= limit.max {
      AfterMembers(admitted, Cutoff(now, limit), inside[0]);
      WholeSecondsFit(inside[0] + limit.window * SECOND - now);
    }
  }

  /** Over any run: an attempt is admitted exactly when fewer than the limit of its key's admissions are
      inside the window that ends with it. */
  lemma AdmittedExactly(before: seq<Attempt>, a: Attempt, policy: Policy)
    requires KeyOrdered(before + [a], a.key) && policy(a.key).max >= 1 && policy(a.key).window >= 1
    ensures var inside := After(AdmittedTimes(before, policy, a.key), a.now - policy(a.key).window * 1_000_000);
            RunMemory(before + [a], policy).outcomes[|before|] == Admitted <==> |inside| < policy(a.key).max
  {
    hide KeyOrdered, RunMemory, After, AdmittedTimes, LastAttempt, KeepsWindow, Spaced, MemoryOutcome, MemoryTimes;
    ClockUpTo(before, a);
    SlidingWindow(before, policy, a.key);
    RunStep(before, a, policy);
    OutcomeExactly(AdmittedTimes(before, policy, a.key), TimesAt(RunMemory(before, policy).requests, a.key),
                   LastAttempt(before, a.key), policy(a.key), a.now);
  }

  /** A rejected caller that comes back one second after the seconds it was told to wait, with no
      other traffic on its key in between, is admitted. */
  lemma {:induction false} RetryAfterIsEnough(
      before: seq<Attempt>, policy: Policy, key: string, now: int, between: seq<Attempt>, later: int)
    requires policy(key).max >= 1 && policy(key).window >= 1
    requires KeyOrdered(before + [Attempt(key, now)], key)
    requires forall i :: 0 <= i < |between| ==> between[i].key != key
    requires var o := RunMemory(before + [Attempt(key, now)], policy).outcomes[|before|];
             o.Rejected? && now + (o.retryAfter + 1) * SECOND <= later
    ensures RunMemory(before + [Attempt(key, now)] + between + [Attempt(key, later)], policy)
              .outcomes[|before| + 1 + |between|] == Admitted
  {
    var a := Attempt(key, now);
    var rejected := before + [a];
    var all := rejected + between;
    hide KeyOrdered, RunMemory, MemoryOutcome, MemoryTimes, After, AdmittedTimes, LastAttempt, KeepsWindow, Spaced;
    ClockUpTo(before, a);
    SlidingWindow(before, policy, key);
    RunStep(before, a, policy);
    var stored := TimesAt(RunMemory(before, policy).requests, key);
    assert RunMemory(rejected, policy).outcomes[|before|] == MemoryOutcome(stored, policy(key), now);
    WaitIsEnough(AdmittedTimes(before, policy, key), stored, LastAttempt(before, key), policy(key), now, later);
    OthersLeaveKeyAlone(rejected, between, policy, key);
    RunStep(all, Attempt(key, later), policy);
  }

  /** The wait is not too long either: a rejected caller that comes back before the seconds it was told
      are over, with no other traffic on its key in between, is rejected again. */
  lemma {:induction false} WaitIsNeeded(
      before: seq<Attempt>, policy: Policy, key: string, now: int, between: seq<Attempt>, early: int)
    requires policy(key).max >= 1 && policy(key).window >= 1
    requires KeyOrdered(before + [Attempt(key, now)], key)
    requires forall i :: 0 <= i < |between| ==> between[i].key != key
    requires var o := RunMemory(before + [Attempt(key, now)], policy).outcomes[|before|];
             o.Rejected? && now <= early < now + o.retryAfter * SECOND
    ensures RunMemory(before + [Attempt(key, now)] + between + [Attempt(key, early)], policy)
              .outcomes[|before| + 1 + |between|].Rejected?
  {
    var a := Attempt(key, now);
    var rejected := before + [a];
    var all := rejected + between;
    hide KeyOrdered, RunMemory, MemoryOutcome, MemoryTimes, After, AdmittedTimes, LastAttempt, KeepsWindow, Spaced;
    ClockUpTo(before, a);
    SlidingWindow(before, policy, key);
    RunStep(before, a, policy);
    var stored := TimesAt(RunMemory(before, policy).requests, key);
    assert RunMemory(rejected, policy).outcomes[|before|] == MemoryOutcome(stored, policy(key), now);
    StillFull(AdmittedTimes(before, policy, key), stored, LastAttempt(before, key), policy(key), now, early);
    OthersLeaveKeyAlone(rejected, between, policy, key);
    RunStep(all, Attempt(key, early), policy);
  }

  lemma StillFull(admitted: seq<int>, stored: seq<int>, last: Option<int>, limit: Limit, now: int, early: int)
    requires limit.max >= 1 && limit.window >= 1
    requires KeepsWindow(admitted, stored, last, limit) && (last.Some? ==> last.value <= now)
    requires var o := MemoryOutcome(stored, limit, now); o.Rejected? && now <= early < now + o.retryAfter * SECOND
    ensures MemoryOutcome(MemoryTimes(stored, limit, now), limit, early).Rejected?
  {
    hide After;
    var k := WindowKept(admitted, stored, last, limit, now);
    var kept := MemoryTimes(stored, limit, now);
    assert kept == admitted[k..];
    WholeSecondsFit(kept[0] + limit.window * SECOND - now);
    assert forall i :: 0 <= i < |kept| ==> Cutoff(early, limit) < kept[0] <= kept[i];
    AfterAll(kept, Cutoff(early, limit));
  }

  lemma ClockUpTo(before: seq<Attempt>, a: Attempt)
    requires KeyOrdered(before + [a], a.key)
    ensures KeyOrdered(before, a.key)
    ensures LastAttempt(before, a.key).Some? ==> LastAttempt(before, a.key).value <= a.now
  {
    var all := before + [a];
    assert forall i :: 0 <= i < |before| ==> all[i] == before[i];
    assert all[|before|] == a;
    LastAttemptSeen(before, a.key);
  }

  lemma RunStep(before: seq<Attempt>, a: Attempt, policy: Policy)
    ensures var r, times := RunMemory(before, policy), TimesAt(RunMemory(before, policy).requests, a.key);
            RunMemory(before + [a], policy)
            == MemoryRun(r.requests[a.key := MemoryTimes(times, policy(a.key), a.now)],
                         r.outcomes + [MemoryOutcome(times, policy(a.key), a.now)])
  {
    assert (before + [a])[..|before|] == before;
  }

  lemma WaitIsEnough(admitted: seq<int>, stored: seq<int>, last: Option<int>, limit: Limit, now: int, later: int)
    requires limit.max >= 1 && limit.window >= 1
    requires KeepsWindow(admitted, stored, last, limit) && (last.Some? ==> last.value <= now)
    requires var o := MemoryOutcome(stored, limit, now);
             o.Rejected? && now + (o.retryAfter + 1) * SECOND <= later
    ensures MemoryOutcome(MemoryTimes(stored, limit, now), limit, later) == Admitted
  {
    hide After;
    var k := WindowKept(admitted, stored, last, limit, now);
    var kept := MemoryTimes(stored, limit, now);
    assert kept == admitted[k..];
    var m := AfterSplits(kept, Cutoff(later, limit));
    assert kept[0] <= Cutoff(later, limit);
  }

  lemma {:induction false} OthersLeaveKeyAlone(before: seq<Attempt>, between: seq<Attempt>, policy: Policy, key: string)
    requires forall i :: 0 <= i < |between| ==> between[i].key != key
    ensures TimesAt(RunMemory(before + between, policy).requests, key)
            == TimesAt(RunMemory(before, policy).requests, key)
  {
    hide RunMemory, MemoryTimes, MemoryOutcome;
    if between == [] {
      assert before + between == before;
    } else {
      var n := |between| - 1;
      OthersLeaveKeyAlone(before, between[..n], policy, key);
      RunStep(before + between[..n], between[n], policy);
      assert before + between == before + between[..n] + [between[n]];
    }
  }
}

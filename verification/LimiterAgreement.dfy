/**
 How the two limiters compare, from the trace of attempts alone: what each admits, when the Redis
 limiter can be trusted not to admit more, and when the two answer alike.
 */
module LimiterAgreement {
  import opened Money
  import opened RateLimiters
  import opened RedisLimiter

  // ----- The attempts of a key

  /** The instants of all attempts of `key`, in order. */
  function Attempts(trace: seq<Attempt>, key: string): seq<int> {
    if trace == [] then []
    else
      var n := |trace| - 1;
      Attempts(trace[..n], key) + if trace[n].key == key then [trace[n].now] else []
  }

  lemma AttemptsStep(before: seq<Attempt>, a: Attempt, key: string)
    ensures Attempts(before + [a], key)
            == if a.key == key then Attempts(before, key) + [a.now] else Attempts(before, key)
  {
    assert (before + [a])[..|before|] == before;
  }

  lemma KeyOrderedPrefix(trace: seq<Attempt>, key: string)
    requires NonNegative(trace) && KeyOrdered(trace, key) && trace != []
    ensures var before, a := trace[..|trace| - 1], trace[|trace| - 1];
            && NonNegative(before) && KeyOrdered(before, key) && before + [a] == trace && 0 <= a.now
            && (a.key == key && LastAttempt(before, key).Some? ==> LastAttempt(before, key).value <= a.now)
  {
    LastAttemptSeen(trace[..|trace| - 1], key);
  }

  lemma {:induction false} AttemptsFit(trace: seq<Attempt>, key: string)
    requires NonNegative(trace) && KeyOrdered(trace, key)
    ensures LastAttempt(trace, key).None? ==> Attempts(trace, key) == []
    ensures LastAttempt(trace, key).Some? ==>
              LastAttempt(trace, key).value in Attempts(trace, key)
              && forall t :: t in Attempts(trace, key) ==> 0 <= t <= LastAttempt(trace, key).value
  {
    if trace != [] {
      var n := |trace| - 1;
      KeyOrderedPrefix(trace, key);
      AttemptsFit(trace[..n], key);
      hide KeyOrdered, NonNegative;
    }
  }

  lemma TickingIsOrdered(trace: seq<Attempt>, key: string)
    requires Ticking(trace)
    ensures NonNegative(trace) && KeyOrdered(trace, key)
  {
  }

  lemma {:induction false} AttemptsDistinct(trace: seq<Attempt>, key: string)
    requires Ticking(trace)
    ensures Distinct(Attempts(trace, key))
  {
    if trace != [] {
      var n := |trace| - 1;
      TickingPrefix(trace);
      AttemptsDistinct(trace[..n], key);
      TickingIsOrdered(trace[..n], key);
      AttemptsFit(trace[..n], key);
      hide Ticking;
      var front := Attempts(trace[..n], key);
      assert forall i :: 0 <= i < |front| ==> front[i] in front;
    }
  }

  // ----- What Redis records

  function Elements(times: seq<int>): set<int> { set t | t in times }

  lemma {:induction false} ElementsCount(times: seq<int>)
    ensures |Elements(times)| <= |times|
    ensures Distinct(times) ==> |Elements(times)| == |times|
  {
    if times != [] {
      var n := |times| - 1;
      ElementsCount(times[..n]);
      assert times == times[..n] + [times[n]];
      assert Elements(times) == Elements(times[..n]) + {times[n]};
      if Distinct(times) {
        assert times[n] !in Elements(times[..n]);
      }
    }
  }

  /** The key holds the instants inside the window of the last one, and lives two windows more. */
  ghost predicate HoldsWindow(r: Redis, key: string, times: seq<int>, last: int, limit: Limit) {
    && key in r.sets && r.sets[key] == Elements(After(times, Cutoff(last, limit)))
    && key in r.expiry && r.expiry[key] == last + 2 * limit.window * SECOND
  }

  ghost predicate Records(trace: seq<Attempt>, policy: Policy, key: string) {
    var r, last := RunRedis(trace, policy).state, LastAttempt(trace, key);
    if last.None? then key !in r.sets else HoldsWindow(r, key, Attempts(trace, key), last.value, policy(key))
  }

  lemma RecordedIsWindow(live: set<int>, times: seq<int>, last: int, limit: Limit, now: int)
    requires limit.window >= 1 && 0 <= now && last <= now
    requires forall t :: t in times ==> 0 <= t <= last
    requires live == Elements(After(times, Cutoff(last, limit)))
             || (live == {} && last + 2 * limit.window * SECOND <= now)
    ensures Recorded(live, limit, now) == Elements(After(times + [now], Cutoff(now, limit)))
  {
    forall t ensures t in Recorded(live, limit, now) <==> t in After(times + [now], Cutoff(now, limit)) {
      AfterMembers(times, Cutoff(last, limit), t);
      AfterMembers(times + [now], Cutoff(now, limit), t);
      assert t in times + [now] <==> t in times || t == now;
    }
  }

  /** What Redis counts at an attempt is the set of its key's instants in the window. */
  lemma LiveIsWindow(before: seq<Attempt>, a: Attempt, policy: Policy)
    requires NonNegative(before) && KeyOrdered(before, a.key) && 0 <= a.now && policy(a.key).window >= 1
    requires LastAttempt(before, a.key).Some? ==> LastAttempt(before, a.key).value <= a.now
    requires Records(before, policy, a.key)
    ensures Recorded(Live(RunRedis(before, policy).state, a.key, a.now), policy(a.key), a.now)
            == Elements(After(Attempts(before + [a], a.key), Cutoff(a.now, policy(a.key))))
  {
    AttemptsFit(before, a.key);
    AttemptsStep(before, a, a.key);
    hide RunRedis, After, Attempts, LastAttempt, KeyOrdered, NonNegative;
    var r, limit := RunRedis(before, policy).state, policy(a.key);
    var last := if LastAttempt(before, a.key).Some? then LastAttempt(before, a.key).value else a.now;
    if LastAttempt(before, a.key).None? {
      AfterNothing(Cutoff(last, limit));
    }
    RecordedIsWindow(Live(r, a.key, a.now), Attempts(before, a.key), last, limit, a.now);
  }

  lemma AfterNothing(cutoff: int)
    ensures After([], cutoff) == [] && Elements([]) == {}
  {
  }

  lemma RecordsOwn(before: seq<Attempt>, a: Attempt, policy: Policy)
    requires NonNegative(before) && KeyOrdered(before, a.key) && 0 <= a.now && policy(a.key).window >= 1
    requires LastAttempt(before, a.key).Some? ==> LastAttempt(before, a.key).value <= a.now
    requires Records(before, policy, a.key)
    ensures Records(before + [a], policy, a.key)
  {
    hide Records, Recorded, Live, RunRedis, LastAttempt, Attempts, After, Elements, KeyOrdered, NonNegative;
    LiveIsWindow(before, a, policy);
    LastStep(before, a, a.key);
    RedisStep(before, a, policy);
    HeldIsRecorded(before + [a], policy, a.key, a.now);
  }

  lemma HeldIsRecorded(trace: seq<Attempt>, policy: Policy, key: string, last: int)
    requires LastAttempt(trace, key) == Some(last)
    ensures Records(trace, policy, key)
            <==> HoldsWindow(RunRedis(trace, policy).state, key, Attempts(trace, key), last, policy(key))
  {
  }

  lemma NothingRecordedYet(trace: seq<Attempt>, policy: Policy, key: string)
    requires LastAttempt(trace, key) == None
    ensures Records(trace, policy, key) <==> key !in RunRedis(trace, policy).state.sets
  {
  }

  lemma RecordsOther(before: seq<Attempt>, a: Attempt, policy: Policy, key: string)
    requires a.key != key && Records(before, policy, key)
    ensures Records(before + [a], policy, key)
  {
    hide Records, RunRedis, LastAttempt, Attempts, After, Elements, Checked;
    LastStep(before, a, key);
    AttemptsStep(before, a, key);
    RedisStep(before, a, policy);
    CheckedElsewhere(RunRedis(before, policy).state, a, policy(a.key), key);
    var last := LastAttempt(before, key);
    if last.None? {
      NothingRecordedYet(before, policy, key);
      NothingRecordedYet(before + [a], policy, key);
    } else {
      HeldIsRecorded(before, policy, key, last.value);
      HeldIsRecorded(before + [a], policy, key, last.value);
    }
  }

  lemma {:induction false} RecordsAfterRun(trace: seq<Attempt>, policy: Policy, key: string)
    requires NonNegative(trace) && KeyOrdered(trace, key) && policy(key).window >= 1
    ensures Records(trace, policy, key)
  {
    if trace != [] {
      var n := |trace| - 1;
      KeyOrderedPrefix(trace, key);
      RecordsAfterRun(trace[..n], policy, key);
      hide Records, KeyOrdered, NonNegative;
      if trace[n].key == key {
        RecordsOwn(trace[..n], trace[n], policy);
      } else {
        RecordsOther(trace[..n], trace[n], policy, key);
      }
    }
  }

  // ----- What Redis admits

  /** The attempts of the key inside the window of the last attempt, itself included. */
  function InWindow(trace: seq<Attempt>, policy: Policy): nat
    requires trace != []
  {
    var a := trace[|trace| - 1];
    |After(Attempts(trace, a.key), Cutoff(a.now, policy(a.key)))|
  }

  predicate Crowded(trace: seq<Attempt>, policy: Policy)
    requires trace != []
  {
    InWindow(trace, policy) > policy(trace[|trace| - 1].key).max
  }

  /** Redis turns an attempt away exactly when its window holds more attempts than the limit, those
      it turned away included. */
  lemma RedisAdmitsExactly(before: seq<Attempt>, a: Attempt, policy: Policy)
    requires Ticking(before + [a])
    ensures RedisAdmits(Live(RunRedis(before, policy).state, a.key, a.now), policy(a.key), a.now)
            <==> !Crowded(before + [a], policy)
  {
    var trace, limit := before + [a], policy(a.key);
    TickingPrefix(trace);
    assert trace[..|trace| - 1] == before;
    AttemptsDistinct(trace, a.key);
    TickingIsOrdered(before, a.key);
    TickingIsOrdered(trace, a.key);
    AttemptsFit(trace, a.key);
    LastStep(before, a, a.key);
    hide RunRedis, Attempts, After, LastAttempt, Ticking, KeyOrdered, NonNegative, Recorded, Live;
    var times := Attempts(trace, a.key);
    if limit.window >= 1 {
      RecordsAfterRun(before, policy, a.key);
      LiveIsWindow(before, a, policy);
      AfterDistinct(times, Cutoff(a.now, limit));
      ElementsCount(After(times, Cutoff(a.now, limit)));
    } else {
      assert forall i :: 0 <= i < |times| ==> times[i] in times;
      NoneAfter(times, Cutoff(a.now, limit));
    }
  }

  // ----- The refinement, for every limit

  lemma AdmittedStep(before: seq<Attempt>, a: Attempt, policy: Policy, key: string)
    requires TimesAt(RunMemory(before, policy).requests, key) == Attempts(before, key)
    requires 0 <= a.now < policy(key).window * SECOND && forall t :: t in Attempts(before, key) ==> 0 <= t
    requires |Attempts(before + [a], key)| <= policy(key).max
    ensures TimesAt(RunMemory(before + [a], policy).requests, key) == Attempts(before + [a], key)
  {
    hide RunMemory, Attempts, After;
    RunStep(before, a, policy);
    AttemptsStep(before, a, key);
    if a.key == key {
      AllAfter(Attempts(before, key), Cutoff(a.now, policy(key)));
    } else {
      hide MemoryTimes;
    }
  }

  /** In a window longer than the run, up to `max` attempts are all admitted and all kept. */
  lemma {:induction false} AllAdmitted(trace: seq<Attempt>, policy: Policy, key: string)
    requires NonNegative(trace) && KeyOrdered(trace, key)
    requires forall i :: 0 <= i < |trace| ==> trace[i].now < policy(key).window * SECOND
    requires |Attempts(trace, key)| <= policy(key).max
    ensures TimesAt(RunMemory(trace, policy).requests, key) == Attempts(trace, key)
  {
    if trace != [] {
      var n := |trace| - 1;
      KeyOrderedPrefix(trace, key);
      AttemptsStep(trace[..n], trace[n], key);
      hide RunMemory, Attempts, KeyOrdered, NonNegative, LastAttempt;
      AttemptsFit(trace[..n], key);
      AllAdmitted(trace[..n], policy, key);
      AdmittedStep(trace[..n], trace[n], policy, key);
    }
  }

  /** An attempt at the instant of its key's last one, when every attempt before it was at an instant
      of its own: with just that many allowed, Redis admits it and the list does not. */
  lemma TieBreaks(before: seq<Attempt>, a: Attempt) returns (limit: Limit)
    requires Ticking(before) && NonNegative(before + [a]) && ClockOrdered(before + [a])
    requires LastAttempt(before, a.key) == Some(a.now)
    ensures limit.max >= 1 && limit.window >= 1 && !Refines(before + [a], Always(limit))
  {
    limit := Limit(|Attempts(before, a.key)|, a.now + 1);
    var policy := Always(limit);
    assert forall i :: 0 <= i < |before| ==> (before + [a])[i] == before[i];
    assert (before + [a])[|before|] == a;
    TickingIsOrdered(before, a.key);
    AttemptsFit(before, a.key);
    AllAdmitted(before, policy, a.key);
    RecordsAfterRun(before, policy, a.key);
    LiveIsWindow(before, a, policy);
    AttemptsStep(before, a, a.key);
    hide RunMemory, RunRedis, Attempts, After, LastAttempt, Ticking, KeyOrdered, NonNegative, ClockOrdered;
    hide Recorded, Live, Records, MemoryOutcome, MemoryTimes;
    TieCounts(Attempts(before, a.key), a.now, limit);
    RunStep(before, a, policy);
    RedisStep(before, a, policy);
    assert RunRedis(before + [a], policy).admits[|before|];
    assert RunMemory(before + [a], policy).outcomes[|before|] != Admitted;
  }

  lemma TieCounts(times: seq<int>, now: int, limit: Limit)
    requires now in times && forall t :: t in times ==> 0 <= t <= now
    requires limit == Limit(|times|, now + 1)
    ensures |Elements(After(times + [now], Cutoff(now, limit)))| <= limit.max && limit.max >= 1
    ensures MemoryOutcome(times, limit, now) != Admitted
  {
    hide After, Elements;
    AllAfter(times, Cutoff(now, limit));
    AllAfter(times + [now], Cutoff(now, limit));
    SameElements(times, now);
    ElementsCount(times);
  }

  lemma AllAfter(times: seq<int>, cutoff: int)
    requires forall t :: t in times ==> cutoff < t
    ensures After(times, cutoff) == times
  {
    assert forall i :: 0 <= i < |times| ==> times[i] in times;
    AfterAll(times, cutoff);
  }

  lemma SameElements(times: seq<int>, t: int)
    requires t in times
    ensures Elements(times + [t]) == Elements(times)
  {
  }

  lemma RefinesPrefix(before: seq<Attempt>, a: Attempt, policy: Policy)
    requires Refines(before + [a], policy)
    ensures Refines(before, policy)
  {
    RunStep(before, a, policy);
    RedisStep(before, a, policy);
    hide RunMemory, RunRedis, MemoryOutcome, MemoryTimes, RedisAdmits, Checked;
    forall i | 0 <= i < |before| && RunRedis(before, policy).admits[i]
      ensures RunMemory(before, policy).outcomes[i] == Admitted
    {
      assert RunRedis(before + [a], policy).admits[i];
    }
  }

  lemma TieIsLast(before: seq<Attempt>, a: Attempt)
    requires Ticking(before) && NonNegative(before + [a]) && ClockOrdered(before + [a]) && !Ticking(before + [a])
    ensures LastAttempt(before, a.key) == Some(a.now)
  {
    var all := before + [a];
    assert forall i :: 0 <= i < |before| ==> all[i] == before[i];
    assert all[|before|] == a;
    var i :| 0 <= i < |before| && before[i].key == a.key && a.now <= before[i].now;
    TickingIsOrdered(before, a.key);
    AttemptsFit(before, a.key);
    AttemptSeen(before, i);
    LastAttemptSeen(before, a.key);
    hide Attempts, LastAttempt, Ticking, KeyOrdered, NonNegative;
  }

  lemma {:induction false} AttemptSeen(trace: seq<Attempt>, i: nat)
    requires i < |trace|
    ensures trace[i].now in Attempts(trace, trace[i].key)
  {
    var n := |trace| - 1;
    if i < n {
      AttemptSeen(trace[..n], i);
    }
  }

  lemma {:induction false} TieFound(trace: seq<Attempt>) returns (limit: Limit)
    requires NonNegative(trace) && ClockOrdered(trace) && !Ticking(trace)
    ensures limit.max >= 1 && limit.window >= 1 && !Refines(trace, Always(limit))
  {
    var n := |trace| - 1;
    var before, a := trace[..n], trace[n];
    assert before + [a] == trace;
    if Ticking(before) {
      TieIsLast(before, a);
      limit := TieBreaks(before, a);
    } else {
      limit := TieFound(before);
      hide Refines;
      if Refines(trace, Always(limit)) {
        RefinesPrefix(before, a, Always(limit));
      }
    }
  }

  /** Redis can be trusted on a run under every limit exactly when no key is tried twice at one
      instant. */
  lemma TrustedExactly(trace: seq<Attempt>)
    requires NonNegative(trace) && ClockOrdered(trace)
    ensures (forall limit: Limit | limit.max >= 1 && limit.window >= 1 :: Refines(trace, Always(limit)))
            <==> Ticking(trace)
  {
    hide Refines;
    if Ticking(trace) {
      forall limit: Limit | limit.max >= 1 && limit.window >= 1 ensures Refines(trace, Always(limit)) {
        RedisRefinesMemory(trace, Always(limit));
      }
    } else {
      var limit := TieFound(trace);
    }
  }

  // ----- When the two answer alike

  /** The instants of the key's attempts that were not crowded when they were made. */
  function Light(trace: seq<Attempt>, policy: Policy, key: string): seq<int> {
    if trace == [] then []
    else
      var n := |trace| - 1;
      Light(trace[..n], policy, key)
      + if trace[n].key == key && !Crowded(trace, policy) then [trace[n].now] else []
  }

  /** If the last attempt is crowded, it is so by attempts of its window that were not themselves. */
  predicate FairAt(trace: seq<Attempt>, policy: Policy)
    requires trace != []
  {
    var n := |trace| - 1;
    var a := trace[n];
    && Comparable(policy(a.key))
    && (Crowded(trace, policy) ==>
          policy(a.key).max <= |After(Light(trace[..n], policy, a.key), Cutoff(a.now, policy(a.key)))|)
  }

  ghost predicate Fair(trace: seq<Attempt>, policy: Policy) {
    forall i :: 0 < i <= |trace| ==> FairAt(trace[..i], policy)
  }

  ghost predicate AnswersAlike(trace: seq<Attempt>, policy: Policy) {
    forall i :: 0 <= i < |trace| ==>
      (RunRedis(trace, policy).admits[i] <==> RunMemory(trace, policy).outcomes[i] == Admitted)
  }

  ghost predicate LastAlike(before: seq<Attempt>, a: Attempt, policy: Policy) {
    RedisAdmits(Live(RunRedis(before, policy).state, a.key, a.now), policy(a.key), a.now)
    <==> MemoryOutcome(TimesAt(RunMemory(before, policy).requests, a.key), policy(a.key), a.now) == Admitted
  }

  lemma AlikeStep(before: seq<Attempt>, a: Attempt, policy: Policy)
    ensures AnswersAlike(before + [a], policy) <==> AnswersAlike(before, policy) && LastAlike(before, a, policy)
  {
    RunStep(before, a, policy);
    RedisStep(before, a, policy);
    hide RunMemory, RunRedis, MemoryOutcome, MemoryTimes, RedisAdmits, Checked, Live;
    var n := |before|;
    var redis, memory := RunRedis(before + [a], policy).admits, RunMemory(before + [a], policy).outcomes;
    assert redis[n] == (memory[n] == Admitted) <==> LastAlike(before, a, policy);
    hide LastAlike;
    assert redis[..n] == RunRedis(before, policy).admits && memory[..n] == RunMemory(before, policy).outcomes;
    forall i | 0 <= i < n
      ensures redis[i] == RunRedis(before, policy).admits[i] && memory[i] == RunMemory(before, policy).outcomes[i]
    {
      assert redis[..n][i] == redis[i] && memory[..n][i] == memory[i];
    }
  }

  lemma FairStep(before: seq<Attempt>, a: Attempt, policy: Policy)
    ensures Fair(before + [a], policy) <==> Fair(before, policy) && FairAt(before + [a], policy)
  {
    hide FairAt;
    var trace := before + [a];
    assert trace[..|trace|] == trace;
    assert forall i :: 0 <= i <= |before| ==> trace[..i] == before[..i];
  }

  lemma {:induction false} LightIsAdmitted(trace: seq<Attempt>, policy: Policy, key: string)
    requires Ticking(trace) && AnswersAlike(trace, policy)
    ensures Light(trace, policy, key) == AdmittedTimes(trace, policy, key)
  {
    if trace != [] {
      var n := |trace| - 1;
      var before, a := trace[..n], trace[n];
      TickingPrefix(trace);
      AlikeStep(before, a, policy);
      RedisAdmitsExactly(before, a, policy);
      RunStep(before, a, policy);
      hide RunMemory, RunRedis, MemoryOutcome, RedisAdmits, AnswersAlike, Crowded, Ticking, Live;
      LightIsAdmitted(before, policy, key);
    }
  }

  lemma MemoryAdmitsExactly(before: seq<Attempt>, a: Attempt, policy: Policy)
    requires Ticking(before + [a]) && policy(a.key).max >= 1 && policy(a.key).window >= 1
    ensures var admitted := After(AdmittedTimes(before, policy, a.key), Cutoff(a.now, policy(a.key)));
            MemoryOutcome(TimesAt(RunMemory(before, policy).requests, a.key), policy(a.key), a.now) == Admitted
            <==> |admitted| < policy(a.key).max
  {
    hide Ticking, KeyOrdered, RunMemory, MemoryOutcome, MemoryTimes, AdmittedTimes, After, TimesAt;
    TickingIsOrdered(before + [a], a.key);
    assert Cutoff(a.now, policy(a.key)) == a.now - policy(a.key).window * 1_000_000;
    AdmittedExactly(before, a, policy);
    RunStep(before, a, policy);
    var r := RunMemory(before, policy);
    var outcome := MemoryOutcome(TimesAt(r.requests, a.key), policy(a.key), a.now);
    assert (r.outcomes + [outcome])[|before|] == outcome;
  }

  lemma LastAlikeExactly(before: seq<Attempt>, a: Attempt, policy: Policy)
    requires Ticking(before + [a]) && AnswersAlike(before, policy)
    ensures LastAlike(before, a, policy) <==> FairAt(before + [a], policy)
  {
    var trace, limit := before + [a], policy(a.key);
    TickingPrefix(trace);
    assert trace[..|before|] == before && trace[|before|] == a;
    RedisAdmitsExactly(before, a, policy);
    LightIsAdmitted(before, policy, a.key);
    hide AnswersAlike, Ticking, RunMemory, RunRedis, RedisAdmits, Light, AdmittedTimes, After, LastAttempt, Live;
    if Comparable(limit) {
      LastStepRefines(before, a, policy);
      if limit.max >= 1 && limit.window >= 1 {
        MemoryAdmitsExactly(before, a, policy);
        hide MemoryOutcome, Crowded;
      } else if limit.max < 1 {
        hide Crowded;
      } else {
        NeverCrowded(before, a, policy);
        hide Crowded;
      }
    } else {
      NeverCrowded(before, a, policy);
      hide Crowded;
    }
  }

  /** Without a window nothing is in it, not even the attempt itself. */
  lemma NeverCrowded(before: seq<Attempt>, a: Attempt, policy: Policy)
    requires Ticking(before + [a]) && policy(a.key).window <= 0 && policy(a.key).max >= 0
    ensures !Crowded(before + [a], policy)
  {
    var trace, limit := before + [a], policy(a.key);
    TickingIsOrdered(trace, a.key);
    AttemptsFit(trace, a.key);
    LastStep(before, a, a.key);
    hide Attempts, After, LastAttempt, Ticking, KeyOrdered, NonNegative;
    var times := Attempts(trace, a.key);
    assert forall i :: 0 <= i < |times| ==> times[i] in times;
    NoneAfter(times, Cutoff(a.now, limit));
  }

  /** On a run whose keys each tick strictly, the two limiters give the same answers exactly when every
      crowded attempt has as many attempts in its window that were not crowded as the limit allows. */
  lemma {:induction false} AlikeExactly(trace: seq<Attempt>, policy: Policy)
    requires Ticking(trace)
    ensures AnswersAlike(trace, policy) <==> Fair(trace, policy)
  {
    if trace != [] {
      var n := |trace| - 1;
      TickingPrefix(trace);
      hide AnswersAlike, Fair, Ticking, LastAlike, FairAt;
      AlikeExactly(trace[..n], policy);
      AlikeStep(trace[..n], trace[n], policy);
      FairStep(trace[..n], trace[n], policy);
      if AnswersAlike(trace[..n], policy) {
        LastAlikeExactly(trace[..n], trace[n], policy);
      }
    }
  }

  /** One request a second: Redis turns the third of these attempts away for the sake of the second,
      which it had turned away itself, and the list admits it. */
  lemma RejectedAttemptsCount()
    ensures var trace, policy := [Attempt("k", 0), Attempt("k", 500_000), Attempt("k", 1_200_000)], Always(Limit(1, 1));
            && RunRedis(trace, policy).admits == [true, false, false]
            && RunMemory(trace, policy).outcomes == [Admitted, Rejected(0), Admitted]
  {
    ThreeInMemory();
    ThreeInRedis();
  }

  lemma ThreeInMemory()
    ensures RunMemory([Attempt("k", 0), Attempt("k", 500_000), Attempt("k", 1_200_000)], Always(Limit(1, 1))).outcomes
            == [Admitted, Rejected(0), Admitted]
  {
    var a, b, c, limit := Attempt("k", 0), Attempt("k", 500_000), Attempt("k", 1_200_000), Limit(1, 1);
    AfterAppend([], 0, -500_000);
    AfterAppend([], 0, 200_000);
    AfterNothing(-SECOND);
    AfterNothing(-500_000);
    AfterNothing(200_000);
    hide After;
    assert [] + [0] == [0];
    assert MemoryOutcome([], limit, 0) == Admitted && MemoryTimes([], limit, 0) == [0];
    assert MemoryOutcome([0], limit, 500_000) == Rejected(0) && MemoryTimes([0], limit, 500_000) == [0];
    assert MemoryOutcome([0], limit, 1_200_000) == Admitted;
    hide MemoryTimes, MemoryOutcome;
    assert [] + [a] == [a] && [a] + [b] == [a, b] && [a, b] + [c] == [a, b, c];
    RunStep([], a, Always(limit));
    RunStep([a], b, Always(limit));
    RunStep([a, b], c, Always(limit));
  }

  lemma ThreeRecorded()
    ensures var limit := Limit(1, 1);
            && Recorded({}, limit, 0) == {0}
            && Recorded({0}, limit, 500_000) == {0, 500_000}
            && Recorded({0, 500_000}, limit, 1_200_000) == {500_000, 1_200_000}
  {
  }

  /** One check of a key whose set is known. */
  lemma CheckedKey(before: seq<Attempt>, a: Attempt, policy: Policy, admits: seq<bool>, held: set<int>, expiry: int)
    requires RunRedis(before, policy) == RedisRun(Redis(map[a.key := held], map[a.key := expiry]), admits)
    requires a.now < expiry && policy(a.key).window == 1
    ensures var scores := Recorded(held, policy(a.key), a.now);
            RunRedis(before + [a], policy)
            == RedisRun(Redis(map[a.key := scores], map[a.key := a.now + 2 * SECOND]),
                        admits + [|scores| <= policy(a.key).max])
  {
    hide RunRedis, Recorded;
    RedisStep(before, a, policy);
  }

  lemma ThreeInRedis()
    ensures RunRedis([Attempt("k", 0), Attempt("k", 500_000), Attempt("k", 1_200_000)], Always(Limit(1, 1))).admits
            == [true, false, false]
  {
    var a, b, c, policy := Attempt("k", 0), Attempt("k", 500_000), Attempt("k", 1_200_000), Always(Limit(1, 1));
    assert [a] + [b] == [a, b] && [a, b] + [c] == [a, b, c];
    OneInRedis();
    ThreeRecorded();
    hide RunRedis, Recorded, Checked;
    CheckedKey([a], b, policy, [true], {0}, 2 * SECOND);
    CheckedKey([a, b], c, policy, [true, false], {0, 500_000}, 500_000 + 2 * SECOND);
  }

  lemma OneInRedis()
    ensures RunRedis([Attempt("k", 0)], Always(Limit(1, 1)))
            == RedisRun(Redis(map["k" := {0}], map["k" := 2 * SECOND]), [true])
  {
    var a := Attempt("k", 0);
    assert [] + [a] == [a];
    ThreeRecorded();
    hide Recorded;
    RedisStep([], a, Always(Limit(1, 1)));
  }
}

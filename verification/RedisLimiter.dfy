/**
 The Redis sliding-window limiter, each check one atomic step, and its relation to the
 process-local one: it never admits what the other would turn away, except in one corner.
 */
module RedisLimiter {
  import opened Money
  import opened RateLimiters

  /** One sorted set per key, a score being its own member, and the instant each key expires. */
  datatype Redis = Redis(sets: map<string, set<int>>, expiry: map<string, int>)

  const EMPTY := Redis(map[], map[])

  /** The set under a key at an instant; an expired key is gone. */
  function Live(r: Redis, key: string, now: int): set<int> {
    if key in r.sets && (key in r.expiry ==> now < r.expiry[key]) then r.sets[key] else {}
  }

  /** Drop the scores from 0 to the cutoff, then add this instant. */
  function Recorded(scores: set<int>, limit: Limit, now: int): set<int> {
    (set s | s in scores && !(0 <= s <= Cutoff(now, limit))) + {now}
  }

  /** An expiry of no or negative length deletes the key at once. */
  function Surviving(scores: set<int>, limit: Limit, now: int): set<int> {
    if limit.window <= 0 then {} else Recorded(scores, limit, now)
  }

  predicate RedisAdmits(scores: set<int>, limit: Limit, now: int) {
    |Surviving(scores, limit, now)| <= limit.max
  }

  function Checked(r: Redis, a: Attempt, limit: Limit): Redis {
    var kept := Surviving(Live(r, a.key, a.now), limit, a.now);
    if limit.window <= 0 then Redis(r.sets - {a.key}, r.expiry - {a.key})
    else Redis(r.sets[a.key := kept], r.expiry[a.key := a.now + 2 * limit.window * SECOND])
  }

  class RedisRateLimiter {
    var sets: map<string, set<int>>
    var expiry: map<string, int>

    function State(): Redis
      reads this
    {
      Redis(sets, expiry)
    }

    constructor ()
      ensures State() == EMPTY
    {
      sets, expiry := map[], map[];
    }

    method CheckRateLimit(key: string, limit: Limit, now: int) returns (outcome: Outcome)
      modifies this
      ensures State() == Checked(old(State()), Attempt(key, now), limit)
      ensures outcome == Admitted <==> RedisAdmits(Live(old(State()), key, now), limit, now)
      ensures outcome.Admitted? || outcome.Rejected?
      ensures outcome.Rejected? && limit.window >= 1 ==>
                exists oldest :: oldest in sets[key] && (forall s :: s in sets[key] ==> oldest <= s)
                                 && outcome.retryAfter == WholeSeconds(oldest + limit.window * SECOND - now)
      ensures outcome.Rejected? && limit.window <= 0 ==> outcome.retryAfter == limit.window
    {
      var scores := Live(State(), key, now);
      var cutoff := now - limit.window * SECOND;
      scores := set s | s in scores && !(0 <= s <= cutoff);
      scores := scores + {now};
      ghost var recorded := scores;
      assert recorded == Recorded(Live(old(State()), key, now), limit, now);
      var ttl := limit.window * 2;
      if ttl <= 0 {
        scores := {};
        sets, expiry := sets - {key}, expiry - {key};
      } else {
        sets, expiry := sets[key := scores], expiry[key := now + ttl * SECOND];
      }
      assert State() == Checked(old(State()), Attempt(key, now), limit);
      var count := |scores|;
      if count > limit.max {
        var retryAfter := limit.window;
        if |scores| > 0 {
          var oldest := Oldest(scores);
          retryAfter := WholeSeconds(oldest + limit.window * SECOND - now);
          assert oldest in sets[key] && forall s :: s in sets[key] ==> oldest <= s;
        } else {
          assert limit.window >= 1 ==> now !in scores;
        }
        return Rejected(retryAfter);
      }
      outcome := Admitted;
    }
  }

  lemma HasMember(scores: set<int>)
    requires |scores| > 0
    ensures exists s :: s in scores
  {
    if forall s :: s !in scores {
    }
  }

  method Oldest(scores: set<int>) returns (oldest: int)
    requires |scores| > 0
    ensures oldest in scores && forall s :: s in scores ==> oldest <= s
  {
    HasMember(scores);
    oldest :| oldest in scores;
    var rest := scores - {oldest};
    while |rest| > 0
      invariant rest <= scores && oldest in scores
      invariant forall s :: s in scores && s !in rest ==> oldest <= s
      decreases rest
    {
      HasMember(rest);
      var s :| s in rest;
      if s < oldest {
        oldest := s;
      }
      rest := rest - {s};
    }
  }

  // ----- Runs

  datatype RedisRun = RedisRun(state: Redis, admits: seq<bool>)

  function RunRedis(trace: seq<Attempt>, policy: Policy): (r: RedisRun)
    ensures |r.admits| == |trace|
  {
    if trace == [] then RedisRun(EMPTY, [])
    else
      var before, a := RunRedis(trace[..|trace| - 1], policy), trace[|trace| - 1];
      RedisRun(Checked(before.state, a, policy(a.key)),
               before.admits + [RedisAdmits(Live(before.state, a.key, a.now), policy(a.key), a.now)])
  }

  ghost predicate NonNegative(trace: seq<Attempt>) {
    forall i :: 0 <= i < |trace| ==> 0 <= trace[i].now
  }

  /** The attempts of each key are at strictly increasing, non-negative instants. */
  ghost predicate Ticking(trace: seq<Attempt>) {
    && NonNegative(trace)
    && forall i, j :: 0 <= i < j < |trace| && trace[i].key == trace[j].key ==> trace[i].now < trace[j].now
  }

  ghost predicate Refines(trace: seq<Attempt>, policy: Policy) {
    forall i :: 0 <= i < |trace| && RunRedis(trace, policy).admits[i] ==>
      RunMemory(trace, policy).outcomes[i] == Admitted
  }

  ghost predicate Distinct(times: seq<int>) {
    forall i, j :: 0 <= i < j < |times| ==> times[i] < times[j]
  }

  /** Every admission the process-local limiter still holds for a key is a recorded attempt of the
      Redis one, which also holds the attempts it turned away. */
  ghost predicate Recorder(stored: seq<int>, scores: set<int>, last: int) {
    && Distinct(stored)
    && forall i :: 0 <= i < |stored| ==> stored[i] in scores && 0 <= stored[i] <= last
  }

  lemma {:induction false} DistinctCount(times: seq<int>, scores: set<int>)
    requires Distinct(times) && forall i :: 0 <= i < |times| ==> times[i] in scores
    ensures |times| <= |scores|
  {
    if times != [] {
      var n := |times| - 1;
      DistinctCount(times[..n], scores - {times[n]});
    }
  }

  lemma {:induction false} AfterDistinct(times: seq<int>, cutoff: int)
    requires Distinct(times)
    ensures Distinct(After(times, cutoff))
    ensures forall t :: t in After(times, cutoff) <==> t in times && cutoff < t
  {
    if times != [] {
      var n := |times| - 1;
      AfterDistinct(times[..n], cutoff);
      var front := After(times[..n], cutoff);
      assert times == times[..n] + [times[n]];
      assert forall i :: 0 <= i < |front| ==> front[i] in front;
    }
  }

  lemma RecorderStep(stored: seq<int>, scores: set<int>, last: int, limit: Limit, now: int)
    requires limit.window >= 1 && Recorder(stored, scores, last) && last < now && 0 <= now
    ensures Recorder(MemoryTimes(stored, limit, now), Recorded(scores, limit, now), now)
    ensures RedisAdmits(scores, limit, now) ==> MemoryOutcome(stored, limit, now) == Admitted
  {
    var kept := After(stored, Cutoff(now, limit));
    AfterDistinct(stored, Cutoff(now, limit));
    hide After;
    var recorded := Recorded(scores, limit, now);
    forall i | 0 <= i < |kept| ensures kept[i] in recorded - {now} && 0 <= kept[i] <= last {
      assert kept[i] in kept;
    }
    DistinctCount(kept, recorded - {now});
  }

  function ScoresAt(r: Redis, key: string): set<int> {
    if key in r.sets then r.sets[key] else {}
  }

  lemma RedisStep(before: seq<Attempt>, a: Attempt, policy: Policy)
    ensures var r := RunRedis(before, policy);
            RunRedis(before + [a], policy)
            == RedisRun(Checked(r.state, a, policy(a.key)),
                        r.admits + [RedisAdmits(Live(r.state, a.key, a.now), policy(a.key), a.now)])
  {
    assert (before + [a])[..|before|] == before;
  }

  /** An expired key held nothing that the window would have kept. */
  lemma ExpiredStep(stored: seq<int>, last: int, limit: Limit, now: int)
    requires limit.window >= 1 && Distinct(stored) && forall i :: 0 <= i < |stored| ==> stored[i] <= last
    requires last + 2 * limit.window * SECOND <= now
    ensures After(stored, Cutoff(now, limit)) == []
  {
    AfterDistinct(stored, Cutoff(now, limit));
    hide After;
    var kept := After(stored, Cutoff(now, limit));
    assert forall i :: 0 <= i < |kept| ==> kept[i] in kept;
  }

  lemma LiveStep(stored: seq<int>, r: Redis, last: int, limit: Limit, a: Attempt)
    requires limit.window >= 1 && last < a.now && 0 <= a.now
    requires Recorder(stored, ScoresAt(r, a.key), last)
    requires a.key in r.sets ==> a.key in r.expiry && r.expiry[a.key] == last + 2 * limit.window * SECOND
    ensures Recorder(MemoryTimes(stored, limit, a.now), Recorded(Live(r, a.key, a.now), limit, a.now), a.now)
    ensures RedisAdmits(Live(r, a.key, a.now), limit, a.now) ==> MemoryOutcome(stored, limit, a.now) == Admitted
  {
    if a.key in r.sets && r.expiry[a.key] <= a.now {
      ExpiredStep(stored, last, limit, a.now);
      RecorderStep([], {}, last, limit, a.now);
    } else {
      RecorderStep(stored, Live(r, a.key, a.now), last, limit, a.now);
    }
  }

  /** The relation between the two limiters' state for one key, after any run. */
  ghost predicate KeyRelated(trace: seq<Attempt>, policy: Policy, key: string) {
    var r, stored := RunRedis(trace, policy).state, TimesAt(RunMemory(trace, policy).requests, key);
    match LastAttempt(trace, key)
    case None => key !in r.sets && stored == []
    case Some(last) =>
      && Recorder(stored, ScoresAt(r, key), last)
      && key in r.expiry && r.expiry[key] == last + 2 * policy(key).window * SECOND
  }

  lemma TickingPrefix(trace: seq<Attempt>)
    requires Ticking(trace) && trace != []
    ensures var before, a := trace[..|trace| - 1], trace[|trace| - 1];
            && Ticking(before) && before + [a] == trace && 0 <= a.now
            && (LastAttempt(before, a.key).Some? ==> LastAttempt(before, a.key).value < a.now)
  {
    LastAttemptSeen(trace[..|trace| - 1], trace[|trace| - 1].key);
  }

  lemma RelatedStep(before: seq<Attempt>, a: Attempt, policy: Policy, key: string)
    requires KeyRelated(before, policy, key) && policy(key).window >= 1 && 0 <= a.now
    requires a.key == key && LastAttempt(before, key).Some? ==> LastAttempt(before, key).value < a.now
    ensures KeyRelated(before + [a], policy, key)
  {
    LastStep(before, a, key);
    hide RunMemory, RunRedis, MemoryTimes, MemoryOutcome, RedisAdmits, Recorder, LastAttempt;
    RunStep(before, a, policy);
    RedisStep(before, a, policy);
    if a.key == key {
      var last := if LastAttempt(before, key).Some? then LastAttempt(before, key).value else -1;
      NothingRecorded(last);
      LiveStep(TimesAt(RunMemory(before, policy).requests, key), RunRedis(before, policy).state, last, policy(key), a);
      hide Recorded, Live;
    } else {
      hide Surviving, Live;
    }
  }

  lemma LastStep(before: seq<Attempt>, a: Attempt, key: string)
    ensures LastAttempt(before + [a], key) == if a.key == key then Some(a.now) else LastAttempt(before, key)
  {
    assert (before + [a])[..|before|] == before;
  }

  lemma NothingRecorded(last: int)
    ensures Recorder([], {}, last)
  {
  }

  lemma {:induction false} RelatedAfterRun(trace: seq<Attempt>, policy: Policy, key: string)
    requires Ticking(trace) && policy(key).window >= 1
    ensures KeyRelated(trace, policy, key)
  {
    if trace != [] {
      var n := |trace| - 1;
      TickingPrefix(trace);
      RelatedAfterRun(trace[..n], policy, key);
      hide KeyRelated;
      RelatedStep(trace[..n], trace[n], policy, key);
    }
  }

  ghost predicate PastOnly(stored: seq<int>, last: Option<int>) {
    Distinct(stored) && forall t :: t in stored ==> last.Some? && t <= last.value
  }

  lemma PastStep(stored: seq<int>, last: Option<int>, limit: Limit, now: int)
    requires PastOnly(stored, last) && (last.Some? ==> last.value < now)
    ensures PastOnly(MemoryTimes(stored, limit, now), Some(now))
  {
    AfterDistinct(stored, Cutoff(now, limit));
    hide After, MemoryOutcome;
    var kept := After(stored, Cutoff(now, limit));
    assert forall i :: 0 <= i < |kept| ==> kept[i] in kept;
  }

  /** What the process-local limiter keeps for a key is never later than its last attempt. */
  lemma {:induction false} StoredIsPast(trace: seq<Attempt>, policy: Policy, key: string)
    requires Ticking(trace)
    ensures PastOnly(TimesAt(RunMemory(trace, policy).requests, key), LastAttempt(trace, key))
  {
    if trace != [] {
      var n := |trace| - 1;
      var before, a := trace[..n], trace[n];
      TickingPrefix(trace);
      StoredIsPast(before, policy, key);
      RunStep(before, a, policy);
      hide RunMemory, MemoryTimes, PastOnly, Ticking;
      if a.key == key {
        PastStep(TimesAt(RunMemory(before, policy).requests, key), LastAttempt(before, key), policy(key), a.now);
      }
    }
  }

  lemma NoWindowStep(stored: seq<int>, scores: set<int>, limit: Limit, now: int)
    requires limit.window <= 0 && limit.max != 0 && Distinct(stored) && forall t :: t in stored ==> t < now
    ensures RedisAdmits(scores, limit, now) ==> MemoryOutcome(stored, limit, now) == Admitted
  {
    AfterDistinct(stored, Cutoff(now, limit));
    hide After;
    var kept := After(stored, Cutoff(now, limit));
    assert forall i :: 0 <= i < |kept| ==> kept[i] in kept;
  }

  predicate Comparable(limit: Limit) { limit.max != 0 || limit.window >= 1 }

  /** Over any run whose keys each tick strictly, every request the Redis limiter admits the
      process-local limiter admits too, although Redis also counts what it turned away. */
  lemma {:induction false} RedisRefinesMemory(trace: seq<Attempt>, policy: Policy)
    requires Ticking(trace) && forall a :: a in trace ==> Comparable(policy(a.key))
    ensures Refines(trace, policy)
  {
    if trace != [] {
      var n := |trace| - 1;
      var before, a := trace[..n], trace[n];
      assert a in trace;
      TickingPrefix(trace);
      hide Ticking;
      RedisRefinesMemory(before, policy);
      RunStep(before, a, policy);
      RedisStep(before, a, policy);
      LastStepRefines(before, a, policy);
      hide RunMemory, RunRedis, MemoryTimes, MemoryOutcome, RedisAdmits, Checked;
    }
  }

  lemma LastStepRefines(before: seq<Attempt>, a: Attempt, policy: Policy)
    requires Ticking(before) && 0 <= a.now && Comparable(policy(a.key))
    requires LastAttempt(before, a.key).Some? ==> LastAttempt(before, a.key).value < a.now
    ensures RedisAdmits(Live(RunRedis(before, policy).state, a.key, a.now), policy(a.key), a.now)
            ==> MemoryOutcome(TimesAt(RunMemory(before, policy).requests, a.key), policy(a.key), a.now) == Admitted
  {
    hide RunMemory, RunRedis, MemoryOutcome, RedisAdmits, Ticking;
    var stored, r := TimesAt(RunMemory(before, policy).requests, a.key), RunRedis(before, policy).state;
    if policy(a.key).window >= 1 {
      RelatedAfterRun(before, policy, a.key);
      var last := if LastAttempt(before, a.key).Some? then LastAttempt(before, a.key).value else -1;
      LiveStep(stored, r, last, policy(a.key), a);
    } else {
      StoredIsPast(before, policy, a.key);
      NoWindowStep(stored, Live(r, a.key, a.now), policy(a.key), a.now);
    }
  }

  function Always(limit: Limit): Policy { (key: string) => limit }

  /** The refinement holds of every run exactly when the limit is not zero or there is a window:
      with neither, Redis deletes the key before counting it and admits, where the list fails. */
  lemma RefinementExactly(limit: Limit)
    ensures (forall trace | Ticking(trace) :: Refines(trace, Always(limit))) <==> Comparable(limit)
  {
    var policy := Always(limit);
    if Comparable(limit) {
      forall trace | Ticking(trace) ensures Refines(trace, policy) {
        RedisRefinesMemory(trace, policy);
      }
    } else {
      var trace := [Attempt("key", 0)];
      assert [] + trace == trace;
      RunStep([], trace[0], policy);
      RedisStep([], trace[0], policy);
      assert !Refines(trace, policy) by {
        assert RunRedis(trace, policy).admits[0];
        assert RunMemory(trace, policy).outcomes[0] == IndexError;
      }
    }
  }

  /** Two requests at one instant are one member of the sorted set: with a limit of one, Redis
      admits both and the process-local limiter only the first. */
  lemma SameInstantIsCountedOnce()
    ensures var trace, policy := [Attempt("key", 0), Attempt("key", 0)], Always(Limit(1, 1));
            && RunRedis(trace, policy).admits == [true, true]
            && RunMemory(trace, policy).outcomes == [Admitted, Rejected(1)]
  {
    MemoryAtOneInstant();
    RedisAtOneInstant();
  }

  lemma MemoryAtOneInstant()
    ensures RunMemory([Attempt("key", 0), Attempt("key", 0)], Always(Limit(1, 1))).outcomes == [Admitted, Rejected(1)]
  {
    var a, limit := Attempt("key", 0), Limit(1, 1);
    assert [] + [a] == [a] && [a] + [a] == [a, a] && [] + [0] == [0];
    AfterAppend([], 0, -SECOND);
    assert MemoryOutcome([], limit, 0) == Admitted && MemoryTimes([], limit, 0) == [0];
    assert MemoryOutcome([0], limit, 0) == Rejected(1);
    RunStep([], a, Always(limit));
    RunStep([a], a, Always(limit));
    hide MemoryTimes, MemoryOutcome, After;
  }

  lemma RedisAtOneInstant()
    ensures RunRedis([Attempt("key", 0), Attempt("key", 0)], Always(Limit(1, 1))).admits == [true, true]
  {
    var a, limit := Attempt("key", 0), Limit(1, 1);
    assert [] + [a] == [a] && [a] + [a] == [a, a];
    assert Recorded({}, limit, 0) == {0} && Recorded({0}, limit, 0) == {0};
    RedisStep([], a, Always(limit));
    RedisStep([a], a, Always(limit));
    hide Recorded;
  }

  // ----- The key expiry

  datatype UnexpiringRun = UnexpiringRun(sets: map<string, set<int>>, admits: seq<bool>)

  /** The same limiter without the expiry call: keys stay for ever. */
  function RunUnexpiring(trace: seq<Attempt>, policy: Policy): (r: UnexpiringRun)
    ensures |r.admits| == |trace|
  {
    if trace == [] then UnexpiringRun(map[], [])
    else
      var before, a := RunUnexpiring(trace[..|trace| - 1], policy), trace[|trace| - 1];
      var scores := Recorded(if a.key in before.sets then before.sets[a.key] else {}, policy(a.key), a.now);
      UnexpiringRun(before.sets[a.key := scores], before.admits + [|scores| <= policy(a.key).max])
  }

  ghost predicate Within(scores: set<int>, last: int) {
    forall s :: s in scores ==> 0 <= s <= last
  }

  /** Both hold the same set under the key, none of it later than the last attempt, and the key
      lives for two windows after that attempt. */
  ghost predicate SameScores(trace: seq<Attempt>, policy: Policy, key: string) {
    var r, u := RunRedis(trace, policy).state, RunUnexpiring(trace, policy);
    match LastAttempt(trace, key)
    case None => key !in r.sets && key !in u.sets
    case Some(last) =>
      && key in r.sets && key in u.sets && r.sets[key] == u.sets[key]
      && Within(r.sets[key], last)
      && key in r.expiry && r.expiry[key] == last + 2 * policy(key).window * SECOND
  }

  lemma ExpiryStep(r: Redis, held: set<int>, last: Option<int>, limit: Limit, a: Attempt)
    requires limit.window >= 1 && 0 <= a.now && (last.Some? ==> last.value <= a.now)
    requires last.None? ==> a.key !in r.sets && held == {}
    requires last.Some? ==>
               && a.key in r.sets && r.sets[a.key] == held
               && Within(held, last.value)
               && a.key in r.expiry && r.expiry[a.key] == last.value + 2 * limit.window * SECOND
    ensures Recorded(Live(r, a.key, a.now), limit, a.now) == Recorded(held, limit, a.now)
    ensures Within(Recorded(held, limit, a.now), a.now)
  {
    RecordedBounds(held, limit, a.now);
    RecordedSame(Live(r, a.key, a.now), held, limit, a.now);
  }

  lemma UnexpiringStep(before: seq<Attempt>, a: Attempt, policy: Policy)
    ensures var u := RunUnexpiring(before, policy);
            var scores := Recorded(if a.key in u.sets then u.sets[a.key] else {}, policy(a.key), a.now);
            RunUnexpiring(before + [a], policy)
            == UnexpiringRun(u.sets[a.key := scores], u.admits + [|scores| <= policy(a.key).max])
  {
    assert (before + [a])[..|before|] == before;
  }

  function HeldFor(u: UnexpiringRun, key: string): set<int> {
    if key in u.sets then u.sets[key] else {}
  }

  lemma SameRecording(before: seq<Attempt>, a: Attempt, policy: Policy)
    requires SameScores(before, policy, a.key) && policy(a.key).window >= 1 && 0 <= a.now
    requires LastAttempt(before, a.key).Some? ==> LastAttempt(before, a.key).value <= a.now
    ensures var live := Live(RunRedis(before, policy).state, a.key, a.now);
            var scores := Recorded(HeldFor(RunUnexpiring(before, policy), a.key), policy(a.key), a.now);
            Recorded(live, policy(a.key), a.now) == scores && Within(scores, a.now)
  {
    hide RunRedis, RunUnexpiring;
    ExpiryStep(RunRedis(before, policy).state, HeldFor(RunUnexpiring(before, policy), a.key),
               LastAttempt(before, a.key), policy(a.key), a);
  }

  lemma OwnStep(before: seq<Attempt>, a: Attempt, policy: Policy)
    requires SameScores(before, policy, a.key) && policy(a.key).window >= 1 && 0 <= a.now
    requires LastAttempt(before, a.key).Some? ==> LastAttempt(before, a.key).value <= a.now
    ensures SameScores(before + [a], policy, a.key)
  {
    SameRecording(before, a, policy);
    RedisStep(before, a, policy);
    UnexpiringStep(before, a, policy);
    assert LastAttempt(before + [a], a.key) == Some(a.now);
    hide RunRedis, RunUnexpiring, Recorded, Live, Within, LastAttempt;
  }

  lemma CheckedElsewhere(r: Redis, a: Attempt, limit: Limit, key: string)
    requires a.key != key
    ensures var after := Checked(r, a, limit);
            && (key in after.sets <==> key in r.sets) && (key in r.sets ==> after.sets[key] == r.sets[key])
            && (key in after.expiry <==> key in r.expiry) && (key in r.expiry ==> after.expiry[key] == r.expiry[key])
  {
    hide Surviving, Live;
  }

  lemma OtherStep(before: seq<Attempt>, a: Attempt, policy: Policy, key: string)
    requires SameScores(before, policy, key) && a.key != key
    ensures SameScores(before + [a], policy, key)
  {
    assert LastAttempt(before + [a], key) == LastAttempt(before, key) by {
      assert (before + [a])[..|before|] == before;
    }
    RedisStep(before, a, policy);
    UnexpiringStep(before, a, policy);
    hide RunRedis, RunUnexpiring, Recorded, Live, Within, LastAttempt, Checked;
    CheckedElsewhere(RunRedis(before, policy).state, a, policy(a.key), key);
  }

  lemma SameAnswer(before: seq<Attempt>, a: Attempt, policy: Policy)
    requires SameScores(before, policy, a.key) && policy(a.key).window >= 1 && 0 <= a.now
    requires LastAttempt(before, a.key).Some? ==> LastAttempt(before, a.key).value <= a.now
    ensures RunRedis(before + [a], policy).admits[|before|] == RunUnexpiring(before + [a], policy).admits[|before|]
  {
    RedisStep(before, a, policy);
    UnexpiringStep(before, a, policy);
    SameRecording(before, a, policy);
    hide RunRedis, RunUnexpiring, Recorded, Live, Within, SameScores, Checked;
  }

  lemma RecordedSame(live: set<int>, held: set<int>, limit: Limit, now: int)
    requires live == held || (live == {} && forall s :: s in held ==> 0 <= s <= Cutoff(now, limit))
    ensures Recorded(live, limit, now) == Recorded(held, limit, now)
  {
  }

  lemma RecordedBounds(held: set<int>, limit: Limit, now: int)
    requires 0 <= now && forall s :: s in held ==> 0 <= s <= now
    ensures forall s :: s in Recorded(held, limit, now) ==> 0 <= s <= now
  {
  }

  lemma {:induction false} SameScoresAfterRun(trace: seq<Attempt>, policy: Policy, key: string)
    requires ClockOrdered(trace) && policy(key).window >= 1
    requires forall i :: 0 <= i < |trace| ==> 0 <= trace[i].now
    ensures SameScores(trace, policy, key)
  {
    if trace != [] {
      var n := |trace| - 1;
      SameScoresAfterRun(trace[..n], policy, key);
      LastAttemptSeen(trace[..n], key);
      hide SameScores;
      if trace[n].key == key {
        OwnStep(trace[..n], trace[n], policy);
      } else {
        OtherStep(trace[..n], trace[n], policy, key);
      }
      assert trace[..n] + [trace[n]] == trace;
    }
  }

  /** Letting keys expire two windows after their last attempt never changes an answer. */
  lemma {:induction false} ExpiryNeverMatters(trace: seq<Attempt>, policy: Policy)
    requires ClockOrdered(trace) && NonNegative(trace)
    requires forall i :: 0 <= i < |trace| ==> policy(trace[i].key).window >= 1
    ensures RunRedis(trace, policy).admits == RunUnexpiring(trace, policy).admits
  {
    if trace != [] {
      var n := |trace| - 1;
      ExpiryNeverMatters(trace[..n], policy);
      SameScoresAfterRun(trace[..n], policy, trace[n].key);
      LastAttemptSeen(trace[..n], trace[n].key);
      assert trace[..n] + [trace[n]] == trace;
      hide SameScores, Checked, Recorded;
      SameAnswer(trace[..n], trace[n], policy);
    }
  }
}

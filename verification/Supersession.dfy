/**
 Superseding a compliance rule: the gates, the lineage pointers written to the registry, and the
 event recorded. Dates are day numbers; the digests and the date format are parameters, and the
 impact analyzer's verdict and the conflict scan are part of the request.
 */
module Supersession {
  import opened Money

  datatype Status =
    | Draft | Proposed | SupersessionDetected | PendingVerification | RequiresVerification | Verified
    | Approved | FutureNotified | Active | WasSuperseded | Historical | Rejected

  datatype Rule = Rule(
    id: string,
    code: string,
    domain: string,
    jurisdiction: string,
    taxYear: string,
    version: string,
    status: Status,
    effectiveFrom: int,
    effectiveTo: Option<int>,
    formula: string,
    condition: string,
    documentId: string,
    page: Option<int>,
    url: string,
    verifiedAt: int,
    supersedes: Option<string>,
    supersedesVersion: Option<string>,
    supersededBy: Option<string>,
    supersededByVersion: Option<string>,
    supersededAt: Option<string>,
    reason: Option<string>,
    bundleId: Option<string>,
    bundleHash: Option<string>,
    evidenceBundleId: Option<string>,
    evidenceHash: Option<string>)

  /** The canonical content a bundle hash covers. */
  datatype Bundle = Bundle(
    id: string, version: string, domain: string, jurisdiction: string, taxYear: string, effectiveFrom: int,
    effectiveTo: Option<int>, formula: string, condition: string, documentId: string, page: Option<int>)

  function BundleOf(r: Rule): Bundle {
    Bundle(r.id, r.version, r.domain, r.jurisdiction, r.taxYear, r.effectiveFrom, r.effectiveTo, r.formula,
           r.condition, r.documentId, r.page)
  }

  datatype Env = Env(bundleHash: Bundle -> string, evidenceHash: (string, string) -> string,
                     eventHash: EventPayload -> string, iso: int -> string)

  datatype Source = Source(tier: int, url: string)

  const LAST_TRUSTED_TIER := 3

  datatype Request = Request(
    oldId: string,
    newId: string,
    newVersion: string,
    source: Option<Source>,
    documentId: string,
    evidenceId: string,
    effectiveFrom: int,
    effectiveTo: Option<int>,
    formula: string,
    condition: string,
    reason: string,
    detector: string,
    reviewer: string,
    approver: string,
    conflict: bool,
    blocked: bool,
    eventId: string,
    now: string,
    today: int)

  datatype Event = Event(
    id: string,
    oldId: string,
    newId: string,
    oldVersion: string,
    newVersion: string,
    domain: string,
    jurisdiction: string,
    financialYear: string,
    effectiveFrom: string,
    supersededAt: string,
    reason: string,
    detector: string,
    reviewer: string,
    approver: string,
    oldBundleHash: string,
    newBundleHash: string,
    evidenceHash: string,
    eventHash: string)

  /** What the hash of an event covers: not the domain, jurisdiction, year, effective date or evidence. */
  datatype EventPayload = EventPayload(
    id: string,
    oldId: string,
    newId: string,
    oldVersion: string,
    newVersion: string,
    reason: string,
    detector: string,
    reviewer: string,
    approver: string,
    oldBundleHash: Option<string>,
    newBundleHash: string,
    timestamp: string)

  datatype Outcome =
    | NotSeparated
    | OldRuleNotFound
    | SourceNotTrusted
    | ConflictBlocked
    | AnalysisBlocked
    | AlreadyDone(prior: Rule, current: Option<Rule>, event: Option<Event>)
    | Done(prior: Rule, current: Option<Rule>, event: Option<Event>)

  datatype State = State(rules: map<string, Rule>, events: seq<Event>, seen: set<string>)

  function Joined(head: string, rest: string): string { head + ":" + rest }

  function Key(r: Request, env: Env): string {
    Joined(r.oldId, Joined(r.newId, Joined(r.newVersion, env.iso(r.effectiveFrom))))
  }

  predicate Immediate(r: Request) { r.effectiveFrom <= r.today }

  function NewRule(prior: Rule, r: Request, url: string, env: Env): Rule {
    var unhashed := Rule(
      r.newId, r.newId, prior.domain, prior.jurisdiction, prior.taxYear, r.newVersion,
      if Immediate(r) then Active else FutureNotified,
      r.effectiveFrom, r.effectiveTo, r.formula, r.condition, r.documentId, Some(1), url, r.today,
      Some(prior.id), Some(prior.version), None, None, None, Some(r.reason),
      Some("RB-" + r.newId + "-" + r.newVersion), None,
      Some("EB-" + r.newId + "-" + r.newVersion), Some(env.evidenceHash(r.evidenceId, r.documentId)));
    unhashed.(bundleHash := Some(env.bundleHash(BundleOf(unhashed))))
  }

  function UpdatedOld(prior: Rule, r: Request): Rule {
    if Immediate(r) then
      prior.(status := WasSuperseded, supersededBy := Some(r.newId), supersededByVersion := Some(r.newVersion),
           supersededAt := Some(r.now), reason := Some(r.reason))
    else
      prior.(supersededBy := None, supersededByVersion := None, supersededAt := None, reason := None)
  }

  function OrEmpty(o: Option<string>): string { if o.Some? then o.value else "" }

  function PayloadOf(prior: Rule, current: Rule, r: Request): EventPayload {
    EventPayload(r.eventId, prior.id, current.id, prior.version, current.version, r.reason, r.detector, r.reviewer,
                 r.approver, prior.bundleHash, OrEmpty(current.bundleHash), r.now)
  }

  function EventOf(prior: Rule, current: Rule, r: Request, env: Env): Event {
    Event(
      r.eventId, prior.id, current.id, prior.version, current.version, prior.domain, prior.jurisdiction, prior.taxYear,
      env.iso(r.effectiveFrom), r.now, r.reason, r.detector, r.reviewer, r.approver,
      OrEmpty(prior.bundleHash), OrEmpty(current.bundleHash), OrEmpty(current.evidenceHash),
      env.eventHash(PayloadOf(prior, current, r)))
  }

  function FirstEvent(events: seq<Event>, oldId: string, newId: string): Option<Event> {
    if events == [] then None
    else if events[0].oldId == oldId && events[0].newId == newId then Some(events[0])
    else FirstEvent(events[1..], oldId, newId)
  }

  predicate Separated(detector: string, reviewer: string, approver: string) {
    detector != reviewer && reviewer != approver && detector != approver
  }

  lemma ThreeActors(a: string, b: string, c: string)
    ensures Separated(a, b, c) <==> |{a, b, c}| == 3
    ensures |{a, b, c}| <= 3
  {
    if a == b {
      assert {a, b, c} == {b, c};
    } else if b == c {
      assert {a, b, c} == {a, b};
    } else if a == c {
      assert {a, b, c} == {a, b};
    } else {
      assert {a, b, c} - {a} - {b} == {c};
    }
  }

  function Lookup(rules: map<string, Rule>, id: string): Option<Rule> {
    if id in rules then Some(rules[id]) else None
  }

  function Execute(s: State, r: Request, env: Env): (State, Outcome) {
    if !Separated(r.detector, r.reviewer, r.approver) then (s, NotSeparated)
    else if r.oldId !in s.rules then (s, OldRuleNotFound)
    else if r.source.None? || r.source.value.tier > LAST_TRUSTED_TIER then (s, SourceNotTrusted)
    else if r.conflict then (s, ConflictBlocked)
    else if r.blocked then (s, AnalysisBlocked)
    else if Key(r, env) in s.seen then
      (s, AlreadyDone(s.rules[r.oldId], Lookup(s.rules, r.newId), FirstEvent(s.events, r.oldId, r.newId)))
    else
      var prior := s.rules[r.oldId];
      var current, updated := NewRule(prior, r, r.source.value.url, env), UpdatedOld(prior, r);
      var event := EventOf(prior, current, r, env);
      (State(s.rules[updated.id := updated][current.id := current], s.events + [event], s.seen + {Key(r, env)}),
       Done(updated, Some(current), Some(event)))
  }

  /** What a request has to pass before its key is looked at. */
  predicate PassesGates(s: State, r: Request) {
    && Separated(r.detector, r.reviewer, r.approver) && r.oldId in s.rules
    && r.source.Some? && r.source.value.tier <= LAST_TRUSTED_TIER && !r.conflict && !r.blocked
  }

  /** The request is carried out: it passes the gates, and its key is new. */
  predicate Accepts(s: State, r: Request, env: Env) { PassesGates(s, r) && Key(r, env) !in s.seen }

  lemma CarriedOutExactly(s: State, r: Request, env: Env)
    ensures Execute(s, r, env).1.Done? <==> Accepts(s, r, env)
  {
    hide Key, NewRule, UpdatedOld, EventOf, FirstEvent;
  }

  class ComplianceRuleRegistry {
    var rules: map<string, Rule>

    constructor (seeded: map<string, Rule>)
      ensures rules == seeded
    {
      rules := seeded;
    }

    method GetRule(id: string) returns (r: Option<Rule>)
      ensures r.Some? <==> id in rules
      ensures r.Some? ==> r.value == rules[id]
    {
      if id in rules {
        return Some(rules[id]);
      }
      r := None;
    }

    method RegisterOrUpdateRule(rule: Rule)
      modifies this
      ensures rules == old(rules)[rule.id := rule]
    {
      rules := rules[rule.id := rule];
    }
  }

  class RuleSupersessionService {
    const registry: ComplianceRuleRegistry
    var events: seq<Event>
    var seen: set<string>

    function Contents(): State
      reads this, registry
    {
      State(registry.rules, events, seen)
    }

    constructor (registry: ComplianceRuleRegistry)
      ensures this.registry == registry && Contents() == State(registry.rules, [], {})
    {
      this.registry := registry;
      events, seen := [], {};
    }

    method ExecuteSupersession(r: Request, env: Env) returns (outcome: Outcome)
      modifies this, registry
      ensures (Contents(), outcome) == Execute(old(Contents()), r, env)
    {
      ThreeActors(r.detector, r.reviewer, r.approver);
      if |{r.detector, r.reviewer, r.approver}| < 3 {
        return NotSeparated;
      }
      var found := registry.GetRule(r.oldId);
      if found.None? {
        return OldRuleNotFound;
      }
      var rule := found.value;
      if r.source.None? || r.source.value.tier > LAST_TRUSTED_TIER {
        return SourceNotTrusted;
      }
      if r.conflict {
        return ConflictBlocked;
      }
      if r.blocked {
        return AnalysisBlocked;
      }
      var key := Key(r, env);
      if key in seen {
        var current := registry.GetRule(r.newId);
        return AlreadyDone(rule, current, FirstEvent(events, r.oldId, r.newId));
      }
      seen := seen + {key};
      var current, updated := NewRule(rule, r, r.source.value.url, env), UpdatedOld(rule, r);
      registry.RegisterOrUpdateRule(updated);
      registry.RegisterOrUpdateRule(current);
      var event := EventOf(rule, current, r, env);
      events := events + [event];
      outcome := Done(updated, Some(current), Some(event));
    }
  }

  // ----- Lineage

  /** Whether the request was carried out, and gave the new rule an identifier not yet in use. */
  predicate UsesFreshId(s: State, r: Request, env: Env) {
    Accepts(s, r, env) ==> r.newId !in s.rules
  }

  /** Rules sit under their identifiers. */
  ghost predicate Keyed(rules: map<string, Rule>) {
    forall id :: id in rules ==> rules[id].id == id
  }

  /** Rules sit under their identifiers, and what supersedes a rule says so in return. */
  ghost predicate Mutual(rules: map<string, Rule>) {
    && Keyed(rules)
    && forall id :: id in rules && rules[id].supersededBy.Some? ==>
         var newer := rules[id].supersededBy.value;
         newer in rules && rules[newer].supersedes == Some(id)
  }

  /** Each rule was added after the one it supersedes. */
  ghost predicate Ranked(rules: map<string, Rule>, rank: map<string, nat>) {
    && rank.Keys == rules.Keys
    && forall id :: id in rules && rules[id].supersedes.Some? ==>
         var earlier := rules[id].supersedes.value;
         earlier in rules && rank[earlier] < rank[id]
  }

  ghost predicate DistinctActors(events: seq<Event>) {
    forall e :: e in events ==> Separated(e.detector, e.reviewer, e.approver)
  }

  /** A run from a seeded registry, with the order in which rules were added. */
  datatype Run = Run(state: State, rank: map<string, nat>, count: nat)

  function RankOnce(rules: map<string, Rule>): map<string, nat> { map id | id in rules :: 0 }

  function Start(seeded: map<string, Rule>): Run {
    Run(State(seeded, [], {}), RankOnce(seeded), 1)
  }

  function Step(run: Run, r: Request, env: Env): Run {
    var (after, outcome) := Execute(run.state, r, env);
    var rank := if outcome.Done? && r.newId !in run.rank then run.rank[r.newId := run.count] else run.rank;
    Run(after, rank, run.count + 1)
  }

  function RunOf(seeded: map<string, Rule>, requests: seq<Request>, env: Env): Run {
    if requests == [] then Start(seeded)
    else Step(RunOf(seeded, requests[..|requests| - 1], env), requests[|requests| - 1], env)
  }

  ghost predicate AlwaysFresh(seeded: map<string, Rule>, requests: seq<Request>, env: Env) {
    forall i :: 0 <= i < |requests| ==> UsesFreshId(RunOf(seeded, requests[..i], env).state, requests[i], env)
  }

  /** A registry as seeded: rules under their own identifiers, without lineage. */
  ghost predicate WithoutLineage(rules: map<string, Rule>) {
    forall id :: id in rules ==> rules[id].id == id && rules[id].supersedes == None && rules[id].supersededBy == None
  }

  ghost predicate Inv(run: Run) {
    && Mutual(run.state.rules) && Ranked(run.state.rules, run.rank) && DistinctActors(run.state.events)
    && forall id :: id in run.rank ==> run.rank[id] < run.count
  }

  lemma DoneStep(s: State, r: Request, env: Env) returns (updated: Rule, current: Rule)
    requires Execute(s, r, env).1.Done? && Keyed(s.rules)
    ensures r.oldId in s.rules && r.source.Some? && updated == UpdatedOld(s.rules[r.oldId], r)
    ensures current == NewRule(s.rules[r.oldId], r, r.source.value.url, env)
    ensures updated.id == r.oldId && updated.supersedes == s.rules[r.oldId].supersedes
    ensures updated.supersededBy == None || updated.supersededBy == Some(r.newId)
    ensures current.id == r.newId && current.supersedes == Some(r.oldId) && current.supersededBy == None
    ensures Execute(s, r, env).0.rules == s.rules[r.oldId := updated][r.newId := current]
  {
    updated, current := UpdatedOld(s.rules[r.oldId], r), NewRule(s.rules[r.oldId], r, r.source.value.url, env);
  }

  lemma RefusedChangesNothing(s: State, r: Request, env: Env)
    ensures !Execute(s, r, env).1.Done? ==> Execute(s, r, env).0 == s
  {
    hide NewRule, UpdatedOld, EventOf, Key, FirstEvent;
  }

  lemma ActorsStep(s: State, r: Request, env: Env)
    requires DistinctActors(s.events)
    ensures DistinctActors(Execute(s, r, env).0.events)
  {
    hide NewRule, UpdatedOld;
  }

  lemma MutualStep(rules: map<string, Rule>, updated: Rule, current: Rule)
    requires Mutual(rules) && updated.id in rules && current.id !in rules
    requires updated.supersedes == rules[updated.id].supersedes
    requires updated.supersededBy == None || updated.supersededBy == Some(current.id)
    requires current.supersedes == Some(updated.id) && current.supersededBy == None
    ensures Mutual(rules[updated.id := updated][current.id := current])
  {
  }

  lemma RankedStep(rules: map<string, Rule>, rank: map<string, nat>, updated: Rule, current: Rule, count: nat)
    requires Ranked(rules, rank) && updated.id in rules && current.id !in rules
    requires updated.supersedes == rules[updated.id].supersedes && current.supersedes == Some(updated.id)
    requires forall id :: id in rank ==> rank[id] < count
    ensures current.id !in rank
    ensures Ranked(rules[updated.id := updated][current.id := current], rank[current.id := count])
  {
  }

  lemma StepKeepsInv(run: Run, r: Request, env: Env)
    requires Inv(run) && UsesFreshId(run.state, r, env)
    ensures Inv(Step(run, r, env))
  {
    var s := run.state;
    assert Keyed(s.rules);
    CarriedOutExactly(s, r, env);
    hide Execute, Mutual, Ranked, DistinctActors, Keyed;
    if Execute(s, r, env).1.Done? {
      var updated, current := DoneStep(s, r, env);
      ActorsStep(s, r, env);
      MutualStep(s.rules, updated, current);
      RankedStep(s.rules, run.rank, updated, current, run.count);
    } else {
      RefusedChangesNothing(s, r, env);
    }
  }

  lemma {:induction false} RunKeepsInv(seeded: map<string, Rule>, requests: seq<Request>, env: Env)
    requires WithoutLineage(seeded) && AlwaysFresh(seeded, requests, env)
    ensures Inv(RunOf(seeded, requests, env))
  {
    if requests != [] {
      var n := |requests| - 1;
      FreshPrefix(seeded, requests, env);
      RunKeepsInv(seeded, requests[..n], env);
      hide Inv, Step, AlwaysFresh;
      StepKeepsInv(RunOf(seeded, requests[..n], env), requests[n], env);
    }
  }

  /** Walk the `supersedes` pointers `n` times. */
  function Predecessor(rules: map<string, Rule>, id: string, n: nat): Option<string>
    decreases n
  {
    if n == 0 then Some(id)
    else if id !in rules || rules[id].supersedes.None? then None
    else Predecessor(rules, rules[id].supersedes.value, n - 1)
  }

  lemma {:induction false} PredecessorsAreOlder(rules: map<string, Rule>, rank: map<string, nat>, id: string, n: nat)
    requires Ranked(rules, rank) && id in rules
    ensures var p := Predecessor(rules, id, n);
            p.Some? ==> p.value in rules && rank[p.value] + n <= rank[id]
    decreases n
  {
    if n > 0 && rules[id].supersedes.Some? {
      PredecessorsAreOlder(rules, rank, rules[id].supersedes.value, n - 1);
    }
  }

  /** Over any run in which accepted requests bring unused identifiers: the lineage has no cycle,
      every forward pointer is answered by the pointer back, and every event has three actors. */
  lemma LineageHolds(seeded: map<string, Rule>, requests: seq<Request>, env: Env, id: string, n: nat)
    requires WithoutLineage(seeded) && AlwaysFresh(seeded, requests, env)
    ensures var s := RunOf(seeded, requests, env).state;
            && (id in s.rules && n > 0 ==> Predecessor(s.rules, id, n) != Some(id))
            && Mutual(s.rules)
            && DistinctActors(s.events)
  {
    RunKeepsInv(seeded, requests, env);
    hide RunOf;
    var run := RunOf(seeded, requests, env);
    if id in run.state.rules {
      PredecessorsAreOlder(run.state.rules, run.rank, id, n);
    }
  }

  // ----- Registered content

  ghost predicate SameContent(before: map<string, Rule>, after: map<string, Rule>) {
    forall id :: id in before ==>
      id in after && BundleOf(after[id]) == BundleOf(before[id]) && after[id].bundleHash == before[id].bundleHash
  }

  /** The content a request asks to register: its own, under the old rule's domain and year. */
  function Requested(prior: Rule, r: Request): Bundle {
    Bundle(r.newId, r.newVersion, prior.domain, prior.jurisdiction, prior.taxYear, r.effectiveFrom, r.effectiveTo,
           r.formula, r.condition, r.documentId, Some(1))
  }

  lemma ContentOfStep(prior: Rule, r: Request, env: Env)
    requires r.source.Some?
    ensures var updated, current := UpdatedOld(prior, r), NewRule(prior, r, r.source.value.url, env);
            && BundleOf(updated) == BundleOf(prior) && updated.bundleHash == prior.bundleHash
            && BundleOf(current) == Requested(prior, r)
            && current.bundleHash == Some(env.bundleHash(Requested(prior, r)))
  {
  }

  /** A request carried out leaves every registered rule's hashed content alone exactly when the new
      identifier was unused, or stood for the very content requested and its hash. */
  lemma ContentKeptExactly(s: State, r: Request, env: Env)
    requires Keyed(s.rules) && Execute(s, r, env).1.Done?
    ensures var asked := Requested(s.rules[r.oldId], r);
            SameContent(s.rules, Execute(s, r, env).0.rules)
            <==> (r.newId !in s.rules
                  || (BundleOf(s.rules[r.newId]) == asked
                      && s.rules[r.newId].bundleHash == Some(env.bundleHash(asked))))
  {
    hide Execute;
    var updated, current := DoneStep(s, r, env);
    ContentOfStep(s.rules[r.oldId], r, env);
    hide NewRule, UpdatedOld, BundleOf, Requested;
    ContentAfter(s.rules, updated, current);
  }

  lemma ContentAfter(rules: map<string, Rule>, updated: Rule, current: Rule)
    requires updated.id in rules && BundleOf(updated) == BundleOf(rules[updated.id])
    requires updated.bundleHash == rules[updated.id].bundleHash
    ensures SameContent(rules, rules[updated.id := updated][current.id := current])
            <==> (current.id in rules ==>
                    BundleOf(rules[current.id]) == BundleOf(current)
                    && rules[current.id].bundleHash == current.bundleHash)
  {
    hide BundleOf;
    var after := rules[updated.id := updated][current.id := current];
    if current.id in rules && SameContent(rules, after) {
      assert BundleOf(after[current.id]) == BundleOf(rules[current.id]);
    }
  }

  lemma StepKeepsContent(s: State, r: Request, env: Env)
    requires Keyed(s.rules) && UsesFreshId(s, r, env)
    ensures SameContent(s.rules, Execute(s, r, env).0.rules)
  {
    hide Keyed, BundleOf, Requested;
    CarriedOutExactly(s, r, env);
    if Execute(s, r, env).1.Done? {
      ContentKeptExactly(s, r, env);
      hide Execute;
    } else {
      RefusedChangesNothing(s, r, env);
    }
  }

  lemma FreshPrefix(seeded: map<string, Rule>, requests: seq<Request>, env: Env)
    requires AlwaysFresh(seeded, requests, env) && requests != []
    ensures AlwaysFresh(seeded, requests[..|requests| - 1], env)
    ensures UsesFreshId(RunOf(seeded, requests[..|requests| - 1], env).state, requests[|requests| - 1], env)
  {
    var n := |requests| - 1;
    hide RunOf, UsesFreshId;
    forall i | 0 <= i < n ensures UsesFreshId(RunOf(seeded, requests[..n][..i], env).state, requests[..n][i], env) {
      assert requests[..n][..i] == requests[..i];
    }
  }

  /** In a run with unused identifiers no registered rule's hashed content or hash ever changes. */
  lemma {:induction false} ContentNeverChanges(seeded: map<string, Rule>, requests: seq<Request>, env: Env, k: nat)
    requires WithoutLineage(seeded) && AlwaysFresh(seeded, requests, env) && k <= |requests|
    ensures SameContent(RunOf(seeded, requests[..k], env).state.rules, RunOf(seeded, requests, env).state.rules)
  {
    hide Execute, AlwaysFresh, Keyed, Ranked, DistinctActors, BundleOf, UsesFreshId;
    if k == |requests| {
      assert requests[..k] == requests;
    } else {
      var n := |requests| - 1;
      FreshPrefix(seeded, requests, env);
      ContentNeverChanges(seeded, requests[..n], env, k);
      assert requests[..n][..k] == requests[..k];
      RunKeepsInv(seeded, requests[..n], env);
      StepKeepsContent(RunOf(seeded, requests[..n], env).state, requests[n], env);
    }
  }

  // ----- Repeating a request

  function ExecuteAll(s: State, requests: seq<Request>, env: Env): State {
    if requests == [] then s
    else Execute(ExecuteAll(s, requests[..|requests| - 1], env), requests[|requests| - 1], env).0
  }

  lemma {:induction false} SeenStays(s: State, requests: seq<Request>, env: Env)
    ensures s.seen <= ExecuteAll(s, requests, env).seen
  {
    if requests != [] {
      SeenStays(s, requests[..|requests| - 1], env);
    }
  }

  /** Once a request was carried out or found done, repeating it at any later time, by any actors
      and whatever was requested in between, changes nothing. */
  lemma RepeatChangesNothing(s: State, r: Request, between: seq<Request>, again: Request, env: Env)
    requires Execute(s, r, env).1.Done? || Execute(s, r, env).1.AlreadyDone?
    requires Key(again, env) == Key(r, env)
    ensures var later := ExecuteAll(Execute(s, r, env).0, between, env);
            Execute(later, again, env).0 == later && !Execute(later, again, env).1.Done?
  {
    SeenStays(Execute(s, r, env).0, between, env);
  }

  ghost predicate NoColon(s: string) { forall i :: 0 <= i < |s| ==> s[i] != ':' }

  function Colons(s: string): nat {
    if s == "" then 0 else (if s[0] == ':' then 1 else 0) + Colons(s[1..])
  }

  lemma {:induction false} ColonsOf(s: string)
    ensures NoColon(s) <==> Colons(s) == 0
  {
    if s != "" {
      ColonsOf(s[1..]);
      assert s == [s[0]] + s[1..];
    }
  }

  lemma {:induction false} ColonsJoined(head: string, rest: string)
    ensures Colons(Joined(head, rest)) == Colons(head) + 1 + Colons(rest)
  {
    var s := Joined(head, rest);
    if head == "" {
      assert s == [':'] + rest && s[1..] == rest;
    } else {
      ColonsJoined(head[1..], rest);
      assert s[0] == head[0] && s[1..] == Joined(head[1..], rest);
    }
  }

  lemma KeyColons(r: Request, env: Env)
    ensures Colons(Key(r, env))
            == Colons(r.oldId) + Colons(r.newId) + Colons(r.newVersion) + Colons(env.iso(r.effectiveFrom)) + 3
  {
    hide Colons;
    var date := env.iso(r.effectiveFrom);
    ColonsJoined(r.newVersion, date);
    ColonsJoined(r.newId, Joined(r.newVersion, date));
    ColonsJoined(r.oldId, Joined(r.newId, Joined(r.newVersion, date)));
  }

  lemma SplitAtColon(a: string, x: string, b: string, y: string)
    requires NoColon(a) && NoColon(b) && Joined(a, x) == Joined(b, y)
    ensures a == b && x == y
  {
    var s := Joined(a, x);
    assert s[|a|] == ':' && s[|b|] == ':';
    assert forall i :: 0 <= i < |a| ==> s[i] == a[i];
    assert forall i :: 0 <= i < |b| ==> s[i] == b[i];
    assert |a| == |b|;
    assert a == s[..|a|] == s[..|b|] == b;
    assert x == s[|a| + 1..] == y;
  }

  /** The two requests name the same old rule, new rule, version and date. */
  predicate SameTransition(a: Request, b: Request, env: Env) {
    && (a.oldId, a.newId, a.newVersion) == (b.oldId, b.newId, b.newVersion)
    && env.iso(a.effectiveFrom) == env.iso(b.effectiveFrom)
  }

  predicate ColonFree(r: Request) {
    ':' !in r.oldId && ':' !in r.newId && ':' !in r.newVersion
  }

  lemma ColonFreeParts(r: Request)
    ensures ColonFree(r) <==> NoColon(r.oldId) && NoColon(r.newId) && NoColon(r.newVersion)
    ensures ColonFree(r) <==> Colons(r.oldId) + Colons(r.newId) + Colons(r.newVersion) == 0
  {
    ColonsOf(r.oldId);
    ColonsOf(r.newId);
    ColonsOf(r.newVersion);
  }

  /** A request that shares its key with a colon-free one is colon-free too, and the same. */
  lemma ColonFreeIsUnique(a: Request, b: Request, env: Env)
    requires ColonFree(a) && Key(a, env) == Key(b, env)
    requires NoColon(env.iso(a.effectiveFrom)) && NoColon(env.iso(b.effectiveFrom))
    ensures SameTransition(a, b, env)
  {
    ColonFreeParts(a);
    ColonFreeParts(b);
    KeyColons(a, env);
    KeyColons(b, env);
    ColonsOf(env.iso(a.effectiveFrom));
    ColonsOf(env.iso(b.effectiveFrom));
    hide NoColon, Colons, ColonFree;
    var u, v := Joined(a.newVersion, env.iso(a.effectiveFrom)), Joined(b.newVersion, env.iso(b.effectiveFrom));
    SplitAtColon(a.oldId, Joined(a.newId, u), b.oldId, Joined(b.newId, v));
    SplitAtColon(a.newId, u, b.newId, v);
    SplitAtColon(a.newVersion, env.iso(a.effectiveFrom), b.newVersion, env.iso(b.effectiveFrom));
  }

  lemma CutAtColon(s: string) returns (p: string, q: string)
    requires ':' in s
    ensures s == Joined(p, q)
  {
    var i :| 0 <= i < |s| && s[i] == ':';
    p, q := s[..i], s[i + 1..];
  }

  lemma JoinedShifts(p: string, q: string, rest: string)
    ensures Joined(Joined(p, q), rest) == Joined(p, Joined(q, rest))
  {
    assert p + ":" + q + ":" + rest == p + ":" + (q + ":" + rest);
  }

  /** With a colon in an identifier or the version, a piece can move over to the neighbouring part:
      another request, alike in everything else, has the same key. */
  lemma ColonLetsAnotherIn(a: Request, env: Env) returns (b: Request)
    requires !ColonFree(a)
    ensures Key(b, env) == Key(a, env) && !SameTransition(a, b, env)
    ensures b == a.(oldId := b.oldId, newId := b.newId, newVersion := b.newVersion)
    ensures ':' !in a.oldId ==> b.oldId == a.oldId && b.newId != a.newId
  {
    var date := env.iso(a.effectiveFrom);
    if ':' in a.oldId {
      var p, q := CutAtColon(a.oldId);
      b := a.(oldId := p, newId := Joined(q, a.newId));
      JoinedShifts(p, q, Joined(a.newId, Joined(a.newVersion, date)));
      JoinedShifts(q, a.newId, Joined(a.newVersion, date));
    } else if ':' in a.newId {
      var p, q := CutAtColon(a.newId);
      b := a.(newId := p, newVersion := Joined(q, a.newVersion));
      JoinedShifts(p, q, Joined(a.newVersion, date));
      JoinedShifts(q, a.newVersion, date);
    } else {
      var p, q := CutAtColon(a.newVersion);
      b := a.(newId := Joined(a.newId, p), newVersion := q);
      JoinedShifts(p, q, date);
      JoinedShifts(a.newId, p, Joined(q, date));
    }
  }

  /** The idempotency key names one transition exactly when neither identifier nor the version of the
      request has a colon, dates being written without any. */
  lemma KeyIsFaithful(a: Request, env: Env)
    requires forall d :: NoColon(env.iso(d))
    ensures (forall b: Request :: Key(b, env) == Key(a, env) ==> SameTransition(a, b, env)) <==> ColonFree(a)
  {
    hide Key, SameTransition, ColonFree;
    if ColonFree(a) {
      forall b: Request | Key(b, env) == Key(a, env) ensures SameTransition(a, b, env) {
        ColonFreeIsUnique(a, b, env);
      }
    } else {
      var b := ColonLetsAnotherIn(a, env);
    }
  }

  /** A different request under a key already used is taken for a repetition: it is answered as done
      and nothing is registered, though its new rule may never have been. */
  lemma KeyIsTakenForRepetition(s: State, a: Request, b: Request, env: Env)
    requires Execute(s, a, env).1.Done? && Key(b, env) == Key(a, env)
    requires PassesGates(Execute(s, a, env).0, b)
    ensures var after := Execute(s, a, env).0;
            Execute(after, b, env).1.AlreadyDone? && Execute(after, b, env).0 == after
  {
    hide Key, NewRule, UpdatedOld, EventOf;
  }

  /** So every request carried out with a colon in its new identifier or version swallows another one,
      for another new rule, that would have passed. */
  lemma ColonSwallowsAnother(s: State, a: Request, env: Env) returns (b: Request)
    requires Keyed(s.rules) && Execute(s, a, env).1.Done? && ':' !in a.oldId && !ColonFree(a)
    ensures b.oldId == a.oldId && b.newId != a.newId && PassesGates(s, b)
    ensures var after := Execute(s, a, env).0;
            && Execute(after, b, env).1.AlreadyDone? && Execute(after, b, env).0 == after
            && (b.newId !in s.rules ==> b.newId !in after.rules)
  {
    b := ColonLetsAnotherIn(a, env);
    assert PassesGates(s, a);
    var updated, current := DoneStep(s, a, env);
    hide Key, ColonFree, SameTransition, Execute;
    KeyIsTakenForRepetition(s, a, b, env);
  }

  // ----- The forward pointer

  /** The old rule points to the new one, and is marked superseded, exactly when the new one takes
      effect today or earlier. */
  lemma ForwardPointer(s: State, r: Request, env: Env)
    requires Keyed(s.rules) && Execute(s, r, env).1.Done? && r.newId != r.oldId
    ensures var was, now := s.rules[r.oldId], Execute(s, r, env).0.rules[r.oldId];
            && (now.supersededBy == Some(r.newId) <==> Immediate(r))
            && (Immediate(r) ==> now.status == WasSuperseded)
            && (!Immediate(r) ==> now.status == was.status && now.supersededBy == None)
  {
    var updated, current := DoneStep(s, r, env);
    hide Execute;
  }

  /** Superseding again a rule that has a successor takes its pointer away from that successor, which
      still points back: at once to the newer rule, or from a future date to none. */
  lemma SupersedingAgainForgets(s: State, r: Request, env: Env)
    requires Mutual(s.rules) && Execute(s, r, env).1.Done? && r.newId !in s.rules
    requires s.rules[r.oldId].supersededBy.Some?
    ensures var newer := s.rules[r.oldId].supersededBy.value;
            var after := Execute(s, r, env).0.rules;
            && newer in after && after[newer].supersedes == Some(r.oldId)
            && after[r.oldId].supersededBy == (if Immediate(r) then Some(r.newId) else None)
            && after[r.oldId].supersededBy != Some(newer)
  {
    var updated, current := DoneStep(s, r, env);
    hide Execute;
  }

  /** From a future date the old rule keeps its status, too. */
  lemma FutureSupersessionForgets(s: State, r: Request, env: Env)
    requires Mutual(s.rules) && Execute(s, r, env).1.Done? && r.newId !in s.rules && !Immediate(r)
    requires s.rules[r.oldId].supersededBy.Some?
    ensures var newer := s.rules[r.oldId].supersededBy.value;
            var after := Execute(s, r, env).0.rules;
            && newer in after && after[newer].supersedes == Some(r.oldId)
            && after[r.oldId].supersededBy == None
            && after[r.oldId].status == s.rules[r.oldId].status
  {
    SupersedingAgainForgets(s, r, env);
    ForwardPointer(s, r, env);
    hide Execute;
  }
}

/**
 What a supersession request leaves in the registry and in the log of events, field by field, and what
 a refused or repeated request is answered.
 */
module Registration {
  import opened Money
  import opened Supersession

  // ----- One request

  /** The rule a request brings in: its own content, under the old rule's domain and year, active
      from its first day on, and with nothing after it. */
  ghost predicate Brings(was: Rule, r: Request, env: Env, rule: Rule) {
    && rule.id == r.newId && rule.code == r.newId && rule.version == r.newVersion
    && rule.domain == was.domain && rule.jurisdiction == was.jurisdiction && rule.taxYear == was.taxYear
    && (rule.status == Active <==> r.effectiveFrom <= r.today)
    && (rule.status == FutureNotified <==> r.effectiveFrom > r.today)
    && rule.effectiveFrom == r.effectiveFrom && rule.effectiveTo == r.effectiveTo
    && rule.formula == r.formula && rule.condition == r.condition
    && rule.documentId == r.documentId && rule.page == Some(1)
    && r.source.Some? && rule.url == r.source.value.url && rule.verifiedAt == r.today
    && rule.supersedes == Some(r.oldId) && rule.supersedesVersion == Some(was.version)
    && rule.supersededBy == None && rule.supersededByVersion == None && rule.supersededAt == None
    && rule.reason == Some(r.reason)
    && rule.bundleId == Some("RB-" + r.newId + "-" + r.newVersion)
    && rule.evidenceBundleId == Some("EB-" + r.newId + "-" + r.newVersion)
    && rule.evidenceHash == Some(env.evidenceHash(r.evidenceId, r.documentId))
    && rule.bundleHash == Some(env.bundleHash(Bundle(
         id := r.newId, version := r.newVersion, domain := was.domain, jurisdiction := was.jurisdiction,
         taxYear := was.taxYear, effectiveFrom := r.effectiveFrom, effectiveTo := r.effectiveTo,
         formula := r.formula, condition := r.condition, documentId := r.documentId, page := Some(1))))
  }

  /** What remains of the rule that is superseded: its content and its pointer back, and from the
      day the new rule takes effect the pointer forward. */
  ghost predicate Leaves(was: Rule, r: Request, rule: Rule) {
    && rule.id == was.id && rule.code == was.code && rule.version == was.version
    && rule.domain == was.domain && rule.jurisdiction == was.jurisdiction && rule.taxYear == was.taxYear
    && rule.effectiveFrom == was.effectiveFrom && rule.effectiveTo == was.effectiveTo
    && rule.formula == was.formula && rule.condition == was.condition
    && rule.documentId == was.documentId && rule.page == was.page
    && rule.url == was.url && rule.verifiedAt == was.verifiedAt
    && rule.supersedes == was.supersedes && rule.supersedesVersion == was.supersedesVersion
    && rule.bundleId == was.bundleId && rule.bundleHash == was.bundleHash
    && rule.evidenceBundleId == was.evidenceBundleId && rule.evidenceHash == was.evidenceHash
    && (r.effectiveFrom <= r.today ==>
          && rule.status == WasSuperseded && rule.supersededBy == Some(r.newId)
          && rule.supersededByVersion == Some(r.newVersion) && rule.supersededAt == Some(r.now)
          && rule.reason == Some(r.reason))
    && (r.effectiveFrom > r.today ==>
          && rule.status == was.status && rule.supersededBy == None
          && rule.supersededByVersion == None && rule.supersededAt == None && rule.reason == None)
  }

  /** What the event of a request names of the request. */
  ghost predicate Names(e: Event, r: Request, env: Env) {
    && e.id == r.eventId && e.oldId == r.oldId && e.newId == r.newId && e.newVersion == r.newVersion
    && e.effectiveFrom == env.iso(r.effectiveFrom) && e.supersededAt == r.now && e.reason == r.reason
    && e.detector == r.detector && e.reviewer == r.reviewer && e.approver == r.approver
    && e.evidenceHash == env.evidenceHash(r.evidenceId, r.documentId)
  }

  /** What it names of the two rules, and what its hash covers. */
  ghost predicate Seals(e: Event, was: Rule, rule: Rule, r: Request, env: Env) {
    && e.oldVersion == was.version
    && e.domain == was.domain && e.jurisdiction == was.jurisdiction && e.financialYear == was.taxYear
    && e.oldBundleHash == (if was.bundleHash == None then "" else was.bundleHash.value)
    && rule.bundleHash == Some(e.newBundleHash)
    && e.eventHash == env.eventHash(EventPayload(
         id := r.eventId, oldId := r.oldId, newId := r.newId, oldVersion := was.version,
         newVersion := r.newVersion, reason := r.reason, detector := r.detector, reviewer := r.reviewer,
         approver := r.approver, oldBundleHash := was.bundleHash, newBundleHash := e.newBundleHash,
         timestamp := r.now))
  }

  lemma RuleBrought(was: Rule, r: Request, env: Env)
    requires was.id == r.oldId && r.source.Some?
    ensures Brings(was, r, env, NewRule(was, r, r.source.value.url, env))
  {
  }

  lemma RuleLeft(was: Rule, r: Request)
    ensures Leaves(was, r, UpdatedOld(was, r))
  {
  }

  lemma EventWritten(was: Rule, r: Request, env: Env)
    requires was.id == r.oldId && r.source.Some?
    ensures var rule := NewRule(was, r, r.source.value.url, env);
            Names(EventOf(was, rule, r, env), r, env) && Seals(EventOf(was, rule, r, env), was, rule, r, env)
  {
  }

  /** What a request leaves behind when it is carried out: the rule it brings in, the one it
      supersedes, every other rule as it was, one more event and its key. */
  lemma CarriedOut(s: State, r: Request, env: Env)
    requires Keyed(s.rules) && Accepts(s, r, env)
    ensures var (after, outcome) := Execute(s, r, env);
            var was := s.rules[r.oldId];
            && after.rules.Keys == s.rules.Keys + {r.newId}
            && Brings(was, r, env, after.rules[r.newId])
            && (r.newId != r.oldId ==> Leaves(was, r, after.rules[r.oldId]))
            && (forall id :: id in s.rules && id != r.oldId && id != r.newId ==> after.rules[id] == s.rules[id])
            && |after.events| == |s.events| + 1 && after.events[..|s.events|] == s.events
            && Names(after.events[|s.events|], r, env)
            && Seals(after.events[|s.events|], was, after.rules[r.newId], r, env)
            && after.seen
               == s.seen + {r.oldId + ":" + (r.newId + ":" + (r.newVersion + ":" + env.iso(r.effectiveFrom)))}
            && outcome.Done? && outcome.current == Some(after.rules[r.newId])
            && outcome.event == Some(after.events[|s.events|]) && Leaves(was, r, outcome.prior)
  {
    var was := s.rules[r.oldId];
    RuleBrought(was, r, env);
    RuleLeft(was, r);
    EventWritten(was, r, env);
    assert NewRule(was, r, r.source.value.url, env).id == r.newId && UpdatedOld(was, r).id == r.oldId;
    KeyIs(r, env);
    hide NewRule, UpdatedOld, EventOf, Key, Brings, Leaves, Names, Seals, Keyed;
  }

  /** The statuses of the pair: taking effect by today, exactly the new rule is active; from a later
      day on, the new one waits and the old one keeps its status. */
  lemma StatusExactly(s: State, r: Request, env: Env)
    requires Keyed(s.rules) && Accepts(s, r, env) && r.newId != r.oldId
    ensures var after := Execute(s, r, env).0.rules;
            && (after[r.newId].status == Active <==> r.effectiveFrom <= r.today)
            && (r.effectiveFrom <= r.today ==> after[r.oldId].status == WasSuperseded)
            && (r.effectiveFrom > r.today ==>
                  after[r.newId].status == FutureNotified && after[r.oldId].status == s.rules[r.oldId].status)
  {
    CarriedOut(s, r, env);
    hide Execute;
  }

  // ----- Refused and repeated requests

  lemma {:induction false} FirstEventExactly(events: seq<Event>, oldId: string, newId: string)
    ensures var first := FirstEvent(events, oldId, newId);
            && (first == None <==>
                  forall i :: 0 <= i < |events| ==> (events[i].oldId, events[i].newId) != (oldId, newId))
            && (first != None ==>
                  exists i :: 0 <= i < |events| && events[i] == first.value
                    && (events[i].oldId, events[i].newId) == (oldId, newId)
                    && forall j :: 0 <= j < i ==> (events[j].oldId, events[j].newId) != (oldId, newId))
  {
    if events != [] && (events[0].oldId, events[0].newId) != (oldId, newId) {
      FirstEventExactly(events[1..], oldId, newId);
      var first := FirstEvent(events[1..], oldId, newId);
      if first != None {
        var i: nat :| i < |events| - 1 && events[1..][i] == first.value
          && (events[1..][i].oldId, events[1..][i].newId) == (oldId, newId)
          && forall j :: 0 <= j < i ==> (events[1..][j].oldId, events[1..][j].newId) != (oldId, newId);
        assert events[i + 1] == first.value;
        assert forall j :: 0 < j < i + 1 ==> events[j] == events[1..][j - 1];
      } else {
        assert forall j :: 0 < j < |events| ==> events[j] == events[1..][j - 1];
      }
    }
  }

  /** Which gate turns a request away, in their order: the actors, the old rule, the source, the
      conflict scan, the impact analysis and the key. Whatever is turned away changes nothing, and one
      whose key was seen is answered from the registry and the log. */
  lemma RefusedExactly(s: State, r: Request, env: Env)
    ensures var (after, o) := Execute(s, r, env);
            var three := r.detector != r.reviewer && r.reviewer != r.approver && r.detector != r.approver;
            var known := three && r.oldId in s.rules;
            var trusted := known && r.source != None && r.source.value.tier <= 3;
            var agreed := trusted && !r.conflict;
            && (o == NotSeparated <==> !three)
            && (o == OldRuleNotFound <==> three && !known)
            && (o == SourceNotTrusted <==> known && !trusted)
            && (o == ConflictBlocked <==> trusted && !agreed)
            && (o == AnalysisBlocked <==> agreed && r.blocked)
            && (o.AlreadyDone? <==> agreed && !r.blocked && Key(r, env) in s.seen)
            && (!o.Done? ==> after == s)
            && (o.AlreadyDone? ==>
                  && o.prior == s.rules[r.oldId]
                  && (r.newId in s.rules ==> o.current == Some(s.rules[r.newId]))
                  && (r.newId !in s.rules ==> o.current == None)
                  && o.event == FirstEvent(s.events, r.oldId, r.newId))
  {
    hide NewRule, UpdatedOld, EventOf, Key, FirstEvent;
  }

  // ----- Over any run

  /** The requests of a run that are carried out, in order. */
  function Accepted(seeded: map<string, Rule>, requests: seq<Request>, env: Env): seq<Request> {
    if requests == [] then []
    else
      var n := |requests| - 1;
      var front := Accepted(seeded, requests[..n], env);
      if Accepts(RunOf(seeded, requests[..n], env).state, requests[n], env) then front + [requests[n]] else front
  }

  /** The log of events is the log of the requests carried out, and the keys seen are theirs. */
  ghost predicate Logs(s: State, accepted: seq<Request>, env: Env) {
    && |s.events| == |accepted|
    && (forall i :: 0 <= i < |accepted| ==> Names(s.events[i], accepted[i], env))
    && (forall i :: 0 <= i < |accepted| ==> Key(accepted[i], env) in s.seen)
    && forall key :: key in s.seen ==> exists i :: 0 <= i < |accepted| && Key(accepted[i], env) == key
  }

  lemma LogStep(s: State, accepted: seq<Request>, r: Request, env: Env)
    requires Keyed(s.rules) && Logs(s, accepted, env)
    ensures Keyed(Execute(s, r, env).0.rules)
    ensures Logs(Execute(s, r, env).0, if Accepts(s, r, env) then accepted + [r] else accepted, env)
  {
    hide Execute, Accepts, Names, Seals, Brings, Leaves, Keyed, Key, PassesGates;
    CarriedOutExactly(s, r, env);
    if Accepts(s, r, env) {
      CarriedOut(s, r, env);
      KeyIs(r, env);
      KeyAdded(s, accepted, r, env);
      KeyedAfter(s, r, env);
      var after := Execute(s, r, env).0;
      forall i | 0 <= i < |accepted| + 1 ensures Names(after.events[i], (accepted + [r])[i], env) {
        assert i < |accepted| ==> after.events[..|s.events|][i] == after.events[i];
      }
    } else {
      RefusedChangesNothing(s, r, env);
    }
  }

  lemma KeyIs(r: Request, env: Env)
    ensures Key(r, env) == r.oldId + ":" + (r.newId + ":" + (r.newVersion + ":" + env.iso(r.effectiveFrom)))
  {
  }

  lemma KeyedAfter(s: State, r: Request, env: Env)
    requires Keyed(s.rules) && Accepts(s, r, env)
    ensures Keyed(Execute(s, r, env).0.rules)
  {
    CarriedOutExactly(s, r, env);
    var updated, current := DoneStep(s, r, env);
  }

  lemma KeyAdded(s: State, accepted: seq<Request>, r: Request, env: Env)
    requires Logs(s, accepted, env)
    ensures forall key :: key in s.seen + {Key(r, env)} ==>
              exists i :: 0 <= i < |accepted + [r]| && Key((accepted + [r])[i], env) == key
  {
    var all := accepted + [r];
    hide Key, Names;
    forall key | key in s.seen + {Key(r, env)}
      ensures exists i :: 0 <= i < |all| && Key(all[i], env) == key
    {
      if key == Key(r, env) {
        assert all[|accepted|] == r;
      } else {
        var i :| 0 <= i < |accepted| && Key(accepted[i], env) == key;
        assert all[i] == accepted[i];
      }
    }
  }

  /** Over any run from a registry with rules under their own identifiers: the i-th event names the i-th
      request carried out, and a key was seen exactly when such a request had it. */
  lemma {:induction false} EventsNameRequests(seeded: map<string, Rule>, requests: seq<Request>, env: Env)
    requires Keyed(seeded)
    ensures Logs(RunOf(seeded, requests, env).state, Accepted(seeded, requests, env), env)
    ensures Keyed(RunOf(seeded, requests, env).state.rules)
  {
    if requests != [] {
      var n := |requests| - 1;
      EventsNameRequests(seeded, requests[..n], env);
      hide Logs, Keyed, Execute, Accepts;
      LogStep(RunOf(seeded, requests[..n], env).state, Accepted(seeded, requests[..n], env), requests[n], env);
    }
  }

  /** So over any run a request that passes the gates is answered as done exactly when one with its key
      was carried out before. */
  lemma DoneBeforeExactly(seeded: map<string, Rule>, requests: seq<Request>, r: Request, env: Env)
    requires Keyed(seeded) && PassesGates(RunOf(seeded, requests, env).state, r)
    ensures Execute(RunOf(seeded, requests, env).state, r, env).1.AlreadyDone?
            <==> exists i :: 0 <= i < |Accepted(seeded, requests, env)|
                             && Key(Accepted(seeded, requests, env)[i], env) == Key(r, env)
  {
    EventsNameRequests(seeded, requests, env);
    RefusedExactly(RunOf(seeded, requests, env).state, r, env);
    hide RunOf, Execute, Key, Accepted, Names;
  }
}

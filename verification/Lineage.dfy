/**
 When the supersession lineage stays free of cycles. The service lets a request name any new
 identifier, so a registered rule can be replaced; a cycle appears exactly when the one replaced is
 the old rule itself or one of its predecessors.
 */
module Lineage {
  import opened Money
  import opened Supersession

  ghost predicate Acyclic(rules: map<string, Rule>) {
    forall id, n: nat :: n > 0 ==> Predecessor(rules, id, n) != Some(id)
  }

  /** `to` is `from` or one of its predecessors. */
  ghost predicate Reaches(rules: map<string, Rule>, from: string, to: string) {
    exists n: nat :: Predecessor(rules, from, n) == Some(to)
  }

  /** What a request carried out does to the `supersedes` pointers: only the new rule's changes. */
  ghost predicate Repointed(before: map<string, Rule>, after: map<string, Rule>, oldId: string, newId: string) {
    && newId in after && after[newId].supersedes == Some(oldId)
    && forall id :: id != newId ==>
         && (id in after <==> id in before)
         && (id in before ==> after[id].supersedes == before[id].supersedes)
  }

  lemma DoneRepoints(s: State, r: Request, env: Env)
    requires Keyed(s.rules) && Execute(s, r, env).1.Done?
    ensures Repointed(s.rules, Execute(s, r, env).0.rules, r.oldId, r.newId) && Keyed(Execute(s, r, env).0.rules)
  {
    hide Execute;
    var updated, current := DoneStep(s, r, env);
  }

  lemma {:induction false} PredecessorChain(rules: map<string, Rule>, id: string, m: nat, n: nat)
    requires Predecessor(rules, id, m).Some?
    ensures Predecessor(rules, id, m + n) == Predecessor(rules, Predecessor(rules, id, m).value, n)
    decreases m
  {
    if m > 0 {
      PredecessorChain(rules, rules[id].supersedes.value, m - 1, n);
    }
  }

  /** Up to the first visit to the changed rule, the two walks are the same. */
  lemma {:induction false} SameWalk(
      before: map<string, Rule>, after: map<string, Rule>, oldId: string, newId: string, id: string, n: nat)
    returns (k: nat)
    requires Repointed(before, after, oldId, newId)
    ensures k <= n
    ensures k < n ==> Predecessor(before, id, k) == Predecessor(after, id, k) == Some(newId)
    ensures k == n ==> Predecessor(before, id, n) == Predecessor(after, id, n)
    decreases n
  {
    if n == 0 || id == newId {
      k := 0;
    } else if id !in before || before[id].supersedes.None? {
      k := n;
    } else {
      k := SameWalk(before, after, oldId, newId, before[id].supersedes.value, n - 1);
      k := k + 1;
    }
  }

  /** Replacing a rule by one that supersedes `oldId` makes a cycle exactly when the rule replaced is
      `oldId` or one of its predecessors. */
  lemma CycleExactly(before: map<string, Rule>, after: map<string, Rule>, oldId: string, newId: string)
    requires Repointed(before, after, oldId, newId) && Acyclic(before)
    ensures Acyclic(after) <==> !Reaches(before, oldId, newId)
  {
    if n: nat :| Predecessor(before, oldId, n) == Some(newId) {
      var k := SameWalk(before, after, oldId, newId, oldId, n);
      assert Predecessor(after, oldId, k) == Some(newId);
      assert Predecessor(after, newId, k + 1) == Some(newId);
    } else {
      forall id, n: nat | n > 0 ensures Predecessor(after, id, n) != Some(id) {
        if Predecessor(after, id, n) == Some(id) {
          CycleReaches(before, after, oldId, newId, id, n);
        }
      }
    }
  }

  lemma CycleReaches(
      before: map<string, Rule>, after: map<string, Rule>, oldId: string, newId: string, id: string, n: nat)
    requires Repointed(before, after, oldId, newId) && Acyclic(before)
    requires n > 0 && Predecessor(after, id, n) == Some(id)
    ensures Reaches(before, oldId, newId)
  {
    var k := SameWalk(before, after, oldId, newId, id, n);
    assert k < n by {
      assert Predecessor(before, id, n) != Some(id);
    }
    PredecessorChain(after, id, k, n - k);
    PredecessorChain(after, newId, n - k, k);
    assert Predecessor(after, newId, n) == Some(newId);
    assert Predecessor(after, oldId, n - 1) == Some(newId);
    var j := SameWalk(before, after, oldId, newId, oldId, n - 1);
    assert Predecessor(before, oldId, j) == Some(newId);
  }

  /** Accepting this request replaces no rule in the old one's own lineage. */
  ghost predicate SparesLineage(s: State, r: Request, env: Env) {
    Accepts(s, r, env) ==> !Reaches(s.rules, r.oldId, r.newId)
  }

  function StateAfter(seeded: map<string, Rule>, requests: seq<Request>, env: Env): State {
    ExecuteAll(State(seeded, [], {}), requests, env)
  }

  lemma {:induction false} StaysKeyed(seeded: map<string, Rule>, requests: seq<Request>, env: Env)
    requires WithoutLineage(seeded)
    ensures Keyed(StateAfter(seeded, requests, env).rules)
  {
    if requests != [] {
      var n := |requests| - 1;
      StaysKeyed(seeded, requests[..n], env);
      StepExactly(StateAfter(seeded, requests[..n], env), requests[n], env);
    }
  }

  lemma StepExactly(s: State, r: Request, env: Env)
    requires Keyed(s.rules)
    ensures Keyed(Execute(s, r, env).0.rules)
    ensures Acyclic(s.rules) ==> (Acyclic(Execute(s, r, env).0.rules) <==> SparesLineage(s, r, env))
  {
    hide Execute, Acyclic, Reaches;
    RefusedChangesNothing(s, r, env);
    CarriedOutExactly(s, r, env);
    hide Accepts;
    if Execute(s, r, env).1.Done? {
      DoneRepoints(s, r, env);
      if Acyclic(s.rules) {
        CycleExactly(s.rules, Execute(s, r, env).0.rules, r.oldId, r.newId);
      }
    }
  }

  ghost predicate AcyclicThroughout(seeded: map<string, Rule>, requests: seq<Request>, env: Env) {
    forall k :: 0 <= k <= |requests| ==> Acyclic(StateAfter(seeded, requests[..k], env).rules)
  }

  ghost predicate SparingThroughout(seeded: map<string, Rule>, requests: seq<Request>, env: Env) {
    forall k :: 0 <= k < |requests| ==> SparesLineage(StateAfter(seeded, requests[..k], env), requests[k], env)
  }

  lemma ThroughoutStep(seeded: map<string, Rule>, requests: seq<Request>, env: Env)
    requires requests != []
    ensures var n := |requests| - 1;
            var front := requests[..n];
            && (AcyclicThroughout(seeded, requests, env)
                <==> AcyclicThroughout(seeded, front, env) && Acyclic(StateAfter(seeded, requests, env).rules))
            && (SparingThroughout(seeded, requests, env)
                <==> SparingThroughout(seeded, front, env)
                     && SparesLineage(StateAfter(seeded, front, env), requests[n], env))
            && Acyclic(StateAfter(seeded, front, env).rules) == Acyclic(StateAfter(seeded, front[..n], env).rules)
  {
    hide Acyclic, SparesLineage, StateAfter;
    var n := |requests| - 1;
    var front := requests[..n];
    assert requests[..n + 1] == requests && front[..n] == front;
    assert forall k :: 0 <= k <= n ==> front[..k] == requests[..k];
  }

  /** From a registry as seeded, a run keeps the lineage free of cycles all along exactly when every
      request carried out spares the lineage of the rule it supersedes. */
  lemma {:induction false} NoCycleExactly(seeded: map<string, Rule>, requests: seq<Request>, env: Env)
    requires WithoutLineage(seeded)
    ensures AcyclicThroughout(seeded, requests, env) <==> SparingThroughout(seeded, requests, env)
  {
    if requests == [] {
      hide Acyclic;
      SeedsAcyclic(seeded, env);
    } else {
      hide Acyclic, SparesLineage, Execute;
      var n := |requests| - 1;
      NoCycleExactly(seeded, requests[..n], env);
      StaysKeyed(seeded, requests[..n], env);
      StepExactly(StateAfter(seeded, requests[..n], env), requests[n], env);
      ThroughoutStep(seeded, requests, env);
      assert AcyclicThroughout(seeded, requests[..n], env) ==>
               Acyclic(StateAfter(seeded, requests[..n][..n], env).rules);
      hide AcyclicThroughout, SparingThroughout;
    }
  }

  lemma SeedsAcyclic(seeded: map<string, Rule>, env: Env)
    requires WithoutLineage(seeded)
    ensures Acyclic(StateAfter(seeded, [], env).rules)
  {
  }

  /** A rule may be told to supersede itself: the service carries it out, and the rule is its own
      predecessor. */
  lemma RuleCanSupersedeItself(s: State, r: Request, env: Env)
    requires Keyed(s.rules) && Execute(s, r, env).1.Done? && r.newId == r.oldId
    ensures Predecessor(Execute(s, r, env).0.rules, r.oldId, 1) == Some(r.oldId)
  {
    DoneRepoints(s, r, env);
    hide Execute;
  }

  // ----- Forward pointers

  /** No rule but the old one points forward to the identifier the request brings. */
  ghost predicate SparesPointers(s: State, r: Request, env: Env) {
    Accepts(s, r, env) ==>
      forall id :: id in s.rules && id != r.newId && s.rules[id].supersededBy == Some(r.newId) ==> id == r.oldId
  }

  /** What a request carried out does to the forward pointers. */
  ghost predicate Forwarded(before: map<string, Rule>, after: map<string, Rule>, oldId: string, newId: string) {
    && Repointed(before, after, oldId, newId) && oldId in after && after[newId].supersededBy == None
    && (oldId != newId ==> after[oldId].supersededBy == None || after[oldId].supersededBy == Some(newId))
    && forall id :: id in before && id != oldId && id != newId ==> after[id].supersededBy == before[id].supersededBy
  }

  lemma DoneForwards(s: State, r: Request, env: Env)
    requires Keyed(s.rules) && Execute(s, r, env).1.Done?
    ensures Forwarded(s.rules, Execute(s, r, env).0.rules, r.oldId, r.newId)
  {
    DoneRepoints(s, r, env);
    hide Execute, Repointed;
    var updated, current := DoneStep(s, r, env);
  }

  lemma MutualAfter(before: map<string, Rule>, after: map<string, Rule>, oldId: string, newId: string)
    requires Mutual(before) && Keyed(after) && Forwarded(before, after, oldId, newId)
    ensures Mutual(after) <==>
            forall id :: id in before && id != newId && before[id].supersededBy == Some(newId) ==> id == oldId
  {
    if id :| id in before && id != newId && before[id].supersededBy == Some(newId) && id != oldId {
      assert after[id].supersededBy == Some(newId) && after[newId].supersedes != Some(id);
    }
  }

  /** One request: the forward pointers stay answered exactly when no rule but the old one pointed to
      the identifier it brings. */
  lemma MutualStepExactly(s: State, r: Request, env: Env)
    requires Mutual(s.rules)
    ensures Mutual(Execute(s, r, env).0.rules) <==> SparesPointers(s, r, env)
  {
    StepExactly(s, r, env);
    RefusedChangesNothing(s, r, env);
    CarriedOutExactly(s, r, env);
    hide Accepts;
    if Execute(s, r, env).1.Done? {
      DoneForwards(s, r, env);
      hide Execute, Forwarded, Mutual;
      MutualAfter(s.rules, Execute(s, r, env).0.rules, r.oldId, r.newId);
    }
  }

  ghost predicate AnsweredThroughout(seeded: map<string, Rule>, requests: seq<Request>, env: Env) {
    forall k :: 0 <= k <= |requests| ==> Mutual(StateAfter(seeded, requests[..k], env).rules)
  }

  ghost predicate PointersSparedThroughout(seeded: map<string, Rule>, requests: seq<Request>, env: Env) {
    forall k :: 0 <= k < |requests| ==> SparesPointers(StateAfter(seeded, requests[..k], env), requests[k], env)
  }

  lemma AnsweredStep(seeded: map<string, Rule>, requests: seq<Request>, env: Env)
    requires requests != []
    ensures var n := |requests| - 1;
            var front := requests[..n];
            && (AnsweredThroughout(seeded, requests, env)
                <==> AnsweredThroughout(seeded, front, env) && Mutual(StateAfter(seeded, requests, env).rules))
            && (PointersSparedThroughout(seeded, requests, env)
                <==> PointersSparedThroughout(seeded, front, env)
                     && SparesPointers(StateAfter(seeded, front, env), requests[n], env))
            && Mutual(StateAfter(seeded, front, env).rules) == Mutual(StateAfter(seeded, front[..n], env).rules)
  {
    hide Mutual, SparesPointers, StateAfter;
    var n := |requests| - 1;
    var front := requests[..n];
    assert requests[..n + 1] == requests && front[..n] == front;
    assert forall k :: 0 <= k <= n ==> front[..k] == requests[..k];
  }

  lemma SeedsAnswered(seeded: map<string, Rule>, env: Env)
    requires WithoutLineage(seeded)
    ensures Mutual(StateAfter(seeded, [], env).rules)
  {
  }

  lemma LastState(seeded: map<string, Rule>, requests: seq<Request>, env: Env)
    requires requests != []
    ensures var n := |requests| - 1;
            StateAfter(seeded, requests, env) == Execute(StateAfter(seeded, requests[..n], env), requests[n], env).0
  {
    hide Execute;
  }

  /** From a registry as seeded, a run keeps every forward pointer answered all along exactly when every
      request carried out brings an identifier that no rule but its old one points to. */
  lemma {:induction false} AnsweredExactly(seeded: map<string, Rule>, requests: seq<Request>, env: Env)
    requires WithoutLineage(seeded)
    ensures AnsweredThroughout(seeded, requests, env) <==> PointersSparedThroughout(seeded, requests, env)
  {
    hide Mutual, SparesPointers, Execute, StateAfter;
    if requests == [] {
      SeedsAnswered(seeded, env);
    } else {
      var n := |requests| - 1;
      AnsweredExactly(seeded, requests[..n], env);
      AnsweredStep(seeded, requests, env);
      LastState(seeded, requests, env);
      assert AnsweredThroughout(seeded, requests[..n], env) ==>
               Mutual(StateAfter(seeded, requests[..n][..n], env).rules);
      hide AnsweredThroughout, PointersSparedThroughout;
      if Mutual(StateAfter(seeded, requests[..n], env).rules) {
        MutualStepExactly(StateAfter(seeded, requests[..n], env), requests[n], env);
      }
    }
  }

  // ----- Back pointers

  /** Whoever supersedes a rule is what that rule points forward to. */
  ghost predicate Back(rules: map<string, Rule>) {
    && Keyed(rules)
    && forall id :: id in rules && rules[id].supersedes.Some? ==>
         var earlier := rules[id].supersedes.value;
         earlier in rules && rules[earlier].supersededBy == Some(id)
  }

  /** The request takes effect at once, on a rule other than the one it brings, and no other rule
      supersedes either of the two. */
  ghost predicate Answerable(s: State, r: Request) {
    && Immediate(r) && r.newId != r.oldId
    && forall id :: id in s.rules && id != r.newId ==>
         s.rules[id].supersedes != Some(r.oldId) && s.rules[id].supersedes != Some(r.newId)
  }

  ghost predicate AnswersBack(s: State, r: Request, env: Env) { Accepts(s, r, env) ==> Answerable(s, r) }

  lemma BackAfter(s: State, r: Request, env: Env)
    requires Back(s.rules) && Execute(s, r, env).1.Done?
    ensures Back(Execute(s, r, env).0.rules) <==> Answerable(s, r)
  {
    DoneForwards(s, r, env);
    DoneRepoints(s, r, env);
    if r.newId != r.oldId {
      ForwardPointer(s, r, env);
    }
    hide Execute, Immediate;
    var before, after := s.rules, Execute(s, r, env).0.rules;
    assert after[r.newId].supersedes == Some(r.oldId);
    if id :| id in before && id != r.newId
             && (before[id].supersedes == Some(r.oldId) || before[id].supersedes == Some(r.newId)) {
      assert after[id].supersedes == before[id].supersedes;
    }
  }

  /** One request: the pointers back stay answered exactly when a request carried out takes effect at
      once and no other rule supersedes the rule it replaces or the one it brings. */
  lemma BackStepExactly(s: State, r: Request, env: Env)
    requires Back(s.rules)
    ensures Back(Execute(s, r, env).0.rules) <==> AnswersBack(s, r, env)
  {
    RefusedChangesNothing(s, r, env);
    CarriedOutExactly(s, r, env);
    hide Execute, Accepts, Back, Answerable;
    if Execute(s, r, env).1.Done? {
      BackAfter(s, r, env);
    }
  }

  ghost predicate BackThroughout(seeded: map<string, Rule>, requests: seq<Request>, env: Env) {
    forall k :: 0 <= k <= |requests| ==> Back(StateAfter(seeded, requests[..k], env).rules)
  }

  ghost predicate AnswersThroughout(seeded: map<string, Rule>, requests: seq<Request>, env: Env) {
    forall k :: 0 <= k < |requests| ==> AnswersBack(StateAfter(seeded, requests[..k], env), requests[k], env)
  }

  lemma BackThroughoutStep(seeded: map<string, Rule>, requests: seq<Request>, env: Env)
    requires requests != []
    ensures var n := |requests| - 1;
            var front := requests[..n];
            && (BackThroughout(seeded, requests, env)
                <==> BackThroughout(seeded, front, env) && Back(StateAfter(seeded, requests, env).rules))
            && (AnswersThroughout(seeded, requests, env)
                <==> AnswersThroughout(seeded, front, env)
                     && AnswersBack(StateAfter(seeded, front, env), requests[n], env))
            && Back(StateAfter(seeded, front, env).rules) == Back(StateAfter(seeded, front[..n], env).rules)
  {
    hide Back, AnswersBack, StateAfter;
    var n := |requests| - 1;
    var front := requests[..n];
    assert requests[..n + 1] == requests && front[..n] == front;
    assert forall k :: 0 <= k <= n ==> front[..k] == requests[..k];
  }

  lemma SeedsPointBack(seeded: map<string, Rule>, env: Env)
    requires WithoutLineage(seeded)
    ensures Back(StateAfter(seeded, [], env).rules)
  {
  }

  /** From a registry as seeded, a run keeps every pointer back answered all along exactly when every
      request carried out does so. */
  lemma {:induction false} BackExactly(seeded: map<string, Rule>, requests: seq<Request>, env: Env)
    requires WithoutLineage(seeded)
    ensures BackThroughout(seeded, requests, env) <==> AnswersThroughout(seeded, requests, env)
  {
    hide Back, AnswersBack, Execute, StateAfter;
    if requests == [] {
      SeedsPointBack(seeded, env);
    } else {
      var n := |requests| - 1;
      BackExactly(seeded, requests[..n], env);
      BackThroughoutStep(seeded, requests, env);
      LastState(seeded, requests, env);
      assert BackThroughout(seeded, requests[..n], env) ==>
               Back(StateAfter(seeded, requests[..n][..n], env).rules);
      hide BackThroughout, AnswersThroughout;
      if Back(StateAfter(seeded, requests[..n], env).rules) {
        BackStepExactly(StateAfter(seeded, requests[..n], env), requests[n], env);
      }
    }
  }
}

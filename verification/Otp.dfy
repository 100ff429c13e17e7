/**
 One-time codes: issuing a token for an email and purpose, and verifying a submitted code. Each
 call happens at one instant, in microseconds; emails are already normalized, codes stripped, and
 the keyed digest is a parameter.
 */
module Otp {
  import opened Money
  import opened RateLimiters

  datatype Purpose = EmailVerification | PasswordReset

  datatype Status = Pending | Verified | Expired | Locked | Cancelled

  datatype Token = Token(
    id: string,
    email: string,
    purpose: Purpose,
    digest: string,
    expiresAt: int,
    attempts: int,
    status: Status,
    createdAt: int,
    lastResendAt: Option<int>)
  {
    function LastActivity(): int { if lastResendAt.Some? then lastResendAt.value else createdAt }

    predicate PendingFor(email: string, purpose: Purpose) {
      this.email == email && this.purpose == purpose && status == Pending
    }
  }

  type Digest = (string, Purpose, string) -> string

  const LIFETIME := 5 * 60 * SECOND
  const COOLDOWN := 60 * SECOND
  const MAX_ATTEMPTS := 5
  const RESEND_LIMIT := Limit(5, 3600)

  function PurposeName(p: Purpose): string {
    match p case EmailVerification => "EMAIL_VERIFICATION" case PasswordReset => "PASSWORD_RESET"
  }

  function ResendKey(email: string, purpose: Purpose): string {
    "otp_resend:" + email + ":" + PurposeName(purpose)
  }

  datatype Issue = Issued(id: string) | RateLimited(retryAfter: int) | CoolingDown(seconds: int) | DuplicateId

  datatype Answer =
    | NotFound
    | WrongPurpose
    | AlreadyUsed
    | IsLocked
    | Superseded
    | HasExpired
    | AttemptsExceeded
    | Incorrect(remaining: int)
    | IncorrectAndLocked
    | Correct

  // ----- Issuing

  /** The pending tokens of the pair from index `i` on, cancelled in order up to the first one still
      cooling down, whose instant of activity is returned. */
  function CancelFrom(tokens: seq<Token>, email: string, purpose: Purpose, now: int, i: nat): (seq<Token>, Option<int>)
    requires i <= |tokens|
    decreases |tokens| - i
  {
    if i == |tokens| then (tokens, None)
    else if !tokens[i].PendingFor(email, purpose) then CancelFrom(tokens, email, purpose, now, i + 1)
    else if now - tokens[i].LastActivity() < COOLDOWN then (tokens, Some(tokens[i].LastActivity()))
    else CancelFrom(tokens[i := tokens[i].(status := Cancelled)], email, purpose, now, i + 1)
  }

  function NewToken(id: string, email: string, purpose: Purpose, digest: string, now: int): Token {
    Token(id, email, purpose, digest, now + LIFETIME, 0, Pending, now, Some(now))
  }

  predicate HasId(tokens: seq<Token>, id: string) {
    exists i :: 0 <= i < |tokens| && tokens[i].id == id
  }

  function Resent(requests: Stored, key: string, now: int): Stored {
    requests[key := MemoryTimes(TimesAt(requests, key), RESEND_LIMIT, now)]
  }

  function IssueToken(
      tokens: seq<Token>, requests: Stored, email: string, purpose: Purpose, now: int, id: string, digest: string)
    : (seq<Token>, Issue)
  {
    match MemoryOutcome(TimesAt(requests, ResendKey(email, purpose)), RESEND_LIMIT, now)
    case Rejected(retryAfter) => (tokens, RateLimited(retryAfter))
    case IndexError => (tokens, RateLimited(0))
    case Admitted =>
      var (cancelled, busy) := CancelFrom(tokens, email, purpose, now, 0);
      if busy.Some? then (cancelled, CoolingDown(WholeSeconds(COOLDOWN - (now - busy.value))))
      else if HasId(tokens, id) then (tokens, DuplicateId)
      else (cancelled + [NewToken(id, email, purpose, digest, now)], Issued(id))
  }

  // ----- Verifying

  function IndexOf(tokens: seq<Token>, id: string): Option<nat> {
    if tokens == [] then None
    else
      var n := |tokens| - 1;
      if tokens[n].id == id then Some(n) else IndexOf(tokens[..n], id)
  }

  function CheckToken(t: Token, code: string, purpose: Purpose, now: int, hmac: Digest): (Token, Answer) {
    if t.purpose != purpose then (t, WrongPurpose)
    else if t.status == Verified then (t, AlreadyUsed)
    else if t.status == Locked then (t, IsLocked)
    else if t.status == Cancelled then (t, Superseded)
    else if now > t.expiresAt then (t.(status := Expired), HasExpired)
    else if t.attempts >= MAX_ATTEMPTS then (t.(status := Locked), AttemptsExceeded)
    else if hmac(t.email, t.purpose, code) == t.digest then (t.(status := Verified), Correct)
    else if t.attempts + 1 >= MAX_ATTEMPTS then
      (t.(attempts := t.attempts + 1, status := Locked), IncorrectAndLocked)
    else (t.(attempts := t.attempts + 1), Incorrect(MAX_ATTEMPTS - (t.attempts + 1)))
  }

  /** Whether the submitted code was compared with the token's. */
  predicate Compared(a: Answer) { a.Correct? || a.Incorrect? || a.IncorrectAndLocked? }

  function VerifyToken(tokens: seq<Token>, id: string, code: string, purpose: Purpose, now: int, hmac: Digest)
    : (seq<Token>, Answer)
  {
    var i := IndexOf(tokens, id);
    if i.None? || i.value >= |tokens| then (tokens, NotFound)
    else
      var (t, answer) := CheckToken(tokens[i.value], code, purpose, now, hmac);
      (tokens[i.value := t], answer)
  }

  // ----- The service

  class OtpService {
    var tokens: seq<Token>
    const limiter: InMemoryRateLimiter

    constructor ()
      ensures tokens == [] && limiter.requests == map[] && fresh(limiter)
    {
      tokens := [];
      limiter := new InMemoryRateLimiter();
    }

    method CreateVerificationToken(email: string, purpose: Purpose, now: int, id: string, digest: string)
      returns (issue: Issue)
      modifies this, limiter
      ensures (tokens, issue) == IssueToken(old(tokens), old(limiter.requests), email, purpose, now, id, digest)
      ensures limiter.requests == Resent(old(limiter.requests), ResendKey(email, purpose), now)
    {
      ghost var before := tokens;
      var outcome := limiter.CheckRateLimit(ResendKey(email, purpose), RESEND_LIMIT, now);
      if outcome != Admitted {
        return RateLimited(if outcome.Rejected? then outcome.retryAfter else 0);
      }
      var original := tokens;
      var i := 0;
      while i < |tokens|
        invariant 0 <= i <= |tokens| == |before|
        invariant CancelFrom(before, email, purpose, now, 0) == CancelFrom(tokens, email, purpose, now, i)
        invariant limiter.requests == Resent(old(limiter.requests), ResendKey(email, purpose), now)
        modifies this`tokens
      {
        var token := tokens[i];
        if token.PendingFor(email, purpose) {
          if now - token.LastActivity() < COOLDOWN {
            return CoolingDown(WholeSeconds(COOLDOWN - (now - token.LastActivity())));
          }
          tokens := tokens[i := token.(status := Cancelled)];
        }
        i := i + 1;
      }
      if HasId(original, id) {
        tokens := original;
        return DuplicateId;
      }
      tokens := tokens + [NewToken(id, email, purpose, digest, now)];
      issue := Issued(id);
    }

    method VerifyOtp(id: string, code: string, purpose: Purpose, now: int, hmac: Digest) returns (answer: Answer)
      modifies this`tokens
      ensures (tokens, answer) == VerifyToken(old(tokens), id, code, purpose, now, hmac)
    {
      var i := IndexOf(tokens, id);
      IndexOfFinds(tokens, id);
      if i.None? {
        return NotFound;
      }
      var token := tokens[i.value];
      assert tokens[i.value := token] == tokens;
      if token.purpose != purpose {
        return WrongPurpose;
      }
      match token.status {
        case Verified => return AlreadyUsed;
        case Locked => return IsLocked;
        case Cancelled => return Superseded;
        case Pending | Expired =>
      }
      if now > token.expiresAt {
        tokens := tokens[i.value := token.(status := Expired)];
        return HasExpired;
      }
      if token.attempts >= MAX_ATTEMPTS {
        tokens := tokens[i.value := token.(status := Locked)];
        return AttemptsExceeded;
      }
      var valid := hmac(token.email, token.purpose, code) == token.digest;
      if !valid {
        token := token.(attempts := token.attempts + 1);
        if token.attempts >= MAX_ATTEMPTS {
          tokens := tokens[i.value := token.(status := Locked)];
          return IncorrectAndLocked;
        }
        tokens := tokens[i.value := token];
        return Incorrect(MAX_ATTEMPTS - token.attempts);
      }
      tokens := tokens[i.value := token.(status := Verified)];
      answer := Correct;
    }
  }

  lemma {:induction false} IndexOfFinds(tokens: seq<Token>, id: string)
    ensures match IndexOf(tokens, id)
            case None => !HasId(tokens, id)
            case Some(i) => i < |tokens| && tokens[i].id == id
  {
    if tokens != [] {
      IndexOfFinds(tokens[..|tokens| - 1], id);
    }
  }

  // ----- Runs

  datatype Event =
    | Create(email: string, purpose: Purpose, now: int, id: string, digest: string)
    | Verify(id: string, code: string, purpose: Purpose, now: int)

  /** The state, with what happened so far: every code compared and every success by token, every
      resend attempt, and the instants at which tokens were issued per email and purpose. */
  datatype System = System(
    tokens: seq<Token>,
    requests: Stored,
    compared: multiset<string>,
    succeeded: multiset<string>,
    resends: seq<Attempt>,
    issues: map<(string, Purpose), seq<int>>)

  const START := System([], map[], multiset{}, multiset{}, [], map[])

  function IssuesFor(s: System, email: string, purpose: Purpose): seq<int> {
    if (email, purpose) in s.issues then s.issues[(email, purpose)] else []
  }

  function Next(s: System, e: Event, hmac: Digest): System {
    match e
    case Create(email, purpose, now, id, digest) =>
      var (tokens, issue) := IssueToken(s.tokens, s.requests, email, purpose, now, id, digest);
      var key := ResendKey(email, purpose);
      System(tokens, Resent(s.requests, key, now), s.compared, s.succeeded, s.resends + [Attempt(key, now)],
             if issue.Issued? then s.issues[(email, purpose) := IssuesFor(s, email, purpose) + [now]] else s.issues)
    case Verify(id, code, purpose, now) =>
      var (tokens, answer) := VerifyToken(s.tokens, id, code, purpose, now, hmac);
      s.(tokens := tokens,
         compared := if Compared(answer) then s.compared + multiset{id} else s.compared,
         succeeded := if answer.Correct? then s.succeeded + multiset{id} else s.succeeded)
  }

  function Run(events: seq<Event>, hmac: Digest): System {
    if events == [] then START else Next(Run(events[..|events| - 1], hmac), events[|events| - 1], hmac)
  }

  ghost predicate ClockRuns(events: seq<Event>) {
    forall i, j :: 0 <= i < j < |events| ==> events[i].now <= events[j].now
  }

  // ----- The life of a token

  /** What holds of one token, its comparisons and its successes, at an instant. */
  ghost predicate TokenInv(t: Token, compared: nat, succeeded: nat, now: int) {
    && 0 <= t.attempts <= MAX_ATTEMPTS
    && (t.attempts == MAX_ATTEMPTS ==> t.status == Locked)
    && compared == t.attempts + (if t.status == Verified then 1 else 0)
    && succeeded == (if t.status == Verified then 1 else 0)
    && (t.status == Expired ==> t.expiresAt < now)
    && t.lastResendAt == Some(t.createdAt) && t.createdAt <= now
    && t.expiresAt == t.createdAt + LIFETIME
  }

  ghost predicate UniqueIds(tokens: seq<Token>) {
    forall i, j :: 0 <= i < j < |tokens| ==> tokens[i].id != tokens[j].id
  }

  ghost predicate OnePending(tokens: seq<Token>) {
    forall i, j :: 0 <= i < j < |tokens| && tokens[i].status == Pending && tokens[j].status == Pending ==>
      (tokens[i].email, tokens[i].purpose) != (tokens[j].email, tokens[j].purpose)
  }

  /** Every token's history fits it, and an id without a token has none. */
  ghost predicate Counted(tokens: seq<Token>, compared: multiset<string>, succeeded: multiset<string>, now: int) {
    && (forall i :: 0 <= i < |tokens| ==>
          TokenInv(tokens[i], compared[tokens[i].id], succeeded[tokens[i].id], now))
    && (forall id :: !HasId(tokens, id) ==> compared[id] == succeeded[id] == 0)
  }

  ghost predicate TokensInv(s: System, now: int) {
    UniqueIds(s.tokens) && OnePending(s.tokens) && Counted(s.tokens, s.compared, s.succeeded, now)
  }

  /** What one call may do to a token: it keeps its identity, and one no longer pending is final. */
  predicate Evolves(t: Token, u: Token) {
    && (u.id, u.email, u.purpose) == (t.id, t.email, t.purpose)
    && (t.status != Pending ==> u == t)
  }

  ghost predicate AllEvolve(before: seq<Token>, after: seq<Token>) {
    |before| <= |after| && forall i :: 0 <= i < |before| ==> Evolves(before[i], after[i])
  }

  lemma EvolvingKeeps(before: seq<Token>, after: seq<Token>)
    requires |before| == |after| && AllEvolve(before, after) && UniqueIds(before) && OnePending(before)
    ensures UniqueIds(after) && OnePending(after)
    ensures forall id :: HasId(after, id) <==> HasId(before, id)
  {
    forall i, j | 0 <= i < j < |after|
      ensures after[i].id != after[j].id
      ensures after[i].status == Pending && after[j].status == Pending ==>
                (after[i].email, after[i].purpose) != (after[j].email, after[j].purpose)
    {
      assert Evolves(before[i], after[i]) && Evolves(before[j], after[j]);
    }
    forall id ensures HasId(after, id) <==> HasId(before, id) {
      if i :| 0 <= i < |after| && after[i].id == id {
        assert Evolves(before[i], after[i]);
      }
      if i :| 0 <= i < |before| && before[i].id == id {
        assert Evolves(before[i], after[i]);
      }
    }
  }

  lemma CheckKeepsToken(t: Token, compared: nat, succeeded: nat, before: int, now: int,
                        code: string, purpose: Purpose, hmac: Digest)
    requires TokenInv(t, compared, succeeded, before) && before <= now
    ensures var (u, a) := CheckToken(t, code, purpose, now, hmac);
            && TokenInv(u, compared + (if Compared(a) then 1 else 0), succeeded + (if a.Correct? then 1 else 0), now)
            && (t.status != Pending ==> u == t)
            && (u.id, u.email, u.purpose) == (t.id, t.email, t.purpose)
            && (a.Correct? ==> t.status == Pending && now <= t.expiresAt && hmac(t.email, t.purpose, code) == t.digest)
  {
  }

  lemma VerifyKeepsInv(s: System, e: Event, hmac: Digest, before: int)
    requires e.Verify? && TokensInv(s, before) && before <= e.now
    ensures TokensInv(Next(s, e, hmac), e.now) && AllEvolve(s.tokens, Next(s, e, hmac).tokens)
  {
    IndexOfFinds(s.tokens, e.id);
    TokensAge(s, before, e.now);
    var i := IndexOf(s.tokens, e.id);
    if i.Some? {
      var t := s.tokens[i.value];
      CheckKeepsToken(t, s.compared[e.id], s.succeeded[e.id], before, e.now, e.code, e.purpose, hmac);
      var (u, answer) := CheckToken(t, e.code, e.purpose, e.now, hmac);
      hide CheckToken, TokenInv;
      EvolvingKeeps(s.tokens, s.tokens[i.value := u]);
      CountedStep(s, i.value, u, answer, e.now);
    }
  }

  lemma CountedStep(s: System, i: nat, u: Token, answer: Answer, now: int)
    requires i < |s.tokens| && UniqueIds(s.tokens) && Counted(s.tokens, s.compared, s.succeeded, now)
    requires Evolves(s.tokens[i], u)
    requires TokenInv(u, s.compared[u.id] + (if Compared(answer) then 1 else 0),
                      s.succeeded[u.id] + (if answer.Correct? then 1 else 0), now)
    requires forall id :: HasId(s.tokens[i := u], id) <==> HasId(s.tokens, id)
    ensures Counted(s.tokens[i := u],
                    if Compared(answer) then s.compared + multiset{u.id} else s.compared,
                    if answer.Correct? then s.succeeded + multiset{u.id} else s.succeeded, now)
  {
    hide TokenInv;
    assert HasId(s.tokens, u.id);
    forall j | 0 <= j < |s.tokens| && j != i ensures s.tokens[j].id != u.id {
    }
    hide HasId;
  }

  lemma TokensAge(s: System, before: int, now: int)
    requires TokensInv(s, before) && before <= now
    ensures TokensInv(s, now)
  {
  }

  // ----- Issuing, over runs

  /** What one pass over the pending tokens of a pair does. */
  lemma {:induction false} CancelShape(tokens: seq<Token>, email: string, purpose: Purpose, now: int, i: nat)
    requires i <= |tokens|
    ensures var (after, busy) := CancelFrom(tokens, email, purpose, now, i);
            && |after| == |tokens|
            && (forall j :: 0 <= j < |tokens| ==>
                  after[j] == tokens[j]
                  || (i <= j && tokens[j].PendingFor(email, purpose) && COOLDOWN <= now - tokens[j].LastActivity()
                      && after[j] == tokens[j].(status := Cancelled)))
            && (busy.None? ==> forall j :: i <= j < |tokens| ==> !after[j].PendingFor(email, purpose))
            && (busy.Some? ==>
                  exists j :: i <= j < |tokens| && tokens[j].PendingFor(email, purpose)
                              && now - tokens[j].LastActivity() < COOLDOWN && after[j] == tokens[j])
    decreases |tokens| - i
  {
    if i < |tokens| {
      if !tokens[i].PendingFor(email, purpose) {
        CancelShape(tokens, email, purpose, now, i + 1);
      } else if COOLDOWN <= now - tokens[i].LastActivity() {
        CancelShape(tokens[i := tokens[i].(status := Cancelled)], email, purpose, now, i + 1);
      }
    }
  }

  /** With one pending token per pair, a cooling-down request leaves every token as it was. */
  lemma CooldownChangesNothing(tokens: seq<Token>, email: string, purpose: Purpose, now: int)
    requires OnePending(tokens)
    ensures var (after, busy) := CancelFrom(tokens, email, purpose, now, 0);
            busy.Some? ==> after == tokens
  {
    CancelShape(tokens, email, purpose, now, 0);
    var (after, busy) := CancelFrom(tokens, email, purpose, now, 0);
    hide CancelFrom;
    if busy.Some? {
      var k :| 0 <= k < |tokens| && tokens[k].PendingFor(email, purpose) && after[k] == tokens[k];
      forall j | 0 <= j < |tokens| ensures after[j] == tokens[j] {
        if j < k {
          assert !tokens[j].PendingFor(email, purpose);
        } else if k < j {
          assert !tokens[j].PendingFor(email, purpose);
        }
      }
    }
  }

  /** The tokens after a request that got past the limiter and the cooldown. */
  ghost predicate Superseding(before: seq<Token>, after: seq<Token>, email: string, purpose: Purpose, now: int) {
    && |after| == |before|
    && (forall j :: 0 <= j < |before| ==>
          after[j] == before[j]
          || (before[j].PendingFor(email, purpose) && COOLDOWN <= now - before[j].LastActivity()
              && after[j] == before[j].(status := Cancelled)))
    && forall j :: 0 <= j < |before| ==> !after[j].PendingFor(email, purpose)
  }

  lemma IssueShape(
      tokens: seq<Token>, requests: Stored, email: string, purpose: Purpose, now: int, id: string, digest: string)
    requires OnePending(tokens)
    ensures var (after, issue) := IssueToken(tokens, requests, email, purpose, now, id, digest);
            && (!issue.Issued? ==> after == tokens)
            && (issue.Issued? ==>
                  && MemoryOutcome(TimesAt(requests, ResendKey(email, purpose)), RESEND_LIMIT, now) == Admitted
                  && !HasId(tokens, id) && issue.id == id
                  && |after| == |tokens| + 1
                  && Superseding(tokens, after[..|tokens|], email, purpose, now)
                  && after[|tokens|] == NewToken(id, email, purpose, digest, now))
  {
    CooldownChangesNothing(tokens, email, purpose, now);
    CancelShape(tokens, email, purpose, now, 0);
    hide CancelFrom, MemoryOutcome;
    var cancelled := CancelFrom(tokens, email, purpose, now, 0).0;
    assert (cancelled + [NewToken(id, email, purpose, digest, now)])[..|tokens|] == cancelled;
  }

  lemma AppendKeeps(tokens: seq<Token>, t: Token)
    requires UniqueIds(tokens) && OnePending(tokens) && !HasId(tokens, t.id)
    requires forall j :: 0 <= j < |tokens| ==> !tokens[j].PendingFor(t.email, t.purpose)
    ensures UniqueIds(tokens + [t]) && OnePending(tokens + [t])
    ensures forall id :: HasId(tokens, id) ==> HasId(tokens + [t], id)
  {
    forall id | HasId(tokens, id) ensures HasId(tokens + [t], id) {
      var i :| 0 <= i < |tokens| && tokens[i].id == id;
      assert (tokens + [t])[i].id == id;
    }
  }

  lemma CountedAppend(tokens: seq<Token>, t: Token, compared: multiset<string>, succeeded: multiset<string>, now: int)
    requires Counted(tokens, compared, succeeded, now) && !HasId(tokens, t.id)
    requires forall id :: HasId(tokens, id) ==> HasId(tokens + [t], id)
    requires TokenInv(t, 0, 0, now)
    ensures Counted(tokens + [t], compared, succeeded, now)
  {
    hide TokenInv;
  }

  lemma CancelledCounted(before: seq<Token>, after: seq<Token>, email: string, purpose: Purpose, now: int,
                         compared: multiset<string>, succeeded: multiset<string>)
    requires Counted(before, compared, succeeded, now) && Superseding(before, after, email, purpose, now)
    requires forall id :: HasId(after, id) <==> HasId(before, id)
    ensures Counted(after, compared, succeeded, now)
  {
    hide HasId;
    forall j | 0 <= j < |after| ensures TokenInv(after[j], compared[after[j].id], succeeded[after[j].id], now) {
      assert TokenInv(before[j], compared[before[j].id], succeeded[before[j].id], now);
    }
  }

  lemma SupersedingEvolves(before: seq<Token>, after: seq<Token>, email: string, purpose: Purpose, now: int)
    requires Superseding(before, after, email, purpose, now)
    ensures AllEvolve(before, after)
    ensures forall j :: 0 <= j < |after| ==> !after[j].PendingFor(email, purpose)
  {
  }

  lemma CreateKeepsInv(s: System, e: Event, hmac: Digest, before: int)
    requires e.Create? && TokensInv(s, before) && before <= e.now
    ensures TokensInv(Next(s, e, hmac), e.now) && AllEvolve(s.tokens, Next(s, e, hmac).tokens)
  {
    hide IssueToken, MemoryOutcome, MemoryTimes, TokenInv, Counted, HasId, UniqueIds, OnePending, Resent, Superseding;
    TokensAge(s, before, e.now);
    IssueShape(s.tokens, s.requests, e.email, e.purpose, e.now, e.id, e.digest);
    var after := Next(s, e, hmac).tokens;
    if |after| > |s.tokens| {
      var n := |s.tokens|;
      var t := NewToken(e.id, e.email, e.purpose, e.digest, e.now);
      assert after == after[..n] + [t];
      SupersedingEvolves(s.tokens, after[..n], e.email, e.purpose, e.now);
      EvolvingKeeps(s.tokens, after[..n]);
      CancelledCounted(s.tokens, after[..n], e.email, e.purpose, e.now, s.compared, s.succeeded);
      AppendKeeps(after[..n], t);
      NewTokenInv(e.id, e.email, e.purpose, e.digest, e.now);
      CountedAppend(after[..n], t, s.compared, s.succeeded, e.now);
    }
  }

  lemma NewTokenInv(id: string, email: string, purpose: Purpose, digest: string, now: int)
    ensures TokenInv(NewToken(id, email, purpose, digest, now), 0, 0, now)
  {
  }

  // ----- Over any run

  lemma NoTokensYet(now: int)
    ensures TokensInv(START, now)
  {
  }

  lemma {:induction false} RunKeepsTokens(events: seq<Event>, hmac: Digest, now: int)
    requires ClockRuns(events) && forall i :: 0 <= i < |events| ==> events[i].now <= now
    ensures TokensInv(Run(events, hmac), now)
  {
    hide TokensInv, Next;
    if events == [] {
      NoTokensYet(now);
    } else {
      var n := |events| - 1;
      var e := events[n];
      RunKeepsTokens(events[..n], hmac, e.now);
      var s := Run(events[..n], hmac);
      if e.Create? {
        CreateKeepsInv(s, e, hmac, e.now);
      } else {
        VerifyKeepsInv(s, e, hmac, e.now);
      }
      TokensAge(Next(s, e, hmac), e.now, now);
    }
  }

  /** Over any run no token has more than five codes compared with it, and none succeeds twice. */
  lemma TokenLife(events: seq<Event>, hmac: Digest, id: string)
    requires ClockRuns(events)
    ensures Run(events, hmac).compared[id] <= MAX_ATTEMPTS
    ensures Run(events, hmac).succeeded[id] <= 1
  {
    var now := if events == [] then 0 else events[|events| - 1].now;
    RunKeepsTokens(events, hmac, now);
    hide Run;
    var s := Run(events, hmac);
    if HasId(s.tokens, id) {
      var i :| 0 <= i < |s.tokens| && s.tokens[i].id == id;
      assert TokenInv(s.tokens[i], s.compared[id], s.succeeded[id], now);
    }
  }

  ghost predicate ClockReaches(events: seq<Event>, e: Event) {
    ClockRuns(events) && forall i :: 0 <= i < |events| ==> events[i].now <= e.now
  }

  /** Once verified, locked, cancelled or expired, a token never changes again, whatever is called
      next; and there is never more than one pending token for an email and purpose. */
  lemma FinalIsFinal(events: seq<Event>, e: Event, hmac: Digest)
    requires ClockReaches(events, e)
    ensures AllEvolve(Run(events, hmac).tokens, Next(Run(events, hmac), e, hmac).tokens)
    ensures OnePending(Next(Run(events, hmac), e, hmac).tokens)
  {
    RunKeepsTokens(events, hmac, e.now);
    hide Next, Run;
    if e.Create? {
      CreateKeepsInv(Run(events, hmac), e, hmac, e.now);
    } else {
      VerifyKeepsInv(Run(events, hmac), e, hmac, e.now);
    }
  }

  /** A code is accepted only for a pending token that has not expired and whose digest it has; the
      token, found by its id, is then verified and no other token moves. */
  lemma SuccessIsEarned(events: seq<Event>, e: Event, hmac: Digest)
    requires ClockReaches(events, e) && e.Verify?
    ensures var before := Run(events, hmac).tokens;
            var (after, answer) := VerifyToken(before, e.id, e.code, e.purpose, e.now, hmac);
            answer.Correct? ==>
              exists i :: 0 <= i < |before| && before[i].id == e.id
                          && before[i].status == Pending && before[i].purpose == e.purpose
                          && e.now <= before[i].expiresAt
                          && hmac(before[i].email, e.purpose, e.code) == before[i].digest
                          && after == before[i := before[i].(status := Verified)]
  {
    RunKeepsTokens(events, hmac, e.now);
    hide Run;
    var s := Run(events, hmac);
    IndexOfFinds(s.tokens, e.id);
    var i := IndexOf(s.tokens, e.id);
    if i.Some? {
      var t := s.tokens[i.value];
      assert TokenInv(t, s.compared[t.id], s.succeeded[t.id], e.now);
      CheckKeepsToken(t, s.compared[t.id], s.succeeded[t.id], e.now, e.now, e.code, e.purpose, hmac);
    }
  }

  /** A refused request changes no token. A granted one cancels the pair's pending token, if there
      is one, which was then at least the cooldown old, and adds one pending token. */
  lemma IssueSupersedes(events: seq<Event>, e: Event, hmac: Digest)
    requires ClockReaches(events, e) && e.Create?
    ensures var s := Run(events, hmac);
            var (after, issue) := IssueToken(s.tokens, s.requests, e.email, e.purpose, e.now, e.id, e.digest);
            && (!issue.Issued? ==> after == s.tokens)
            && (issue.Issued? ==>
                  && |after| == |s.tokens| + 1
                  && after[|s.tokens|] == NewToken(e.id, e.email, e.purpose, e.digest, e.now)
                  && forall j :: 0 <= j < |s.tokens| ==>
                       if s.tokens[j].PendingFor(e.email, e.purpose)
                       then s.tokens[j].createdAt + COOLDOWN <= e.now
                            && after[j] == s.tokens[j].(status := Cancelled)
                       else after[j] == s.tokens[j])
  {
    RunKeepsTokens(events, hmac, e.now);
    hide Run, IssueToken, MemoryOutcome;
    var s := Run(events, hmac);
    IssueShape(s.tokens, s.requests, e.email, e.purpose, e.now, e.id, e.digest);
    var (after, issue) := IssueToken(s.tokens, s.requests, e.email, e.purpose, e.now, e.id, e.digest);
    if issue.Issued? {
      forall j | 0 <= j < |s.tokens|
        ensures if s.tokens[j].PendingFor(e.email, e.purpose)
                then s.tokens[j].createdAt + COOLDOWN <= e.now && after[j] == s.tokens[j].(status := Cancelled)
                else after[j] == s.tokens[j]
      {
        assert after[..|s.tokens|][j] == after[j];
        assert TokenInv(s.tokens[j], s.compared[s.tokens[j].id], s.succeeded[s.tokens[j].id], e.now);
      }
    }
  }

  // ----- At most five an hour

  function ResendPolicy(): Policy { (key: string) => RESEND_LIMIT }

  /** The limiter's state is the run of the resend attempts, made in clock order. */
  ghost predicate ResendsRun(s: System, now: int) {
    && s.requests == RunMemory(s.resends, ResendPolicy()).requests
    && ClockOrdered(s.resends) && (forall i :: 0 <= i < |s.resends| ==> s.resends[i].now <= now)
  }

  function AdmittedFor(s: System, email: string, purpose: Purpose): seq<int> {
    AdmittedTimes(s.resends, ResendPolicy(), ResendKey(email, purpose))
  }

  /** Window by window there are no more issues than admitted attempts, and they are spaced. */
  ghost predicate IssuesFit(issues: seq<int>, admitted: seq<int>, now: int) {
    && Ordered(issues) && (forall i :: 0 <= i < |issues| ==> issues[i] <= now)
    && (forall cutoff :: |After(issues, cutoff)| <= |After(admitted, cutoff)|)
    && Spaced(issues, RESEND_LIMIT)
  }

  lemma SpacedAppend(times: seq<int>, now: int)
    requires Ordered(times) && Spaced(times, RESEND_LIMIT)
    requires |After(times, Cutoff(now, RESEND_LIMIT))| < RESEND_LIMIT.max
    ensures Spaced(times + [now], RESEND_LIMIT)
  {
    var k := AfterSplits(times, Cutoff(now, RESEND_LIMIT));
    hide After;
  }

  lemma IssuesFitStep(issues: seq<int>, admitted: seq<int>, before: int, now: int, issued: bool)
    requires IssuesFit(issues, admitted, before) && before <= now
    requires issued ==> |After(admitted, Cutoff(now, RESEND_LIMIT))| < RESEND_LIMIT.max
    ensures IssuesFit(if issued then issues + [now] else issues, admitted + [now], now)
    ensures IssuesFit(issues, admitted, now)
  {
    hide After;
    forall cutoff
      ensures |After(issues, cutoff)| <= |After(admitted + [now], cutoff)|
      ensures |After(issues + [now], cutoff)| <= |After(admitted + [now], cutoff)|
    {
      AfterAppend(issues, now, cutoff);
      AfterAppend(admitted, now, cutoff);
    }
    if issued {
      SpacedAppend(issues, now);
    }
  }

  /** One resend attempt: how the limiter's run and the admissions of a pair go on. */
  lemma ResendStep(s: System, e: Event, hmac: Digest, email: string, purpose: Purpose, before: int)
    requires e.Create? && ResendsRun(s, before) && before <= e.now
    ensures var key := ResendKey(e.email, e.purpose);
            var outcome := MemoryOutcome(TimesAt(s.requests, key), RESEND_LIMIT, e.now);
            var after := Next(s, e, hmac);
            && ResendsRun(after, e.now)
            && AdmittedFor(after, email, purpose)
               == (if key == ResendKey(email, purpose) && outcome == Admitted
                   then AdmittedFor(s, email, purpose) + [e.now]
                   else AdmittedFor(s, email, purpose))
            && (outcome == Admitted ==>
                  |After(AdmittedFor(s, e.email, e.purpose), Cutoff(e.now, RESEND_LIMIT))| < RESEND_LIMIT.max)
  {
    hide RunMemory, After, MemoryOutcome, AdmittedTimes, MemoryTimes;
    var a := Attempt(ResendKey(e.email, e.purpose), e.now);
    var after := Next(s, e, hmac);
    assert after.resends == s.resends + [a] && after.requests == Resent(s.requests, a.key, e.now) by {
      hide IssueToken, Resent;
    }
    hide Next;
    RunStep(s.resends, a, ResendPolicy());
    AdmittedStep(s.resends, a, ResendKey(email, purpose));
    RoomInWindow(s, a, before);
  }

  lemma AdmittedStep(resends: seq<Attempt>, a: Attempt, key: string)
    ensures var stored := TimesAt(RunMemory(resends, ResendPolicy()).requests, a.key);
            var outcome := MemoryOutcome(stored, RESEND_LIMIT, a.now);
            AdmittedTimes(resends + [a], ResendPolicy(), key)
            == (if a.key == key && outcome == Admitted then AdmittedTimes(resends, ResendPolicy(), key) + [a.now]
                else AdmittedTimes(resends, ResendPolicy(), key))
  {
    RunStep(resends, a, ResendPolicy());
    hide RunMemory, MemoryOutcome;
    assert (resends + [a])[..|resends|] == resends;
  }

  /** An admitted attempt finds fewer than five admissions in its window. */
  lemma RoomInWindow(s: System, a: Attempt, before: int)
    requires ResendsRun(s, before) && before <= a.now
    ensures MemoryOutcome(TimesAt(s.requests, a.key), RESEND_LIMIT, a.now) == Admitted ==>
              |After(AdmittedTimes(s.resends, ResendPolicy(), a.key), Cutoff(a.now, RESEND_LIMIT))| < RESEND_LIMIT.max
  {
    SlidingWindow(s.resends, ResendPolicy(), a.key);
    LastAttemptSeen(s.resends, a.key);
    hide After, RunMemory, AdmittedTimes, LastAttempt;
    var k := WindowKept(AdmittedTimes(s.resends, ResendPolicy(), a.key), TimesAt(s.requests, a.key),
                        LastAttempt(s.resends, a.key), RESEND_LIMIT, a.now);
  }

  ghost predicate IssuesInv(s: System, email: string, purpose: Purpose, now: int) {
    ResendsRun(s, now) && IssuesFit(IssuesFor(s, email, purpose), AdmittedFor(s, email, purpose), now)
  }

  lemma IssuesStep(s: System, e: Event, hmac: Digest, email: string, purpose: Purpose, before: int)
    requires IssuesInv(s, email, purpose, before) && before <= e.now
    ensures IssuesInv(Next(s, e, hmac), email, purpose, e.now)
  {
    if e.Create? {
      ResendStep(s, e, hmac, email, purpose, before);
      var issued := IssueToken(s.tokens, s.requests, e.email, e.purpose, e.now, e.id, e.digest).1.Issued?
                    && (e.email, e.purpose) == (email, purpose);
      var key := ResendKey(e.email, e.purpose);
      assert issued ==> MemoryOutcome(TimesAt(s.requests, key), RESEND_LIMIT, e.now) == Admitted;
      var after := Next(s, e, hmac);
      assert IssuesFor(after, email, purpose)
             == if issued then IssuesFor(s, email, purpose) + [e.now] else IssuesFor(s, email, purpose);
      hide Next, IssueToken, MemoryOutcome, ResendsRun, IssuesFit, After, IssuesFor, AdmittedFor;
      IssuesFitStep(IssuesFor(s, email, purpose), AdmittedFor(s, email, purpose), before, e.now, issued);
    } else {
      hide IssuesFor, AdmittedFor, After, RunMemory;
    }
  }

  lemma {:induction false} RunKeepsIssues(events: seq<Event>, hmac: Digest, email: string, purpose: Purpose, now: int)
    requires ClockRuns(events) && forall i :: 0 <= i < |events| ==> events[i].now <= now
    ensures IssuesInv(Run(events, hmac), email, purpose, now)
  {
    if events != [] {
      var n := |events| - 1;
      var e := events[n];
      RunKeepsIssues(events[..n], hmac, email, purpose, e.now);
      hide IssuesInv, Next;
      IssuesStep(Run(events[..n], hmac), e, hmac, email, purpose, e.now);
      IssuesAge(Next(Run(events[..n], hmac), e, hmac), email, purpose, e.now, now);
    }
  }

  lemma IssuesAge(s: System, email: string, purpose: Purpose, before: int, now: int)
    requires IssuesInv(s, email, purpose, before) && before <= now
    ensures IssuesInv(s, email, purpose, now)
  {
    hide After, RunMemory;
  }

  /** Over any run, the tokens issued for an email and purpose are such that any six in a row span
      at least an hour. */
  lemma FiveAnHour(events: seq<Event>, hmac: Digest, email: string, purpose: Purpose)
    requires ClockRuns(events)
    ensures var issues := IssuesFor(Run(events, hmac), email, purpose);
            forall i :: 0 <= i < |issues| - 5 ==> 3600 * SECOND <= issues[i + 5] - issues[i]
  {
    var now := if events == [] then 0 else events[|events| - 1].now;
    RunKeepsIssues(events, hmac, email, purpose, now);
    hide Run, After;
  }
}

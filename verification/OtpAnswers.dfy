/**
 What a request for a code and a submitted code are answered, over every run of the service, told from
 the tokens there are and from the codes that were submitted.
 */
module OtpAnswers {
  import opened Money
  import opened RateLimiters
  import opened Otp

  // ----- Submitting a code

  /** Some token with the id has the property. */
  ghost predicate TokenWith(tokens: seq<Token>, id: string, p: Token -> bool) {
    exists i :: 0 <= i < |tokens| && tokens[i].id == id && p(tokens[i])
  }

  /** Codes are still compared with this token. */
  predicate Open(t: Token, purpose: Purpose, now: int) {
    t.purpose == purpose && t.status == Pending && now <= t.expiresAt
  }

  predicate Matches(t: Token, code: string, hmac: Digest) { hmac(t.email, t.purpose, code) == t.digest }

  lemma OnlyOne(tokens: seq<Token>, id: string, i: nat)
    requires UniqueIds(tokens) && i < |tokens| && tokens[i].id == id
    ensures IndexOf(tokens, id) == Some(i)
    ensures forall j :: 0 <= j < |tokens| && tokens[j].id == id ==> j == i
    ensures forall p: Token -> bool :: TokenWith(tokens, id, p) <==> p(tokens[i])
  {
    IndexOfFinds(tokens, id);
    hide IndexOf;
    assert HasId(tokens, id);
  }

  /** What the token under the identifier becomes, and the answer, when a code is submitted for it. */
  ghost predicate Submitted(t: Token, u: Token, a: Answer, code: string, purpose: Purpose, now: int, hmac: Digest) {
    var open, right := Open(t, purpose, now), Matches(t, code, hmac);
    && (u.id, u.email, u.purpose, u.digest) == (t.id, t.email, t.purpose, t.digest)
    && (u.expiresAt, u.createdAt, u.lastResendAt) == (t.expiresAt, t.createdAt, t.lastResendAt)
    && u.attempts == (if open && !right then t.attempts + 1 else t.attempts)
    && (open && right ==> u.status == Verified)
    && (open && !right ==> u.status == (if t.attempts == 4 then Locked else Pending))
    && (t.purpose == purpose && t.status == Pending && now > t.expiresAt ==> u.status == Expired)
    && (t.purpose != purpose || t.status != Pending ==> u.status == t.status)
    && (a == Correct <==> open && right)
    && (a == WrongPurpose <==> t.purpose != purpose)
    && (a == AlreadyUsed <==> t.purpose == purpose && t.status == Verified)
    && (a == IsLocked <==> t.purpose == purpose && t.status == Locked)
    && (a == Superseded <==> t.purpose == purpose && t.status == Cancelled)
    && (a == HasExpired <==> t.purpose == purpose && t.status in {Pending, Expired} && now > t.expiresAt)
    && (a == IncorrectAndLocked <==> open && !right && t.attempts == 4)
    && (a.Incorrect? <==> open && !right && t.attempts < 4)
    && (a.Incorrect? ==> a.remaining == 4 - t.attempts)
    && a != NotFound && a != AttemptsExceeded
  }

  lemma SubmittedToken(t: Token, compared: nat, succeeded: nat, code: string, purpose: Purpose, now: int, hmac: Digest)
    requires TokenInv(t, compared, succeeded, now)
    ensures var (u, a) := CheckToken(t, code, purpose, now, hmac);
            Submitted(t, u, a, code, purpose, now, hmac)
  {
  }

  /** Over any run: a submitted code is answered by what became of the one token with its id, and no
      other token moves; without such a token nothing is found. */
  lemma SubmissionOverRuns(events: seq<Event>, e: Event, hmac: Digest)
    requires ClockReaches(events, e) && e.Verify?
    ensures var before := Run(events, hmac).tokens;
            var (after, a) := VerifyToken(before, e.id, e.code, e.purpose, e.now, hmac);
            && UniqueIds(before) && |after| == |before|
            && (a == NotFound <==> !HasId(before, e.id))
            && forall j :: 0 <= j < |before| ==>
                 if before[j].id == e.id then Submitted(before[j], after[j], a, e.code, e.purpose, e.now, hmac)
                 else after[j] == before[j]
  {
    RunKeepsTokens(events, hmac, e.now);
    hide Run, Submitted, CheckToken, IndexOf;
    var s := Run(events, hmac);
    IndexOfFinds(s.tokens, e.id);
    var i := IndexOf(s.tokens, e.id);
    if i.Some? {
      var t := s.tokens[i.value];
      OnlyOne(s.tokens, e.id, i.value);
      assert TokenInv(t, s.compared[t.id], s.succeeded[t.id], e.now);
      SubmittedToken(t, s.compared[t.id], s.succeeded[t.id], e.code, e.purpose, e.now, hmac);
      FoundIsNotMissing(t, e.code, e.purpose, e.now, hmac);
    }
  }

  lemma FoundIsNotMissing(t: Token, code: string, purpose: Purpose, now: int, hmac: Digest)
    ensures CheckToken(t, code, purpose, now, hmac).1 != NotFound
  {
  }

  /** Over any run: when a code is compared. It is accepted exactly when a token with the id and the
      purpose is pending, has not expired and has the digest of the code; the fifth wrong code locks it,
      and the limit is never found passed. */
  lemma AnswersExactly(events: seq<Event>, e: Event, hmac: Digest)
    requires ClockReaches(events, e) && e.Verify?
    ensures var tokens := Run(events, hmac).tokens;
            var a := VerifyToken(tokens, e.id, e.code, e.purpose, e.now, hmac).1;
            && (a == Correct <==>
                TokenWith(tokens, e.id, (t: Token) => Open(t, e.purpose, e.now) && Matches(t, e.code, hmac)))
            && (a == IncorrectAndLocked <==>
                TokenWith(tokens, e.id, (t: Token) =>
                  Open(t, e.purpose, e.now) && !Matches(t, e.code, hmac) && t.attempts == 4))
            && (a.Incorrect? <==>
                TokenWith(tokens, e.id, (t: Token) =>
                  Open(t, e.purpose, e.now) && !Matches(t, e.code, hmac) && t.attempts < 4))
            && (a.Incorrect? ==> TokenWith(tokens, e.id, (t: Token) => a.remaining == 4 - t.attempts))
            && a != AttemptsExceeded
  {
    SubmissionOverRuns(events, e, hmac);
    hide Run, VerifyToken, UniqueIds, IndexOf;
    var tokens := Run(events, hmac).tokens;
    if HasId(tokens, e.id) {
      var i :| 0 <= i < |tokens| && tokens[i].id == e.id;
      OnlyOne(tokens, e.id, i);
      hide TokenWith, Open, Matches;
    }
  }

  /** And when a code is refused unseen: each refusal names what is wrong with the token. */
  lemma RefusalsExactly(events: seq<Event>, e: Event, hmac: Digest)
    requires ClockReaches(events, e) && e.Verify?
    ensures var tokens := Run(events, hmac).tokens;
            var a := VerifyToken(tokens, e.id, e.code, e.purpose, e.now, hmac).1;
            && (a == NotFound <==> !TokenWith(tokens, e.id, (t: Token) => true))
            && (a == WrongPurpose <==> TokenWith(tokens, e.id, (t: Token) => t.purpose != e.purpose))
            && (a == AlreadyUsed <==>
                TokenWith(tokens, e.id, (t: Token) => t.purpose == e.purpose && t.status == Verified))
            && (a == IsLocked <==>
                TokenWith(tokens, e.id, (t: Token) => t.purpose == e.purpose && t.status == Locked))
            && (a == Superseded <==>
                TokenWith(tokens, e.id, (t: Token) => t.purpose == e.purpose && t.status == Cancelled))
            && (a == HasExpired <==>
                TokenWith(tokens, e.id, (t: Token) =>
                  t.purpose == e.purpose && t.status in {Pending, Expired} && t.expiresAt < e.now))
  {
    SubmissionOverRuns(events, e, hmac);
    hide Run, VerifyToken, UniqueIds, IndexOf;
    var tokens := Run(events, hmac).tokens;
    if HasId(tokens, e.id) {
      var i :| 0 <= i < |tokens| && tokens[i].id == e.id;
      OnlyOne(tokens, e.id, i);
      hide TokenWith, Open, Matches;
    }
  }

  // ----- From the request to the answer

  /** A submission in time of a code that is not the one sent. */
  predicate WrongTry(e: Event, created: Event, hmac: Digest)
    requires created.Create?
  {
    && e.Verify? && e.id == created.id && e.purpose == created.purpose
    && e.now <= created.now + 5 * 60 * 1_000_000
    && hmac(created.email, created.purpose, e.code) != created.digest
  }

  function WrongTries(events: seq<Event>, created: Event, hmac: Digest): nat
    requires created.Create?
  {
    if events == [] then 0
    else
      var n := |events| - 1;
      WrongTries(events[..n], created, hmac) + (if WrongTry(events[n], created, hmac) then 1 else 0)
  }

  /** No other code is asked for the pair, except within the minute in which that is refused, and the
      code that was sent is not submitted for its purpose. */
  predicate Undisturbed(e: Event, created: Event, hmac: Digest)
    requires created.Create?
  {
    match e
    case Create(email, purpose, now, _, _) =>
      (email, purpose) != (created.email, created.purpose) || now < created.now + 60 * 1_000_000
    case Verify(id, code, purpose, _) =>
      id != created.id || purpose != created.purpose
      || hmac(created.email, created.purpose, code) != created.digest
  }

  /** The token of a request after so many wrong codes. */
  ghost predicate AfterTries(t: Token, created: Event, wrong: nat)
    requires created.Create?
  {
    && (t.id, t.email, t.purpose) == (created.id, created.email, created.purpose)
    && t.digest == created.digest && t.expiresAt == created.now + 5 * 60 * 1_000_000
    && t.createdAt == created.now && t.lastResendAt == Some(created.now)
    && t.attempts == (if wrong < 5 then wrong else 5)
    && (wrong >= 5 ==> t.status == Locked)
    && (wrong < 5 ==> t.status in {Pending, Expired})
  }

  lemma TriesAfterCreate(events: seq<Event>, created: Event, e: Event, i: nat, wrong: nat, hmac: Digest)
    requires created.Create? && e.Create? && ClockReaches(events, e) && Undisturbed(e, created, hmac)
    requires i < |Run(events, hmac).tokens| && AfterTries(Run(events, hmac).tokens[i], created, wrong)
    ensures var after := Next(Run(events, hmac), e, hmac).tokens;
            i < |after| && AfterTries(after[i], created, wrong)
  {
    RunKeepsTokens(events, hmac, e.now);
    var s := Run(events, hmac);
    hide Run, IssueToken;
    IssueShape(s.tokens, s.requests, e.email, e.purpose, e.now, e.id, e.digest);
    var after := Next(s, e, hmac).tokens;
    if |after| > |s.tokens| {
      assert after[..|s.tokens|][i] == after[i];
    }
  }

  lemma TriesAfterVerify(events: seq<Event>, created: Event, e: Event, i: nat, wrong: nat, hmac: Digest)
    requires created.Create? && e.Verify? && ClockReaches(events, e) && Undisturbed(e, created, hmac)
    requires i < |Run(events, hmac).tokens| && AfterTries(Run(events, hmac).tokens[i], created, wrong)
    ensures var after := Next(Run(events, hmac), e, hmac).tokens;
            && i < |after|
            && AfterTries(after[i], created, wrong + (if WrongTry(e, created, hmac) then 1 else 0))
  {
    RunKeepsTokens(events, hmac, e.now);
    var s := Run(events, hmac);
    assert TokenInv(s.tokens[i], s.compared[s.tokens[i].id], s.succeeded[s.tokens[i].id], e.now);
    hide Run, VerifyToken;
    SubmissionOverRuns(events, e, hmac);
  }

  /** Once issued, the token carries on: it counts the wrong codes submitted in time, and nothing else
      reaches it. */
  lemma {:induction false} TokenAfterTries(events: seq<Event>, created: Event, between: seq<Event>, hmac: Digest)
    requires created.Create? && ClockRuns(events + [created] + between)
    requires var s := Run(events, hmac);
             IssueToken(s.tokens, s.requests, created.email, created.purpose, created.now, created.id,
                        created.digest).1.Issued?
    requires forall i :: 0 <= i < |between| ==> Undisturbed(between[i], created, hmac)
    ensures var i, after := |Run(events, hmac).tokens|, Run(events + [created] + between, hmac).tokens;
            i < |after| && AfterTries(after[i], created, WrongTries(between, created, hmac))
  {
    hide ClockRuns, ClockReaches, IssueToken, AfterTries, Next, Undisturbed, WrongTry, Run;
    var i := |Run(events, hmac).tokens|;
    var all := events + [created] + between;
    if between == [] {
      assert all == events + [created];
      ClockPrefix(events, created);
      TokenIssued(events, created, hmac);
    } else {
      var n := |between| - 1;
      var before, e := events + [created] + between[..n], between[n];
      assert all == before + [e];
      ClockPrefix(before, e);
      RunNext(before, e, hmac);
      TokenAfterTries(events, created, between[..n], hmac);
      var wrong := WrongTries(between[..n], created, hmac);
      if e.Create? {
        TriesAfterCreate(before, created, e, i, wrong, hmac);
        NotATry(e, created, hmac);
      } else {
        TriesAfterVerify(before, created, e, i, wrong, hmac);
      }
    }
  }

  lemma RunNext(events: seq<Event>, e: Event, hmac: Digest)
    ensures Run(events + [e], hmac) == Next(Run(events, hmac), e, hmac)
  {
    assert (events + [e])[..|events|] == events;
  }

  lemma TokenIssued(events: seq<Event>, created: Event, hmac: Digest)
    requires created.Create? && ClockReaches(events, created)
    requires var s := Run(events, hmac);
             IssueToken(s.tokens, s.requests, created.email, created.purpose, created.now, created.id,
                        created.digest).1.Issued?
    ensures var i, after := |Run(events, hmac).tokens|, Run(events + [created], hmac).tokens;
            i < |after| && AfterTries(after[i], created, 0)
  {
    RunNext(events, created, hmac);
    IssuedToken(events, created, hmac);
    hide Run, IssueToken;
  }

  lemma NotATry(e: Event, created: Event, hmac: Digest)
    requires created.Create? && e.Create?
    ensures !WrongTry(e, created, hmac)
  {
  }

  lemma ClockPrefix(before: seq<Event>, e: Event)
    requires ClockRuns(before + [e])
    ensures ClockRuns(before) && ClockReaches(before, e)
  {
    var all := before + [e];
    assert forall i :: 0 <= i < |before| ==> all[i] == before[i];
    assert all[|before|] == e;
  }

  /** A code that was sent is accepted, the first time it is submitted, exactly when at most four wrong
      ones came before it in time and it comes within five minutes. After five wrong ones the token is
      locked, and after five minutes expired. */
  lemma SentCodeIsAccepted(events: seq<Event>, created: Event, between: seq<Event>, right: Event, hmac: Digest)
    requires created.Create? && right.Verify? && ClockRuns(events + [created] + between + [right])
    requires var s := Run(events, hmac);
             IssueToken(s.tokens, s.requests, created.email, created.purpose, created.now, created.id,
                        created.digest).1.Issued?
    requires forall i :: 0 <= i < |between| ==> Undisturbed(between[i], created, hmac)
    requires right.id == created.id && right.purpose == created.purpose
    requires hmac(created.email, created.purpose, right.code) == created.digest
    ensures var wrong := WrongTries(between, created, hmac);
            VerifyToken(Run(events + [created] + between, hmac).tokens, right.id, right.code, right.purpose,
                        right.now, hmac).1
            == if wrong >= 5 then IsLocked
               else if right.now <= created.now + 5 * 60 * 1_000_000 then Correct
               else HasExpired
  {
    var before := events + [created] + between;
    ClockPrefix(before, right);
    TokenAfterTries(events, created, between, hmac);
    var i := |Run(events, hmac).tokens|;
    RunKeepsTokens(before, hmac, right.now);
    var s := Run(before, hmac);
    hide Run, IssueToken, VerifyToken, WrongTries, ClockRuns;
    assert TokenInv(s.tokens[i], s.compared[s.tokens[i].id], s.succeeded[s.tokens[i].id], right.now);
    SubmissionOverRuns(before, right, hmac);
  }

  // ----- Asking for a code

  /** The attempts at the limiter that the requests of a run make. */
  function Asked(events: seq<Event>): seq<Attempt> {
    if events == [] then []
    else
      var n := |events| - 1;
      match events[n]
      case Create(email, purpose, now, _, _) => Asked(events[..n]) + [Attempt(ResendKey(email, purpose), now)]
      case Verify(_, _, _, _) => Asked(events[..n])
  }

  lemma {:induction false} RunAsks(events: seq<Event>, hmac: Digest)
    ensures Run(events, hmac).resends == Asked(events)
  {
    if events != [] {
      RunAsks(events[..|events| - 1], hmac);
    }
  }

  /** Two pairs never share a counter. */
  lemma KeyNamesPair(e1: string, p1: Purpose, e2: string, p2: Purpose)
    ensures ResendKey(e1, p1) == ResendKey(e2, p2) <==> e1 == e2 && p1 == p2
  {
    var a, b := ResendKey(e1, p1), ResendKey(e2, p2);
    if a == b {
      assert a[|a| - 1] == PurposeName(p1)[|PurposeName(p1)| - 1];
      assert b[|b| - 1] == PurposeName(p2)[|PurposeName(p2)| - 1];
      assert p1 == p2;
      assert e1 == a[11..|a| - 1 - |PurposeName(p1)|];
      assert e2 == b[11..|b| - 1 - |PurposeName(p2)|];
    }
  }

  /** A pending code of the pair is less than a minute old. */
  ghost predicate Recent(t: Token, email: string, purpose: Purpose, now: int) {
    t.email == email && t.purpose == purpose && t.status == Pending && now < t.createdAt + 60 * 1_000_000
  }

  /** The admitted requests of a pair that are less than an hour old. */
  function HourOf(events: seq<Event>, email: string, purpose: Purpose, now: int): seq<int> {
    After(AdmittedTimes(Asked(events), ResendPolicy(), ResendKey(email, purpose)), now - 3600 * 1_000_000)
  }

  lemma LimiterAnswer(events: seq<Event>, e: Event, hmac: Digest)
    requires ClockReaches(events, e) && e.Create?
    ensures var s, hour := Run(events, hmac), HourOf(events, e.email, e.purpose, e.now);
            var o := MemoryOutcome(TimesAt(s.requests, ResendKey(e.email, e.purpose)), RESEND_LIMIT, e.now);
            && (o == Admitted <==> |hour| < 5)
            && (|hour| >= 5 ==>
                  o.Rejected? && var left := hour[0] + 3600 * 1_000_000 - e.now;
                                 0 < left && 0 <= left - 1_000_000 * o.retryAfter < 1_000_000)
  {
    hide Run, ResendKey, After, RunMemory, AdmittedTimes, LastAttempt, MemoryOutcome, KeepsWindow, IssuesFit;
    hide Spaced, TimesAt;
    var key := ResendKey(e.email, e.purpose);
    RunKeepsIssues(events, hmac, e.email, e.purpose, e.now);
    RunAsks(events, hmac);
    var s := Run(events, hmac);
    SlidingWindow(s.resends, ResendPolicy(), key);
    LastAttemptSeen(s.resends, key);
    OutcomeExactly(AdmittedTimes(s.resends, ResendPolicy(), key), TimesAt(s.requests, key),
                   LastAttempt(s.resends, key), RESEND_LIMIT, e.now);
  }

  /** What the pass over the tokens of a pair finds: one less than a minute old, or none. */
  lemma CooldownExactly(tokens: seq<Token>, email: string, purpose: Purpose, now: int)
    requires OnePending(tokens)
    requires forall i :: 0 <= i < |tokens| ==> tokens[i].lastResendAt == Some(tokens[i].createdAt)
    ensures var busy := CancelFrom(tokens, email, purpose, now, 0).1;
            && (busy.Some? ==> exists i :: 0 <= i < |tokens| && Recent(tokens[i], email, purpose, now)
                                           && tokens[i].createdAt == busy.value)
            && (busy.None? ==> forall i :: 0 <= i < |tokens| ==> !Recent(tokens[i], email, purpose, now))
  {
    CancelShape(tokens, email, purpose, now, 0);
    BusyIsSeen(tokens, email, purpose, now, 0);
    hide CancelFrom;
  }

  lemma {:induction false} BusyIsSeen(tokens: seq<Token>, email: string, purpose: Purpose, now: int, i: nat)
    requires i <= |tokens|
    ensures var busy := CancelFrom(tokens, email, purpose, now, i).1;
            busy.Some? ==>
              exists j :: i <= j < |tokens| && tokens[j].PendingFor(email, purpose)
                          && now - tokens[j].LastActivity() < 60 * 1_000_000 && tokens[j].LastActivity() == busy.value
    decreases |tokens| - i
  {
    if i < |tokens| {
      if !tokens[i].PendingFor(email, purpose) {
        BusyIsSeen(tokens, email, purpose, now, i + 1);
      } else if COOLDOWN <= now - tokens[i].LastActivity() {
        BusyIsSeen(tokens[i := tokens[i].(status := Cancelled)], email, purpose, now, i + 1);
      }
    }
  }

  /** Over any run: how a request for a code is answered. It is refused while five were admitted within
      the hour or the pair's pending code is less than a minute old, each time with the whole seconds
      left, and otherwise a code is issued unless its id is taken. */
  lemma IssuedExactly(events: seq<Event>, e: Event, hmac: Digest)
    requires ClockReaches(events, e) && e.Create?
    ensures var s, hour := Run(events, hmac), HourOf(events, e.email, e.purpose, e.now);
            var issue := IssueToken(s.tokens, s.requests, e.email, e.purpose, e.now, e.id, e.digest).1;
            var recent := exists i :: 0 <= i < |s.tokens| && Recent(s.tokens[i], e.email, e.purpose, e.now);
            && (issue.RateLimited? <==> |hour| >= 5)
            && (issue.RateLimited? ==>
                  var left := hour[0] + 3600 * 1_000_000 - e.now;
                  0 < left && 0 <= left - 1_000_000 * issue.retryAfter < 1_000_000)
            && (issue.CoolingDown? <==> |hour| < 5 && recent)
            && (issue.CoolingDown? ==>
                  exists i :: 0 <= i < |s.tokens| && Recent(s.tokens[i], e.email, e.purpose, e.now)
                    && 0 <= s.tokens[i].createdAt + 60 * 1_000_000 - e.now - 1_000_000 * issue.seconds < 1_000_000)
            && (issue == DuplicateId <==> |hour| < 5 && !recent && HasId(s.tokens, e.id))
            && (issue == Issued(e.id) <==> |hour| < 5 && !recent && !HasId(s.tokens, e.id))
  {
    LimiterAnswer(events, e, hmac);
    RunKeepsTokens(events, hmac, e.now);
    var s := Run(events, hmac);
    hide Run, CancelFrom, MemoryOutcome, HourOf, ResendKey, HasId;
    assert forall i :: 0 <= i < |s.tokens| ==>
      TokenInv(s.tokens[i], s.compared[s.tokens[i].id], s.succeeded[s.tokens[i].id], e.now);
    CooldownExactly(s.tokens, e.email, e.purpose, e.now);
    var busy := CancelFrom(s.tokens, e.email, e.purpose, e.now, 0).1;
    if busy.Some? {
      WholeSecondsFit(COOLDOWN - (e.now - busy.value));
    }
  }

  /** The token of a request that was granted: pending, without attempts, good for five minutes. */
  lemma IssuedToken(events: seq<Event>, e: Event, hmac: Digest)
    requires ClockReaches(events, e) && e.Create?
    ensures var s := Run(events, hmac);
            var (after, issue) := IssueToken(s.tokens, s.requests, e.email, e.purpose, e.now, e.id, e.digest);
            issue.Issued? ==>
              && |after| == |s.tokens| + 1
              && var t := after[|s.tokens|];
                 && t.id == e.id && t.email == e.email && t.purpose == e.purpose && t.digest == e.digest
                 && t.status == Pending && t.attempts == 0
                 && t.createdAt == e.now && t.expiresAt == e.now + 5 * 60 * 1_000_000
                 && t.lastResendAt == Some(e.now)
  {
    RunKeepsTokens(events, hmac, e.now);
    var s := Run(events, hmac);
    hide Run, IssueToken;
    IssueShape(s.tokens, s.requests, e.email, e.purpose, e.now, e.id, e.digest);
  }

  // ----- At most five an hour, told from the tokens

  /** The instants at which the tokens of a pair were created, in order. */
  function CreatedFor(tokens: seq<Token>, email: string, purpose: Purpose): seq<int> {
    if tokens == [] then []
    else
      var n := |tokens| - 1;
      var front := CreatedFor(tokens[..n], email, purpose);
      if tokens[n].email == email && tokens[n].purpose == purpose then front + [tokens[n].createdAt] else front
  }

  lemma {:induction false} SameCreated(before: seq<Token>, after: seq<Token>, email: string, purpose: Purpose)
    requires |before| == |after|
    requires forall i :: 0 <= i < |before| ==>
      && (before[i].email, before[i].purpose) == (after[i].email, after[i].purpose)
      && before[i].createdAt == after[i].createdAt
    ensures CreatedFor(before, email, purpose) == CreatedFor(after, email, purpose)
  {
    if before != [] {
      var n := |before| - 1;
      SameCreated(before[..n], after[..n], email, purpose);
    }
  }

  lemma CreatedAfterCreate(events: seq<Event>, e: Event, hmac: Digest, email: string, purpose: Purpose)
    requires ClockReaches(events, e) && e.Create?
    ensures var s := Run(events, hmac);
            var (after, issue) := IssueToken(s.tokens, s.requests, e.email, e.purpose, e.now, e.id, e.digest);
            CreatedFor(after, email, purpose)
            == if issue.Issued? && (e.email, e.purpose) == (email, purpose)
               then CreatedFor(s.tokens, email, purpose) + [e.now]
               else CreatedFor(s.tokens, email, purpose)
  {
    RunKeepsTokens(events, hmac, e.now);
    var s := Run(events, hmac);
    hide Run, IssueToken, MemoryOutcome, UniqueIds, HasId, Counted;
    IssueShape(s.tokens, s.requests, e.email, e.purpose, e.now, e.id, e.digest);
    var (after, issue) := IssueToken(s.tokens, s.requests, e.email, e.purpose, e.now, e.id, e.digest);
    if issue.Issued? {
      hide OnePending;
      SameCreated(s.tokens, after[..|s.tokens|], email, purpose);
    }
  }

  lemma CreatedAfterVerify(events: seq<Event>, e: Event, hmac: Digest, email: string, purpose: Purpose)
    requires ClockReaches(events, e) && e.Verify?
    ensures var tokens := Run(events, hmac).tokens;
            CreatedFor(VerifyToken(tokens, e.id, e.code, e.purpose, e.now, hmac).0, email, purpose)
            == CreatedFor(tokens, email, purpose)
  {
    SubmissionOverRuns(events, e, hmac);
    hide Run, VerifyToken, UniqueIds, HasId, Open, Matches, CreatedFor;
    var tokens := Run(events, hmac).tokens;
    SameCreated(tokens, VerifyToken(tokens, e.id, e.code, e.purpose, e.now, hmac).0, email, purpose);
  }

  /** The instants recorded as issues of a pair are those of its tokens. */
  lemma {:induction false} IssuesAreTokens(events: seq<Event>, hmac: Digest, email: string, purpose: Purpose)
    requires ClockRuns(events)
    ensures IssuesFor(Run(events, hmac), email, purpose) == CreatedFor(Run(events, hmac).tokens, email, purpose)
  {
    if events != [] {
      var n := |events| - 1;
      var before, e := events[..n], events[n];
      assert events == before + [e];
      ClockPrefix(before, e);
      hide ClockRuns, ClockReaches;
      IssuesAreTokens(before, hmac, email, purpose);
      hide IssueToken, VerifyToken, CreatedFor;
      if e.Create? {
        CreatedAfterCreate(before, e, hmac, email, purpose);
      } else {
        CreatedAfterVerify(before, e, hmac, email, purpose);
      }
    }
  }

  /** Over any run, of the tokens of one pair any six created in a row span at least an hour. */
  lemma SixTokensSpanAnHour(events: seq<Event>, hmac: Digest, email: string, purpose: Purpose)
    requires ClockRuns(events)
    ensures var created := CreatedFor(Run(events, hmac).tokens, email, purpose);
            forall i :: 0 <= i < |created| - 5 ==> 3600 * 1_000_000 <= created[i + 5] - created[i]
  {
    hide Run, CreatedFor, IssuesFor;
    IssuesAreTokens(events, hmac, email, purpose);
    FiveAnHour(events, hmac, email, purpose);
  }
}

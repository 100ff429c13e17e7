/**
 What every call on the refresh sessions answers and does to each row, over every run, told from the
 rows there are.
 */
module SessionAnswers {
  import opened Money
  import opened Sessions

  ghost predicate HasJti(rows: seq<Session>, jti: string) {
    exists i :: 0 <= i < |rows| && rows[i].jti == jti
  }

  /** The identifier belongs to a session that was not revoked. */
  ghost predicate Live(rows: seq<Session>, jti: string) {
    exists i :: 0 <= i < |rows| && rows[i].jti == jti && rows[i].revokedAt.None?
  }

  /** The identifier belongs to a session that has not expired. */
  ghost predicate InTime(rows: seq<Session>, jti: string, now: int) {
    exists i :: 0 <= i < |rows| && rows[i].jti == jti && now < rows[i].expiresAt
  }

  lemma FindIsHas(rows: seq<Session>, jti: string)
    ensures Find(rows, jti).Some? <==> HasJti(rows, jti)
  {
  }

  lemma FoundOnly(rows: seq<Session>, i: nat)
    requires UniqueJtis(rows) && i < |rows|
    ensures Find(rows, rows[i].jti) == Some(i)
    ensures forall j :: 0 <= j < |rows| && rows[j].jti == rows[i].jti ==> j == i
    ensures Live(rows, rows[i].jti) <==> rows[i].revokedAt.None?
    ensures forall now :: InTime(rows, rows[i].jti, now) <==> now < rows[i].expiresAt
  {
    var found := Find(rows, rows[i].jti);
    assert rows[i].jti == rows[i].jti;
    assert forall j :: 0 <= j < |rows| && rows[j].jti == rows[i].jti ==> j == i;
    hide UniqueJtis;
  }

  /** Over any run: how an exchange is answered. The identifier is exchanged exactly when its session is
      neither revoked nor expired and the new identifier is unused. */
  lemma RotationExactly(events: seq<Event>, oldJti: string, f: Fresh, now: int)
    ensures var rows := Run(events).rows;
            var outcome := Rotate(rows, oldJti, f, now).1;
            var live, inTime, used := Live(rows, oldJti), InTime(rows, oldJti, now), HasJti(rows, f.jti);
            && (outcome == Rotated <==> live && inTime && !used)
            && (outcome == DuplicateJti <==> live && inTime && used)
            && (outcome == SessionExpired <==> live && !inTime)
            && (outcome == ReuseDetected <==> HasJti(rows, oldJti) && !live)
            && (outcome == NoSuchSession <==> !HasJti(rows, oldJti))
  {
    RunKeepsInv(events);
    hide Run, RevokeUser, Find, Linked, Exchanged, LiveCount, Live, InTime, HasJti, UniqueJtis;
    var rows := Run(events).rows;
    FindIsHas(rows, oldJti);
    FindIsHas(rows, f.jti);
    var i := Find(rows, oldJti);
    if i.Some? {
      FoundOnly(rows, i.value);
    } else {
      NoneLive(rows, oldJti);
    }
  }

  lemma NoneLive(rows: seq<Session>, jti: string)
    ensures Live(rows, jti) ==> HasJti(rows, jti)
  {
  }

  /** A text that was presented, or else the one there was. */
  predicate Inherits(kept: Option<string>, presented: Option<string>, former: Option<string>) {
    && (presented == None || presented == Some("") ==> kept == former)
    && (presented != None && presented != Some("") ==> kept == presented)
  }

  /** The row of a session opened now: live, without a successor, under what was presented. */
  predicate OpenedRow(r: Session, userId: int, f: Fresh, now: int) {
    && r.jti == f.jti && r.userId == userId && r.tokenHash == f.tokenHash
    && r.issuedAt == now && r.lastUsedAt == now && r.expiresAt == f.expiresAt
    && r.revokedAt == None && r.replacedBy == None
  }

  /** The same session, possibly revoked, replaced or used since. */
  predicate SameSession(r: Session, u: Session) {
    && u.jti == r.jti && u.userId == r.userId && u.tokenHash == r.tokenHash
    && u.issuedAt == r.issuedAt && u.expiresAt == r.expiresAt
    && u.ipAddress == r.ipAddress && u.userAgent == r.userAgent
  }

  /** What an exchange makes of a row that was there. */
  ghost predicate RowAfterRotation(
      rows: seq<Session>, r: Session, u: Session, outcome: Outcome, oldJti: string, newJti: string, now: int)
  {
    var closed := r.jti == oldJti && (outcome == Rotated || outcome == SessionExpired);
    var ended := outcome == ReuseDetected && r.revokedAt.None?
                 && exists k :: 0 <= k < |rows| && rows[k].jti == oldJti && rows[k].userId == r.userId;
    && SameSession(r, u)
    && u.revokedAt == (if closed || ended then Some(now) else r.revokedAt)
    && u.replacedBy == (if outcome == Rotated && r.jti == oldJti then Some(newJti) else r.replacedBy)
    && u.lastUsedAt == (if outcome == Rotated && r.jti == oldJti then now else r.lastUsedAt)
  }

  /** Over any run: what an exchange does to every row, and the row it adds. */
  lemma RotationEffects(events: seq<Event>, oldJti: string, f: Fresh, now: int)
    ensures var rows := Run(events).rows;
            var (after, outcome) := Rotate(rows, oldJti, f, now);
            && |after| == |rows| + (if outcome == Rotated then 1 else 0)
            && (forall j :: 0 <= j < |rows| ==> RowAfterRotation(rows, rows[j], after[j], outcome, oldJti, f.jti, now))
            && (outcome == Rotated ==>
                  exists k :: 0 <= k < |rows| && rows[k].jti == oldJti
                    && OpenedRow(after[|rows|], rows[k].userId, f, now)
                    && Inherits(after[|rows|].ipAddress, f.ipAddress, rows[k].ipAddress)
                    && Inherits(after[|rows|].userAgent, f.userAgent, rows[k].userAgent))
  {
    RunKeepsInv(events);
    hide Run, Find, Linked, Exchanged, LiveCount, Live, InTime, UniqueJtis;
    var rows := Run(events).rows;
    var i := Find(rows, oldJti);
    if i.Some? {
      FoundOnly(rows, i.value);
    }
  }

  /** A session is opened exactly when its identifier is unused, and nothing else changes. */
  lemma LoginExactly(rows: seq<Session>, userId: int, f: Fresh, now: int)
    ensures var (after, outcome) := Create(rows, userId, f, now);
            && (outcome == Created <==> !HasJti(rows, f.jti))
            && (outcome == DuplicateJti <==> HasJti(rows, f.jti))
            && (outcome != Created ==> after == rows)
            && (outcome == Created ==>
                  && |after| == |rows| + 1 && after[..|rows|] == rows
                  && OpenedRow(after[|rows|], userId, f, now)
                  && after[|rows|].ipAddress == f.ipAddress && after[|rows|].userAgent == f.userAgent)
  {
    FindIsHas(rows, f.jti);
  }

  /** Over any run: logging out revokes the session of the identifier, again if it was, and no other. */
  lemma LogoutEffects(events: seq<Event>, jti: string, now: int)
    ensures var rows := Run(events).rows;
            var after := Revoke(rows, jti, now);
            && |after| == |rows|
            && forall j :: 0 <= j < |rows| ==>
                 && SameSession(rows[j], after[j])
                 && (after[j].replacedBy, after[j].lastUsedAt) == (rows[j].replacedBy, rows[j].lastUsedAt)
                 && after[j].revokedAt == if rows[j].jti == jti then Some(now) else rows[j].revokedAt
  {
    RunKeepsInv(events);
    hide Run, Linked, Exchanged, LiveCount, UniqueJtis;
    var rows := Run(events).rows;
    var i := Find(rows, jti);
    if i.Some? {
      FoundOnly(rows, i.value);
    }
    hide Find;
  }

  /** Logging a user out everywhere revokes exactly the sessions of the user that were not revoked. */
  lemma LogoutAllEffects(rows: seq<Session>, userId: int, now: int)
    ensures var after := RevokeUser(rows, userId, now);
            && |after| == |rows|
            && forall j :: 0 <= j < |rows| ==>
                 && SameSession(rows[j], after[j])
                 && (after[j].replacedBy, after[j].lastUsedAt) == (rows[j].replacedBy, rows[j].lastUsedAt)
                 && after[j].revokedAt == if rows[j].userId == userId && rows[j].revokedAt == None then Some(now)
                                          else rows[j].revokedAt
  {
  }

  // ----- From the login to the renewal

  /** The call is not about the session, and does not end all sessions of its user. */
  ghost predicate Spares(rows: seq<Session>, e: Event, jti: string, userId: int) {
    match e
    case Login(_, _, _) => true
    case Refresh(oldJti, _, _) =>
      oldJti != jti
      && forall k :: 0 <= k < |rows| && rows[k].jti == oldJti && rows[k].userId == userId ==> rows[k].revokedAt == None
    case Logout(out, _) => out != jti
    case LogoutAll(user, _) => user != userId
  }

  lemma SparedRow(events: seq<Event>, e: Event, i: nat)
    requires i < |Run(events).rows|
    requires var row := Run(events).rows[i]; Spares(Run(events).rows, e, row.jti, row.userId)
    ensures var after := Next(Run(events), e).rows;
            i < |after| && after[i] == Run(events).rows[i]
  {
    var rows := Run(events).rows;
    RunKeepsInv(events);
    match e {
      case Login(userId, f, now) =>
        hide Run, Find, Inv;
        LoginExactly(rows, userId, f, now);
      case Refresh(oldJti, f, now) => SparedByRefresh(events, e, i);
      case Logout(jti, now) =>
        LogoutEffects(events, jti, now);
        hide Run, Inv, Revoke;
      case LogoutAll(userId, now) =>
        LogoutAllEffects(rows, userId, now);
        hide Run, Inv, RevokeUser;
    }
  }

  lemma SparedByRefresh(events: seq<Event>, e: Event, i: nat)
    requires i < |Run(events).rows| && e.Refresh?
    requires var row := Run(events).rows[i]; Spares(Run(events).rows, e, row.jti, row.userId)
    ensures var after := Next(Run(events), e).rows;
            i < |after| && after[i] == Run(events).rows[i]
  {
    var rows := Run(events).rows;
    RotationExactly(events, e.oldJti, e.f, e.now);
    RotationEffects(events, e.oldJti, e.f, e.now);
    hide Run, Rotate, Inherits, InTime, HasJti;
    var (after, outcome) := Rotate(rows, e.oldJti, e.f, e.now);
    assert RowAfterRotation(rows, rows[i], after[i], outcome, e.oldJti, e.f.jti, e.now);
  }

  lemma {:induction false} LoginStays(events: seq<Event>, login: Event, between: seq<Event>)
    requires login.Login? && !HasJti(Run(events).rows, login.f.jti)
    requires forall k :: 0 <= k < |between| ==>
               Spares(Run(events + [login] + between[..k]).rows, between[k], login.f.jti, login.userId)
    ensures var i, rows := |Run(events).rows|, Run(events + [login] + between).rows;
            i < |rows| && OpenedRow(rows[i], login.userId, login.f, login.now)
  {
    hide Spares, OpenedRow, Create, Run;
    var i := |Run(events).rows|;
    var all := events + [login] + between;
    if between == [] {
      assert all == events + [login];
      RunNext(events, login);
      LoginExactly(Run(events).rows, login.userId, login.f, login.now);
    } else {
      var n := |between| - 1;
      var before := events + [login] + between[..n];
      assert forall k :: 0 <= k < n ==> between[..n][..k] == between[..k];
      LoginStays(events, login, between[..n]);
      hide HasJti;
      assert all == before + [between[n]];
      RunNext(before, between[n]);
      var row := Run(before).rows[i];
      assert row.jti == login.f.jti && row.userId == login.userId by {
        OpenedNames(row, login.userId, login.f, login.now);
      }
      hide Next;
      SparedRow(before, between[n], i);
    }
  }

  lemma OpenedNames(r: Session, userId: int, f: Fresh, now: int)
    requires OpenedRow(r, userId, f, now)
    ensures r.jti == f.jti && r.userId == userId
  {
  }

  lemma RunNext(events: seq<Event>, e: Event)
    ensures Run(events + [e]) == Next(Run(events), e)
  {
    assert (events + [e])[..|events|] == events;
  }

  /** A login can be renewed, the first time it is tried, until it expires and not after: whatever other
      calls come between, as long as they spare the session. */
  lemma LoginIsRenewed(events: seq<Event>, login: Event, between: seq<Event>, f: Fresh, now: int)
    requires login.Login? && !HasJti(Run(events).rows, login.f.jti)
    requires forall k :: 0 <= k < |between| ==>
               Spares(Run(events + [login] + between[..k]).rows, between[k], login.f.jti, login.userId)
    ensures var rows := Run(events + [login] + between).rows;
            var outcome := Rotate(rows, login.f.jti, f, now).1;
            && (now < login.f.expiresAt && !HasJti(rows, f.jti) ==> outcome == Rotated)
            && (login.f.expiresAt <= now ==> outcome == SessionExpired)
  {
    LoginStays(events, login, between);
    var i := |Run(events).rows|;
    var all := events + [login] + between;
    RotationExactly(all, login.f.jti, f, now);
    RunKeepsInv(all);
    hide Run, Rotate, HasJti, Spares, Linked, Exchanged, LiveCount, UniqueJtis, Live, InTime;
    FoundOnly(Run(all).rows, i);
  }
}

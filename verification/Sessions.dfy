/**
 Refresh sessions: login, rotation with reuse detection, and revocation, on a table whose token
 identifiers (jti) are unique, so an insert that repeats one is rolled back.
 */
module Sessions {
  import opened Money

  datatype Session = Session(
    jti: string,
    userId: int,
    tokenHash: string,
    issuedAt: int,
    expiresAt: int,
    lastUsedAt: int,
    revokedAt: Option<int>,
    replacedBy: Option<string>,
    ipAddress: Option<string>,
    userAgent: Option<string>)

  datatype Outcome = Created | Rotated | NoSuchSession | ReuseDetected | SessionExpired | DuplicateJti

  /** What a client presents to open or renew a session. */
  datatype Fresh = Fresh(
    jti: string, tokenHash: string, expiresAt: int, ipAddress: Option<string>, userAgent: Option<string>)

  function Find(rows: seq<Session>, jti: string): (i: Option<nat>)
    ensures i.Some? ==> i.value < |rows| && rows[i.value].jti == jti
    ensures i.None? ==> forall j :: 0 <= j < |rows| ==> rows[j].jti != jti
  {
    if rows == [] then None
    else
      var n := |rows| - 1;
      if rows[n].jti == jti then Some(n) else Find(rows[..n], jti)
  }

  function Opened(f: Fresh, userId: int, now: int): Session {
    Session(f.jti, userId, f.tokenHash, now, f.expiresAt, now, None, None, f.ipAddress, f.userAgent)
  }

  /** An update of every unrevoked row of a user. */
  function RevokeUser(rows: seq<Session>, userId: int, now: int): (r: seq<Session>)
    ensures |r| == |rows|
    ensures forall i :: 0 <= i < |rows| ==>
              r[i] == if rows[i].userId == userId && rows[i].revokedAt.None? then rows[i].(revokedAt := Some(now))
                      else rows[i]
  {
    if rows == [] then []
    else
      var n := |rows| - 1;
      var last := rows[n];
      RevokeUser(rows[..n], userId, now)
      + [if last.userId == userId && last.revokedAt.None? then last.(revokedAt := Some(now)) else last]
  }

  function Create(rows: seq<Session>, userId: int, f: Fresh, now: int): (seq<Session>, Outcome) {
    if Find(rows, f.jti).Some? then (rows, DuplicateJti) else (rows + [Opened(f, userId, now)], Created)
  }

  function OrElse(a: Option<string>, b: Option<string>): Option<string> {
    if a.Some? && a.value != "" then a else b
  }

  function Rotate(rows: seq<Session>, oldJti: string, f: Fresh, now: int): (seq<Session>, Outcome) {
    var i := Find(rows, oldJti);
    if i.None? then (rows, NoSuchSession)
    else
      var row := rows[i.value];
      if row.revokedAt.Some? then (RevokeUser(rows, row.userId, now), ReuseDetected)
      else if row.expiresAt <= now then (rows[i.value := row.(revokedAt := Some(now))], SessionExpired)
      else if Find(rows, f.jti).Some? then (rows, DuplicateJti)
      else
        var renewed := f.(
          ipAddress := OrElse(f.ipAddress, row.ipAddress), userAgent := OrElse(f.userAgent, row.userAgent));
        (rows[i.value := row.(revokedAt := Some(now), replacedBy := Some(f.jti), lastUsedAt := now)]
         + [Opened(renewed, row.userId, now)], Rotated)
  }

  /** Revocation by identifier sets the time again even on a revoked row. */
  function Revoke(rows: seq<Session>, jti: string, now: int): seq<Session> {
    var i := Find(rows, jti);
    if i.None? then rows else rows[i.value := rows[i.value].(revokedAt := Some(now))]
  }

  class SessionRepository {
    var rows: seq<Session>

    constructor ()
      ensures rows == []
    {
      rows := [];
    }

    method CreateSession(userId: int, f: Fresh, now: int) returns (outcome: Outcome)
      modifies this
      ensures (rows, outcome) == Create(old(rows), userId, f, now)
    {
      var existing := Find(rows, f.jti);
      if existing.Some? {
        return DuplicateJti;
      }
      rows := rows + [Session(f.jti, userId, f.tokenHash, now, f.expiresAt, now, None, None, f.ipAddress, f.userAgent)];
      outcome := Created;
    }

    method RotateSession(oldJti: string, f: Fresh, now: int) returns (outcome: Outcome)
      modifies this
      ensures (rows, outcome) == Rotate(old(rows), oldJti, f, now)
      ensures outcome == ReuseDetected ==>
                exists i :: 0 <= i < |old(rows)| && old(rows)[i].jti == oldJti && old(rows)[i].revokedAt.Some?
                            && Terminated(old(rows), rows, old(rows)[i].userId)
    {
      var i := Find(rows, oldJti);
      if i.None? {
        return NoSuchSession;
      }
      var session := rows[i.value];
      if session.revokedAt.Some? {
        RevokeAllUserSessions(session.userId, now);
        return ReuseDetected;
      }
      if session.expiresAt <= now {
        rows := rows[i.value := session.(revokedAt := Some(now))];
        return SessionExpired;
      }
      var existing := Find(rows, f.jti);
      if existing.Some? {
        return DuplicateJti;
      }
      session := session.(revokedAt := Some(now));
      session := session.(replacedBy := Some(f.jti));
      session := session.(lastUsedAt := now);
      rows := rows[i.value := session];
      var ip := if f.ipAddress.Some? && f.ipAddress.value != "" then f.ipAddress else session.ipAddress;
      var agent := if f.userAgent.Some? && f.userAgent.value != "" then f.userAgent else session.userAgent;
      rows := rows + [Session(f.jti, session.userId, f.tokenHash, now, f.expiresAt, now, None, None, ip, agent)];
      outcome := Rotated;
    }

    method RevokeSession(jti: string, now: int)
      modifies this
      ensures rows == Revoke(old(rows), jti, now)
    {
      var i := Find(rows, jti);
      if i.Some? {
        rows := rows[i.value := rows[i.value].(revokedAt := Some(now))];
      }
    }

    method RevokeAllUserSessions(userId: int, now: int)
      modifies this
      ensures rows == RevokeUser(old(rows), userId, now)
      ensures Terminated(old(rows), rows, userId)
    {
      rows := RevokeUser(rows, userId, now);
    }
  }

  /** Every session of the user is revoked and every other row is as it was. */
  ghost predicate Terminated(before: seq<Session>, after: seq<Session>, userId: int) {
    && |after| == |before|
    && forall i :: 0 <= i < |before| ==>
         if before[i].userId == userId then after[i].userId == userId && after[i].revokedAt.Some?
         else after[i] == before[i]
  }

  // ----- Runs

  datatype Event =
    | Login(userId: int, f: Fresh, now: int)
    | Refresh(oldJti: string, f: Fresh, now: int)
    | Logout(jti: string, now: int)
    | LogoutAll(userId: int, now: int)

  /** The table, with the successful exchanges by identifier and the logins by user so far. */
  datatype System = System(rows: seq<Session>, exchanged: multiset<string>, logins: multiset<int>)

  const START := System([], multiset{}, multiset{})

  function Next(s: System, e: Event): System {
    match e
    case Login(userId, f, now) =>
      var (rows, outcome) := Create(s.rows, userId, f, now);
      s.(rows := rows, logins := if outcome == Created then s.logins + multiset{userId} else s.logins)
    case Refresh(oldJti, f, now) =>
      var (rows, outcome) := Rotate(s.rows, oldJti, f, now);
      s.(rows := rows, exchanged := if outcome == Rotated then s.exchanged + multiset{oldJti} else s.exchanged)
    case Logout(jti, now) => s.(rows := Revoke(s.rows, jti, now))
    case LogoutAll(userId, now) => s.(rows := RevokeUser(s.rows, userId, now))
  }

  function Run(events: seq<Event>): System {
    if events == [] then START else Next(Run(events[..|events| - 1]), events[|events| - 1])
  }

  // ----- Invariants

  ghost predicate UniqueJtis(rows: seq<Session>) {
    forall i, j :: 0 <= i < j < |rows| ==> rows[i].jti != rows[j].jti
  }

  /** A link goes from a revoked row to a later row of the same user, and no two go to one row. */
  ghost predicate Linked(rows: seq<Session>) {
    && (forall i :: 0 <= i < |rows| && rows[i].replacedBy.Some? ==>
          rows[i].revokedAt.Some?
          && exists j :: i < j < |rows| && rows[j].jti == rows[i].replacedBy.value && rows[j].userId == rows[i].userId)
    && forall i, j :: 0 <= i < j < |rows| && rows[i].replacedBy.Some? ==> rows[i].replacedBy != rows[j].replacedBy
  }

  /** A row was exchanged once if it has a successor and never otherwise. */
  ghost predicate Exchanged(rows: seq<Session>, exchanged: multiset<string>) {
    && (forall i :: 0 <= i < |rows| ==> exchanged[rows[i].jti] == if rows[i].replacedBy.Some? then 1 else 0)
    && forall jti :: Find(rows, jti).None? ==> exchanged[jti] == 0
  }

  function LiveCount(rows: seq<Session>, userId: int): nat {
    if rows == [] then 0
    else
      var n := |rows| - 1;
      LiveCount(rows[..n], userId) + if rows[n].userId == userId && rows[n].revokedAt.None? then 1 else 0
  }

  ghost predicate Inv(s: System) {
    && UniqueJtis(s.rows) && Linked(s.rows) && Exchanged(s.rows, s.exchanged)
    && forall userId :: LiveCount(s.rows, userId) <= s.logins[userId]
  }

  // ----- Counting live sessions

  lemma LiveAppend(rows: seq<Session>, row: Session, userId: int)
    ensures LiveCount(rows + [row], userId)
            == LiveCount(rows, userId) + if row.userId == userId && row.revokedAt.None? then 1 else 0
  {
    assert (rows + [row])[..|rows|] == rows;
  }

  /** Revoking one row takes it off its user's count. */
  lemma {:induction false} LiveUpdate(rows: seq<Session>, i: nat, row: Session, userId: int)
    requires i < |rows| && row.userId == rows[i].userId && row.revokedAt.Some?
    ensures LiveCount(rows[i := row], userId)
            == LiveCount(rows, userId) - if rows[i].userId == userId && rows[i].revokedAt.None? then 1 else 0
  {
    var n := |rows| - 1;
    if i < n {
      LiveUpdate(rows[..n], i, row, userId);
      assert rows[i := row][..n] == rows[..n][i := row];
    } else {
      assert rows[i := row][..n] == rows[..n];
    }
  }

  lemma {:induction false} LiveRevoked(rows: seq<Session>, revoked: int, now: int, userId: int)
    ensures LiveCount(RevokeUser(rows, revoked, now), userId)
            == if userId == revoked then 0 else LiveCount(rows, userId)
  {
    if rows != [] {
      var n := |rows| - 1;
      LiveRevoked(rows[..n], revoked, now, userId);
      assert RevokeUser(rows, revoked, now)[..n] == RevokeUser(rows[..n], revoked, now);
    }
  }

  // ----- Every call keeps the invariant

  /** The same rows, some of them revoked since. */
  predicate OnlyRevoked(before: seq<Session>, after: seq<Session>) {
    && |after| == |before|
    && forall i :: 0 <= i < |before| ==>
         && (after[i].jti, after[i].userId, after[i].replacedBy)
            == (before[i].jti, before[i].userId, before[i].replacedBy)
         && (before[i].revokedAt.Some? ==> after[i].revokedAt.Some?)
  }

  /** Revoking keeps every link. */
  lemma RevokingKeeps(before: seq<Session>, after: seq<Session>, exchanged: multiset<string>)
    requires UniqueJtis(before) && Linked(before) && Exchanged(before, exchanged)
    requires OnlyRevoked(before, after)
    ensures UniqueJtis(after) && Linked(after) && Exchanged(after, exchanged)
  {
    forall i | 0 <= i < |after| && after[i].replacedBy.Some?
      ensures exists j :: i < j < |after| && after[j].jti == after[i].replacedBy.value
                          && after[j].userId == after[i].userId
    {
      var j :| i < j < |before| && before[j].jti == before[i].replacedBy.value && before[j].userId == before[i].userId;
      assert after[j].jti == before[j].jti;
    }
  }

  lemma OpeningKeeps(rows: seq<Session>, row: Session, exchanged: multiset<string>)
    requires UniqueJtis(rows) && Linked(rows) && Exchanged(rows, exchanged)
    requires Find(rows, row.jti).None? && row.replacedBy.None?
    ensures UniqueJtis(rows + [row]) && Linked(rows + [row]) && Exchanged(rows + [row], exchanged)
  {
    var after := rows + [row];
    forall i | 0 <= i < |after| && after[i].replacedBy.Some?
      ensures exists j :: i < j < |after| && after[j].jti == after[i].replacedBy.value
                          && after[j].userId == after[i].userId
    {
      var j :| i < j < |rows| && rows[j].jti == rows[i].replacedBy.value && rows[j].userId == rows[i].userId;
      assert after[j].jti == rows[j].jti;
    }
  }

  lemma LinkingKeeps(rows: seq<Session>, i: nat, linked: Session, exchanged: multiset<string>)
    requires UniqueJtis(rows) && Linked(rows) && Exchanged(rows, exchanged)
    requires i < |rows| - 1 && rows[i].replacedBy.None?
    requires (linked.jti, linked.userId) == (rows[i].jti, rows[i].userId) && linked.revokedAt.Some?
    requires linked.replacedBy == Some(rows[|rows| - 1].jti) && rows[|rows| - 1].userId == linked.userId
    requires forall k :: 0 <= k < |rows| ==> rows[k].replacedBy != linked.replacedBy
    ensures UniqueJtis(rows[i := linked]) && Linked(rows[i := linked])
    ensures Exchanged(rows[i := linked], exchanged + multiset{linked.jti})
  {
    LinkIsCounted(rows, i, linked, exchanged);
    hide Exchanged;
    var after := rows[i := linked];
    forall k | 0 <= k < |after| && after[k].replacedBy.Some?
      ensures exists j :: k < j < |after| && after[j].jti == after[k].replacedBy.value
                          && after[j].userId == after[k].userId
    {
      if k == i {
        assert after[|rows| - 1].jti == after[k].replacedBy.value;
      } else {
        var j :| k < j < |rows| && rows[j].jti == rows[k].replacedBy.value && rows[j].userId == rows[k].userId;
        assert after[j].jti == rows[j].jti;
      }
    }
  }

  lemma LinkIsCounted(rows: seq<Session>, i: nat, linked: Session, exchanged: multiset<string>)
    requires UniqueJtis(rows) && Exchanged(rows, exchanged)
    requires i < |rows| && rows[i].replacedBy.None? && linked.jti == rows[i].jti && linked.replacedBy.Some?
    ensures Exchanged(rows[i := linked], exchanged + multiset{linked.jti})
  {
    var after := rows[i := linked];
    forall k | 0 <= k < |after| && k != i ensures after[k].jti != linked.jti {
    }
    forall jti ensures Find(after, jti) == Find(rows, jti) {
      SameJtis(rows, after, jti);
    }
    hide Find;
  }

  lemma {:induction false} SameJtis(a: seq<Session>, b: seq<Session>, jti: string)
    requires |a| == |b| && forall i :: 0 <= i < |a| ==> a[i].jti == b[i].jti
    ensures Find(a, jti) == Find(b, jti)
  {
    if a != [] {
      SameJtis(a[..|a| - 1], b[..|b| - 1], jti);
    }
  }

  lemma RotationKeeps(rows: seq<Session>, i: nat, rotated: Session, newRow: Session, exchanged: multiset<string>)
    requires UniqueJtis(rows) && Linked(rows) && Exchanged(rows, exchanged)
    requires i < |rows| && rows[i].revokedAt.None? && Find(rows, newRow.jti).None?
    requires (rotated.jti, rotated.userId) == (rows[i].jti, rows[i].userId) && rotated.revokedAt.Some?
    requires rotated.replacedBy == Some(newRow.jti) && newRow.userId == rotated.userId && newRow.replacedBy.None?
    ensures UniqueJtis(rows[i := rotated] + [newRow]) && Linked(rows[i := rotated] + [newRow])
    ensures Exchanged(rows[i := rotated] + [newRow], exchanged + multiset{rotated.jti})
  {
    NotYetLinked(rows, newRow.jti);
    assert rows[i].replacedBy.None?;
    OpeningKeeps(rows, newRow, exchanged);
    hide UniqueJtis, Linked, Exchanged, Find;
    LinkingKeeps(rows + [newRow], i, rotated, exchanged);
    assert (rows + [newRow])[i := rotated] == rows[i := rotated] + [newRow];
  }

  lemma NotYetLinked(rows: seq<Session>, jti: string)
    requires Linked(rows) && Find(rows, jti).None?
    ensures forall k :: 0 <= k < |rows| ==> rows[k].replacedBy != Some(jti)
  {
    forall k | 0 <= k < |rows| ensures rows[k].replacedBy != Some(jti) {
      if rows[k].replacedBy.Some? {
        var j :| k < j < |rows| && rows[j].jti == rows[k].replacedBy.value;
      }
    }
  }

  lemma RevokingKeepsInv(s: System, after: seq<Session>)
    requires Inv(s) && OnlyRevoked(s.rows, after)
    requires forall u :: LiveCount(after, u) <= LiveCount(s.rows, u)
    ensures Inv(s.(rows := after))
  {
    RevokingKeeps(s.rows, after, s.exchanged);
    hide UniqueJtis, Linked, Exchanged, LiveCount;
  }

  lemma RevokingOneKeepsInv(s: System, i: nat, now: int)
    requires Inv(s) && i < |s.rows|
    ensures Inv(s.(rows := s.rows[i := s.rows[i].(revokedAt := Some(now))]))
  {
    var row := s.rows[i].(revokedAt := Some(now));
    hide Inv;
    forall u ensures LiveCount(s.rows[i := row], u) <= LiveCount(s.rows, u) {
      LiveUpdate(s.rows, i, row, u);
    }
    hide LiveCount;
    RevokingKeepsInv(s, s.rows[i := row]);
  }

  lemma RevokingAllKeepsInv(s: System, userId: int, now: int)
    requires Inv(s)
    ensures Inv(s.(rows := RevokeUser(s.rows, userId, now)))
  {
    hide Inv;
    var after := RevokeUser(s.rows, userId, now);
    assert OnlyRevoked(s.rows, after);
    forall u ensures LiveCount(after, u) <= LiveCount(s.rows, u) {
      LiveRevoked(s.rows, userId, now, u);
    }
    hide LiveCount, RevokeUser, OnlyRevoked;
    RevokingKeepsInv(s, after);
  }

  lemma OpeningKeepsInv(s: System, row: Session)
    requires Inv(s) && Find(s.rows, row.jti).None? && row.replacedBy.None?
    ensures Inv(s.(rows := s.rows + [row], logins := s.logins + multiset{row.userId}))
  {
    OpeningKeeps(s.rows, row, s.exchanged);
    hide UniqueJtis, Linked, Exchanged;
    forall u ensures LiveCount(s.rows + [row], u) <= (s.logins + multiset{row.userId})[u] {
      LiveAppend(s.rows, row, u);
    }
  }

  lemma RotationKeepsInv(s: System, i: nat, rotated: Session, newRow: Session)
    requires Inv(s) && i < |s.rows| && s.rows[i].revokedAt.None? && Find(s.rows, newRow.jti).None?
    requires (rotated.jti, rotated.userId) == (s.rows[i].jti, s.rows[i].userId) && rotated.revokedAt.Some?
    requires rotated.replacedBy == Some(newRow.jti) && newRow.userId == rotated.userId && newRow.replacedBy.None?
    ensures Inv(s.(rows := s.rows[i := rotated] + [newRow], exchanged := s.exchanged + multiset{rotated.jti}))
  {
    RotationKeeps(s.rows, i, rotated, newRow, s.exchanged);
    hide UniqueJtis, Linked, Exchanged;
    forall u ensures LiveCount(s.rows[i := rotated] + [newRow], u) <= s.logins[u] {
      LiveUpdate(s.rows, i, rotated, u);
      LiveAppend(s.rows[i := rotated], newRow, u);
    }
  }

  lemma RefreshKeepsInv(s: System, e: Event)
    requires Inv(s) && e.Refresh?
    ensures Inv(Next(s, e))
  {
    hide Inv, LiveCount;
    var i := Find(s.rows, e.oldJti);
    if i.Some? {
      var row := s.rows[i.value];
      var after := Next(s, e);
      if row.revokedAt.Some? {
        RevokingAllKeepsInv(s, row.userId, e.now);
      } else if row.expiresAt <= e.now {
        RevokingOneKeepsInv(s, i.value, e.now);
      } else if Find(s.rows, e.f.jti).None? {
        var rotated := row.(revokedAt := Some(e.now), replacedBy := Some(e.f.jti), lastUsedAt := e.now);
        RotationKeepsInv(s, i.value, rotated, after.rows[|s.rows|]);
      }
    }
  }

  lemma StepKeepsInv(s: System, e: Event)
    requires Inv(s)
    ensures Inv(Next(s, e))
  {
    hide Inv, LiveCount, RevokeUser;
    match e {
      case Login(userId, f, now) =>
        if Find(s.rows, f.jti).None? {
          OpeningKeepsInv(s, Opened(f, userId, now));
        }
      case Refresh(_, _, _) => RefreshKeepsInv(s, e);
      case Logout(jti, now) =>
        var i := Find(s.rows, jti);
        if i.Some? {
          RevokingOneKeepsInv(s, i.value, now);
        }
      case LogoutAll(userId, now) => RevokingAllKeepsInv(s, userId, now);
    }
  }

  lemma {:induction false} RunKeepsInv(events: seq<Event>)
    ensures Inv(Run(events))
  {
    if events != [] {
      RunKeepsInv(events[..|events| - 1]);
      hide Inv, Next;
      StepKeepsInv(Run(events[..|events| - 1]), events[|events| - 1]);
    }
  }

  // ----- What follows for every run

  /** A refresh identifier is exchanged successfully at most once, and a user never has more live
      sessions than logins. */
  lemma ExchangedOnce(events: seq<Event>, jti: string, userId: int)
    ensures Run(events).exchanged[jti] <= 1
    ensures LiveCount(Run(events).rows, userId) <= Run(events).logins[userId]
  {
    RunKeepsInv(events);
    hide Run;
    var s := Run(events);
    var i := Find(s.rows, jti);
    if i.Some? {
      assert s.exchanged[s.rows[i.value].jti] <= 1;
    }
  }

  /** Replaying an identifier that was revoked, as every exchanged one is, leaves its user without a
      live session and every other user's rows untouched. */
  lemma ReplayTerminates(events: seq<Event>, jti: string, f: Fresh, now: int)
    ensures var s := Run(events);
            var (after, outcome) := Rotate(s.rows, jti, f, now);
            && (s.exchanged[jti] > 0 ==> outcome == ReuseDetected)
            && (outcome == ReuseDetected
                <==> Find(s.rows, jti).Some? && s.rows[Find(s.rows, jti).value].revokedAt.Some?)
            && (outcome == ReuseDetected ==>
                  var userId := s.rows[Find(s.rows, jti).value].userId;
                  LiveCount(after, userId) == 0 && Terminated(s.rows, after, userId))
  {
    RunKeepsInv(events);
    hide Run, LiveCount, RevokeUser, Terminated, Inv;
    var s := Run(events);
    if s.exchanged[jti] > 0 {
      ExchangedIsRevoked(s, jti);
    }
    var i := Find(s.rows, jti);
    if i.Some? {
      LiveRevoked(s.rows, s.rows[i.value].userId, now, s.rows[i.value].userId);
      RevokeUserTerminates(s.rows, s.rows[i.value].userId, now);
    }
  }

  lemma ExchangedIsRevoked(s: System, jti: string)
    requires Inv(s) && s.exchanged[jti] > 0
    ensures Find(s.rows, jti).Some? && s.rows[Find(s.rows, jti).value].revokedAt.Some?
  {
    var i := Find(s.rows, jti);
    assert i.Some?;
    assert s.rows[i.value].replacedBy.Some?;
  }

  lemma RevokeUserTerminates(rows: seq<Session>, userId: int, now: int)
    ensures Terminated(rows, RevokeUser(rows, userId, now), userId)
  {
  }

  /** Follow the successor links `n` times. */
  function Follow(rows: seq<Session>, jti: string, n: nat): Option<string>
    decreases n
  {
    if n == 0 then Some(jti)
    else
      var i := Find(rows, jti);
      if i.None? || rows[i.value].replacedBy.None? then None
      else Follow(rows, rows[i.value].replacedBy.value, n - 1)
  }

  lemma {:induction false} FollowAdvances(rows: seq<Session>, jti: string, n: nat)
    requires UniqueJtis(rows) && Linked(rows) && Find(rows, jti).Some?
    ensures var last := Follow(rows, jti, n);
            last.Some? ==>
              && Find(rows, last.value).Some?
              && Find(rows, jti).value + n <= Find(rows, last.value).value
              && rows[Find(rows, last.value).value].userId == rows[Find(rows, jti).value].userId
    decreases n
  {
    if n > 0 {
      var i := Find(rows, jti).value;
      if rows[i].replacedBy.Some? {
        var j :| i < j < |rows| && rows[j].jti == rows[i].replacedBy.value && rows[j].userId == rows[i].userId;
        var next := rows[i].replacedBy.value;
        assert Find(rows, next).value == j;
        FollowAdvances(rows, next, n - 1);
      }
    }
  }

  /** The successor links form chains within one user: none leads back, and no two sessions were
      replaced by the same one. */
  lemma LinksAreChains(events: seq<Event>, jti: string, n: nat)
    requires Find(Run(events).rows, jti).Some?
    ensures n > 0 ==> Follow(Run(events).rows, jti, n) != Some(jti)
    ensures var rows := Run(events).rows;
            forall i, j :: 0 <= i < j < |rows| && rows[i].replacedBy.Some? ==> rows[i].replacedBy != rows[j].replacedBy
  {
    RunKeepsInv(events);
    hide Run;
    FollowAdvances(Run(events).rows, jti, n);
  }
}

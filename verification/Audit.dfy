/**
 The hash-chained audit ledger: appending an event at the chain's durable head, verifying a
 chain, and what an accepted chain proves about the events in it.

 The hash is a parameter. Where a result needs it not to collide, it needs that only for the
 events of the two ledgers being compared.
 */
module Audit {
  import opened Money
  import opened Sorting

  type Hash = string

  const GENESIS: Hash := "0000000000000000000000000000000000000000000000000000000000000000"

  /** The fourteen hashed fields. */
  datatype Canonical = Canonical(
    action: string,
    actorId: Option<int>,
    actorType: string,
    chainId: string,
    correlationId: Option<string>,
    eventUuid: string,
    payload: Option<string>,
    previousHash: Hash,
    resourceId: Option<int>,
    resourceType: string,
    schemaVersion: string,
    sequence: int,
    tenantId: Option<int>,
    timestamp: string)

  datatype AuditLog = AuditLog(
    eventUuid: string,
    chainId: string,
    sequence: int,
    tenantId: Option<int>,
    actorType: string,
    actorId: Option<int>,
    action: string,
    resourceType: string,
    resourceId: Option<int>,
    timestamp: string,
    schemaVersion: string,
    correlationId: Option<string>,
    payload: Option<string>,
    ipAddress: Option<string>,
    userAgent: Option<string>,
    details: Option<string>,
    previousHash: Hash,
    eventHash: Hash)

  function CanonicalEvent(e: AuditLog): Canonical {
    Canonical(e.action, e.actorId, e.actorType, e.chainId, e.correlationId, e.eventUuid, e.payload, e.previousHash,
              e.resourceId, e.resourceType, e.schemaVersion, e.sequence, e.tenantId, e.timestamp)
  }

  datatype ChainHead = ChainHead(tenantId: Option<int>, lastSequence: int, lastUuid: string, lastHash: Hash)

  datatype Checkpoint = Checkpoint(chainId: string, sequence: int, eventHash: Hash, checkpointHash: Hash)

  datatype Ledger = Ledger(logs: seq<AuditLog>, heads: map<string, ChainHead>, checkpoints: seq<Checkpoint>)

  datatype Hashing = Hashing(event: Canonical -> Hash, checkpoint: (string, int, Hash) -> Hash)

  // ----- Verifying a chain

  datatype Failure =
    | SequenceDiscontinuity
    | BrokenHashLink
    | HashMismatch
    | TailDeletion
    | HeadHashMismatch
    | ExpectedHeadHashMismatch

  datatype Verdict = Valid(count: nat) | Invalid(reason: Failure, sequence: int)

  function HashBefore(events: seq<AuditLog>, i: nat): Hash
    requires i <= |events|
  {
    if i == 0 then GENESIS else events[i - 1].eventHash
  }

  /** Event `i` has its own number, links to its predecessor and hashes to its recorded hash. */
  predicate GoodAt(events: seq<AuditLog>, i: nat, h: Hashing)
    requires i < |events|
  {
    && events[i].sequence == i + 1
    && events[i].previousHash == HashBefore(events, i)
    && h.event(CanonicalEvent(events[i])) == events[i].eventHash
  }

  ghost predicate GoodChain(events: seq<AuditLog>, h: Hashing) {
    forall i :: 0 <= i < |events| ==> GoodAt(events, i, h)
  }

  predicate HeadMatches(events: seq<AuditLog>, head: Option<ChainHead>)
    requires events != []
  {
    var last := events[|events| - 1];
    head.Some? ==> head.value.lastSequence == last.sequence && head.value.lastHash == last.eventHash
  }

  /** An empty expected hash counts as none given. */
  predicate ExpectationMet(events: seq<AuditLog>, expected: Option<Hash>)
    requires events != []
  {
    expected.Some? && expected.value != "" ==> events[|events| - 1].eventHash == expected.value
  }

  ghost predicate Accepted(events: seq<AuditLog>, head: Option<ChainHead>, expected: Option<Hash>, h: Hashing) {
    events != [] ==> GoodChain(events, h) && HeadMatches(events, head) && ExpectationMet(events, expected)
  }

  function RowsOf(logs: seq<AuditLog>, chain: string): (rows: seq<AuditLog>)
    ensures forall e :: e in rows <==> e in logs && e.chainId == chain
  {
    if logs == [] then []
    else
      var last := logs[|logs| - 1];
      assert logs == logs[..|logs| - 1] + [last];
      RowsOf(logs[..|logs| - 1], chain) + if last.chainId == chain then [last] else []
  }

  const EVENT_SEQUENCE := (e: AuditLog) => e.sequence

  function OrderedRows(logs: seq<AuditLog>, chain: string): seq<AuditLog> {
    SortBy(EVENT_SEQUENCE, RowsOf(logs, chain))
  }

  function HeadOf(ledger: Ledger, chain: string): Option<ChainHead> {
    if chain in ledger.heads then Some(ledger.heads[chain]) else None
  }

  /** On a good chain the reason is the first of the head checks that fails, and the number reported is
      the head's own for a tail deletion and the last event's otherwise. */
  ghost predicate HeadBroken(events: seq<AuditLog>, head: Option<ChainHead>, expected: Option<Hash>, v: Verdict)
    requires events != [] && v.Invalid?
  {
    var last := events[|events| - 1];
    match v.reason
    case TailDeletion =>
      head.Some? && head.value.lastSequence != last.sequence && v.sequence == head.value.lastSequence
    case HeadHashMismatch =>
      && head.Some? && head.value.lastSequence == last.sequence && head.value.lastHash != last.eventHash
      && v.sequence == last.sequence
    case ExpectedHeadHashMismatch =>
      HeadMatches(events, head) && !ExpectationMet(events, expected) && v.sequence == last.sequence
    case _ => false
  }

  method VerifyChain(ledger: Ledger, chain: string, expected: Option<Hash>, h: Hashing) returns (v: Verdict)
    ensures var events := OrderedRows(ledger.logs, chain);
            var head := HeadOf(ledger, chain);
            && (v.Valid? <==> Accepted(events, head, expected, h))
            && (v.Valid? ==> v.count == |events|)
            && (v.Invalid? && v.reason in {SequenceDiscontinuity, BrokenHashLink, HashMismatch} ==>
                  exists i :: 0 <= i < |events| && FirstBroken(events, i, h, v))
            && (v.Invalid? && v.reason !in {SequenceDiscontinuity, BrokenHashLink, HashMismatch} ==>
                  events != [] && GoodChain(events, h) && HeadBroken(events, head, expected, v))
  {
    var events := OrderedRows(ledger.logs, chain);
    if events == [] {
      return Valid(0);
    }
    var head := HeadOf(ledger, chain);
    var expectedSequence, expectedPrevious := 1, GENESIS;
    for i := 0 to |events|
      invariant expectedSequence == i + 1 && expectedPrevious == HashBefore(events, i)
      invariant forall j :: 0 <= j < i ==> GoodAt(events, j, h)
    {
      var event := events[i];
      if event.sequence != expectedSequence {
        v := Invalid(SequenceDiscontinuity, event.sequence);
        assert !GoodAt(events, i, h);
        assert FirstBroken(events, i, h, v);
        return;
      }
      if event.previousHash != expectedPrevious {
        v := Invalid(BrokenHashLink, event.sequence);
        assert !GoodAt(events, i, h);
        assert FirstBroken(events, i, h, v);
        return;
      }
      var recomputed := h.event(CanonicalEvent(event));
      if recomputed != event.eventHash {
        v := Invalid(HashMismatch, event.sequence);
        assert !GoodAt(events, i, h);
        assert FirstBroken(events, i, h, v);
        return;
      }
      expectedPrevious := event.eventHash;
      expectedSequence := expectedSequence + 1;
    }
    var last := events[|events| - 1];
    if head.Some? {
      if head.value.lastSequence != last.sequence {
        return Invalid(TailDeletion, head.value.lastSequence);
      }
      if head.value.lastHash != last.eventHash {
        return Invalid(HeadHashMismatch, last.sequence);
      }
    }
    if expected.Some? && expected.value != "" && last.eventHash != expected.value {
      return Invalid(ExpectedHeadHashMismatch, last.sequence);
    }
    v := Valid(|events|);
  }

  /** The reported event is the first wrong one, and the reason is the first check it fails. */
  ghost predicate FirstBroken(events: seq<AuditLog>, i: nat, h: Hashing, v: Verdict)
    requires i < |events|
  {
    && v.Invalid? && v.sequence == events[i].sequence
    && (forall j :: 0 <= j < i ==> GoodAt(events, j, h))
    && (match v.reason
        case SequenceDiscontinuity => events[i].sequence != i + 1
        case BrokenHashLink => events[i].sequence == i + 1 && events[i].previousHash != HashBefore(events, i)
        case HashMismatch =>
          && events[i].sequence == i + 1 && events[i].previousHash == HashBefore(events, i)
          && h.event(CanonicalEvent(events[i])) != events[i].eventHash
        case _ => false)
  }

  // ----- Tamper evidence

  ghost predicate NoCollision(a: seq<AuditLog>, b: seq<AuditLog>, h: Hashing) {
    forall x, y :: x in a && y in b && h.event(CanonicalEvent(x)) == h.event(CanonicalEvent(y))
                   ==> CanonicalEvent(x) == CanonicalEvent(y)
  }

  predicate SameHashedFields(x: AuditLog, y: AuditLog) {
    && x.action == y.action && x.actorId == y.actorId && x.actorType == y.actorType && x.chainId == y.chainId
    && x.correlationId == y.correlationId && x.eventUuid == y.eventUuid && x.payload == y.payload
    && x.previousHash == y.previousHash && x.resourceId == y.resourceId && x.resourceType == y.resourceType
    && x.schemaVersion == y.schemaVersion && x.sequence == y.sequence && x.tenantId == y.tenantId
    && x.timestamp == y.timestamp
  }

  /** Two good chains that end in the same event hash are the same event by event, back to the
      first: no edit, insertion, deletion or reordering of a hashed field goes unnoticed. */
  lemma TamperEvidence(a: seq<AuditLog>, b: seq<AuditLog>, h: Hashing)
    requires GoodChain(a, h) && GoodChain(b, h) && NoCollision(a, b, h)
    requires a != [] && b != [] && a[|a| - 1].eventHash == b[|b| - 1].eventHash
    ensures |a| == |b|
    ensures forall i :: 0 <= i < |a| ==> SameHashedFields(a[i], b[i]) && a[i].eventHash == b[i].eventHash
  {
    assert GoodAt(a, |a| - 1, h) && GoodAt(b, |b| - 1, h);
    assert a[|a| - 1] in a && b[|b| - 1] in b;
    assert CanonicalEvent(a[|a| - 1]) == CanonicalEvent(b[|b| - 1]);
    AgreeFrom(a, b, 0, h);
  }

  lemma {:induction false} AgreeFrom(a: seq<AuditLog>, b: seq<AuditLog>, from: nat, h: Hashing)
    requires GoodChain(a, h) && GoodChain(b, h) && NoCollision(a, b, h)
    requires |a| == |b| && from < |a| && a[|a| - 1].eventHash == b[|b| - 1].eventHash
    ensures forall i :: from <= i < |a| ==> SameHashedFields(a[i], b[i]) && a[i].eventHash == b[i].eventHash
    decreases |a| - from
  {
    assert GoodAt(a, from, h) && GoodAt(b, from, h);
    if from + 1 < |a| {
      AgreeFrom(a, b, from + 1, h);
      assert GoodAt(a, from + 1, h) && GoodAt(b, from + 1, h);
    }
    assert a[from] in a && b[from] in b;
    assert CanonicalEvent(a[from]) == CanonicalEvent(b[from]);
  }

  /** With the head record in place, what verification accepts for a chain is pinned down: two
      non-empty ledgers accepted against the same head hold the same events. */
  lemma AcceptedAgainstOneHead(a: seq<AuditLog>, b: seq<AuditLog>, head: ChainHead, h: Hashing)
    requires a != [] && b != [] && NoCollision(a, b, h)
    requires Accepted(a, Some(head), None, h) && Accepted(b, Some(head), None, h)
    ensures |a| == |b|
    ensures forall i :: 0 <= i < |a| ==> SameHashedFields(a[i], b[i]) && a[i].eventHash == b[i].eventHash
  {
    TamperEvidence(a, b, h);
  }

  /** Cutting off the tail is noticed exactly when the head record is still there. */
  lemma TruncationNoticed(events: seq<AuditLog>, k: nat, head: Option<ChainHead>, h: Hashing)
    requires GoodChain(events, h) && 0 < k < |events|
    requires head.Some? ==> head.value.lastSequence == |events|
    ensures Accepted(events[..k], head, None, h) <==> head.None?
  {
    forall i | 0 <= i < k ensures GoodAt(events[..k], i, h) {
      assert GoodAt(events, i, h);
    }
    assert GoodAt(events, k - 1, h);
  }

  /** Deleting the whole chain is not noticed, whatever the head record or the caller expects. */
  lemma TotalDeletionUnnoticed(head: Option<ChainHead>, expected: Option<Hash>, h: Hashing)
    ensures Accepted([], head, expected, h)
  {
  }

  // ----- Appending

  /** A call to log an event, after its aliases are resolved and its payload sanitized, with the
      identifier and the time the server gives it. */
  datatype Request = Request(
    chainId: string,
    tenantId: Option<int>,
    actorType: string,
    actorId: Option<int>,
    action: string,
    resourceType: string,
    resourceId: Option<int>,
    correlationId: Option<string>,
    payload: Option<string>,
    ipAddress: Option<string>,
    userAgent: Option<string>,
    details: Option<string>,
    eventUuid: string,
    timestamp: string)

  const SCHEMA_VERSION := "v1.0.0"

  const CHECKPOINT_EVERY := 100

  /** The sequence number and previous hash a new event of the chain is to take. */
  function NextSlot(ledger: Ledger, chain: string): (int, Hash) {
    if chain in ledger.heads then (ledger.heads[chain].lastSequence + 1, ledger.heads[chain].lastHash)
    else (1, GENESIS)
  }

  function Sealed(r: Request, slot: (int, Hash), h: Hashing): AuditLog {
    var unsealed := AuditLog(
      r.eventUuid, r.chainId, slot.0, r.tenantId, r.actorType, r.actorId, r.action, r.resourceType, r.resourceId,
      r.timestamp, SCHEMA_VERSION, r.correlationId, r.payload, r.ipAddress, r.userAgent, r.details, slot.1, "");
    unsealed.(eventHash := h.event(CanonicalEvent(unsealed)))
  }

  function CheckpointOf(e: AuditLog, h: Hashing): Checkpoint {
    Checkpoint(e.chainId, e.sequence, e.eventHash, h.checkpoint(e.chainId, e.sequence, e.eventHash))
  }

  /** The ledger after the event takes the given slot: head moved, row added, and a checkpoint at
      every hundredth number. */
  function AppendAt(ledger: Ledger, r: Request, slot: (int, Hash), h: Hashing): Ledger {
    var e := Sealed(r, slot, h);
    var tenant := if r.chainId in ledger.heads then ledger.heads[r.chainId].tenantId else r.tenantId;
    Ledger(
      ledger.logs + [e],
      ledger.heads[r.chainId := ChainHead(tenant, slot.0, r.eventUuid, e.eventHash)],
      if slot.0 % CHECKPOINT_EVERY == 0 then ledger.checkpoints + [CheckpointOf(e, h)] else ledger.checkpoints)
  }

  function Append(ledger: Ledger, r: Request, h: Hashing): Ledger {
    AppendAt(ledger, r, NextSlot(ledger, r.chainId), h)
  }

  // ----- What an append records, field by field

  /** The event says what the request said, under the current schema. */
  predicate Carries(e: AuditLog, r: Request) {
    && e.chainId == r.chainId && e.tenantId == r.tenantId
    && e.actorType == r.actorType && e.actorId == r.actorId
    && e.action == r.action && e.resourceType == r.resourceType && e.resourceId == r.resourceId
    && e.correlationId == r.correlationId && e.payload == r.payload
    && e.ipAddress == r.ipAddress && e.userAgent == r.userAgent && e.details == r.details
    && e.eventUuid == r.eventUuid && e.timestamp == r.timestamp && e.schemaVersion == "v1.0.0"
  }

  /** The hash is taken over these fourteen fields of the event, each under its own name. */
  predicate HashedAsItIs(c: Canonical, e: AuditLog) {
    && c.action == e.action && c.actorId == e.actorId && c.actorType == e.actorType && c.chainId == e.chainId
    && c.correlationId == e.correlationId && c.eventUuid == e.eventUuid && c.payload == e.payload
    && c.previousHash == e.previousHash && c.resourceId == e.resourceId && c.resourceType == e.resourceType
    && c.schemaVersion == e.schemaVersion && c.sequence == e.sequence && c.tenantId == e.tenantId
    && c.timestamp == e.timestamp
  }

  /** The event follows the chain's head, or opens the chain. */
  ghost predicate Follows(e: AuditLog, head: Option<ChainHead>) {
    if head.None? then e.sequence == 1 && e.previousHash == GENESIS
    else e.sequence == head.value.lastSequence + 1 && e.previousHash == head.value.lastHash
  }

  /** The head names the event, and keeps the tenant the chain was opened for. */
  ghost predicate Heads(after: Option<ChainHead>, before: Option<ChainHead>, e: AuditLog) {
    && after.Some?
    && after.value.lastSequence == e.sequence && after.value.lastUuid == e.eventUuid
    && after.value.lastHash == e.eventHash
    && after.value.tenantId == if before.Some? then before.value.tenantId else e.tenantId
  }

  ghost predicate MarksHundredth(after: seq<Checkpoint>, before: seq<Checkpoint>, e: AuditLog, h: Hashing) {
    if e.sequence % 100 != 0 then after == before
    else
      && |after| == |before| + 1 && after[..|before|] == before
      && after[|before|].chainId == e.chainId && after[|before|].sequence == e.sequence
      && after[|before|].eventHash == e.eventHash
      && after[|before|].checkpointHash == h.checkpoint(e.chainId, e.sequence, e.eventHash)
  }

  ghost predicate Records(before: Ledger, after: Ledger, r: Request, e: AuditLog, h: Hashing) {
    && after.logs == before.logs + [e] && Carries(e, r)
    && (exists c :: HashedAsItIs(c, e) && e.eventHash == h.event(c))
    && Follows(e, HeadOf(before, r.chainId))
    && Heads(HeadOf(after, r.chainId), HeadOf(before, r.chainId), e)
    && (forall chain :: chain != r.chainId ==> HeadOf(after, chain) == HeadOf(before, chain))
    && MarksHundredth(after.checkpoints, before.checkpoints, e, h)
  }

  /** An append adds one event that carries the request, hashed over its own fields and linked to the
      head; moves that head alone; and marks every hundredth event. */
  lemma AppendRecords(ledger: Ledger, r: Request, h: Hashing)
    ensures Records(ledger, Append(ledger, r, h), r, Sealed(r, NextSlot(ledger, r.chainId), h), h)
  {
    var e := Sealed(r, NextSlot(ledger, r.chainId), h);
    assert HashedAsItIs(CanonicalEvent(e), e) && e.eventHash == h.event(CanonicalEvent(e));
  }

  // ----- What every ledger built by appending satisfies

  function CheckpointsOf(cs: seq<Checkpoint>, chain: string): seq<Checkpoint> {
    if cs == [] then []
    else
      var last := cs[|cs| - 1];
      CheckpointsOf(cs[..|cs| - 1], chain) + if last.chainId == chain then [last] else []
  }

  /** The checkpoints of a chain are its hundredth events, in order, with their hashes. */
  ghost predicate CheckpointsMatch(rows: seq<AuditLog>, cs: seq<Checkpoint>, h: Hashing) {
    && |cs| == |rows| / CHECKPOINT_EVERY
    && forall k :: 0 <= k < |cs| ==> cs[k] == CheckpointOf(rows[CHECKPOINT_EVERY * k + CHECKPOINT_EVERY - 1], h)
  }

  ghost predicate HeadIsLast(rows: seq<AuditLog>, head: Option<ChainHead>) {
    && (head.Some? <==> rows != [])
    && (rows != [] ==>
          var last := rows[|rows| - 1];
          && head.value.lastSequence == |rows|
          && head.value.lastUuid == last.eventUuid
          && head.value.lastHash == last.eventHash)
  }

  /** The chain's events are numbered from 1, linked and hashed; its head is its last event; and its
      checkpoints sit at its hundredth events. */
  ghost predicate ChainInOrder(ledger: Ledger, chain: string, h: Hashing) {
    var rows := RowsOf(ledger.logs, chain);
    && GoodChain(rows, h)
    && HeadIsLast(rows, HeadOf(ledger, chain))
    && CheckpointsMatch(rows, CheckpointsOf(ledger.checkpoints, chain), h)
  }

  ghost predicate InOrder(ledger: Ledger, h: Hashing) {
    forall chain :: ChainInOrder(ledger, chain, h)
  }

  const EMPTY_LEDGER := Ledger([], map[], [])

  lemma RowsAppend(logs: seq<AuditLog>, e: AuditLog, chain: string)
    ensures RowsOf(logs + [e], chain) == RowsOf(logs, chain) + if e.chainId == chain then [e] else []
  {
    assert (logs + [e])[..|logs|] == logs;
  }

  lemma CheckpointsAppend(cs: seq<Checkpoint>, c: Checkpoint, chain: string)
    ensures CheckpointsOf(cs + [c], chain) == CheckpointsOf(cs, chain) + if c.chainId == chain then [c] else []
  {
    assert (cs + [c])[..|cs|] == cs;
  }

  lemma GoodChainExtends(rows: seq<AuditLog>, e: AuditLog, h: Hashing)
    requires GoodChain(rows, h)
    requires e.sequence == |rows| + 1 && e.previousHash == HashBefore(rows, |rows|)
    requires h.event(CanonicalEvent(e)) == e.eventHash
    ensures GoodChain(rows + [e], h)
  {
    forall i | 0 <= i < |rows| + 1 ensures GoodAt(rows + [e], i, h) {
      if i < |rows| {
        assert GoodAt(rows, i, h);
      }
    }
  }

  lemma CheckpointsExtend(rows: seq<AuditLog>, cs: seq<Checkpoint>, e: AuditLog, h: Hashing)
    requires CheckpointsMatch(rows, cs, h) && e.sequence == |rows| + 1
    ensures CheckpointsMatch(
              rows + [e], if e.sequence % CHECKPOINT_EVERY == 0 then cs + [CheckpointOf(e, h)] else cs, h)
  {
  }

  lemma AppendKeepsChain(ledger: Ledger, r: Request, h: Hashing, chain: string)
    requires ChainInOrder(ledger, r.chainId, h) && ChainInOrder(ledger, chain, h)
    ensures ChainInOrder(Append(ledger, r, h), chain, h)
  {
    var slot := NextSlot(ledger, r.chainId);
    var e := Sealed(r, slot, h);
    var rows := RowsOf(ledger.logs, chain);
    RowsAppend(ledger.logs, e, chain);
    CheckpointsAppend(ledger.checkpoints, CheckpointOf(e, h), chain);
    hide RowsOf, CheckpointsOf;
    if chain == r.chainId {
      GoodChainExtends(rows, e, h);
      CheckpointsExtend(rows, CheckpointsOf(ledger.checkpoints, chain), e, h);
      hide GoodChain, CheckpointsMatch;
      var after := Append(ledger, r, h);
      assert RowsOf(after.logs, chain) == rows + [e];
      assert HeadIsLast(rows + [e], HeadOf(after, chain));
      assert CheckpointsMatch(rows + [e], CheckpointsOf(after.checkpoints, chain), h);
    } else {
      var after := Append(ledger, r, h);
      assert RowsOf(after.logs, chain) == rows;
      assert HeadOf(after, chain) == HeadOf(ledger, chain);
      assert CheckpointsOf(after.checkpoints, chain) == CheckpointsOf(ledger.checkpoints, chain);
    }
  }

  /** An accepted chain is what an ordered ledger always has. */
  lemma InOrderIsAccepted(ledger: Ledger, chain: string, h: Hashing)
    requires ChainInOrder(ledger, chain, h)
    ensures var rows := RowsOf(ledger.logs, chain);
            && OrderedRows(ledger.logs, chain) == rows
            && Accepted(rows, HeadOf(ledger, chain), None, h)
  {
    var rows := RowsOf(ledger.logs, chain);
    forall i, j | 0 <= i < j < |rows| ensures EVENT_SEQUENCE(rows[i]) <= EVENT_SEQUENCE(rows[j]) {
      assert GoodAt(rows, i, h) && GoodAt(rows, j, h);
    }
    SortOfSorted(EVENT_SEQUENCE, rows);
    if rows != [] {
      assert GoodAt(rows, |rows| - 1, h);
    }
  }

  /** The store the service writes: rows, chain heads and checkpoints. */
  class AuditStore {
    var logs: seq<AuditLog>
    var heads: map<string, ChainHead>
    var checkpoints: seq<Checkpoint>

    function Contents(): Ledger
      reads this
    {
      Ledger(logs, heads, checkpoints)
    }

    constructor ()
      ensures Contents() == EMPTY_LEDGER
    {
      logs, heads, checkpoints := [], map[], [];
    }

    method LogEvent(r: Request, h: Hashing) returns (event: AuditLog)
      modifies this
      ensures Contents() == Append(old(Contents()), r, h)
      ensures Records(old(Contents()), Contents(), r, event, h)
      ensures old(InOrder(Contents(), h)) ==> InOrder(Contents(), h)
    {
      AppendRecords(Contents(), r, h);
      ghost var before := Contents();
      var next, previous, tenant := 1, GENESIS, r.tenantId;
      if r.chainId in heads {
        var head := heads[r.chainId];
        next, previous, tenant := head.lastSequence + 1, head.lastHash, head.tenantId;
      }
      event := Sealed(r, (next, previous), h);
      heads := heads[r.chainId := ChainHead(tenant, next, r.eventUuid, event.eventHash)];
      logs := logs + [event];
      if next % CHECKPOINT_EVERY == 0 {
        checkpoints := checkpoints + [CheckpointOf(event, h)];
      }
      if InOrder(before, h) {
        forall chain ensures ChainInOrder(Contents(), chain, h) {
          AppendKeepsChain(before, r, h, chain);
        }
      }
    }
  }

  // ----- Threads

  /** Where a thread is inside `log_event`: not in it, waiting for the lock, inside the lock, having
      read the head, or having written. */
  datatype Place = Idle | Waiting(r: Request) | Locked(r: Request) | Slotted(r: Request, slot: (int, Hash)) | Written

  datatype System = System(ledger: Ledger, lock: Option<nat>, places: map<nat, Place>) {
    function At(t: nat): Place { if t in places then places[t] else Idle }

    function Move(t: nat, p: Place): System { this.(places := places[t := p]) }
  }

  const START := System(EMPTY_LEDGER, None, map[])

  datatype Step = Call(t: nat, r: Request) | Acquire(t: nat) | ReadHead(t: nat) | Write(t: nat) | Release(t: nat)

  /** One step; a step that is not enabled leaves the system as it is. */
  function Next(s: System, step: Step, h: Hashing): System {
    var t, place := step.t, s.At(step.t);
    match step
    case Call(_, r) => if place == Idle then s.Move(t, Waiting(r)) else s
    case Acquire(_) =>
      if place.Waiting? && s.lock == None then s.Move(t, Locked(place.r)).(lock := Some(t)) else s
    case ReadHead(_) =>
      if place.Locked? then s.Move(t, Slotted(place.r, NextSlot(s.ledger, place.r.chainId))) else s
    case Write(_) =>
      if place.Slotted? then s.Move(t, Written).(ledger := AppendAt(s.ledger, place.r, place.slot, h)) else s
    case Release(_) =>
      if place == Written then s.Move(t, Idle).(lock := None) else s
  }

  function Run(s: System, steps: seq<Step>, h: Hashing): System {
    if steps == [] then s else Next(Run(s, steps[..|steps| - 1], h), steps[|steps| - 1], h)
  }

  /** Only the holder of the lock is past it, and the slot it read is still the next one. */
  ghost predicate SystemInv(s: System, h: Hashing) {
    && InOrder(s.ledger, h)
    && (forall t :: t in s.places ==> (s.At(t).Locked? || s.At(t).Slotted? || s.At(t).Written?) ==> s.lock == Some(t))
    && (forall t :: t in s.places ==> s.At(t).Slotted? ==> s.At(t).slot == NextSlot(s.ledger, s.At(t).r.chainId))
  }

  lemma StepKeepsInv(s: System, step: Step, h: Hashing)
    requires SystemInv(s, h)
    ensures SystemInv(Next(s, step, h), h)
  {
    var place := s.At(step.t);
    if step.Write? && place.Slotted? {
      forall chain ensures ChainInOrder(Next(s, step, h).ledger, chain, h) {
        AppendKeepsChain(s.ledger, place.r, h, chain);
      }
    }
  }

  lemma {:induction false} RunKeepsInv(s: System, steps: seq<Step>, h: Hashing)
    requires SystemInv(s, h)
    ensures SystemInv(Run(s, steps, h), h)
  {
    if steps != [] {
      RunKeepsInv(s, steps[..|steps| - 1], h);
      StepKeepsInv(Run(s, steps[..|steps| - 1], h), steps[|steps| - 1], h);
    }
  }

  /** However any number of threads interleave their calls on any chains, every chain is numbered
      from 1, linked, headed and checkpointed in order, and verification accepts it. */
  lemma EveryInterleavingInOrder(steps: seq<Step>, h: Hashing, chain: string)
    ensures var ledger := Run(START, steps, h).ledger;
            && ChainInOrder(ledger, chain, h)
            && Accepted(OrderedRows(ledger.logs, chain),
                        HeadOf(ledger, chain), None, h)
  {
    RunKeepsInv(START, steps, h);
    InOrderIsAccepted(Run(START, steps, h).ledger, chain, h);
  }

  /** After any run, with the head records left alone: whatever rows someone puts in place of a
      chain's, verification accepts them only if there are none left or they are the events logged. */
  lemma TamperingIsNoticed(steps: seq<Step>, h: Hashing, chain: string, forged: seq<AuditLog>)
    requires var ledger := Run(START, steps, h).ledger;
             && RowsOf(ledger.logs, chain) != []
             && NoCollision(OrderedRows(forged, chain), RowsOf(ledger.logs, chain), h)
             && Accepted(OrderedRows(forged, chain), HeadOf(ledger, chain), None, h)
    ensures var ledger := Run(START, steps, h).ledger;
            var put, logged := OrderedRows(forged, chain), RowsOf(ledger.logs, chain);
            || put == []
            || (|put| == |logged|
                && forall i :: 0 <= i < |put| ==>
                     SameHashedFields(put[i], logged[i]) && put[i].eventHash == logged[i].eventHash)
  {
    EveryInterleavingInOrder(steps, h, chain);
    var ledger := Run(START, steps, h).ledger;
    InOrderIsAccepted(ledger, chain, h);
    hide Run, RowsOf, OrderedRows, GoodChain, NoCollision, SameHashedFields;
    var put, logged := OrderedRows(forged, chain), RowsOf(ledger.logs, chain);
    if put != [] {
      AcceptedAgainstOneHead(put, logged, HeadOf(ledger, chain).value, h);
    }
  }

  // ----- What the rows of a run carry

  /** The requests written so far, in the order of their writes. */
  function Logged(steps: seq<Step>, h: Hashing): seq<Request> {
    if steps == [] then []
    else
      var n := |steps| - 1;
      var before, front := Run(START, steps[..n], h), Logged(steps[..n], h);
      var place := before.At(steps[n].t);
      if steps[n].Write? && place.Slotted? then front + [place.r] else front
  }

  function RequestsOn(requests: seq<Request>, chain: string): seq<Request> {
    if requests == [] then []
    else
      var last := requests[|requests| - 1];
      RequestsOn(requests[..|requests| - 1], chain) + if last.chainId == chain then [last] else []
  }

  lemma RequestsAppend(requests: seq<Request>, r: Request, chain: string)
    ensures RequestsOn(requests + [r], chain)
            == if r.chainId == chain then RequestsOn(requests, chain) + [r] else RequestsOn(requests, chain)
  {
    assert (requests + [r])[..|requests|] == requests;
  }

  /** Each row of the chain carries the request of its place. */
  ghost predicate RowsCarry(rows: seq<AuditLog>, requests: seq<Request>) {
    |rows| == |requests| && forall i :: 0 <= i < |rows| ==> Carries(rows[i], requests[i])
  }

  /** A head keeps the tenant its chain was opened for. */
  ghost predicate HeadKeepsTenant(rows: seq<AuditLog>, head: Option<ChainHead>) {
    head.Some? ==> rows != [] && head.value.tenantId == rows[0].tenantId
  }

  ghost predicate ChainRecorded(ledger: Ledger, requests: seq<Request>, chain: string) {
    && RowsCarry(RowsOf(ledger.logs, chain), RequestsOn(requests, chain))
    && HeadKeepsTenant(RowsOf(ledger.logs, chain), HeadOf(ledger, chain))
  }

  lemma RowsCarryOneMore(rows: seq<AuditLog>, requests: seq<Request>, e: AuditLog, r: Request)
    requires RowsCarry(rows, requests) && Carries(e, r)
    ensures RowsCarry(rows + [e], requests + [r])
  {
    hide Carries;
  }

  lemma AppendKeepsRecord(ledger: Ledger, requests: seq<Request>, r: Request, h: Hashing, chain: string)
    requires ChainRecorded(ledger, requests, chain) && HeadIsLast(RowsOf(ledger.logs, chain), HeadOf(ledger, chain))
    ensures ChainRecorded(Append(ledger, r, h), requests + [r], chain)
  {
    var e, after := Sealed(r, NextSlot(ledger, r.chainId), h), Append(ledger, r, h);
    AppendRecords(ledger, r, h);
    RowsAppend(ledger.logs, e, chain);
    RequestsAppend(requests, r, chain);
    assert e.chainId == r.chainId && after.logs == ledger.logs + [e];
    var rows := RowsOf(ledger.logs, chain);
    if r.chainId == chain {
      RowsCarryOneMore(rows, RequestsOn(requests, chain), e, r);
      assert RowsOf(after.logs, chain) == rows + [e];
      hide RowsOf, RequestsOn, Append, Sealed, Carries, RowsCarry;
      assert HeadKeepsTenant(rows + [e], HeadOf(after, chain));
    } else {
      assert RowsOf(after.logs, chain) == rows + [] == rows;
      hide RowsOf, RequestsOn, Append, Sealed, Carries, RowsCarry;
    }
  }

  lemma StepRecords(s: System, step: Step, h: Hashing, requests: seq<Request>, chain: string)
    requires SystemInv(s, h) && ChainRecorded(s.ledger, requests, chain)
    ensures ChainRecorded(Next(s, step, h).ledger,
                          if step.Write? && s.At(step.t).Slotted? then requests + [s.At(step.t).r] else requests,
                          chain)
  {
    hide ChainRecorded, GoodChain, CheckpointsMatch, HeadIsLast;
    if step.Write? && s.At(step.t).Slotted? {
      assert ChainInOrder(s.ledger, chain, h);
      AppendKeepsRecord(s.ledger, requests, s.At(step.t).r, h, chain);
    }
  }

  lemma {:induction false} RunRecords(steps: seq<Step>, h: Hashing, chain: string)
    ensures ChainRecorded(Run(START, steps, h).ledger, Logged(steps, h), chain)
  {
    if steps != [] {
      var n := |steps| - 1;
      RunRecords(steps[..n], h, chain);
      RunKeepsInv(START, steps[..n], h);
      hide ChainRecorded, Next, SystemInv;
      StepRecords(Run(START, steps[..n], h), steps[n], h, Logged(steps[..n], h), chain);
    }
  }

  /** Some thread called with the request. */
  ghost predicate WasCalled(steps: seq<Step>, r: Request) {
    exists i :: 0 <= i < |steps| && steps[i].Call? && steps[i].r == r
  }

  /** What a thread is busy with, it was called with. */
  ghost predicate PlacesCalled(s: System, steps: seq<Step>) {
    forall t :: t in s.places && (s.At(t).Waiting? || s.At(t).Locked? || s.At(t).Slotted?) ==>
      WasCalled(steps, s.At(t).r)
  }

  lemma WasCalledLonger(steps: seq<Step>, n: nat, r: Request)
    requires n <= |steps| && WasCalled(steps[..n], r)
    ensures WasCalled(steps, r)
  {
    var i :| 0 <= i < n && steps[..n][i].Call? && steps[..n][i].r == r;
    assert steps[i] == steps[..n][i];
  }

  lemma {:induction false} LoggedWasCalled(steps: seq<Step>, h: Hashing)
    ensures PlacesCalled(Run(START, steps, h), steps)
    ensures forall r :: r in Logged(steps, h) ==> WasCalled(steps, r)
  {
    if steps != [] {
      var n := |steps| - 1;
      LoggedWasCalled(steps[..n], h);
      forall r | WasCalled(steps[..n], r) ensures WasCalled(steps, r) {
        WasCalledLonger(steps, n, r);
      }
      if steps[n].Call? {
        assert WasCalled(steps, steps[n].r);
      }
      hide WasCalled, AppendAt, NextSlot;
    }
  }

  /** After every interleaving: the i-th row of a chain carries the i-th request written on that chain,
      which some thread called with; the head keeps the tenant of the first row; and the k-th
      checkpoint is of event 100 (k + 1), holds its hash, and hashes chain, number and that hash. */
  lemma RowsCarryRequests(steps: seq<Step>, h: Hashing, chain: string)
    ensures var ledger := Run(START, steps, h).ledger;
            var rows, requests := RowsOf(ledger.logs, chain), RequestsOn(Logged(steps, h), chain);
            && |rows| == |requests|
            && (forall i :: 0 <= i < |rows| ==> Carries(rows[i], requests[i]) && WasCalled(steps, requests[i]))
            && (rows != [] ==> HeadOf(ledger, chain).Some? && HeadOf(ledger, chain).value.tenantId == rows[0].tenantId)
    ensures var ledger := Run(START, steps, h).ledger;
            var rows, cs := RowsOf(ledger.logs, chain), CheckpointsOf(ledger.checkpoints, chain);
            && |cs| == |rows| / 100
            && forall k :: 0 <= k < |cs| ==>
                 var hash := rows[100 * k + 99].eventHash;
                 && cs[k].chainId == chain && cs[k].sequence == 100 * (k + 1) && cs[k].eventHash == hash
                 && cs[k].checkpointHash == h.checkpoint(chain, 100 * (k + 1), hash)
  {
    hide Run, Logged, RequestsOn, WasCalled, Carries, GoodChain, CheckpointsMatch, RowsOf, CheckpointsOf;
    RunRecords(steps, h, chain);
    LoggedWasCalled(steps, h);
    RequestsAmong(Logged(steps, h), chain);
    EveryInterleavingInOrder(steps, h, chain);
    RowsAreOnChain(Run(START, steps, h).ledger.logs, chain);
    CheckpointFields(RowsOf(Run(START, steps, h).ledger.logs, chain),
                     CheckpointsOf(Run(START, steps, h).ledger.checkpoints, chain), h, chain);
  }

  lemma RowsAreOnChain(logs: seq<AuditLog>, chain: string)
    ensures forall e :: e in RowsOf(logs, chain) ==> e.chainId == chain
  {
  }

  lemma CheckpointFields(rows: seq<AuditLog>, cs: seq<Checkpoint>, h: Hashing, chain: string)
    requires GoodChain(rows, h) && CheckpointsMatch(rows, cs, h)
    requires forall e :: e in rows ==> e.chainId == chain
    ensures |cs| == |rows| / 100
    ensures forall k :: 0 <= k < |cs| ==>
              var hash := rows[100 * k + 99].eventHash;
              && cs[k].chainId == chain && cs[k].sequence == 100 * (k + 1) && cs[k].eventHash == hash
              && cs[k].checkpointHash == h.checkpoint(chain, 100 * (k + 1), hash)
  {
    forall k | 0 <= k < |cs|
      ensures cs[k].chainId == chain && cs[k].sequence == 100 * (k + 1)
      ensures cs[k].eventHash == rows[100 * k + 99].eventHash
      ensures cs[k].checkpointHash == h.checkpoint(chain, 100 * (k + 1), rows[100 * k + 99].eventHash)
    {
      assert GoodAt(rows, 100 * k + 99, h) && rows[100 * k + 99] in rows;
    }
  }

  lemma {:induction false} RequestsAmong(requests: seq<Request>, chain: string)
    ensures forall r :: r in RequestsOn(requests, chain) ==> r in requests
  {
    if requests != [] {
      var n := |requests| - 1;
      RequestsAmong(requests[..n], chain);
      assert requests == requests[..n] + [requests[n]];
    }
  }
}

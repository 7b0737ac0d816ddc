/** Bulk set-consent: what each row takes from the batch, and what its audit diff says. */
module BulkConsent {
  import opened Wrappers
  import opened ConsentTypes
  import opened ConsentPolicy

  /** The batch body; the method is admin-assertable because the request validator admits no other. */
  datatype Batch = Batch(
    unlock: bool,
    acknowledged: bool,
    consentMethod: Option<ConsentMethod>,
    consentObtainedAt: Option<DateText>,
    consentReference: Field<Option<Reference>>)

  predicate WellFormedBatch(b: Batch) {
    b.consentMethod.Some? ==> AdminAssertable(b.consentMethod.value)
  }

  function BatchStatus(b: Batch): ConsentStatus {
    if b.unlock then GRANTED else DENIED
  }

  /** The gate in front of the transaction: nothing is read or written when it refuses. */
  function BatchGate(b: Batch): Option<WriteError> {
    if b.unlock && !b.acknowledged then Some(AcknowledgementRequired)
    else if b.unlock && !IsConsentProvenanceSatisfied(None, BatchPayload(b)) then Some(ProvenanceRequired)
    else None
  }

  function BatchPayload(b: Batch): Payload {
    Payload(Absent, Given(GRANTED),
            if b.consentMethod.Some? then Given(b.consentMethod.value) else Absent,
            if b.consentObtainedAt.Some? then Given(Some(b.consentObtainedAt.value)) else Absent,
            b.consentReference, b.acknowledged)
  }

  /** The fields one row is filled with; an absent field is left untouched. */
  datatype FillPatch = FillPatch(
    consentMethod: Option<ConsentMethod>,
    consentObtainedAt: Option<DateText>,
    consentReference: Field<Option<Reference>>)

  /** Which fields a patch names: the key rows are grouped under. */
  datatype KeySet = KeySet(consentMethod: bool, consentObtainedAt: bool, consentReference: bool)

  function KeyOf(p: FillPatch): KeySet {
    KeySet(p.consentMethod.Some?, p.consentObtainedAt.Some?, p.consentReference.Given?)
  }

  /** `None` when the row is preserved: it takes the new status and nothing else. */
  function PatchFor(row: Actor, b: Batch): Option<FillPatch> {
    if HoldsLinkGrant(row) then None
    else if row.consentMethod == EMAIL_LINK then
      Some(FillPatch(b.consentMethod, b.consentObtainedAt, Given(b.consentReference.Or(None))))
    else
      var missingMethod := row.consentMethod == NOT_RECORDED;
      var missingDate := row.consentObtainedAt.None?;
      if !missingMethod && !missingDate then None
      else
        Some(FillPatch(
               if missingMethod then b.consentMethod else None,
               if missingDate then b.consentObtainedAt else None,
               if row.consentReference.None? then b.consentReference else Absent))
  }

  function ApplyPatch(row: Actor, status: ConsentStatus, p: FillPatch): Actor {
    Actor(row.email, status,
          if p.consentMethod.Some? then p.consentMethod.value else row.consentMethod,
          if p.consentObtainedAt.Some? then Some(p.consentObtainedAt.value.instant) else row.consentObtainedAt,
          p.consentReference.Or(row.consentReference))
  }

  function BulkRow(row: Actor, b: Batch): Actor {
    if b.unlock && PatchFor(row, b).Some? then ApplyPatch(row, GRANTED, PatchFor(row, b).value)
    else row.(consentStatus := BatchStatus(b))
  }

  /** The gate guarantees both batch values, so two rows missing the same fields get the same patch. */
  lemma {:induction false} OnePatchPerKeySet(b: Batch, row: Actor, other: Actor)
    requires b.unlock && BatchGate(b).None?
    requires PatchFor(row, b).Some? && PatchFor(other, b).Some?
    requires KeyOf(PatchFor(row, b).value) == KeyOf(PatchFor(other, b).value)
    ensures PatchFor(row, b) == PatchFor(other, b)
  {
  }

  /** After an unlock every row is GRANTED with evidence, unless it was a link grant that had none. */
  lemma {:induction false} UnlockLeavesEvidence(row: Actor, b: Batch)
    requires b.unlock && BatchGate(b).None? && WellFormedBatch(b)
    ensures BulkRow(row, b).consentStatus == GRANTED
    ensures Evidenced(BulkRow(row, b)) <==> !(HoldsLinkGrant(row) && row.consentObtainedAt.None?)
    ensures HoldsLinkGrant(BulkRow(row, b)) <==> HoldsLinkGrant(row)
    ensures HoldsLinkGrant(row) ==> BulkRow(row, b) == row
  {
    ProvenanceMeansPostWriteEvidence(Blank, BatchPayload(b));
  }

  /**
   * A recorded field of a row that never answered by link survives the batch; a link
   * row that is not granted takes all three of its fields from the batch.
   */
  lemma {:induction false} RecordedFieldsSurvive(row: Actor, b: Batch)
    requires BatchGate(b).None?
    ensures row.consentMethod != EMAIL_LINK ==>
              && (row.consentMethod != NOT_RECORDED ==> BulkRow(row, b).consentMethod == row.consentMethod)
              && (row.consentObtainedAt.Some? ==> BulkRow(row, b).consentObtainedAt == row.consentObtainedAt)
              && (row.consentReference.Some? ==> BulkRow(row, b).consentReference == row.consentReference)
    ensures b.unlock && row.consentMethod == EMAIL_LINK && row.consentStatus != GRANTED ==>
              && b.consentMethod == Some(BulkRow(row, b).consentMethod)
              && BulkRow(row, b).consentObtainedAt == Instant(b.consentObtainedAt)
              && BulkRow(row, b).consentReference == b.consentReference.Or(None)
    ensures BulkRow(row, b).email == row.email
  {
  }

  /** What the gate lets through. */
  lemma {:induction false} BatchPassesExactlyWhen(b: Batch)
    ensures BatchGate(b).None?
            <==> (b.unlock ==> b.acknowledged && b.consentMethod.Some? && b.consentMethod.value != NOT_RECORDED
                               && b.consentObtainedAt.Some?)
    ensures BatchGate(b) == Some(AcknowledgementRequired) <==> b.unlock && !b.acknowledged
  {
  }

  /** A missing value of a row, and every value of a lapsed link row, is the batch's own. */
  predicate IsFilled(row: Actor, b: Batch, after: Actor)
    requires b.consentMethod.Some? && b.consentObtainedAt.Some?
  {
    var lapsed := row.consentMethod == EMAIL_LINK;
    var missing := row.consentMethod == NOT_RECORDED || row.consentObtainedAt.None?;
    && after.consentMethod
       == (if lapsed || row.consentMethod == NOT_RECORDED then b.consentMethod.value else row.consentMethod)
    && after.consentObtainedAt
       == (if lapsed || row.consentObtainedAt.None? then Some(b.consentObtainedAt.value.instant)
           else row.consentObtainedAt)
    && after.consentReference
       == (if b.consentReference.Given? && (lapsed || (missing && row.consentReference.None?))
           then b.consentReference.value else if lapsed then None else row.consentReference)
  }

  /** A lock moves the status alone; an unlock leaves a link grant alone and fills every other row. */
  lemma {:induction false} BatchWritesColumns(row: Actor, b: Batch)
    requires BatchGate(b).None?
    ensures !b.unlock ==> BulkRow(row, b) == row.(consentStatus := DENIED)
    ensures b.unlock && row.consentStatus == GRANTED && row.consentMethod == EMAIL_LINK ==> BulkRow(row, b) == row
    ensures b.unlock && !(row.consentStatus == GRANTED && row.consentMethod == EMAIL_LINK) ==>
              && b.consentMethod.Some? && b.consentObtainedAt.Some?
              && IsFilled(row, b, BulkRow(row, b))
              && BulkRow(row, b).email == row.email && BulkRow(row, b).consentStatus == GRANTED
  {
    BatchPassesExactlyWhen(b);
  }

  /** The rows an unlock preserves: link grants, and rows that already hold a method and a date of their own. */
  lemma {:induction false} PreservedExactlyWhen(row: Actor, b: Batch)
    ensures PatchFor(row, b).None?
            <==> if row.consentMethod == EMAIL_LINK then row.consentStatus == GRANTED
                 else row.consentMethod != NOT_RECORDED && row.consentObtainedAt.Some?
  {
  }

  // ---- audit diffs ----------------------------------------------------------

  datatype Change<T> = Unchanged | Changed(from: T, to: T)

  /** A field-level audit diff over the columns modelled here; dates are recorded as text. */
  datatype ConsentDiff = ConsentDiff(
    email: Change<Option<string>>,
    consentStatus: Change<ConsentStatus>,
    consentMethod: Change<ConsentMethod>,
    consentObtainedAt: Change<Option<DateText>>,
    consentReference: Change<Option<Reference>>)

  const NoChange := ConsentDiff(Unchanged, Unchanged, Unchanged, Unchanged, Unchanged)

  function Compare<T(==)>(from: T, to: T): Change<T> {
    if from == to then Unchanged else Changed(from, to)
  }

  /** `buildDiff`, and the diff of `logConsentResponded`: stored dates on both sides, each as its ISO text. */
  function BuildDiff(before: Actor, after: Actor): ConsentDiff {
    ConsentDiff(
      Compare(before.email, after.email),
      Compare(before.consentStatus, after.consentStatus),
      Compare(before.consentMethod, after.consentMethod),
      Compare(Iso(before.consentObtainedAt), Iso(after.consentObtainedAt)),
      Compare(before.consentReference, after.consentReference))
  }

  /** `logBulkConsent`: diffed off the patch that drives the write, the date as the batch spelled it. */
  function BulkDiff(row: Actor, b: Batch): ConsentDiff {
    var status := Compare(row.consentStatus, BatchStatus(b));
    if !b.unlock || PatchFor(row, b).None? then NoChange.(consentStatus := status)
    else
      var p := PatchFor(row, b).value;
      ConsentDiff(
        Unchanged,
        status,
        if p.consentMethod.Some? then Compare(row.consentMethod, p.consentMethod.value) else Unchanged,
        if p.consentObtainedAt.Some? then Compare(Iso(row.consentObtainedAt), p.consentObtainedAt) else Unchanged,
        if p.consentReference.Given? then Compare(row.consentReference, p.consentReference.value) else Unchanged)
  }

  function Replayed<T>(c: Change<T>, stored: T): T {
    if c.Changed? then c.to else stored
  }

  /** What an auditor reconstructs: the row with every recorded change carried out. */
  function ApplyDiff(row: Actor, d: ConsentDiff): Actor {
    Actor(
      Replayed(d.email, row.email),
      Replayed(d.consentStatus, row.consentStatus),
      Replayed(d.consentMethod, row.consentMethod),
      if d.consentObtainedAt.Changed? then Instant(d.consentObtainedAt.to) else row.consentObtainedAt,
      Replayed(d.consentReference, row.consentReference))
  }

  lemma {:induction false} DiffReplays(before: Actor, after: Actor)
    ensures ApplyDiff(before, BuildDiff(before, after)) == after
    ensures BuildDiff(before, after) == NoChange <==> before == after
  {
  }

  function Undone<T>(c: Change<T>, stored: T): T {
    if c.Changed? then c.from else stored
  }

  /** The row before a recorded write, from the row after it. */
  function UndoDiff(row: Actor, d: ConsentDiff): Actor {
    Actor(
      Undone(d.email, row.email),
      Undone(d.consentStatus, row.consentStatus),
      Undone(d.consentMethod, row.consentMethod),
      if d.consentObtainedAt.Changed? then Instant(d.consentObtainedAt.from) else row.consentObtainedAt,
      Undone(d.consentReference, row.consentReference))
  }

  /** Both diffs read backwards as well: they give the row as it was before the write. */
  lemma {:induction false} DiffsUndo(before: Actor, after: Actor, b: Batch)
    ensures UndoDiff(after, BuildDiff(before, after)) == before
    ensures UndoDiff(BulkRow(before, b), BulkDiff(before, b)) == before
  {
  }

  /** No field the write moved is missing from the bulk diff: replaying it gives the written row. */
  lemma {:induction false} BulkDiffReplays(row: Actor, b: Batch)
    ensures ApplyDiff(row, BulkDiff(row, b)) == BulkRow(row, b)
  {
  }

  /** The batch re-spells an instant this row already holds from its own link answer. */
  predicate Respells(row: Actor, b: Batch) {
    && b.unlock
    && row.consentMethod == EMAIL_LINK && row.consentStatus != GRANTED
    && row.consentObtainedAt.Some? && b.consentObtainedAt.Some?
    && b.consentObtainedAt.value.instant == row.consentObtainedAt.value
    && b.consentObtainedAt.value.spelling != 0
  }

  /** The bulk diff is the exact field diff of the write, and has a phantom date entry exactly when `Respells`. */
  lemma {:induction false} BulkDiffIsExactUnlessRespelled(row: Actor, b: Batch)
    ensures (BulkDiff(row, b).consentObtainedAt.Changed?
             <==> row.consentObtainedAt != BulkRow(row, b).consentObtainedAt || Respells(row, b))
    ensures var exact := BuildDiff(row, BulkRow(row, b));
            && BulkDiff(row, b).email == exact.email
            && BulkDiff(row, b).consentStatus == exact.consentStatus
            && BulkDiff(row, b).consentMethod == exact.consentMethod
            && BulkDiff(row, b).consentReference == exact.consentReference
            && (b.consentObtainedAt.Some? && b.consentObtainedAt.value.spelling == 0 ==> BulkDiff(row, b) == exact)
  {
  }

  lemma {:induction false} RespelledDateLeavesPhantom()
    ensures var row := Actor(Some("a@b"), DENIED, EMAIL_LINK, Some(7), Some(RequestId(0)));
            var b := Batch(true, true, Some(SIGNED_FORM), Some(DateText(7, 1)), Absent);
            && BatchGate(b).None?
            && BulkRow(row, b).consentObtainedAt == row.consentObtainedAt
            && BulkDiff(row, b).consentObtainedAt.Changed?
  {
  }

  // ---- the grouped write ----------------------------------------------------

  datatype Group = Group(ids: seq<ActorId>, patch: FillPatch)

  datatype BulkResult = BulkResult(applied: nat, preserved: nat)

  ghost predicate Distinct<T>(s: seq<T>) {
    forall i, j :: 0 <= i < j < |s| ==> s[i] != s[j]
  }

  function BulkActors(actors: map<ActorId, Actor>, found: seq<ActorId>, b: Batch): map<ActorId, Actor> {
    map id | id in actors :: if id in found then BulkRow(actors[id], b) else actors[id]
  }

  function Preserved(actors: map<ActorId, Actor>, found: seq<ActorId>, b: Batch): nat
    requires forall id :: id in found ==> id in actors
  {
    if found == [] then 0
    else
      Preserved(actors, found[..|found| - 1], b)
      + (if PatchFor(actors[found[|found| - 1]], b).None? then 1 else 0)
  }

  predicate InGroup(groups: map<KeySet, Group>, k: KeySet, id: ActorId) {
    k in groups && id in groups[k].ids
  }

  /** The patch of every row, by id; `Uniform` is what `OnePatchPerKeySet` gives. */
  type Patches = map<ActorId, Option<FillPatch>>

  function AllPatches(rows: map<ActorId, Actor>, b: Batch): Patches {
    map id | id in rows :: PatchFor(rows[id], b)
  }

  ghost predicate Uniform(patches: Patches) {
    forall x, y | x in patches && y in patches && patches[x].Some? && patches[y].Some?
                  && KeyOf(patches[x].value) == KeyOf(patches[y].value)
      :: patches[x] == patches[y]
  }

  lemma {:induction false} GateMakesPatchesUniform(rows: map<ActorId, Actor>, b: Batch)
    requires b.unlock && BatchGate(b).None?
    ensures Uniform(AllPatches(rows, b))
  {
    var patches := AllPatches(rows, b);
    forall x, y | x in patches && y in patches && patches[x].Some? && patches[y].Some?
                  && KeyOf(patches[x].value) == KeyOf(patches[y].value)
      ensures patches[x] == patches[y]
    {
      OnePatchPerKeySet(b, rows[x], rows[y]);
    }
  }

  /** Every patched row of `done` is in the group of its key set, and every group member belongs there. */
  ghost predicate Grouped(groups: map<KeySet, Group>, done: set<ActorId>, patches: Patches)
    requires done <= patches.Keys
  {
    && (forall k :: k in groups ==> KeyOf(groups[k].patch) == k
                                    && exists id :: id in done && patches[id] == Some(groups[k].patch))
    && (forall k, id :: InGroup(groups, k, id) ==> id in done && patches[id] == Some(groups[k].patch))
    && (forall id :: id in done && patches[id].Some? ==> InGroup(groups, KeyOf(patches[id].value), id))
  }

  /** Add one row to the group of its key set, opening the group if it is the first. */
  method JoinGroup(groups: map<KeySet, Group>, id: ActorId, patch: FillPatch,
                   ghost done: set<ActorId>, ghost patches: Patches)
    returns (joined: map<KeySet, Group>)
    requires Uniform(patches)
    requires done <= patches.Keys && id in patches && patches[id] == Some(patch)
    requires Grouped(groups, done, patches)
    ensures Grouped(joined, done + {id}, patches)
  {
    var key := KeyOf(patch);
    if key in groups {
      assert groups[key].patch == patch;
      joined := groups[key := groups[key].(ids := groups[key].ids + [id])];
      assert forall k, x :: InGroup(joined, k, x) <==> InGroup(groups, k, x) || (k == key && x == id);
    } else {
      joined := groups[key := Group([id], patch)];
      assert forall k, x :: InGroup(joined, k, x) <==> InGroup(groups, k, x) || (k == key && x == id);
    }
  }

  /** What the grouped writes have done while the groups in `todo` are still to be written. */
  function PartlyWritten(before: map<ActorId, Actor>, found: seq<ActorId>, b: Batch, todo: set<KeySet>)
    : map<ActorId, Actor>
  {
    map id | id in before ::
      if id in found && !(PatchFor(before[id], b).Some? && KeyOf(PatchFor(before[id], b).value) in todo)
      then BulkRow(before[id], b) else before[id]
  }

  /** The actor table as `bulkSetConsent` drives it: group the rows, then one `updateMany` a group. */
  class ActorTable {
    var rows: map<ActorId, Actor>

    constructor (rows: map<ActorId, Actor>)
      ensures this.rows == rows
    {
      this.rows := rows;
    }

    method UpdateManyStatus(ids: seq<ActorId>, status: ConsentStatus)
      modifies this
      ensures rows == map id | id in old(rows) ::
                        if id in ids then old(rows)[id].(consentStatus := status) else old(rows)[id]
    {
      rows := map id | id in rows :: if id in ids then rows[id].(consentStatus := status) else rows[id];
    }

    method UpdateManyPatch(ids: seq<ActorId>, status: ConsentStatus, patch: FillPatch)
      modifies this
      ensures rows == map id | id in old(rows) ::
                        if id in ids then ApplyPatch(old(rows)[id], status, patch) else old(rows)[id]
    {
      rows := map id | id in rows :: if id in ids then ApplyPatch(rows[id], status, patch) else rows[id];
    }

    /** The loop over `existing`: which rows are preserved, and which group each other row joins. */
    method PartitionRows(found: seq<ActorId>, b: Batch)
      returns (preservedIds: seq<ActorId>, groups: map<KeySet, Group>)
      requires b.unlock && BatchGate(b).None?
      requires forall id :: id in found ==> id in rows
      ensures forall id :: id in preservedIds <==> id in found && PatchFor(rows[id], b).None?
      ensures |preservedIds| == Preserved(rows, found, b)
      ensures Grouped(groups, (set id | id in found), AllPatches(rows, b))
    {
      preservedIds, groups := [], map[];
      ghost var patches := AllPatches(rows, b);
      ghost var done: set<ActorId> := {};
      GateMakesPatchesUniform(rows, b);
      for i := 0 to |found|
        invariant done == set id | id in found[..i]
        invariant forall id :: id in preservedIds <==> id in done && patches[id].None?
        invariant |preservedIds| == Preserved(rows, found[..i], b)
        invariant Grouped(groups, done, patches)
      {
        var id := found[i];
        assert found[..i + 1] == found[..i] + [id];
        assert found[..i + 1][..i] == found[..i];
        var patch := PatchFor(rows[id], b);
        if patch.None? {
          preservedIds := preservedIds + [id];
        } else {
          groups := JoinGroup(groups, id, patch.value, done, patches);
        }
        done := done + {id};
      }
      assert found[..|found|] == found;
    }

    /** One group written: its rows leave the to-do set, every other row is untouched. */
    method WriteGroup(g: Group, ghost before: map<ActorId, Actor>, ghost found: seq<ActorId>, b: Batch,
                      ghost todo: set<KeySet>)
      requires b.unlock && KeyOf(g.patch) in todo
      requires rows == PartlyWritten(before, found, b, todo)
      requires forall id :: id in found ==> id in before
      requires forall id :: id in g.ids <==>
                              && id in found && PatchFor(before[id], b).Some?
                              && KeyOf(PatchFor(before[id], b).value) == KeyOf(g.patch)
      requires forall id :: id in g.ids ==> PatchFor(before[id], b) == Some(g.patch)
      modifies this
      ensures rows == PartlyWritten(before, found, b, todo - {KeyOf(g.patch)})
    {
      UpdateManyPatch(g.ids, GRANTED, g.patch);
    }

    /** The grouped writes, whatever order the groups come in, are the per-row fill of every found row. */
    method BulkWrite(found: seq<ActorId>, b: Batch) returns (r: BulkResult)
      requires BatchGate(b).None?
      requires forall id :: id in found ==> id in rows
      modifies this
      ensures rows == BulkActors(old(rows), found, b)
      ensures r == BulkResult(|found|, if b.unlock then Preserved(old(rows), found, b) else 0)
    {
      if !b.unlock {
        UpdateManyStatus(found, DENIED);
        return BulkResult(|found|, 0);
      }
      var preservedIds, groups := PartitionRows(found, b);
      ghost var before := rows;
      UpdateManyStatus(preservedIds, GRANTED);
      WriteGroups(groups, before, found, b);
      return BulkResult(|found|, |preservedIds|);
    }

    /** One `updateMany` a group, in any order. */
    method WriteGroups(groups: map<KeySet, Group>, ghost before: map<ActorId, Actor>, ghost found: seq<ActorId>, b: Batch)
      requires b.unlock && forall id :: id in found ==> id in before
      requires Grouped(groups, (set id | id in found), AllPatches(before, b))
      requires rows == PartlyWritten(before, found, b, groups.Keys)
      modifies this
      ensures rows == BulkActors(before, found, b)
    {
      ghost var patches := AllPatches(before, b);
      var todo := groups.Keys;
      while todo != {}
        invariant todo <= groups.Keys
        invariant rows == PartlyWritten(before, found, b, todo)
      {
        var k :| k in todo;
        forall id
          ensures id in groups[k].ids <==> id in found && patches[id].Some? && KeyOf(patches[id].value) == k
        {
          assert id in groups[k].ids <==> InGroup(groups, k, id);
        }
        WriteGroup(groups[k], before, found, b, todo);
        todo := todo - {k};
      }
    }
  }
}

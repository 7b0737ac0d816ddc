/** The commit phase of a bulk import: chunked, retried transactions over the surviving rows. */
module ImportCommit {
  import opened Wrappers
  import opened Identifiers
  import opened IntakeDuplicates
  import opened ImportRows

  const COMMIT_CHUNK_SIZE: nat := 100

  const MAX_TRADER_ID_ALLOCATION_ATTEMPTS: nat := 3

  const ROW_LEVEL_ERROR_FIELD := "_row"

  datatype Identity = Identity(actorId: string, traderId: string)

  /** A confirmed candidate as the audit keeps it. */
  datatype Snapshot =
    | ConfirmedActor(actorId: string, traderId: string, traderName: string, matchedOn: seq<Attribute>)
    | ConfirmedRow(row: nat, traderName: string, matchedOn: seq<Attribute>)

  /** One created actor and the IMPORT entry written with it. */
  datatype ImportEntry = ImportEntry(identity: Identity, create: Create, confirmation: Option<seq<Snapshot>>)

  /**
   * How the database answers one attempt: it commits; or the statement for row `at` of the chunk
   * (the audit insert, past the last row) fails, with a trader-id collision or otherwise; or no
   * numbers could be allocated.
   */
  datatype Answer = Commits | FailsAt(at: nat, collision: bool) | NoNumbers

  /** The answers of one commit, by the chunk's first candidate and the attempt, and the ids the database generates. */
  datatype Environment = Environment(
    answer: (nat, nat) -> Answer,
    newId: (nat, nat, nat) -> string,
    yearAt: nat -> nat)

  function ResolveOne(d: DuplicateCandidate, created: map<nat, Identity>): Snapshot {
    match d
    case ActorCandidate(actorId, traderId, traderName, matchedOn) =>
      ConfirmedActor(actorId, traderId, traderName, matchedOn)
    case RowCandidate(row, traderName, matchedOn) =>
      if row in created then ConfirmedActor(created[row].actorId, created[row].traderId, traderName, matchedOn)
      else ConfirmedRow(row, traderName, matchedOn)
  }

  function ResolveDuplicateConfirmation(candidates: seq<DuplicateCandidate>, created: map<nat, Identity>)
    : Option<seq<Snapshot>>
  {
    if candidates == [] then None
    else Some(seq(|candidates|, i requires 0 <= i < |candidates| => ResolveOne(candidates[i], created)))
  }

  // ---- what a commit leaves, read off the rows -------------------------------------------

  predicate IsCommitted(row: WorkRow) {
    row.state == Created && row.actorId.Some? && row.traderId.Some? && row.create.Some?
  }

  function IdentityOf(row: WorkRow): Identity
    requires IsCommitted(row)
  {
    Identity(row.actorId.value, row.traderId.value)
  }

  /** Row number to identity, for the created rows among these. */
  function CreatedMap(rows: seq<WorkRow>, picks: seq<nat>): map<nat, Identity>
    requires forall k | 0 <= k < |picks| :: picks[k] < |rows|
  {
    if picks == [] then map[]
    else
      var earlier, row := CreatedMap(rows, picks[..|picks| - 1]), rows[picks[|picks| - 1]];
      if IsCommitted(row) then earlier[row.rowNumber := IdentityOf(row)] else earlier
  }

  /** One entry for every created row among these, in row order, its confirmation resolved against `created`. */
  function TrailOf(rows: seq<WorkRow>, picks: seq<nat>, created: map<nat, Identity>): seq<ImportEntry>
    requires forall k | 0 <= k < |picks| :: picks[k] < |rows|
  {
    if picks == [] then []
    else
      var earlier, row := TrailOf(rows, picks[..|picks| - 1], created), rows[picks[|picks| - 1]];
      if IsCommitted(row) then
        earlier + [ImportEntry(IdentityOf(row), row.create.value,
                               ResolveDuplicateConfirmation(row.duplicateCandidates, created))]
      else earlier
  }

  function CommittedRow(row: WorkRow, identity: Identity): WorkRow {
    row.(state := Created, actorId := Some(identity.actorId), traderId := Some(identity.traderId))
  }

  function RolledBackRow(row: WorkRow): WorkRow {
    row.(state := Failed, create := None, actorId := None, traderId := None,
         errors := row.errors + [ROW_LEVEL_ERROR_FIELD])
  }

  /** The rows the commit takes, by index. */
  function Candidates(rows: seq<WorkRow>): (picks: seq<nat>)
    ensures forall k | 0 <= k < |picks| :: picks[k] < |rows| && rows[picks[k]].state == CandidateRow
    ensures forall j, k | 0 <= j < k < |picks| :: picks[j] < picks[k]
  {
    if rows == [] then []
    else
      var n := |rows| - 1;
      if rows[n].state == CandidateRow then Candidates(rows[..n]) + [n] else Candidates(rows[..n])
  }

  lemma {:induction false} CandidatesAreAll(rows: seq<WorkRow>, i: nat)
    requires i < |rows| && rows[i].state == CandidateRow
    ensures i in Candidates(rows)
  {
    var n := |rows| - 1;
    if i < n {
      CandidatesAreAll(rows[..n], i);
    }
  }

  /** A candidate row is ready: it has what it would create, and its row candidates are earlier rows. */
  predicate Ready(row: WorkRow) {
    && row.create.Some?
    && forall d :: d in row.duplicateCandidates && d.RowCandidate? ==> d.row < row.rowNumber
  }

  // ---- the two readings, in parts -----------------------------------------------------------

  lemma {:induction false} ReadingsAgree(a: seq<WorkRow>, b: seq<WorkRow>, picks: seq<nat>, created: map<nat, Identity>)
    requires |a| == |b| && forall k | 0 <= k < |picks| :: picks[k] < |a| && a[picks[k]] == b[picks[k]]
    ensures CreatedMap(a, picks) == CreatedMap(b, picks) && TrailOf(a, picks, created) == TrailOf(b, picks, created)
  {
    if picks != [] {
      ReadingsAgree(a, b, picks[..|picks| - 1], created);
    }
  }

  lemma {:induction false} CreatedMapSplits(rows: seq<WorkRow>, p: seq<nat>, q: seq<nat>)
    requires forall k | 0 <= k < |p| :: p[k] < |rows|
    requires forall k | 0 <= k < |q| :: q[k] < |rows|
    ensures CreatedMap(rows, p + q) == CreatedMap(rows, p) + CreatedMap(rows, q)
  {
    if q == [] {
      assert p + q == p;
    } else {
      var n := |q| - 1;
      CreatedMapSplits(rows, p, q[..n]);
      assert (p + q)[..|p + q| - 1] == p + q[..n];
      assert (p + q)[|p + q| - 1] == q[n];
    }
  }

  lemma {:induction false} TrailSplits(rows: seq<WorkRow>, p: seq<nat>, q: seq<nat>, created: map<nat, Identity>)
    requires forall k | 0 <= k < |p| :: p[k] < |rows|
    requires forall k | 0 <= k < |q| :: q[k] < |rows|
    ensures TrailOf(rows, p + q, created) == TrailOf(rows, p, created) + TrailOf(rows, q, created)
  {
    if q == [] {
      assert p + q == p;
    } else {
      var n := |q| - 1;
      TrailSplits(rows, p, q[..n], created);
      assert (p + q)[..|p + q| - 1] == p + q[..n];
      assert (p + q)[|p + q| - 1] == q[n];
    }
  }

  lemma {:induction false} ReadingsSplit(rows: seq<WorkRow>, p: seq<nat>, q: seq<nat>, created: map<nat, Identity>)
    requires forall k | 0 <= k < |p| :: p[k] < |rows|
    requires forall k | 0 <= k < |q| :: q[k] < |rows|
    ensures CreatedMap(rows, p + q) == CreatedMap(rows, p) + CreatedMap(rows, q)
    ensures TrailOf(rows, p + q, created) == TrailOf(rows, p, created) + TrailOf(rows, q, created)
  {
    CreatedMapSplits(rows, p, q);
    TrailSplits(rows, p, q, created);
  }

  /**
   * A row number resolves to the identity of a created row of that number, and to none exactly if
   * there is no such row.
   */
  lemma {:induction false} CreatedMapNames(rows: seq<WorkRow>, picks: seq<nat>, n: nat)
    requires forall k | 0 <= k < |picks| :: picks[k] < |rows|
    ensures n in CreatedMap(rows, picks) <==>
              exists k :: 0 <= k < |picks| && IsCommitted(rows[picks[k]]) && rows[picks[k]].rowNumber == n
    ensures n in CreatedMap(rows, picks) ==>
              exists k :: 0 <= k < |picks| && IsCommitted(rows[picks[k]]) && rows[picks[k]].rowNumber == n
                          && CreatedMap(rows, picks)[n] == IdentityOf(rows[picks[k]])
  {
    if picks != [] {
      var m := |picks| - 1;
      CreatedMapNames(rows, picks[..m], n);
      if IsCommitted(rows[picks[m]]) && rows[picks[m]].rowNumber == n {
        assert n in CreatedMap(rows, picks);
      } else {
        if k :| 0 <= k < |picks| && IsCommitted(rows[picks[k]]) && rows[picks[k]].rowNumber == n {
          assert picks[..m][k] == picks[k];
        }
        if k :| 0 <= k < m && IsCommitted(rows[picks[..m][k]]) && rows[picks[..m][k]].rowNumber == n
                && n in CreatedMap(rows, picks[..m])
                && CreatedMap(rows, picks[..m])[n] == IdentityOf(rows[picks[..m][k]])
        {
          assert picks[..m][k] == picks[k];
        }
      }
    }
  }

  lemma {:induction false} ResolutionIsStable(row: WorkRow, created: map<nat, Identity>, more: map<nat, Identity>)
    requires Ready(row) && forall n | n in more :: n > row.rowNumber
    ensures ResolveDuplicateConfirmation(row.duplicateCandidates, created)
            == ResolveDuplicateConfirmation(row.duplicateCandidates, created + more)
  {
    forall i | 0 <= i < |row.duplicateCandidates|
      ensures ResolveOne(row.duplicateCandidates[i], created) == ResolveOne(row.duplicateCandidates[i], created + more)
    {
      assert row.duplicateCandidates[i] in row.duplicateCandidates;
    }
    if row.duplicateCandidates != [] {
      assert ResolveDuplicateConfirmation(row.duplicateCandidates, created).value
          == ResolveDuplicateConfirmation(row.duplicateCandidates, created + more).value;
    }
  }

  /** Rows created later do not change how earlier rows' confirmations were resolved. */
  lemma {:induction false} TrailIsStable(rows: seq<WorkRow>, picks: seq<nat>, created: map<nat, Identity>,
                                         more: map<nat, Identity>)
    requires forall k | 0 <= k < |picks| :: picks[k] < |rows|
    requires forall k | 0 <= k < |picks| :: IsCommitted(rows[picks[k]]) ==> Ready(rows[picks[k]])
    requires forall k, n | 0 <= k < |picks| && n in more :: n > rows[picks[k]].rowNumber
    ensures TrailOf(rows, picks, created) == TrailOf(rows, picks, created + more)
  {
    if picks != [] {
      var m := |picks| - 1;
      TrailIsStable(rows, picks[..m], created, more);
      if IsCommitted(rows[picks[m]]) {
        ResolutionIsStable(rows[picks[m]], created, more);
      }
    }
  }

  // ---- the whole phase --------------------------------------------------------------------------

  /** A candidate ends created under some identity, or rolled back; any other row stays as it was. */
  ghost predicate EndsAs(was: WorkRow, row: WorkRow) {
    if was.state != CandidateRow then row == was
    else (IsCommitted(row) && row == CommittedRow(was, IdentityOf(row))) || row == RolledBackRow(was)
  }

  /**
   * Column by column: a created row gains its two ids alone; a rolled-back one fails under the batch
   * marker, without ids.
   */
  lemma {:induction false} EndsExactly(was: WorkRow, row: WorkRow)
    requires EndsAs(was, row)
    ensures was.state != CandidateRow ==> row == was
    ensures was.state == CandidateRow ==>
              || (row.actorId.Some? && row.traderId.Some? && was.create.Some?
                  && row == was.(state := Created, actorId := row.actorId, traderId := row.traderId))
              || row == was.(state := Failed, create := None, actorId := None, traderId := None,
                             errors := was.errors + ["_row"])
  {
  }

  /** Nothing confirmed leaves no confirmation; a confirmed row the import created is named by its new ids. */
  lemma {:induction false} ResolvesExactly(candidates: seq<DuplicateCandidate>, created: map<nat, Identity>)
    ensures var r := ResolveDuplicateConfirmation(candidates, created);
            && (r.None? <==> candidates == [])
            && (r.Some? ==> |r.value| == |candidates|)
            && (r.Some? ==> forall i :: 0 <= i < |candidates| ==>
                  match candidates[i]
                  case ActorCandidate(actorId, traderId, traderName, matchedOn) =>
                    r.value[i] == ConfirmedActor(actorId, traderId, traderName, matchedOn)
                  case RowCandidate(row, traderName, matchedOn) =>
                    && (row in created ==>
                          r.value[i]
                          == ConfirmedActor(created[row].actorId, created[row].traderId, traderName, matchedOn))
                    && (row !in created ==> r.value[i] == ConfirmedRow(row, traderName, matchedOn)))
  {
  }

  /** The rows before `bound` have ended, the others are as they were. */
  ghost predicate Progress(was: seq<WorkRow>, rows: seq<WorkRow>, bound: nat) {
    && |rows| == |was|
    && forall k | 0 <= k < |was| :: if k < bound then EndsAs(was[k], rows[k]) else rows[k] == was[k]
  }

  /** The first row not yet taken when `i` candidates have been. */
  function Bound(was: seq<WorkRow>, candidates: seq<nat>, i: nat): nat {
    if i < |candidates| then candidates[i] else |was|
  }

  /** These are the candidates, in row order, and each is ready. */
  ghost predicate Picks(was: seq<WorkRow>, candidates: seq<nat>) {
    && (forall k | 0 <= k < |candidates| ::
          candidates[k] < |was| && was[candidates[k]].state == CandidateRow && Ready(was[candidates[k]]))
    && (forall j, k | 0 <= j < k < |candidates| :: candidates[j] < candidates[k])
    && (forall k | 0 <= k < |was| && was[k].state == CandidateRow :: k in candidates)
  }

  /** Every created row's trader id is a number of one allocation of this import, and no two share one. */
  ghost predicate IdsAreNew(rows: seq<WorkRow>, calls: seq<Allocation>, from: nat) {
    && (forall i | 0 <= i < |rows| && IsCommitted(rows[i]) :: WasIssued(rows[i].traderId.value, calls, from))
    && (forall i, j | 0 <= i < j < |rows| && IsCommitted(rows[i]) && IsCommitted(rows[j]) ::
          rows[i].traderId != rows[j].traderId)
  }

  ghost predicate WasIssued(id: string, calls: seq<Allocation>, from: nat) {
    exists c, n :: from <= c < |calls| && Receives(calls, c, n) && id == BuildTraderId(calls[c].year, n)
  }

  /** The first candidate of the chunk that candidate `k` is in. */
  function ChunkStart(k: nat): (start: nat)
    ensures start <= k < start + COMMIT_CHUNK_SIZE
  {
    if k < COMMIT_CHUNK_SIZE then 0 else COMMIT_CHUNK_SIZE + ChunkStart(k - COMMIT_CHUNK_SIZE)
  }

  predicate StartsChunk(i: nat) {
    ChunkStart(i) == i
  }

  /**
   * The attempt that commits a chunk, if one does: a later attempt is made after a collision only,
   * and only while any is left.
   */
  function CommittingAttempt(env: Environment, start: nat, attempt: nat): (r: Option<nat>)
    requires attempt <= MAX_TRADER_ID_ALLOCATION_ATTEMPTS
    ensures r.Some? ==> attempt <= r.value <= MAX_TRADER_ID_ALLOCATION_ATTEMPTS && env.answer(start, r.value) == Commits
    decreases MAX_TRADER_ID_ALLOCATION_ATTEMPTS - attempt
  {
    match env.answer(start, attempt)
    case Commits => Some(attempt)
    case FailsAt(_, collision) =>
      if collision && attempt < MAX_TRADER_ID_ALLOCATION_ATTEMPTS then CommittingAttempt(env, start, attempt + 1) else None
    case NoNumbers => None
  }

  /** The allocations made for a chunk from this attempt on: one an attempt that got its numbers. */
  function AttemptsMade(env: Environment, start: nat, attempt: nat): (n: nat)
    requires attempt <= MAX_TRADER_ID_ALLOCATION_ATTEMPTS
    ensures n <= MAX_TRADER_ID_ALLOCATION_ATTEMPTS - attempt + 1
    ensures CommittingAttempt(env, start, attempt).Some? ==> CommittingAttempt(env, start, attempt).value == attempt + n - 1
    decreases MAX_TRADER_ID_ALLOCATION_ATTEMPTS - attempt
  {
    match env.answer(start, attempt)
    case Commits => 1
    case FailsAt(_, collision) =>
      if collision && attempt < MAX_TRADER_ID_ALLOCATION_ATTEMPTS then 1 + AttemptsMade(env, start, attempt + 1) else 1
    case NoNumbers => 0
  }

  predicate Collides(env: Environment, start: nat, attempt: nat) {
    env.answer(start, attempt).FailsAt? && env.answer(start, attempt).collision
  }

  /** An attempt is reached when every one before it collided, and takes numbers unless there are none. */
  ghost predicate TakesNumbers(env: Environment, start: nat, attempt: nat) {
    (forall b :: 1 <= b < attempt ==> Collides(env, start, b)) && env.answer(start, attempt) != NoNumbers
  }

  /** A chunk commits in the first of three attempts that commits, if only collisions came before it. */
  lemma {:induction false} CommitsExactlyWhen(env: Environment, start: nat, a: nat)
    ensures CommittingAttempt(env, start, 1) == Some(a)
            <==> && 1 <= a <= 3 && env.answer(start, a) == Commits
                 && forall b :: 1 <= b < a ==> Collides(env, start, b)
    ensures AttemptsMade(env, start, 1)
            == (if TakesNumbers(env, start, 1) then 1 else 0) + (if TakesNumbers(env, start, 2) then 1 else 0)
               + (if TakesNumbers(env, start, 3) then 1 else 0)
  {
    assert CommittingAttempt(env, start, 3).Some? <==> env.answer(start, 3) == Commits;
    assert Collides(env, start, 1) <==> env.answer(start, 1).FailsAt? && env.answer(start, 1).collision;
    assert Collides(env, start, 2) <==> env.answer(start, 2).FailsAt? && env.answer(start, 2).collision;
  }

  /** Chunks start at the multiples of a hundred. */
  lemma {:induction false} ChunksAreHundreds(k: nat)
    ensures ChunkStart(k) == k - k % 100
  {
    if k >= 100 {
      ChunksAreHundreds(k - 100);
    }
  }

  /** Nothing is decided before this attempt: every earlier one got its numbers and collided. */
  ghost predicate StillTrying(env: Environment, start: nat, attempt: nat)
    requires attempt <= MAX_TRADER_ID_ALLOCATION_ATTEMPTS
  {
    && CommittingAttempt(env, start, 1) == CommittingAttempt(env, start, attempt)
    && AttemptsMade(env, start, 1) == attempt - 1 + AttemptsMade(env, start, attempt)
  }

  lemma {:induction false} AnswerDecides(env: Environment, start: nat, attempt: nat)
    requires 1 <= attempt <= MAX_TRADER_ID_ALLOCATION_ATTEMPTS && StillTrying(env, start, attempt)
    ensures var again := env.answer(start, attempt).FailsAt? && env.answer(start, attempt).collision
                         && attempt < MAX_TRADER_ID_ALLOCATION_ATTEMPTS;
            if again then StillTrying(env, start, attempt + 1)
            else
              && CommittingAttempt(env, start, 1)
                 == (if env.answer(start, attempt) == Commits then Some(attempt) else None)
              && AttemptsMade(env, start, 1) == attempt - if env.answer(start, attempt) == NoNumbers then 1 else 0
  {
  }

  /** The allocations made for all the chunks before the one that starts here. */
  function CallsBefore(env: Environment, start: nat): nat {
    if start < COMMIT_CHUNK_SIZE then 0
    else CallsBefore(env, start - COMMIT_CHUNK_SIZE) + AttemptsMade(env, start - COMMIT_CHUNK_SIZE, 1)
  }

  /**
   * How the candidate at this offset of a chunk ends: created exactly if some attempt at the chunk
   * commits, and then under the actor id generated for it in that attempt and its own number of
   * that attempt's allocation.
   */
  ghost predicate FateInChunk(env: Environment, row: WorkRow, start: nat, offset: nat, calls: seq<Allocation>, from: nat) {
    var attempt := CommittingAttempt(env, start, 1);
    && (IsCommitted(row) <==> attempt.Some?)
    && (IsCommitted(row) ==>
          var call := from + CallsBefore(env, start) + attempt.value - 1;
          && call < |calls| && calls[call].year == env.yearAt(start) && offset < calls[call].count
          && row.actorId == Some(env.newId(start, attempt.value, offset))
          && row.traderId == Some(BuildTraderId(env.yearAt(start), FirstOf(calls, call) + offset)))
  }

  ghost predicate Fate(env: Environment, row: WorkRow, k: nat, calls: seq<Allocation>, from: nat) {
    FateInChunk(env, row, ChunkStart(k), k - ChunkStart(k), calls, from)
  }

  /** Each of the first `i` candidates has had its fate; `from` is the import's first allocation. */
  ghost predicate ChunkFates(env: Environment, rows: seq<WorkRow>, candidates: seq<nat>, i: nat,
                             calls: seq<Allocation>, from: nat)
    requires i <= |candidates|
  {
    forall k | 0 <= k < i :: candidates[k] < |rows| && Fate(env, rows[candidates[k]], k, calls, from)
  }

  /** Where the phase stands when the first `i` candidates have ended. */
  ghost predicate SoFar(env: Environment, was: seq<WorkRow>, rows: seq<WorkRow>, candidates: seq<nat>, i: nat,
                        created: map<nat, Identity>, base: seq<ImportEntry>, trail: seq<ImportEntry>,
                        calls: seq<Allocation>, from: nat)
  {
    && Picks(was, candidates) && i <= |candidates|
    && Progress(was, rows, Bound(was, candidates, i))
    && created == CreatedMap(rows, candidates[..i])
    && trail == base + TrailOf(rows, candidates[..i], created)
    && IdsAreNew(rows, calls, from)
    && ChunkFates(env, rows, candidates, i, calls, from)
    && (StartsChunk(i) ==> |calls| == from + CallsBefore(env, i))
  }

  // ---- one chunk ------------------------------------------------------------------------------

  /** How the rows of a chunk end: all created under these identities, or all rolled back. */
  function ChunkRows(rows: seq<WorkRow>, chunk: seq<nat>, ids: Option<seq<Identity>>): (r: seq<WorkRow>)
    requires forall k | 0 <= k < |chunk| :: chunk[k] < |rows|
    requires ids.Some? ==> |ids.value| == |chunk|
    ensures |r| == |rows|
  {
    if chunk == [] then rows
    else
      var n := |chunk| - 1;
      var earlier := ChunkRows(rows, chunk[..n], if ids.Some? then Some(ids.value[..n]) else None);
      earlier[chunk[n] := if ids.Some? then CommittedRow(rows[chunk[n]], ids.value[n]) else RolledBackRow(rows[chunk[n]])]
  }

  lemma {:induction false} ChunkRowsAt(rows: seq<WorkRow>, chunk: seq<nat>, ids: Option<seq<Identity>>)
    requires forall k | 0 <= k < |chunk| :: chunk[k] < |rows|
    requires forall j, k | 0 <= j < k < |chunk| :: chunk[j] != chunk[k]
    requires ids.Some? ==> |ids.value| == |chunk|
    ensures forall i | 0 <= i < |rows| && i !in chunk :: ChunkRows(rows, chunk, ids)[i] == rows[i]
    ensures forall k | 0 <= k < |chunk| ::
              ChunkRows(rows, chunk, ids)[chunk[k]]
              == if ids.Some? then CommittedRow(rows[chunk[k]], ids.value[k]) else RolledBackRow(rows[chunk[k]])
  {
    if chunk != [] {
      var n := |chunk| - 1;
      ChunkRowsAt(rows, chunk[..n], if ids.Some? then Some(ids.value[..n]) else None);
      assert forall i | 0 <= i < |rows| && i !in chunk :: i !in chunk[..n];
      assert forall k | 0 <= k < n :: chunk[..n][k] == chunk[k];
    }
  }

  /** The identities one transaction would give the rows of its chunk. */
  function Identities(env: Environment, start: nat, attempt: nat, traderIds: seq<string>): seq<Identity> {
    seq(|traderIds|, k requires 0 <= k < |traderIds| => Identity(env.newId(start, attempt, k), traderIds[k]))
  }

  /** The trader ids of a chunk are those of one allocation call. */
  ghost predicate FromCall(ids: seq<Identity>, calls: seq<Allocation>, call: nat) {
    && call < |calls| && calls[call].count == |ids|
    && forall k | 0 <= k < |ids| :: ids[k].traderId == BuildTraderId(calls[call].year, FirstOf(calls, call) + k)
  }

  /** These are the identities of one attempt: the actor ids generated in it, the trader ids of its allocation. */
  ghost predicate FromAttempt(ids: seq<Identity>, env: Environment, start: nat, attempt: nat,
                              calls: seq<Allocation>, call: nat)
  {
    && FromCall(ids, calls, call) && calls[call].year == env.yearAt(start)
    && forall k | 0 <= k < |ids| :: ids[k].actorId == env.newId(start, attempt, k)
  }

  /** A chunk's identities are those of its committing attempt, `first` being the chunk's first allocation. */
  ghost predicate FromCommittingAttempt(ids: Option<seq<Identity>>, env: Environment, start: nat,
                                        calls: seq<Allocation>, first: nat)
  {
    var attempt := CommittingAttempt(env, start, 1);
    && (ids.Some? <==> attempt.Some?)
    && (ids.Some? ==> FromAttempt(ids.value, env, start, attempt.value, calls, first + attempt.value - 1))
  }

  /** `after` has these rows created under these identities. */
  ghost predicate Chunked(rows: seq<WorkRow>, chunk: seq<nat>, ids: seq<Identity>, after: seq<WorkRow>) {
    && |ids| == |chunk| && |after| == |rows|
    && forall k | 0 <= k < |chunk| ::
         chunk[k] < |rows| && rows[chunk[k]].create.Some? && after[chunk[k]] == CommittedRow(rows[chunk[k]], ids[k])
  }

  /** Different rows, each with what it would create. */
  ghost predicate IsChunk(rows: seq<WorkRow>, chunk: seq<nat>) {
    && (forall k | 0 <= k < |chunk| :: chunk[k] < |rows| && rows[chunk[k]].create.Some?)
    && (forall j, k | 0 <= j < k < |chunk| :: chunk[j] != chunk[k])
  }

  /** A chunk's rows, the created map and the trail: all changed under these identities, or none. */
  ghost predicate AllOrNothing(was: seq<WorkRow>, rows: seq<WorkRow>, chunk: seq<nat>, ids: Option<seq<Identity>>,
                               created: map<nat, Identity>, createdAfter: map<nat, Identity>,
                               before: seq<ImportEntry>, trail: seq<ImportEntry>)
    requires IsChunk(was, chunk)
  {
    if ids.None? then rows == was && createdAfter == created && trail == before
    else
      && |ids.value| == |chunk| && rows == ChunkRows(was, chunk, ids)
      && createdAfter == created + CreatedMap(rows, chunk)
      && trail == before + TrailOf(rows, chunk, createdAfter)
  }

  lemma {:induction false} CandidatesArePicks(was: seq<WorkRow>)
    requires forall k | 0 <= k < |was| :: was[k].state == CandidateRow ==> Ready(was[k])
    ensures Picks(was, Candidates(was))
  {
    forall k | 0 <= k < |was| && was[k].state == CandidateRow ensures k in Candidates(was) {
      CandidatesAreAll(was, k);
    }
  }

  lemma {:induction false} NothingTaken(was: seq<WorkRow>, candidates: seq<nat>)
    requires Picks(was, candidates)
    ensures Progress(was, was, Bound(was, candidates, 0))
  {
    forall k | 0 <= k < |was| && k in candidates ensures Bound(was, candidates, 0) <= k {
      FirstIsLeast(was, candidates, k);
    }
  }

  lemma {:induction false} FirstIsLeast(was: seq<WorkRow>, candidates: seq<nat>, k: nat)
    requires Picks(was, candidates) && k in candidates
    ensures Bound(was, candidates, 0) <= k
  {
    var m :| 0 <= m < |candidates| && candidates[m] == k;
    assert candidates[0] <= candidates[m];
  }

  lemma {:induction false} NothingIssued(was: seq<WorkRow>, calls: seq<Allocation>, from: nat)
    requires forall k | 0 <= k < |was| :: was[k].state != Created
    ensures IdsAreNew(was, calls, from)
  {
  }

  lemma {:induction false} StartOfCommit(env: Environment, was: seq<WorkRow>, base: seq<ImportEntry>,
                                         calls: seq<Allocation>, from: nat)
    requires forall k | 0 <= k < |was| :: was[k].state == CandidateRow ==> Ready(was[k])
    requires forall k | 0 <= k < |was| :: was[k].state != Created
    requires from == |calls|
    ensures SoFar(env, was, was, Candidates(was), 0, map[], base, base, calls, from)
  {
    CandidatesArePicks(was);
    NothingTaken(was, Candidates(was));
    NothingIssued(was, calls, from);
    assert Candidates(was)[..0] == [];
    assert base + [] == base;
  }

  lemma {:induction false} EndOfCommit(env: Environment, was: seq<WorkRow>, rows: seq<WorkRow>, candidates: seq<nat>,
                                       created: map<nat, Identity>, base: seq<ImportEntry>, trail: seq<ImportEntry>,
                                       calls: seq<Allocation>, from: nat)
    requires SoFar(env, was, rows, candidates, |candidates|, created, base, trail, calls, from)
    ensures Progress(was, rows, |was|) && IdsAreNew(rows, calls, from)
    ensures ChunkFates(env, rows, candidates, |candidates|, calls, from)
    ensures trail == base + TrailOf(rows, candidates, CreatedMap(rows, candidates))
  {
    assert candidates[..|candidates|] == candidates;
  }

  /** A slice of the candidates is the candidates between two bounds. */
  lemma {:induction false} SliceMembers(was: seq<WorkRow>, candidates: seq<nat>, i: nat, end: nat, k: nat)
    requires Picks(was, candidates) && i <= end <= |candidates| && k < |was|
    ensures k in candidates[i..end] <==>
              was[k].state == CandidateRow && Bound(was, candidates, i) <= k < Bound(was, candidates, end)
  {
    var chunk := candidates[i..end];
    if k in chunk {
      var m :| 0 <= m < |chunk| && chunk[m] == k;
      assert k == candidates[i + m];
    }
    if was[k].state == CandidateRow && Bound(was, candidates, i) <= k < Bound(was, candidates, end) {
      var m :| 0 <= m < |candidates| && candidates[m] == k;
      assert i <= m < end;
      assert chunk[m - i] == k;
    }
  }

  lemma {:induction false} ChunkRow(rows: seq<WorkRow>, chunk: seq<nat>, ids: Option<seq<Identity>>, k: nat)
    requires forall m | 0 <= m < |chunk| :: chunk[m] < |rows|
    requires forall j, m | 0 <= j < m < |chunk| :: chunk[j] != chunk[m]
    requires ids.Some? ==> |ids.value| == |chunk|
    requires k < |rows|
    ensures var row := ChunkRows(rows, chunk, ids)[k];
            if k !in chunk then row == rows[k]
            else row == RolledBackRow(rows[k]) || exists id :: row == CommittedRow(rows[k], id)
  {
    ChunkRowsAt(rows, chunk, ids);
    if k in chunk {
      var m :| 0 <= m < |chunk| && chunk[m] == k;
      assert ids.Some? ==> ChunkRows(rows, chunk, ids)[chunk[m]] == CommittedRow(rows[chunk[m]], ids.value[m]);
    }
  }

  lemma {:induction false} ChunkEnds(was: seq<WorkRow>, here: seq<WorkRow>, candidates: seq<nat>, i: nat, end: nat,
                                     ids: Option<seq<Identity>>, k: nat)
    requires Picks(was, candidates) && i <= end <= |candidates| && Progress(was, here, Bound(was, candidates, i))
    requires ids.Some? ==> |ids.value| == end - i
    requires k < |was|
    ensures var row := ChunkRows(here, candidates[i..end], ids)[k];
            if k < Bound(was, candidates, end) then EndsAs(was[k], row) else row == was[k]
    ensures k < Bound(was, candidates, i) ==> ChunkRows(here, candidates[i..end], ids)[k] == here[k]
  {
    var chunk := candidates[i..end];
    SliceMembers(was, candidates, i, end, k);
    ChunkRow(here, chunk, ids, k);
    if k in chunk {
      assert here[k] == was[k] && k in candidates && Ready(was[k]);
    }
  }

  lemma {:induction false} ChunkProgress(was: seq<WorkRow>, here: seq<WorkRow>, candidates: seq<nat>, i: nat, end: nat,
                                         ids: Option<seq<Identity>>)
    requires Picks(was, candidates) && i <= end <= |candidates| && Progress(was, here, Bound(was, candidates, i))
    requires ids.Some? ==> |ids.value| == end - i
    ensures Progress(was, ChunkRows(here, candidates[i..end], ids), Bound(was, candidates, end))
  {
    forall k | 0 <= k < |was|
      ensures var row := ChunkRows(here, candidates[i..end], ids)[k];
              if k < Bound(was, candidates, end) then EndsAs(was[k], row) else row == was[k]
    {
      ChunkEnds(was, here, candidates, i, end, ids, k);
    }
  }

  lemma {:induction false} NothingCreated(rows: seq<WorkRow>, picks: seq<nat>, created: map<nat, Identity>)
    requires forall k | 0 <= k < |picks| :: picks[k] < |rows| && !IsCommitted(rows[picks[k]])
    ensures CreatedMap(rows, picks) == map[] && TrailOf(rows, picks, created) == []
  {
    if picks != [] {
      NothingCreated(rows, picks[..|picks| - 1], created);
    }
  }

  ghost predicate SameNumbers(was: seq<WorkRow>, rows: seq<WorkRow>) {
    |rows| == |was| && forall k | 0 <= k < |was| :: rows[k].rowNumber == was[k].rowNumber
  }

  lemma {:induction false} ProgressKeepsNumbers(was: seq<WorkRow>, rows: seq<WorkRow>, bound: nat)
    requires Progress(was, rows, bound)
    ensures SameNumbers(was, rows)
  {
  }

  /** Whatever a later chunk creates has a later row number. */
  lemma {:induction false} LaterNumbers(was: seq<WorkRow>, after: seq<WorkRow>, candidates: seq<nat>, i: nat, end: nat,
                                        k: nat, n: nat)
    requires RowNumbersIncrease(was) && SameNumbers(was, after) && k < i <= end <= |candidates|
    requires forall j | 0 <= j < |candidates| :: candidates[j] < |was|
    requires forall j, m | 0 <= j < m < |candidates| :: candidates[j] < candidates[m]
    requires n in CreatedMap(after, candidates[i..end])
    ensures n > after[candidates[k]].rowNumber
  {
    var chunk := candidates[i..end];
    CreatedMapNames(after, chunk, n);
    var m :| 0 <= m < |chunk| && IsCommitted(after[chunk[m]]) && after[chunk[m]].rowNumber == n;
    assert chunk[m] == candidates[i + m];
    assert candidates[k] < candidates[i + m];
    assert was[candidates[k]].rowNumber < was[candidates[i + m]].rowNumber;
  }

  /** The rows of earlier chunks are left alone by a later one, and come before whatever it creates. */
  lemma {:induction false} EarlierUntouched(was: seq<WorkRow>, here: seq<WorkRow>, candidates: seq<nat>, i: nat,
                                            end: nat, ids: Option<seq<Identity>>, k: nat)
    requires Picks(was, candidates) && k < i <= end <= |candidates| && Progress(was, here, Bound(was, candidates, i))
    requires RowNumbersIncrease(was) && (ids.Some? ==> |ids.value| == end - i)
    ensures candidates[k] < |here|
    ensures var after, row := ChunkRows(here, candidates[i..end], ids), here[candidates[k]];
            && after[candidates[k]] == row && (IsCommitted(row) ==> Ready(row))
            && forall n | n in CreatedMap(after, candidates[i..end]) :: n > row.rowNumber
  {
    var after := ChunkRows(here, candidates[i..end], ids);
    ChunkEnds(was, here, candidates, i, end, ids, candidates[k]);
    ChunkProgress(was, here, candidates, i, end, ids);
    ProgressKeepsNumbers(was, after, Bound(was, candidates, end));
    forall n | n in CreatedMap(after, candidates[i..end]) ensures n > here[candidates[k]].rowNumber {
      LaterNumbers(was, after, candidates, i, end, k, n);
    }
  }

  /** A chunk that failed whole adds nothing to either reading. */
  lemma {:induction false} FailedSlice(was: seq<WorkRow>, here: seq<WorkRow>, candidates: seq<nat>, i: nat, end: nat,
                                       created: map<nat, Identity>)
    requires Picks(was, candidates) && i <= end <= |candidates| && |here| == |was|
    ensures var after, chunk := ChunkRows(here, candidates[i..end], None), candidates[i..end];
            && CreatedMap(after, chunk) == map[]
            && TrailOf(after, chunk, created + CreatedMap(after, chunk)) == []
            && created + CreatedMap(after, chunk) == created
  {
    var chunk := candidates[i..end];
    assert forall k | 0 <= k < |chunk| :: chunk[k] == candidates[i + k];
    var after := ChunkRows(here, chunk, None);
    ChunkRowsAt(here, chunk, None);
    NothingCreated(after, chunk, created + CreatedMap(after, chunk));
  }

  /** After a chunk, the created map and the trail read off all the rows so far are the ones kept. */
  lemma {:induction false} ChunkReadings(was: seq<WorkRow>, here: seq<WorkRow>, candidates: seq<nat>, i: nat, end: nat,
                                         ids: Option<seq<Identity>>, created: map<nat, Identity>)
    requires Picks(was, candidates) && i <= end <= |candidates| && Progress(was, here, Bound(was, candidates, i))
    requires RowNumbersIncrease(was) && created == CreatedMap(here, candidates[..i])
    requires ids.Some? ==> |ids.value| == end - i
    ensures var after, chunk := ChunkRows(here, candidates[i..end], ids), candidates[i..end];
            var createdAfter := created + CreatedMap(after, chunk);
            && CreatedMap(after, candidates[..end]) == createdAfter
            && TrailOf(after, candidates[..end], createdAfter)
               == TrailOf(here, candidates[..i], created) + TrailOf(after, chunk, createdAfter)
  {
    var chunk, earlier := candidates[i..end], candidates[..i];
    var after := ChunkRows(here, chunk, ids);
    assert candidates[..end] == earlier + chunk;
    forall k | 0 <= k < |earlier|
      ensures here[earlier[k]] == after[earlier[k]] && (IsCommitted(here[earlier[k]]) ==> Ready(here[earlier[k]]))
      ensures forall n | n in CreatedMap(after, chunk) :: n > here[earlier[k]].rowNumber
    {
      EarlierUntouched(was, here, candidates, i, end, ids, k);
    }
    ReadingsInParts(here, after, earlier, chunk, created);
  }

  lemma {:induction false} ReadingsInParts(here: seq<WorkRow>, after: seq<WorkRow>, earlier: seq<nat>, chunk: seq<nat>,
                                           created: map<nat, Identity>)
    requires |here| == |after|
    requires forall k | 0 <= k < |chunk| :: chunk[k] < |after|
    requires forall k | 0 <= k < |earlier| :: earlier[k] < |here|
    requires created == CreatedMap(here, earlier)
    requires forall k | 0 <= k < |earlier| ::
               && here[earlier[k]] == after[earlier[k]]
               && (IsCommitted(here[earlier[k]]) ==> Ready(here[earlier[k]]))
               && forall n | n in CreatedMap(after, chunk) :: n > here[earlier[k]].rowNumber
    ensures var more := CreatedMap(after, chunk);
            && CreatedMap(after, earlier + chunk) == created + more
            && TrailOf(after, earlier + chunk, created + more)
               == TrailOf(here, earlier, created) + TrailOf(after, chunk, created + more)
  {
    var more := CreatedMap(after, chunk);
    ReadingsSplit(after, earlier, chunk, created + more);
    ReadingsAgree(here, after, earlier, created + more);
    TrailIsStable(here, earlier, created, more);
  }

  /** What one slice adds to the created map and the trail, whether its chunk committed or failed. */
  lemma {:induction false} SliceReadings(was: seq<WorkRow>, here: seq<WorkRow>, candidates: seq<nat>, i: nat, end: nat,
                                         ids: Option<seq<Identity>>, created: map<nat, Identity>,
                                         createdAfter: map<nat, Identity>, base: seq<ImportEntry>, trail: seq<ImportEntry>)
    requires Picks(was, candidates) && i <= end <= |candidates| && Progress(was, here, Bound(was, candidates, i))
    requires RowNumbersIncrease(was) && created == CreatedMap(here, candidates[..i])
    requires ids.Some? ==> |ids.value| == end - i
    requires var after, chunk := ChunkRows(here, candidates[i..end], ids), candidates[i..end];
             var soFar := base + TrailOf(here, candidates[..i], created);
             if ids.Some? then
               createdAfter == created + CreatedMap(after, chunk) && trail == soFar + TrailOf(after, chunk, createdAfter)
             else createdAfter == created && trail == soFar
    ensures var after := ChunkRows(here, candidates[i..end], ids);
            createdAfter == CreatedMap(after, candidates[..end])
            && trail == base + TrailOf(after, candidates[..end], createdAfter)
  {
    var chunk := candidates[i..end];
    var after := ChunkRows(here, chunk, ids);
    ChunkReadings(was, here, candidates, i, end, ids, created);
    if ids.None? {
      FailedSlice(was, here, candidates, i, end, created);
    } else {
      Associates(base, TrailOf(here, candidates[..i], created), TrailOf(after, chunk, createdAfter));
    }
  }

  lemma {:induction false} FateStays(env: Environment, row: WorkRow, k: nat, calls: seq<Allocation>,
                                     more: seq<Allocation>, from: nat)
    requires Fate(env, row, k, calls, from) && calls <= more
    ensures Fate(env, row, k, more, from)
  {
    if IsCommitted(row) {
      var call := from + CallsBefore(env, ChunkStart(k)) + CommittingAttempt(env, ChunkStart(k), 1).value - 1;
      assert more[..call] == calls[..call];
    }
  }

  lemma {:induction false} FateInSlice(env: Environment, row: WorkRow, k: nat, i: nat, ids: Option<seq<Identity>>,
                                       calls: seq<Allocation>, from: nat, first: nat)
    requires StartsChunk(i) && i <= k < i + COMMIT_CHUNK_SIZE && first == from + CallsBefore(env, i)
    requires FromCommittingAttempt(ids, env, i, calls, first)
    requires IsCommitted(row) <==> ids.Some?
    requires ids.Some? ==> k - i < |ids.value| && IdentityOf(row) == ids.value[k - i]
    ensures Fate(env, row, k, calls, from)
  {
    FateOfCommitted(env, row, i, k - i, ids, calls, from, first);
    StartsAt(i, k);
  }

  lemma {:induction false} FateOfCommitted(env: Environment, row: WorkRow, start: nat, offset: nat,
                                           ids: Option<seq<Identity>>, calls: seq<Allocation>, from: nat, first: nat)
    requires first == from + CallsBefore(env, start) && FromCommittingAttempt(ids, env, start, calls, first)
    requires IsCommitted(row) <==> ids.Some?
    requires ids.Some? ==> offset < |ids.value| && IdentityOf(row) == ids.value[offset]
    ensures FateInChunk(env, row, start, offset, calls, from)
  {
  }

  /** A slice's rows share the fate of its chunk, and earlier rows keep theirs. */
  lemma {:induction false} SliceFates(env: Environment, was: seq<WorkRow>, here: seq<WorkRow>, candidates: seq<nat>,
                                      i: nat, end: nat, ids: Option<seq<Identity>>, callsHere: seq<Allocation>,
                                      calls: seq<Allocation>, from: nat)
    requires Picks(was, candidates) && i <= end <= |candidates| && Progress(was, here, Bound(was, candidates, i))
    requires ids.Some? ==> |ids.value| == end - i
    requires StartsChunk(i) && end <= i + COMMIT_CHUNK_SIZE
    requires ChunkFates(env, here, candidates, i, callsHere, from) && callsHere <= calls
    requires |callsHere| == from + CallsBefore(env, i) && FromCommittingAttempt(ids, env, i, calls, |callsHere|)
    ensures ChunkFates(env, ChunkRows(here, candidates[i..end], ids), candidates, end, calls, from)
  {
    var after := ChunkRows(here, candidates[i..end], ids);
    forall k | 0 <= k < end
      ensures candidates[k] < |after| && Fate(env, after[candidates[k]], k, calls, from)
    {
      ChunkEnds(was, here, candidates, i, end, ids, candidates[k]);
      if k >= i {
        SliceRow(was, here, candidates, i, end, ids, k);
        FateInSlice(env, after[candidates[k]], k, i, ids, calls, from, |callsHere|);
      } else {
        FateStays(env, here[candidates[k]], k, callsHere, calls, from);
      }
    }
  }

  lemma {:induction false} SliceRow(was: seq<WorkRow>, here: seq<WorkRow>, candidates: seq<nat>, i: nat, end: nat,
                                    ids: Option<seq<Identity>>, k: nat)
    requires Picks(was, candidates) && i <= k < end <= |candidates| && Progress(was, here, Bound(was, candidates, i))
    requires ids.Some? ==> |ids.value| == end - i
    ensures candidates[k] < |here|
    ensures var row := ChunkRows(here, candidates[i..end], ids)[candidates[k]];
            && (IsCommitted(row) <==> ids.Some?)
            && (ids.Some? ==> IdentityOf(row) == ids.value[k - i])
  {
    var chunk := candidates[i..end];
    assert chunk[k - i] == candidates[k] && here[candidates[k]] == was[candidates[k]];
    ChunkRowsAt(here, chunk, ids);
  }

  lemma {:induction false} StartsAt(i: nat, k: nat)
    requires StartsChunk(i) && i <= k < i + COMMIT_CHUNK_SIZE
    ensures ChunkStart(k) == i
  {
    if i >= COMMIT_CHUNK_SIZE {
      StartsAt(i - COMMIT_CHUNK_SIZE, k - COMMIT_CHUNK_SIZE);
    }
  }

  lemma {:induction false} WholeChunks(i: nat, end: nat)
    requires StartsChunk(i) && i < end <= i + COMMIT_CHUNK_SIZE
    ensures StartsChunk(end) <==> end == i + COMMIT_CHUNK_SIZE
  {
    if end < i + COMMIT_CHUNK_SIZE {
      StartsAt(i, end);
    }
  }

  lemma {:induction false} Associates(a: seq<ImportEntry>, b: seq<ImportEntry>, c: seq<ImportEntry>)
    ensures (a + b) + c == a + (b + c)
  {
  }

  lemma {:induction false} IssuedStaysIssued(id: string, calls: seq<Allocation>, more: seq<Allocation>, from: nat)
    requires WasIssued(id, calls, from) && calls <= more
    ensures WasIssued(id, more, from)
    ensures exists c, n :: from <= c < |calls| && Receives(more, c, n) && id == BuildTraderId(more[c].year, n)
  {
    var c, n :| from <= c < |calls| && Receives(calls, c, n) && id == BuildTraderId(calls[c].year, n);
    assert more[..c] == calls[..c];
    assert Receives(more, c, n);
  }

  lemma {:induction false} NewIdIsNew(ids: seq<Identity>, k: nat, calls: seq<Allocation>, call: nat)
    requires FromCall(ids, calls, call) && k < |ids|
    ensures Receives(calls, call, FirstOf(calls, call) + k)
    ensures forall c, n | 0 <= c < call && Receives(calls, c, n) :: BuildTraderId(calls[c].year, n) != ids[k].traderId
    ensures forall j | 0 <= j < |ids| && j != k :: ids[j].traderId != ids[k].traderId
  {
    var m := FirstOf(calls, call) + k;
    forall c, n | 0 <= c < call && Receives(calls, c, n) ensures BuildTraderId(calls[c].year, n) != ids[k].traderId {
      if BuildTraderId(calls[c].year, n) == ids[k].traderId {
        NoIdIsIssuedTwice("TM-", calls, c, n, call, m);
      }
    }
    forall j | 0 <= j < |ids| && j != k ensures ids[j].traderId != ids[k].traderId {
      IdsAreInjective("TM-", calls[call].year, FirstOf(calls, call) + j, calls[call].year, m);
    }
  }

  lemma {:induction false} NewIdsStayNew(here: seq<WorkRow>, callsHere: seq<Allocation>, calls: seq<Allocation>,
                                         chunk: seq<nat>, ids: Option<seq<Identity>>, call: nat, from: nat)
    requires IdsAreNew(here, callsHere, from) && callsHere <= calls && from <= |callsHere|
    requires forall k | 0 <= k < |chunk| :: chunk[k] < |here|
    requires forall j, k | 0 <= j < k < |chunk| :: chunk[j] != chunk[k]
    requires ids.Some? ==> |ids.value| == |chunk| && |callsHere| <= call && FromCall(ids.value, calls, call)
    ensures IdsAreNew(ChunkRows(here, chunk, ids), calls, from)
  {
    var after := ChunkRows(here, chunk, ids);
    ChunkRowsAt(here, chunk, ids);
    forall i | 0 <= i < |after| && IsCommitted(after[i]) ensures WasIssued(after[i].traderId.value, calls, from) {
      if i in chunk {
        var k :| 0 <= k < |chunk| && chunk[k] == i;
        NewIdIsNew(ids.value, k, calls, call);
      } else {
        IssuedStaysIssued(here[i].traderId.value, callsHere, calls, from);
      }
    }
    forall i, j | 0 <= i < |after| && 0 <= j < |after| && i != j && IsCommitted(after[i]) && IsCommitted(after[j])
      ensures after[i].traderId != after[j].traderId
    {
      if i in chunk {
        IdDiffers(here, callsHere, calls, chunk, ids.value, call, from, i, j);
      } else if j in chunk {
        IdDiffers(here, callsHere, calls, chunk, ids.value, call, from, j, i);
      }
    }
  }

  lemma {:induction false} IdDiffers(here: seq<WorkRow>, callsHere: seq<Allocation>, calls: seq<Allocation>,
                                     chunk: seq<nat>, ids: seq<Identity>, call: nat, from: nat, i: nat, j: nat)
    requires IdsAreNew(here, callsHere, from) && callsHere <= calls && from <= |callsHere| <= call
    requires forall k | 0 <= k < |chunk| :: chunk[k] < |here|
    requires forall j, k | 0 <= j < k < |chunk| :: chunk[j] != chunk[k]
    requires |ids| == |chunk| && FromCall(ids, calls, call)
    requires i != j && i in chunk && j < |here| && (j !in chunk ==> IsCommitted(here[j]))
    ensures var after := ChunkRows(here, chunk, Some(ids)); after[i].traderId != after[j].traderId
  {
    ChunkRowsAt(here, chunk, Some(ids));
    var k :| 0 <= k < |chunk| && chunk[k] == i;
    NewIdIsNew(ids, k, calls, call);
    if j in chunk {
      var m :| 0 <= m < |chunk| && chunk[m] == j;
    } else {
      IssuedStaysIssued(here[j].traderId.value, callsHere, calls, from);
    }
  }

  lemma {:induction false} NewIdsInChunk(env: Environment, here: seq<WorkRow>, callsHere: seq<Allocation>,
                                         calls: seq<Allocation>, chunk: seq<nat>, ids: Option<seq<Identity>>,
                                         start: nat, from: nat)
    requires IdsAreNew(here, callsHere, from) && callsHere <= calls && from <= |callsHere|
    requires forall k | 0 <= k < |chunk| :: chunk[k] < |here|
    requires forall j, k | 0 <= j < k < |chunk| :: chunk[j] != chunk[k]
    requires ids.Some? ==> |ids.value| == |chunk|
    requires FromCommittingAttempt(ids, env, start, calls, |callsHere|)
    ensures IdsAreNew(ChunkRows(here, chunk, ids), calls, from)
  {
    var call := |callsHere| + if ids.Some? then CommittingAttempt(env, start, 1).value - 1 else 0;
    NewIdsStayNew(here, callsHere, calls, chunk, ids, call, from);
  }

  /** One slice, as a step of the whole phase. */
  lemma {:induction false} SliceStep(env: Environment, was: seq<WorkRow>, here: seq<WorkRow>, candidates: seq<nat>,
                                     i: nat, end: nat, ids: Option<seq<Identity>>, created: map<nat, Identity>,
                                     createdAfter: map<nat, Identity>, base: seq<ImportEntry>,
                                     trailHere: seq<ImportEntry>, trail: seq<ImportEntry>,
                                     callsHere: seq<Allocation>, calls: seq<Allocation>, from: nat)
    requires RowNumbersIncrease(was) && i < end <= |candidates|
    requires StartsChunk(i) && (end == i + COMMIT_CHUNK_SIZE || (end < i + COMMIT_CHUNK_SIZE && end == |candidates|))
    requires SoFar(env, was, here, candidates, i, created, base, trailHere, callsHere, from)
    requires from <= |callsHere| && callsHere <= calls && |calls| == |callsHere| + AttemptsMade(env, i, 1)
    requires ids.Some? ==> |ids.value| == end - i
    requires FromCommittingAttempt(ids, env, i, calls, |callsHere|)
    requires var after, chunk := ChunkRows(here, candidates[i..end], ids), candidates[i..end];
             if ids.Some? then
               createdAfter == created + CreatedMap(after, chunk) && trail == trailHere + TrailOf(after, chunk, createdAfter)
             else createdAfter == created && trail == trailHere
    ensures SoFar(env, was, ChunkRows(here, candidates[i..end], ids), candidates, end, createdAfter, base, trail,
                  calls, from)
  {
    var chunk := candidates[i..end];
    SliceIsDistinct(was, candidates, i, end);
    ChunkProgress(was, here, candidates, i, end, ids);
    NewIdsInChunk(env, here, callsHere, calls, chunk, ids, i, from);
    SliceReadings(was, here, candidates, i, end, ids, created, createdAfter, base, trail);
    SliceFates(env, was, here, candidates, i, end, ids, callsHere, calls, from);
    CallsAfterSlice(env, i, end);
  }

  lemma {:induction false} CallsAfterSlice(env: Environment, i: nat, end: nat)
    requires StartsChunk(i) && i < end <= i + COMMIT_CHUNK_SIZE
    ensures StartsChunk(end) ==> CallsBefore(env, end) == CallsBefore(env, i) + AttemptsMade(env, i, 1)
  {
    WholeChunks(i, end);
  }

  lemma {:induction false} SliceIsDistinct(was: seq<WorkRow>, candidates: seq<nat>, i: nat, end: nat)
    requires Picks(was, candidates) && i <= end <= |candidates|
    ensures var chunk := candidates[i..end];
            && (forall k | 0 <= k < |chunk| :: chunk[k] < |was| && chunk[k] == candidates[i + k])
            && (forall j, k | 0 <= j < k < |chunk| :: chunk[j] != chunk[k])
  {
  }

  // ---- what a rolled-back attempt leaves ---------------------------------------------------------

  /** The database never generates one actor id twice. */
  ghost predicate FreshIds(env: Environment) {
    forall s, a, k, s', a', k' ::
      env.newId(s, a, k) == env.newId(s', a', k') ==> s == s' && a == a' && k == k'
  }

  /** The allocations of different chunks lie apart. */
  lemma {:induction false} CallsAreApart(env: Environment, s: nat, t: nat)
    requires StartsChunk(s) && StartsChunk(t) && s < t
    ensures CallsBefore(env, s) + AttemptsMade(env, s, 1) <= CallsBefore(env, t)
  {
    WholeChunksApart(s, t);
    if s < t - COMMIT_CHUNK_SIZE {
      CallsAreApart(env, s, t - COMMIT_CHUNK_SIZE);
    }
  }

  lemma {:induction false} WholeChunksApart(s: nat, t: nat)
    requires StartsChunk(s) && StartsChunk(t) && s < t
    ensures s <= t - COMMIT_CHUNK_SIZE && StartsChunk(t - COMMIT_CHUNK_SIZE)
  {
    assert t >= COMMIT_CHUNK_SIZE;
    if t - COMMIT_CHUNK_SIZE < s {
      StartsAt(t - COMMIT_CHUNK_SIZE, s);
    }
  }

  lemma {:induction false} StartsAreWhole(k: nat)
    ensures StartsChunk(ChunkStart(k))
  {
    if k >= COMMIT_CHUNK_SIZE {
      StartsAreWhole(k - COMMIT_CHUNK_SIZE);
    }
  }

  /** Two attempts that got numbers got them from one allocation only if they are the same attempt. */
  lemma {:induction false} AttemptsHaveOwnCalls(env: Environment, s: nat, a: nat, t: nat, b: nat)
    requires StartsChunk(s) && StartsChunk(t)
    requires 1 <= a <= AttemptsMade(env, s, 1) && 1 <= b <= AttemptsMade(env, t, 1)
    requires CallsBefore(env, s) + a == CallsBefore(env, t) + b
    ensures s == t && a == b
  {
    if s < t {
      CallsAreApart(env, s, t);
    } else if t < s {
      CallsAreApart(env, t, s);
    }
  }

  lemma {:induction false} ActorIdIsNotRolledBack(env: Environment, row: WorkRow, k: nat, calls: seq<Allocation>, from: nat,
                                                  start: nat, attempt: nat, j: nat)
    requires Fate(env, row, k, calls, from) && IsCommitted(row) && FreshIds(env)
    requires CommittingAttempt(env, start, 1) != Some(attempt)
    ensures row.actorId != Some(env.newId(start, attempt, j))
  {
  }

  lemma {:induction false} TraderIdIsNotRolledBack(env: Environment, row: WorkRow, k: nat, calls: seq<Allocation>, from: nat,
                                                   start: nat, attempt: nat, n: nat)
    requires Fate(env, row, k, calls, from) && IsCommitted(row)
    requires StartsChunk(start) && 1 <= attempt <= AttemptsMade(env, start, 1)
    requires CommittingAttempt(env, start, 1) != Some(attempt)
    ensures var call := from + CallsBefore(env, start) + attempt - 1;
            call < |calls| && Receives(calls, call, n) ==> row.traderId != Some(BuildTraderId(calls[call].year, n))
  {
    var home := ChunkStart(k);
    StartsAreWhole(k);
    var mine := from + CallsBefore(env, home) + CommittingAttempt(env, home, 1).value - 1;
    var call := from + CallsBefore(env, start) + attempt - 1;
    if call == mine {
      AttemptsHaveOwnCalls(env, home, CommittingAttempt(env, home, 1).value, start, attempt);
    }
    var m := FirstOf(calls, mine) + (k - home);
    if call < |calls| && Receives(calls, call, n)
       && BuildTraderId(calls[mine].year, m) == BuildTraderId(calls[call].year, n) {
      NoIdIsIssuedTwice("TM-", calls, mine, m, call, n);
    }
  }

  /**
   * Whatever an attempt that did not commit its chunk was given, actor ids and trader ids alike, no
   * created row carries.
   */
  lemma {:induction false} RolledBackAttemptIsNeverReported(env: Environment, row: WorkRow, k: nat,
                                                            calls: seq<Allocation>, from: nat,
                                                            start: nat, attempt: nat, j: nat, n: nat)
    requires Fate(env, row, k, calls, from) && IsCommitted(row) && FreshIds(env)
    requires StartsChunk(start) && 1 <= attempt <= AttemptsMade(env, start, 1)
    requires CommittingAttempt(env, start, 1) != Some(attempt)
    ensures row.actorId != Some(env.newId(start, attempt, j))
    ensures var call := from + CallsBefore(env, start) + attempt - 1;
            call < |calls| && Receives(calls, call, n) ==> row.traderId != Some(BuildTraderId(calls[call].year, n))
  {
    ActorIdIsNotRolledBack(env, row, k, calls, from, start, attempt, j);
    TraderIdIsNotRolledBack(env, row, k, calls, from, start, attempt, n);
  }

  /** Every entry of the trail is a created row's: its identity, what it created, and its confirmation. */
  lemma {:induction false} TrailNames(rows: seq<WorkRow>, picks: seq<nat>, created: map<nat, Identity>, e: ImportEntry)
    requires forall k | 0 <= k < |picks| :: picks[k] < |rows|
    requires e in TrailOf(rows, picks, created)
    ensures exists k :: 0 <= k < |picks| && IsCommitted(rows[picks[k]])
                        && e.identity == IdentityOf(rows[picks[k]]) && e.create == rows[picks[k]].create.value
                        && e.confirmation == ResolveDuplicateConfirmation(rows[picks[k]].duplicateCandidates, created)
  {
    var m := |picks| - 1;
    if e in TrailOf(rows, picks[..m], created) {
      TrailNames(rows, picks[..m], created, e);
      var k :| 0 <= k < m && IsCommitted(rows[picks[..m][k]])
               && e.identity == IdentityOf(rows[picks[..m][k]]) && e.create == rows[picks[..m][k]].create.value
               && e.confirmation
                  == ResolveDuplicateConfirmation(rows[picks[..m][k]].duplicateCandidates, created);
      assert picks[..m][k] == picks[k];
    }
  }

  ghost function CommittedAt(rows: seq<WorkRow>, picks: seq<nat>): set<int> {
    set k | 0 <= k < |picks| && picks[k] < |rows| && IsCommitted(rows[picks[k]])
  }

  /** No created row is missing from the trail: it has its entry, and there are as many entries as created rows. */
  lemma {:induction false} TrailIsComplete(rows: seq<WorkRow>, picks: seq<nat>, created: map<nat, Identity>)
    requires forall k | 0 <= k < |picks| :: picks[k] < |rows|
    ensures |TrailOf(rows, picks, created)| == |CommittedAt(rows, picks)|
    ensures forall k | k in CommittedAt(rows, picks) ::
              exists e :: e in TrailOf(rows, picks, created) && e.identity == IdentityOf(rows[picks[k]])
                          && e.create == rows[picks[k]].create.value
  {
    if picks != [] {
      var m := |picks| - 1;
      var shorter, row := picks[..m], rows[picks[m]];
      TrailIsComplete(rows, shorter, created);
      assert CommittedAt(rows, picks) == CommittedAt(rows, shorter) + if IsCommitted(row) then {m} else {};
      var earlier, all := TrailOf(rows, shorter, created), TrailOf(rows, picks, created);
      assert earlier <= all;
      forall k | k in CommittedAt(rows, picks)
        ensures exists e :: e in all && e.identity == IdentityOf(rows[picks[k]]) && e.create == rows[picks[k]].create.value
      {
        if k == m {
          assert all[|earlier|] in all;
        } else {
          var e :| e in earlier && e.identity == IdentityOf(rows[shorter[k]]) && e.create == rows[shorter[k]].create.value;
          assert e in all;
        }
      }
    }
  }

  /**
   * The trail of an import names no actor id of an attempt that was rolled back: neither as an
   * entry's own, nor as what a confirmation of an earlier row resolves to.
   */
  lemma {:induction false} TrailNamesNoRolledBackAttempt(env: Environment, rows: seq<WorkRow>, picks: seq<nat>,
                                                         calls: seq<Allocation>, from: nat, e: ImportEntry,
                                                         start: nat, attempt: nat, j: nat)
    requires ChunkFates(env, rows, picks, |picks|, calls, from) && FreshIds(env)
    requires e in TrailOf(rows, picks, CreatedMap(rows, picks))
    requires StartsChunk(start) && 1 <= attempt <= AttemptsMade(env, start, 1)
    requires CommittingAttempt(env, start, 1) != Some(attempt)
    ensures e.identity.actorId != env.newId(start, attempt, j)
    ensures var created := CreatedMap(rows, picks);
            && (forall n | n in created :: created[n].actorId != env.newId(start, attempt, j))
            && exists k :: 0 <= k < |picks| && IsCommitted(rows[picks[k]]) && e.identity == IdentityOf(rows[picks[k]])
                           && e.confirmation
                              == ResolveDuplicateConfirmation(rows[picks[k]].duplicateCandidates, created)
  {
    var created := CreatedMap(rows, picks);
    forall k | 0 <= k < |picks| && IsCommitted(rows[picks[k]])
      ensures rows[picks[k]].actorId != Some(env.newId(start, attempt, j))
    {
      ActorIdIsNotRolledBack(env, rows[picks[k]], k, calls, from, start, attempt, j);
    }
    forall n | n in created ensures created[n].actorId != env.newId(start, attempt, j) {
      CreatedMapNames(rows, picks, n);
    }
    TrailNames(rows, picks, created, e);
  }

  /** No created row among these carries this trader id. */
  ghost predicate NoneCarries(rows: seq<WorkRow>, picks: seq<nat>, traderId: string) {
    forall k | 0 <= k < |picks| && picks[k] < |rows| && IsCommitted(rows[picks[k]]) ::
      rows[picks[k]].traderId != Some(traderId)
  }

  lemma {:induction false} TrailNamesCreatedOnly(rows: seq<WorkRow>, picks: seq<nat>, e: ImportEntry, traderId: string)
    requires forall k | 0 <= k < |picks| :: picks[k] < |rows|
    requires e in TrailOf(rows, picks, CreatedMap(rows, picks)) && NoneCarries(rows, picks, traderId)
    ensures var created := CreatedMap(rows, picks);
            e.identity.traderId != traderId && forall m | m in created :: created[m].traderId != traderId
  {
    var created := CreatedMap(rows, picks);
    forall m | m in created ensures created[m].traderId != traderId {
      CreatedMapNames(rows, picks, m);
    }
    TrailNames(rows, picks, created, e);
  }

  /** Nor does it name a trader id that such an attempt was given. */
  lemma {:induction false} TrailNamesNoRolledBackTraderId(env: Environment, rows: seq<WorkRow>, picks: seq<nat>,
                                                           calls: seq<Allocation>, from: nat, e: ImportEntry,
                                                           start: nat, attempt: nat, n: nat)
    requires ChunkFates(env, rows, picks, |picks|, calls, from) && FreshIds(env)
    requires e in TrailOf(rows, picks, CreatedMap(rows, picks))
    requires StartsChunk(start) && 1 <= attempt <= AttemptsMade(env, start, 1)
    requires CommittingAttempt(env, start, 1) != Some(attempt)
    requires var call := from + CallsBefore(env, start) + attempt - 1; call < |calls| && Receives(calls, call, n)
    ensures var given := BuildTraderId(calls[from + CallsBefore(env, start) + attempt - 1].year, n);
            var created := CreatedMap(rows, picks);
            e.identity.traderId != given && forall m | m in created :: created[m].traderId != given
  {
    var given := BuildTraderId(calls[from + CallsBefore(env, start) + attempt - 1].year, n);
    forall k | 0 <= k < |picks| && IsCommitted(rows[picks[k]]) ensures rows[picks[k]].traderId != Some(given) {
      TraderIdIsNotRolledBack(env, rows[picks[k]], k, calls, from, start, attempt, n);
    }
    TrailNamesCreatedOnly(rows, picks, e, given);
  }

  class ImportDatabase {
    const sequences: SequenceTable
    var trail: seq<ImportEntry>

    constructor (sequences: SequenceTable)
      ensures this.sequences == sequences && trail == []
    {
      this.sequences := sequences;
      trail := [];
    }

    /** Create row by row, noting each new identity in a copy that is dropped if a statement fails. */
    method CreateActors(rows: seq<WorkRow>, chunk: seq<nat>, ids: seq<Identity>, created: map<nat, Identity>,
                        answer: Answer, ghost after: seq<WorkRow>)
      returns (localCreated: Option<map<nat, Identity>>)
      requires Chunked(rows, chunk, ids, after)
      ensures localCreated.None? <==> answer.FailsAt? && answer.at < |chunk|
      ensures localCreated.Some? ==> localCreated.value == created + CreatedMap(after, chunk)
    {
      var local := created;
      for k := 0 to |chunk|
        invariant local == created + CreatedMap(after, chunk[..k])
        invariant answer.FailsAt? ==> k <= answer.at
      {
        if answer.FailsAt? && answer.at == k {
          return None;
        }
        assert chunk[..k + 1][..k] == chunk[..k];
        local := local[rows[chunk[k]].rowNumber := ids[k]];
      }
      assert chunk[..|chunk|] == chunk;
      return Some(local);
    }

    /** The IMPORT entries of a chunk, each row's confirmation resolved against everything created so far. */
    method BuildLog(rows: seq<WorkRow>, chunk: seq<nat>, ids: seq<Identity>, created: map<nat, Identity>,
                    ghost after: seq<WorkRow>)
      returns (log: seq<ImportEntry>)
      requires Chunked(rows, chunk, ids, after)
      ensures log == TrailOf(after, chunk, created)
    {
      log := [];
      for k := 0 to |chunk|
        invariant log == TrailOf(after, chunk[..k], created)
      {
        assert chunk[..k + 1][..k] == chunk[..k];
        var row := rows[chunk[k]];
        log := log + [ImportEntry(ids[k], row.create.value,
                                  ResolveDuplicateConfirmation(row.duplicateCandidates, created))];
      }
      assert chunk[..|chunk|] == chunk;
    }

    /** One transaction: nothing is kept unless every statement of it succeeds. */
    method Attempt(rows: seq<WorkRow>, chunk: seq<nat>, ids: seq<Identity>, created: map<nat, Identity>,
                   answer: Answer, ghost after: seq<WorkRow>)
      returns (entries: Option<seq<ImportEntry>>)
      requires Chunked(rows, chunk, ids, after)
      ensures entries.Some? <==> answer == Commits
      ensures entries.Some? ==> entries.value == TrailOf(after, chunk, created + CreatedMap(after, chunk))
    {
      var localCreated := CreateActors(rows, chunk, ids, created, answer, after);
      if localCreated.None? || answer != Commits {
        return None;
      }
      var log := BuildLog(rows, chunk, ids, localCreated.value, after);
      return Some(log);
    }

    /** After the commit: the rows take their identities and the created map grows. */
    method KeepChunk(rows: array<WorkRow>, chunk: seq<nat>, ids: seq<Identity>, entries: seq<ImportEntry>,
                     created: map<nat, Identity>)
      returns (createdAfter: map<nat, Identity>)
      requires |ids| == |chunk| && forall k | 0 <= k < |chunk| :: chunk[k] < rows.Length && rows[chunk[k]].create.Some?
      requires forall j, k | 0 <= j < k < |chunk| :: chunk[j] != chunk[k]
      modifies rows, this`trail
      ensures rows[..] == ChunkRows(old(rows[..]), chunk, Some(ids))
      ensures trail == old(trail) + entries
      ensures createdAfter == created + CreatedMap(rows[..], chunk)
    {
      ChunkRowsAt(rows[..], chunk, Some(ids));
      trail := trail + entries;
      ghost var after := ChunkRows(rows[..], chunk, Some(ids));
      WriteBack(rows, chunk, ids);
      assert forall k | 0 <= k < |chunk| :: rows[..][chunk[k]] == after[chunk[k]];
      createdAfter := MarkCreated(rows, chunk, ids, created);
    }

    /** One attempt at a chunk that got its numbers: created, logged and kept, or nothing kept but the numbers' use. */
    method TryChunk(rows: array<WorkRow>, chunk: seq<nat>, created: map<nat, Identity>, env: Environment, start: nat,
                    attempt: nat)
      returns (createdAfter: map<nat, Identity>, ids: Option<seq<Identity>>)
      requires sequences.Valid() && env.answer(start, attempt) != NoNumbers
      requires IsChunk(rows[..], chunk)
      modifies rows, this`trail, sequences
      ensures sequences.Valid() && old(sequences.calls) <= sequences.calls
      ensures sequences.calls == old(sequences.calls) + [Allocation(env.yearAt(start), |chunk|)]
      ensures ids.Some? <==> env.answer(start, attempt) == Commits
      ensures ids.Some? ==> FromAttempt(ids.value, env, start, attempt, sequences.calls, |old(sequences.calls)|)
      ensures AllOrNothing(old(rows[..]), rows[..], chunk, ids, created, createdAfter, old(trail), trail)
    {
      createdAfter, ids := created, None;
      var traderIds := sequences.AllocateTraderIds(env.yearAt(start), |chunk|);
      var found := Identities(env, start, attempt, traderIds);
      ghost var after := ChunkRows(rows[..], chunk, Some(found));
      ChunkRowsAt(rows[..], chunk, Some(found));
      var entries := Attempt(rows[..], chunk, found, created, env.answer(start, attempt), after);
      if entries.Some? {
        ids := Some(found);
        createdAfter := KeepChunk(rows, chunk, found, entries.value, created);
      }
    }

    /** Allocate, try, and on a collision try again, at most three times; on anything else stop. */
    method TryRepeatedly(rows: array<WorkRow>, chunk: seq<nat>, created: map<nat, Identity>, env: Environment, start: nat)
      returns (createdAfter: map<nat, Identity>, ids: Option<seq<Identity>>)
      requires sequences.Valid()
      requires IsChunk(rows[..], chunk)
      modifies rows, this`trail, sequences
      ensures sequences.Valid() && old(sequences.calls) <= sequences.calls
      ensures |sequences.calls| == |old(sequences.calls)| + AttemptsMade(env, start, 1)
      ensures FromCommittingAttempt(ids, env, start, sequences.calls, |old(sequences.calls)|)
      ensures AllOrNothing(old(rows[..]), rows[..], chunk, ids, created, createdAfter, old(trail), trail)
    {
      createdAfter, ids := created, None;
      var attempt := 1;
      while attempt <= MAX_TRADER_ID_ALLOCATION_ATTEMPTS
        invariant 1 <= attempt <= MAX_TRADER_ID_ALLOCATION_ATTEMPTS
        invariant sequences.Valid() && old(sequences.calls) <= sequences.calls
        invariant |sequences.calls| == |old(sequences.calls)| + attempt - 1
        invariant AllOrNothing(old(rows[..]), rows[..], chunk, ids, created, createdAfter, old(trail), trail)
        invariant ids.None? && rows[..] == old(rows[..]) && trail == old(trail)
        invariant StillTrying(env, start, attempt)
      {
        AnswerDecides(env, start, attempt);
        var answer := env.answer(start, attempt);
        if answer == NoNumbers {
          return;
        }
        createdAfter, ids := TryChunk(rows, chunk, created, env, start, attempt);
        if ids.Some? || !answer.collision || attempt == MAX_TRADER_ID_ALLOCATION_ATTEMPTS {
          return;
        }
        attempt := attempt + 1;
      }
    }

    /**
     * Either the whole chunk is created and logged by its committing attempt, or it fails whole and
     * leaves no entry; numbers already taken stay taken.
     */
    method CommitChunk(rows: array<WorkRow>, chunk: seq<nat>, created: map<nat, Identity>, env: Environment, start: nat)
      returns (createdAfter: map<nat, Identity>, ids: Option<seq<Identity>>)
      requires sequences.Valid()
      requires IsChunk(rows[..], chunk)
      modifies rows, this`trail, sequences
      ensures sequences.Valid() && old(sequences.calls) <= sequences.calls
      ensures |sequences.calls| == |old(sequences.calls)| + AttemptsMade(env, start, 1)
      ensures ids.Some? ==> |ids.value| == |chunk|
      ensures FromCommittingAttempt(ids, env, start, sequences.calls, |old(sequences.calls)|)
      ensures rows[..] == ChunkRows(old(rows[..]), chunk, ids)
      ensures ids.Some? ==> createdAfter == created + CreatedMap(rows[..], chunk)
                            && trail == old(trail) + TrailOf(rows[..], chunk, createdAfter)
      ensures ids.None? ==> createdAfter == created && trail == old(trail)
    {
      createdAfter, ids := TryRepeatedly(rows, chunk, created, env, start);
      if ids.None? {
        FailAll(rows, chunk);
      }
    }

    method WriteBack(rows: array<WorkRow>, chunk: seq<nat>, ids: seq<Identity>)
      requires |ids| == |chunk| && forall k | 0 <= k < |chunk| :: chunk[k] < rows.Length
      requires forall j, k | 0 <= j < k < |chunk| :: chunk[j] != chunk[k]
      modifies rows
      ensures rows[..] == ChunkRows(old(rows[..]), chunk, Some(ids))
    {
      ghost var was := rows[..];
      for k := 0 to |chunk|
        invariant rows[..] == ChunkRows(was, chunk[..k], Some(ids[..k]))
      {
        assert chunk[..k + 1][..k] == chunk[..k] && ids[..k + 1][..k] == ids[..k];
        ChunkRowsAt(was, chunk[..k], Some(ids[..k]));
        assert rows[chunk[k]] == rows[..][chunk[k]] == was[chunk[k]];
        rows[chunk[k]] := CommittedRow(rows[chunk[k]], ids[k]);
      }
      assert chunk[..|chunk|] == chunk && ids[..|ids|] == ids;
    }

    method FailAll(rows: array<WorkRow>, chunk: seq<nat>)
      requires forall k | 0 <= k < |chunk| :: chunk[k] < rows.Length
      requires forall j, k | 0 <= j < k < |chunk| :: chunk[j] != chunk[k]
      modifies rows
      ensures rows[..] == ChunkRows(old(rows[..]), chunk, None)
    {
      ghost var was := rows[..];
      for k := 0 to |chunk|
        invariant rows[..] == ChunkRows(was, chunk[..k], None)
      {
        assert chunk[..k + 1][..k] == chunk[..k];
        ChunkRowsAt(was, chunk[..k], None);
        assert rows[chunk[k]] == rows[..][chunk[k]] == was[chunk[k]];
        rows[chunk[k]] := RolledBackRow(rows[chunk[k]]);
      }
      assert chunk[..|chunk|] == chunk;
    }

    method MarkCreated(rows: array<WorkRow>, chunk: seq<nat>, ids: seq<Identity>, created: map<nat, Identity>)
      returns (r: map<nat, Identity>)
      requires |ids| == |chunk|
      requires forall k | 0 <= k < |chunk| ::
                 chunk[k] < rows.Length && IsCommitted(rows[chunk[k]]) && IdentityOf(rows[chunk[k]]) == ids[k]
      ensures r == created + CreatedMap(rows[..], chunk)
    {
      r := created;
      for k := 0 to |chunk|
        invariant r == created + CreatedMap(rows[..], chunk[..k])
      {
        assert chunk[..k + 1][..k] == chunk[..k];
        r := r[rows[chunk[k]].rowNumber := ids[k]];
      }
      assert chunk[..|chunk|] == chunk;
    }

    /**
     * The whole phase: the candidates in row order, a hundred at a time. Every candidate ends
     * created or rolled back as its chunk did, under the identity of its chunk's committing attempt;
     * no other row changes; and the trail grows by exactly one entry for every created row, each
     * confirmation resolved against the rows this import created.
     */
    method Commit(rows: array<WorkRow>, env: Environment)
      requires sequences.Valid()
      requires RowNumbersIncrease(rows[..])
      requires forall i | 0 <= i < rows.Length :: rows[i].state == CandidateRow ==> Ready(rows[i])
      requires forall i | 0 <= i < rows.Length :: rows[i].state != Created
      modifies rows, this`trail, sequences
      ensures sequences.Valid() && old(sequences.calls) <= sequences.calls
      ensures Progress(old(rows[..]), rows[..], rows.Length)
      ensures var picks := Candidates(old(rows[..]));
              ChunkFates(env, rows[..], picks, |picks|, sequences.calls, |old(sequences.calls)|)
      ensures var picks := Candidates(old(rows[..]));
              trail == old(trail) + TrailOf(rows[..], picks, CreatedMap(rows[..], picks))
      ensures IdsAreNew(rows[..], sequences.calls, |old(sequences.calls)|)
    {
      var candidates := Candidates(rows[..]);
      ghost var was := rows[..];
      StartOfCommit(env, was, trail, sequences.calls, |sequences.calls|);
      var created := map[];
      var i := 0;
      while i < |candidates|
        invariant 0 <= i <= |candidates|
        invariant sequences.Valid() && old(sequences.calls) <= sequences.calls
        invariant SoFar(env, was, rows[..], candidates, i, created, old(trail), trail, sequences.calls,
                        |old(sequences.calls)|)
        invariant StartsChunk(i) || i == |candidates|
      {
        var end := if i + COMMIT_CHUNK_SIZE < |candidates| then i + COMMIT_CHUNK_SIZE else |candidates|;
        WholeChunks(i, end);
        created := CommitSlice(rows, env, was, candidates, i, end, created, |old(sequences.calls)|, old(trail));
        i := end;
      }
      EndOfCommit(env, was, rows[..], candidates, created, old(trail), trail, sequences.calls, |old(sequences.calls)|);
    }

    /** One slice of the candidates, as a step of the whole phase. */
    method CommitSlice(rows: array<WorkRow>, env: Environment, ghost was: seq<WorkRow>, candidates: seq<nat>, i: nat,
                       end: nat, created: map<nat, Identity>, ghost from: nat, ghost base: seq<ImportEntry>)
      returns (createdAfter: map<nat, Identity>)
      requires sequences.Valid() && from <= |sequences.calls|
      requires RowNumbersIncrease(was) && i < end <= |candidates|
      requires StartsChunk(i)
      requires end == i + COMMIT_CHUNK_SIZE || (end < i + COMMIT_CHUNK_SIZE && end == |candidates|)
      requires SoFar(env, was, rows[..], candidates, i, created, base, trail, sequences.calls, from)
      modifies rows, this`trail, sequences
      ensures sequences.Valid() && old(sequences.calls) <= sequences.calls
      ensures SoFar(env, was, rows[..], candidates, end, createdAfter, base, trail, sequences.calls, from)
    {
      var chunk := candidates[i..end];
      ghost var here, callsHere, trailHere := rows[..], sequences.calls, trail;
      SliceIsDistinct(was, candidates, i, end);
      assert forall k | 0 <= k < |chunk| :: here[chunk[k]] == was[candidates[i + k]];
      var ids;
      createdAfter, ids := CommitChunk(rows, chunk, created, env, i);
      SliceStep(env, was, here, candidates, i, end, ids, created, createdAfter, base, trailHere, trail, callsHere,
                sequences.calls, from);
    }
  }
}

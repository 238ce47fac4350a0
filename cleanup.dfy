/**
 * FileCleanupService (apps/tasks/cleanup.py): the sweep that soft-deletes
 * expired, used-up and old files in batches, credits their owners' quotas and
 * keeps statistics, and the pass that notifies owners of files about to expire.
 *
 * The database table is the sequence of FileUpload objects in query order.
 * What the S3 delete returns, and where a file's processing raises, are an
 * oracle indexed by table row; so is whether sending a notification raises.
 */
module Cleanup {
  import opened Core
  import opened Settings
  import opened Users
  import opened Files

  // ------------------------------------------------------------- the table

  function Rows(table: seq<FileUpload>): (rows: seq<FileRecord>)
    reads table
    ensures |rows| == |table|
    ensures forall i :: 0 <= i < |table| ==> rows[i] == table[i].Record()
  {
    if table == [] then [] else Rows(table[..|table| - 1]) + [table[|table| - 1].Record()]
  }

  /** The owners of the table's files. */
  function Owners(table: seq<FileUpload>): set<User> {
    set i | 0 <= i < |table| :: table[i].owner
  }

  predicate Distinct(table: seq<FileUpload>) {
    forall i, j :: 0 <= i < j < |table| ==> table[i] != table[j]
  }

  // ------------------------------------------------------------- selection

  /** now - MAX_FILE_AGE_DAYS days. */
  function AgeThreshold(now: Time): Time {
    now - MaxFileAgeDays * SecondsPerDay
  }

  /** The cleanup query's filter: not deleted, and expired, used up or too old. */
  predicate Selectable(r: FileRecord, now: Time, ageThreshold: Time) {
    !r.isDeleted && (r.expiresAt < now || r.currentViews >= r.maxViews || r.createdAt < ageThreshold)
  }

  /** The indices of the selectable rows, in table order. */
  function Selected(rows: seq<FileRecord>, now: Time, ageThreshold: Time): (idx: seq<nat>)
    ensures forall k :: 0 <= k < |idx| ==> idx[k] < |rows| && Selectable(rows[idx[k]], now, ageThreshold)
    ensures forall i :: 0 <= i < |rows| && Selectable(rows[i], now, ageThreshold) ==> i in idx
    ensures forall k, l :: 0 <= k < l < |idx| ==> idx[k] < idx[l]
  {
    if rows == [] then []
    else
      var front := Selected(rows[..|rows| - 1], now, ageThreshold);
      assert forall k :: 0 <= k < |front| ==> rows[..|rows| - 1][front[k]] == rows[front[k]];
      if Selectable(rows[|rows| - 1], now, ageThreshold) then front + [|rows| - 1] else front
  }

  /** The slice `[:batch_size]`. */
  function Take(s: seq<nat>, n: nat): (t: seq<nat>)
    ensures |t| <= n && |t| <= |s| && t == s[..|t|]
    ensures |t| < n ==> t == s
  {
    if |s| <= n then s else s[..n]
  }

  /** The batch one run processes: the first batch_size selectable rows. */
  function SelectBatch(rows: seq<FileRecord>, now: Time, ageThreshold: Time, batchSize: nat): seq<nat> {
    Take(Selected(rows, now, ageThreshold), batchSize)
  }

  /**
   * A batch holds at most batch_size rows, only selectable ones, each once and
   * in table order; a batch smaller than batch_size holds every selectable row.
   */
  lemma BatchIsBoundedSelection(rows: seq<FileRecord>, now: Time, ageThreshold: Time, batchSize: nat)
    ensures var b := SelectBatch(rows, now, ageThreshold, batchSize);
            && |b| <= batchSize
            && (forall k :: 0 <= k < |b| ==> b[k] < |rows| && Selectable(rows[b[k]], now, ageThreshold))
            && (forall k, l :: 0 <= k < l < |b| ==> b[k] < b[l])
            && (|b| < batchSize ==> forall i :: 0 <= i < |rows| && Selectable(rows[i], now, ageThreshold) ==> i in b)
  {
    var s := Selected(rows, now, ageThreshold);
    var b := Take(s, batchSize);
    assert forall k :: 0 <= k < |b| ==> b[k] == s[k];
  }

  // ------------------------------------------------------------ the reason

  datatype Reason = ByExpiry | ByViews | ByAge | Unclassified

  /** The reason a processed file is counted under: expiry first, then the view limit, then age. */
  function ReasonFor(r: FileRecord, now: Time, ageThreshold: Time): Reason {
    if r.expiresAt < now then ByExpiry
    else if r.currentViews >= r.maxViews then ByViews
    else if r.createdAt < ageThreshold then ByAge
    else Unclassified
  }

  /**
   * Every row the query selects gets one of the three reasons, and a reason is
   * given only to a row that meets its own condition and none of the earlier ones.
   */
  lemma SelectedRowsAreClassified(r: FileRecord, now: Time, ageThreshold: Time)
    ensures !r.isDeleted ==> (Selectable(r, now, ageThreshold) <==> ReasonFor(r, now, ageThreshold) != Unclassified)
    ensures ReasonFor(r, now, ageThreshold) == ByViews ==> r.expiresAt >= now && r.currentViews >= r.maxViews
    ensures ReasonFor(r, now, ageThreshold) == ByAge ==>
              r.expiresAt >= now && r.currentViews < r.maxViews && r.createdAt < ageThreshold
  {
  }

  // ------------------------------------------------------------ the oracle

  /** Where processing a file raises, if anywhere. */
  datatype Fault = NoFault | RaisesAtS3Delete | RaisesAtStorageUpdate | RaisesAtSoftDelete

  /** What the S3 delete returned, and where the processing raised. */
  datatype DeleteOutcome = DeleteOutcome(s3Deleted: bool, fault: Fault)

  type CleanupOracle = nat -> DeleteOutcome

  /** The S3 delete returned and reported success. */
  predicate FreedInS3(d: DeleteOutcome) {
    d.fault != RaisesAtS3Delete && d.s3Deleted
  }

  /** The owner's storage_used was reduced. */
  predicate Credited(d: DeleteOutcome) {
    d.fault == NoFault || d.fault == RaisesAtSoftDelete
  }

  // ------------------------------------------------------------- the stats

  datatype Stats = Stats(totalProcessed: nat, deletedFromDb: nat, deletedFromS3: nat, failed: nat,
                         storageFreed: int, deletedByExpiry: nat, deletedByViews: nat, deletedByAge: nat)

  const NoStats: Stats := Stats(0, 0, 0, 0, 0, 0, 0, 0)

  /** The first half of a step: the file is counted as processed and under its reason. */
  function Classify(st: Stats, reason: Reason): Stats {
    st.(totalProcessed := st.totalProcessed + 1,
        deletedByExpiry := st.deletedByExpiry + (if reason == ByExpiry then 1 else 0),
        deletedByViews := st.deletedByViews + (if reason == ByViews then 1 else 0),
        deletedByAge := st.deletedByAge + (if reason == ByAge then 1 else 0))
  }

  /** The second half: the S3 counters when the delete succeeded, then deleted or failed. */
  function Settle(st: Stats, size: int, d: DeleteOutcome): Stats {
    var freed := if FreedInS3(d)
                 then st.(deletedFromS3 := st.deletedFromS3 + 1, storageFreed := st.storageFreed + size)
                 else st;
    if d.fault == NoFault then freed.(deletedFromDb := freed.deletedFromDb + 1) else freed.(failed := freed.failed + 1)
  }

  /** The counters after one file of the loop. */
  function Step(st: Stats, r: FileRecord, now: Time, ageThreshold: Time, d: DeleteOutcome): Stats {
    Settle(Classify(st, ReasonFor(r, now, ageThreshold)), r.fileSize, d)
  }

  /** What one step adds to each counter. */
  lemma StepCounts(st: Stats, r: FileRecord, now: Time, ageThreshold: Time, d: DeleteOutcome)
    ensures Step(st, r, now, ageThreshold, d).totalProcessed == st.totalProcessed + 1
    ensures Step(st, r, now, ageThreshold, d).deletedFromDb + Step(st, r, now, ageThreshold, d).failed == st.deletedFromDb + st.failed + 1
    ensures Step(st, r, now, ageThreshold, d).deletedFromDb == st.deletedFromDb + (if d.fault == NoFault then 1 else 0)
    ensures Step(st, r, now, ageThreshold, d).deletedFromS3 == st.deletedFromS3 + (if FreedInS3(d) then 1 else 0)
    ensures Step(st, r, now, ageThreshold, d).storageFreed == st.storageFreed + (if FreedInS3(d) then r.fileSize else 0)
    ensures Step(st, r, now, ageThreshold, d).deletedByExpiry + Step(st, r, now, ageThreshold, d).deletedByViews + Step(st, r, now, ageThreshold, d).deletedByAge
            == st.deletedByExpiry + st.deletedByViews + st.deletedByAge
               + (if ReasonFor(r, now, ageThreshold) == Unclassified then 0 else 1)
  {
  }

  /** Processing one more row is one more Step. */
  lemma StatsOfStep(rows: seq<FileRecord>, idx: seq<nat>, i: nat, now: Time, ageThreshold: Time, oracle: CleanupOracle)
    requires ValidIndices(rows, idx) && i < |rows|
    ensures ValidIndices(rows, idx + [i])
    ensures StatsOf(rows, idx + [i], now, ageThreshold, oracle)
            == Step(StatsOf(rows, idx, now, ageThreshold, oracle), rows[i], now, ageThreshold, oracle(i))
  {
    assert (idx + [i])[..|idx|] == idx;
  }

  predicate ValidIndices(rows: seq<FileRecord>, idx: seq<nat>) {
    forall k :: 0 <= k < |idx| ==> idx[k] < |rows|
  }

  /** The stats after processing the rows `idx`, in order. */
  function StatsOf(rows: seq<FileRecord>, idx: seq<nat>, now: Time, ageThreshold: Time, oracle: CleanupOracle): Stats
    requires ValidIndices(rows, idx)
  {
    if idx == [] then NoStats
    else
      var i := idx[|idx| - 1];
      Step(StatsOf(rows, idx[..|idx| - 1], now, ageThreshold, oracle), rows[i], now, ageThreshold, oracle(i))
  }

  /** The bytes whose S3 delete succeeded, among the rows `idx`. */
  function FreedBytes(rows: seq<FileRecord>, idx: seq<nat>, oracle: CleanupOracle): int
    requires ValidIndices(rows, idx)
  {
    if idx == [] then 0
    else
      var i := idx[|idx| - 1];
      FreedBytes(rows, idx[..|idx| - 1], oracle) + (if FreedInS3(oracle(i)) then rows[i].fileSize else 0)
  }

  /**
   * The conservation laws of the stats: every processed file is counted once,
   * as deleted or as failed, and (when all were selectable) under exactly one
   * reason; storage_freed is the size of the files S3 confirmed deleting.
   */
  lemma {:induction false} StatsConservation(rows: seq<FileRecord>, idx: seq<nat>, now: Time, ageThreshold: Time,
                                             oracle: CleanupOracle)
    requires ValidIndices(rows, idx)
    ensures var st := StatsOf(rows, idx, now, ageThreshold, oracle);
            && st.totalProcessed == |idx|
            && st.totalProcessed == st.deletedFromDb + st.failed
            && st.deletedFromS3 <= st.totalProcessed
            && st.storageFreed == FreedBytes(rows, idx, oracle)
            && ((forall k :: 0 <= k < |idx| ==> Selectable(rows[idx[k]], now, ageThreshold)) ==>
                  st.deletedByExpiry + st.deletedByViews + st.deletedByAge == st.totalProcessed)
  {
    if idx != [] {
      var front := idx[..|idx| - 1];
      SelectedRowsAreClassified(rows[idx[|idx| - 1]], now, ageThreshold);
      StatsConservation(rows, front, now, ageThreshold, oracle);
      StepCounts(StatsOf(rows, front, now, ageThreshold, oracle), rows[idx[|idx| - 1]], now, ageThreshold, oracle(idx[|idx| - 1]));
    }
  }

  /** A run in which nothing raises deletes every file of its batch. */
  lemma {:induction false} FaultlessRunDeletesAll(rows: seq<FileRecord>, idx: seq<nat>, now: Time, ageThreshold: Time,
                                                  oracle: CleanupOracle)
    requires ValidIndices(rows, idx)
    requires forall k :: 0 <= k < |idx| ==> oracle(idx[k]).fault == NoFault
    ensures StatsOf(rows, idx, now, ageThreshold, oracle).deletedFromDb == |idx|
    ensures StatsOf(rows, idx, now, ageThreshold, oracle).failed == 0
  {
    if idx != [] {
      var front := idx[..|idx| - 1];
      StatsConservation(rows, idx, now, ageThreshold, oracle);
      FaultlessRunDeletesAll(rows, front, now, ageThreshold, oracle);
      StepCounts(StatsOf(rows, front, now, ageThreshold, oracle), rows[idx[|idx| - 1]], now, ageThreshold, oracle(idx[|idx| - 1]));
    }
  }

  // --------------------------------------------------------- the new state

  /** A row after the run: soft-deleted when it was processed without a fault, otherwise as it was. */
  function AfterCleanup(r: FileRecord, processed: bool, d: DeleteOutcome, now: Time): FileRecord {
    if processed && d.fault == NoFault then r.(isDeleted := true, deletedAt := Some(now), updatedAt := now) else r
  }

  /** What the rows `idx` took off `u`'s storage_used. */
  function Credit(table: seq<FileUpload>, idx: seq<nat>, oracle: CleanupOracle, u: User): int
    requires forall k :: 0 <= k < |idx| ==> idx[k] < |table|
  {
    if idx == [] then 0
    else
      var i := idx[|idx| - 1];
      Credit(table, idx[..|idx| - 1], oracle, u) + (if table[i].owner == u && Credited(oracle(i)) then table[i].fileSize else 0)
  }

  /** Whether any of the rows `idx` saved `u`: one of them is `u`'s and was credited. */
  predicate Touched(table: seq<FileUpload>, idx: seq<nat>, oracle: CleanupOracle, u: User)
    requires forall k :: 0 <= k < |idx| ==> idx[k] < |table|
  {
    idx != [] && (Touched(table, idx[..|idx| - 1], oracle, u)
                  || (table[idx[|idx| - 1]].owner == u && Credited(oracle(idx[|idx| - 1]))))
  }

  /** Growing a prefix of a strictly increasing sequence by one adds an element not seen before. */
  lemma PrefixStep(s: seq<nat>, k: nat)
    requires k < |s|
    requires forall a, b :: 0 <= a < b < |s| ==> s[a] < s[b]
    ensures s[..k + 1] == s[..k] + [s[k]]
    ensures s[..k + 1][..k] == s[..k]
    ensures s[k] !in s[..k]
  {
    assert forall a :: 0 <= a < k ==> s[..k][a] == s[a];
  }

  /** The reason branches at the top of the loop body. */
  method CountReason(f: FileUpload, now: Time, ageThreshold: Time, st: Stats) returns (st': Stats)
    ensures st' == Classify(st, ReasonFor(f.Record(), now, ageThreshold))
  {
    st' := st.(totalProcessed := st.totalProcessed + 1);
    if f.expiresAt < now {
      st' := st'.(deletedByExpiry := st'.deletedByExpiry + 1);
    } else if f.currentViews >= f.maxViews {
      st' := st'.(deletedByViews := st'.deletedByViews + 1);
    } else if f.createdAt < ageThreshold {
      st' := st'.(deletedByAge := st'.deletedByAge + 1);
    }
  }

  /**
   * The try block of the loop body: the S3 delete, the owner's storage
   * update, the soft delete, each of which may raise as the oracle says.
   */
  method DeleteOne(f: FileUpload, d: DeleteOutcome, now: Time, st: Stats) returns (st': Stats)
    modifies f, f.owner
    ensures st' == Settle(st, f.fileSize, d)
    ensures f.Record() == AfterCleanup(old(f.Record()), true, d, now)
    ensures f.owner.storageUsed == old(f.owner.storageUsed) - (if Credited(d) then f.fileSize else 0)
    ensures f.owner.storageQuota == old(f.owner.storageQuota)
    ensures f.owner.updatedAt == if Credited(d) then now else old(f.owner.updatedAt)
  {
    st' := st;
    if d.fault == RaisesAtS3Delete {
      return st'.(failed := st'.failed + 1);
    }
    if d.s3Deleted {
      st' := st'.(deletedFromS3 := st'.deletedFromS3 + 1, storageFreed := st'.storageFreed + f.fileSize);
    }
    if d.fault == RaisesAtStorageUpdate {
      return st'.(failed := st'.failed + 1);
    }
    f.owner.UpdateStorageUsed(-f.fileSize, now);
    if d.fault == RaisesAtSoftDelete {
      return st'.(failed := st'.failed + 1);
    }
    f.SoftDelete(now);
    st' := st'.(deletedFromDb := st'.deletedFromDb + 1);
  }

  /** One pass of the loop body, with the faults the oracle names. */
  method ProcessOne(f: FileUpload, d: DeleteOutcome, now: Time, ageThreshold: Time, st: Stats) returns (st': Stats)
    modifies f, f.owner
    ensures st' == Step(st, old(f.Record()), now, ageThreshold, d)
    ensures f.Record() == AfterCleanup(old(f.Record()), true, d, now)
    ensures f.owner.storageUsed == old(f.owner.storageUsed) - (if Credited(d) then f.fileSize else 0)
    ensures f.owner.storageQuota == old(f.owner.storageQuota)
    ensures f.owner.updatedAt == if Credited(d) then now else old(f.owner.updatedAt)
  {
    st' := CountReason(f, now, ageThreshold, st);
    st' := DeleteOne(f, d, now, st');
  }

  /** The storage columns of a user. */
  datatype OwnerColumns = OwnerColumns(storageUsed: int, storageQuota: int, updatedAt: Time)

  /** The columns of every owner in the table. */
  function ColumnsOf(table: seq<FileUpload>): (m: map<User, OwnerColumns>)
    reads Owners(table)
    ensures m.Keys == Owners(table)
    ensures forall u :: u in Owners(table) ==> m[u] == OwnerColumns(u.storageUsed, u.storageQuota, u.updatedAt)
  {
    map u | u in Owners(table) :: OwnerColumns(u.storageUsed, u.storageQuota, u.updatedAt)
  }

  /** The rows after processing the rows `idx`: each of them as AfterCleanup leaves it. */
  function Processed(rows: seq<FileRecord>, idx: seq<nat>, oracle: CleanupOracle, now: Time): (p: seq<FileRecord>)
    requires ValidIndices(rows, idx)
    ensures |p| == |rows|
  {
    if idx == [] then rows
    else
      var i := idx[|idx| - 1];
      Processed(rows, idx[..|idx| - 1], oracle, now)[i := AfterCleanup(rows[i], true, oracle(i), now)]
  }

  /** A row is changed exactly when it was processed without a fault, and then soft-deleted. */
  lemma {:induction false} ProcessedAt(rows: seq<FileRecord>, idx: seq<nat>, oracle: CleanupOracle, now: Time, j: nat)
    requires ValidIndices(rows, idx) && j < |rows|
    ensures Processed(rows, idx, oracle, now)[j] == AfterCleanup(rows[j], j in idx, oracle(j), now)
  {
    if idx != [] {
      var front := idx[..|idx| - 1];
      ProcessedAt(rows, front, oracle, now, j);
      assert j in idx <==> j in front || j == idx[|idx| - 1] by {
        assert idx == front + [idx[|idx| - 1]];
      }
    }
  }

  /** An owner's columns after one processed file of theirs: credited and saved when Credited. */
  function SettleOwner(c: OwnerColumns, size: int, d: DeleteOutcome, now: Time): OwnerColumns {
    if Credited(d) then c.(storageUsed := c.storageUsed - size, updatedAt := now) else c
  }

  /** The owners' columns after processing the rows `idx`, starting from `cols0`. */
  function Expected(table: seq<FileUpload>, idx: seq<nat>, oracle: CleanupOracle, cols0: map<User, OwnerColumns>, now: Time)
    : (e: map<User, OwnerColumns>)
    requires forall k :: 0 <= k < |idx| ==> idx[k] < |table|
    ensures e.Keys == cols0.Keys
  {
    if idx == [] then cols0
    else
      var i := idx[|idx| - 1];
      var e := Expected(table, idx[..|idx| - 1], oracle, cols0, now);
      var u := table[i].owner;
      if u in e then e[u := SettleOwner(e[u], table[i].fileSize, oracle(i), now)] else e
  }

  /**
   * The owner columns the loop arrives at are those the rows' credits
   * predict: storage_used less Credit, the quota as it was, updated_at set
   * once Touched.
   */
  lemma {:induction false} ExpectedIsCredit(table: seq<FileUpload>, idx: seq<nat>, oracle: CleanupOracle,
                                            cols0: map<User, OwnerColumns>, now: Time, u: User)
    requires forall k :: 0 <= k < |idx| ==> idx[k] < |table|
    requires u in cols0
    ensures u in Expected(table, idx, oracle, cols0, now)
    ensures Expected(table, idx, oracle, cols0, now)[u]
            == OwnerColumns(cols0[u].storageUsed - Credit(table, idx, oracle, u), cols0[u].storageQuota,
                            if Touched(table, idx, oracle, u) then now else cols0[u].updatedAt)
  {
    if idx != [] {
      ExpectedIsCredit(table, idx[..|idx| - 1], oracle, cols0, now, u);
    }
  }

  /** The loop body on row `i` of the table: that row changes and no other. */
  method ProcessRow(table: seq<FileUpload>, i: nat, d: DeleteOutcome, now: Time, ageThreshold: Time, st: Stats)
    returns (st': Stats)
    requires Distinct(table) && i < |table|
    modifies table[i], table[i].owner
    ensures st' == Step(st, old(table[i].Record()), now, ageThreshold, d)
    ensures Rows(table) == old(Rows(table))[i := AfterCleanup(old(table[i].Record()), true, d, now)]
    ensures table[i].owner.storageUsed == old(table[i].owner.storageUsed) - (if Credited(d) then table[i].fileSize else 0)
    ensures table[i].owner.storageQuota == old(table[i].owner.storageQuota)
    ensures table[i].owner.updatedAt == if Credited(d) then now else old(table[i].owner.updatedAt)
  {
    var f := table[i];
    ghost var rows0 := Rows(table);
    st' := ProcessOne(f, d, now, ageThreshold, st);
    forall j | 0 <= j < |table| && j != i
      ensures table[j].Record() == rows0[j]
    {
      assert table[j] != f;
    }
    RowUpdatedAt(rows0, Rows(table), i, f.Record());
  }

  /** The same, with its owner: their columns change and no other owner's. */
  method ProcessRowAndOwner(table: seq<FileUpload>, i: nat, d: DeleteOutcome, now: Time, ageThreshold: Time, st: Stats)
    returns (st': Stats)
    requires Distinct(table) && i < |table|
    modifies table[i], table[i].owner
    ensures st' == Step(st, old(table[i].Record()), now, ageThreshold, d)
    ensures Rows(table) == old(Rows(table))[i := AfterCleanup(old(table[i].Record()), true, d, now)]
    ensures ColumnsOf(table)
            == old(ColumnsOf(table))[table[i].owner := SettleOwner(old(ColumnsOf(table))[table[i].owner], table[i].fileSize, d, now)]
  {
    var u := table[i].owner;
    ghost var cols0 := ColumnsOf(table);
    assert u in Owners(table);
    st' := ProcessRow(table, i, d, now, ageThreshold, st);
    ghost var cols1 := ColumnsOf(table);
    forall v | v in cols0 && v != u
      ensures cols1[v] == cols0[v]
    {
    }
    UpdatedAt(cols0, cols1, u, SettleOwner(cols0[u], table[i].fileSize, d, now));
  }

  /** A sequence that agrees with `s0` off `i` and has `x` at `i` is `s0[i := x]`. */
  lemma RowUpdatedAt(s0: seq<FileRecord>, s1: seq<FileRecord>, i: nat, x: FileRecord)
    requires |s1| == |s0| && i < |s0| && s1[i] == x
    requires forall j :: 0 <= j < |s0| && j != i ==> s1[j] == s0[j]
    ensures s1 == s0[i := x]
  {
  }

  /** A map that agrees with `m0` off `u` and has `c` at `u` is `m0[u := c]`. */
  lemma UpdatedAt(m0: map<User, OwnerColumns>, m1: map<User, OwnerColumns>, u: User, c: OwnerColumns)
    requires m1.Keys == m0.Keys && u in m0 && m1[u] == c
    requires forall v :: v in m0 && v != u ==> m1[v] == m0[v]
    ensures m1 == m0[u := c]
  {
  }

  /** The loop body: processes the next file of the batch. */
  method Advance(table: seq<FileUpload>, ghost rows: seq<FileRecord>, batch: seq<nat>, k: nat, now: Time, thr: Time,
                 oracle: CleanupOracle, ghost cols0: map<User, OwnerColumns>, stats: Stats)
    returns (stats': Stats)
    requires Distinct(table) && |rows| == |table|
    requires k < |batch| && forall l :: 0 <= l < |batch| ==> batch[l] < |table|
    requires forall a, b :: 0 <= a < b < |batch| ==> batch[a] < batch[b]
    requires stats == StatsOf(rows, batch[..k], now, thr, oracle)
    requires Rows(table) == Processed(rows, batch[..k], oracle, now)
    requires ColumnsOf(table) == Expected(table, batch[..k], oracle, cols0, now)
    requires table[batch[k]].owner in cols0
    modifies table[batch[k]], table[batch[k]].owner
    ensures stats' == StatsOf(rows, batch[..k + 1], now, thr, oracle)
    ensures Rows(table) == Processed(rows, batch[..k + 1], oracle, now)
    ensures ColumnsOf(table) == Expected(table, batch[..k + 1], oracle, cols0, now)
  {
    var i := batch[k];
    BatchStep(table, rows, batch, k, now, thr, oracle, cols0);
    stats' := ProcessRowAndOwner(table, i, oracle(i), now, thr, stats);
  }

  /** The specification functions over one more element of the batch. */
  lemma BatchStep(table: seq<FileUpload>, rows: seq<FileRecord>, batch: seq<nat>, k: nat, now: Time, thr: Time,
                  oracle: CleanupOracle, cols0: map<User, OwnerColumns>)
    requires |rows| == |table|
    requires k < |batch| && forall l :: 0 <= l < |batch| ==> batch[l] < |table|
    requires forall a, b :: 0 <= a < b < |batch| ==> batch[a] < batch[b]
    requires table[batch[k]].owner in cols0
    ensures Processed(rows, batch[..k], oracle, now)[batch[k]] == rows[batch[k]]
    ensures Processed(rows, batch[..k + 1], oracle, now)
            == Processed(rows, batch[..k], oracle, now)[batch[k] := AfterCleanup(rows[batch[k]], true, oracle(batch[k]), now)]
    ensures StatsOf(rows, batch[..k + 1], now, thr, oracle)
            == Step(StatsOf(rows, batch[..k], now, thr, oracle), rows[batch[k]], now, thr, oracle(batch[k]))
    ensures var e := Expected(table, batch[..k], oracle, cols0, now);
            var u := table[batch[k]].owner;
            Expected(table, batch[..k + 1], oracle, cols0, now)
            == e[u := SettleOwner(e[u], table[batch[k]].fileSize, oracle(batch[k]), now)]
  {
    var i := batch[k];
    PrefixStep(batch, k);
    ProcessedAt(rows, batch[..k], oracle, now, i);
    StatsOfStep(rows, batch[..k], i, now, thr, oracle);
  }

  /** The loop over the batch. */
  method ProcessBatch(table: seq<FileUpload>, ghost rows: seq<FileRecord>, batch: seq<nat>, now: Time, thr: Time,
                      oracle: CleanupOracle, ghost cols0: map<User, OwnerColumns>)
    returns (stats: Stats)
    requires Distinct(table) && |rows| == |table|
    requires forall l :: 0 <= l < |batch| ==> batch[l] < |table|
    requires forall a, b :: 0 <= a < b < |batch| ==> batch[a] < batch[b]
    requires Rows(table) == rows && ColumnsOf(table) == cols0
    modifies table
    modifies Owners(table)
    ensures stats == StatsOf(rows, batch, now, thr, oracle)
    ensures Rows(table) == Processed(rows, batch, oracle, now)
    ensures ColumnsOf(table) == Expected(table, batch, oracle, cols0, now)
  {
    stats := NoStats;
    var k := 0;
    assert batch[..0] == [];
    while k < |batch|
      invariant 0 <= k <= |batch|
      invariant stats == StatsOf(rows, batch[..k], now, thr, oracle)
      invariant Rows(table) == Processed(rows, batch[..k], oracle, now)
      invariant ColumnsOf(table) == Expected(table, batch[..k], oracle, cols0, now)
    {
      assert table[batch[k]] in table;
      assert table[batch[k]].owner in Owners(table);
      assert table[batch[k]].owner in cols0;
      stats := Advance(table, rows, batch, k, now, thr, oracle, cols0, stats);
      k := k + 1;
    }
    assert batch[..k] == batch;
  }

  /**
   * cleanup_expired_files: processes the batch in order; returns the stats of
   * StatsOf, leaves every file soft-deleted that was processed without a
   * fault and every other row unchanged, and takes off each owner's
   * storage_used the sizes of that owner's credited files.
   */
  method CleanupExpiredFiles(table: seq<FileUpload>, now: Time, oracle: CleanupOracle) returns (stats: Stats)
    requires Distinct(table)
    modifies table
    modifies Owners(table)
    ensures var thr := AgeThreshold(now);
            var batch := SelectBatch(old(Rows(table)), now, thr, CleanupBatchSize);
            && stats == StatsOf(old(Rows(table)), batch, now, thr, oracle)
            && (forall i :: 0 <= i < |table| ==>
                  table[i].Record() == AfterCleanup(old(table[i].Record()), i in batch, oracle(i), now))
            && (forall u :: u in Owners(table) ==>
                  && u.storageUsed == old(u.storageUsed) - Credit(table, batch, oracle, u)
                  && u.storageQuota == old(u.storageQuota)
                  && u.updatedAt == if Touched(table, batch, oracle, u) then now else old(u.updatedAt))
  {
    var thr := AgeThreshold(now);
    ghost var rows := Rows(table);
    ghost var cols0 := ColumnsOf(table);
    var batch := SelectBatch(Rows(table), now, thr, CleanupBatchSize);
    BatchIsBoundedSelection(rows, now, thr, CleanupBatchSize);
    stats := ProcessBatch(table, rows, batch, now, thr, oracle, cols0);
    forall i | 0 <= i < |table|
      ensures table[i].Record() == AfterCleanup(rows[i], i in batch, oracle(i), now)
    {
      ProcessedAt(rows, batch, oracle, now, i);
    }
    forall u | u in Owners(table)
      ensures u.storageUsed == cols0[u].storageUsed - Credit(table, batch, oracle, u)
      ensures u.storageQuota == cols0[u].storageQuota
      ensures u.updatedAt == if Touched(table, batch, oracle, u) then now else cols0[u].updatedAt
    {
      ExpectedIsCredit(table, batch, oracle, cols0, now, u);
    }
  }

  // ------------------------------------- successive runs on one row

  /**
   * One run's effect on a single row and its owner's columns, as written: a
   * selectable row is processed with outcome `d` (AfterCleanup and
   * SettleOwner), any other row is left alone.
   */
  function RunOnRow(r: FileRecord, c: OwnerColumns, d: DeleteOutcome, now: Time): (FileRecord, OwnerColumns) {
    if Selectable(r, now, AgeThreshold(now)) then (AfterCleanup(r, true, d, now), SettleOwner(c, r.fileSize, d, now))
    else (r, c)
  }

  /**
   * As written, the owner's storage_used is saved before soft_delete runs,
   * and nothing undoes it when soft_delete raises. The row stays undeleted,
   * so the next run selects it and refunds it again: a file refunded twice
   * and deleted once.
   */
  lemma SoftDeleteFaultRefundsTwice(r: FileRecord, c: OwnerColumns, now1: Time, now2: Time, s3First: bool, s3Second: bool)
    requires Selectable(r, now1, AgeThreshold(now1)) && now1 <= now2
    ensures var p1 := RunOnRow(r, c, DeleteOutcome(s3First, RaisesAtSoftDelete), now1);
            var p2 := RunOnRow(p1.0, p1.1, DeleteOutcome(s3Second, NoFault), now2);
            && p1.0 == r
            && p2.0.isDeleted
            && p2.1.storageUsed == c.storageUsed - 2 * r.fileSize
  {
    var p1 := RunOnRow(r, c, DeleteOutcome(s3First, RaisesAtSoftDelete), now1);
    assert Selectable(p1.0, now2, AgeThreshold(now2));
  }

  /**
   * The evidently intended refund: the storage update and the soft delete
   * take effect together or not at all (as inside one transaction), so only
   * a faultless pass credits the owner.
   */
  function SettleOwnerAtomic(c: OwnerColumns, size: int, d: DeleteOutcome, now: Time): OwnerColumns {
    if d.fault == NoFault then c.(storageUsed := c.storageUsed - size, updatedAt := now) else c
  }

  function RunOnRowAtomic(r: FileRecord, c: OwnerColumns, d: DeleteOutcome, now: Time): (FileRecord, OwnerColumns) {
    if Selectable(r, now, AgeThreshold(now)) then (AfterCleanup(r, true, d, now), SettleOwnerAtomic(c, r.fileSize, d, now))
    else (r, c)
  }

  /** Any number of runs on one row, each with its outcome and its clock. */
  function RunsAtomic(r: FileRecord, c: OwnerColumns, runs: seq<(DeleteOutcome, Time)>): (FileRecord, OwnerColumns)
    decreases |runs|
  {
    if runs == [] then (r, c)
    else
      var p := RunOnRowAtomic(r, c, runs[0].0, runs[0].1);
      RunsAtomic(p.0, p.1, runs[1..])
  }

  /**
   * With the atomic refund, however many runs see a row and wherever they
   * raise, its owner gets the file's size back exactly once if the row ends
   * soft-deleted, and never otherwise; a row already deleted is left alone.
   */
  lemma {:induction false} IntendedRefundsOnce(r: FileRecord, c: OwnerColumns, runs: seq<(DeleteOutcome, Time)>)
    ensures var p := RunsAtomic(r, c, runs);
            && c.storageUsed - p.1.storageUsed == (if p.0.isDeleted && !r.isDeleted then r.fileSize else 0)
            && p.0.fileSize == r.fileSize
            && (r.isDeleted ==> p.0 == r)
    decreases |runs|
  {
    if runs != [] {
      var p1 := RunOnRowAtomic(r, c, runs[0].0, runs[0].1);
      IntendedRefundsOnce(p1.0, p1.1, runs[1..]);
    }
  }

  // ---------------------------------------------------------- notifications

  /** The notification query: active, not deleted, and expiring within the next `hoursThreshold` hours. */
  predicate ExpiringSoon(r: FileRecord, now: Time, hoursThreshold: int) {
    now < r.expiresAt <= now + hoursThreshold * SecondsPerHour && r.isActive && !r.isDeleted
  }

  /** The number of notifications among the first rows that are selected and whose send does not raise. */
  function SentCount(rows: seq<FileRecord>, now: Time, hoursThreshold: int, raises: nat -> bool): (n: nat)
    ensures n <= |rows|
  {
    if rows == [] then 0
    else
      var i := |rows| - 1;
      SentCount(rows[..i], now, hoursThreshold, raises) + (if ExpiringSoon(rows[i], now, hoursThreshold) && !raises(i) then 1 else 0)
  }

  /** The number of rows the notification query selects. */
  function ExpiringCount(rows: seq<FileRecord>, now: Time, hoursThreshold: int): nat {
    if rows == [] then 0
    else ExpiringCount(rows[..|rows| - 1], now, hoursThreshold) + (if ExpiringSoon(rows[|rows| - 1], now, hoursThreshold) then 1 else 0)
  }

  /** Never more notifications than selected files, and all of them when no send raises. */
  lemma {:induction false} SentAtMostSelected(rows: seq<FileRecord>, now: Time, hoursThreshold: int, raises: nat -> bool)
    ensures SentCount(rows, now, hoursThreshold, raises) <= ExpiringCount(rows, now, hoursThreshold)
    ensures (forall i :: 0 <= i < |rows| ==> !raises(i)) ==>
              SentCount(rows, now, hoursThreshold, raises) == ExpiringCount(rows, now, hoursThreshold)
  {
    if rows != [] {
      SentAtMostSelected(rows[..|rows| - 1], now, hoursThreshold, raises);
    }
  }

  /** notify_expiring_files: counts the selected files whose notification was sent without raising. */
  method NotifyExpiringFiles(table: seq<FileUpload>, now: Time, hoursThreshold: int, raises: nat -> bool)
    returns (sent: nat)
    ensures sent == SentCount(Rows(table), now, hoursThreshold, raises)
  {
    ghost var rows := Rows(table);
    sent := 0;
    for i := 0 to |table|
      invariant sent == SentCount(rows[..i], now, hoursThreshold, raises)
    {
      var f := table[i];
      assert rows[..i + 1][..i] == rows[..i];
      if now < f.expiresAt && f.expiresAt <= now + hoursThreshold * SecondsPerHour && f.isActive && !f.isDeleted {
        if !raises(i) {
          sent := sent + 1;
        }
      }
    }
    assert rows[..|table|] == rows;
  }
}

/**
 * The `pekerjaan_alumni` table and the statements of
 * app/repository/pekerjaan_repository.go. Every statement is one atomic
 * conditional write (or read) whose condition sits in its `WHERE` clause;
 * each becomes one method of `JobTable`, specified by a function on the
 * table's value.
 *
 * A job record is either active (`is_deleted = FALSE`) or in the trash. The
 * join with `alumni` that `GetOwnerUserID`, `ListTrashUser` and
 * `HardDeleteUser` perform is modelled by `owners`: the `user_id` column of
 * every alumni row, keyed by alumni id, `None` where it is NULL.
 */
module JobRepository {
  import opened Common
  import Text
  import Pagination

  /** One row of `pekerjaan_alumni`. Timestamps are clock values. */
  datatype Job = Job(
    id: int,
    alumniId: int,
    namaPerusahaan: string,
    posisiJabatan: string,
    bidangIndustri: string,
    lokasiKerja: string,
    gajiRange: Option<string>,
    tanggalMulaiKerja: string,
    tanggalSelesaiKerja: Option<string>,
    statusPekerjaan: string,
    deskripsiPekerjaan: Option<string>,
    isDeleted: bool,
    deletedAt: Option<int>,
    deletedBy: Option<int>,
    createdAt: int,
    updatedAt: int)

  datatype CreateRequest = CreateRequest(
    alumniId: int,
    namaPerusahaan: string,
    posisiJabatan: string,
    bidangIndustri: string,
    lokasiKerja: string,
    gajiRange: Option<string>,
    tanggalMulaiKerja: string,
    tanggalSelesaiKerja: Option<string>,
    statusPekerjaan: string,
    deskripsiPekerjaan: Option<string>)

  datatype UpdateRequest = UpdateRequest(
    namaPerusahaan: string,
    posisiJabatan: string,
    bidangIndustri: string,
    lokasiKerja: string,
    gajiRange: Option<string>,
    tanggalMulaiKerja: string,
    tanggalSelesaiKerja: Option<string>,
    statusPekerjaan: string,
    deskripsiPekerjaan: Option<string>)

  /** The trash stamps are set exactly on trashed rows. */
  predicate StampsAgree(j: Job)
  {
    if j.isDeleted then j.deletedAt.Some? && j.deletedBy.Some?
    else j.deletedAt.None? && j.deletedBy.None?
  }

  /** Every row sits under its own id and carries stamps that agree with its flag. */
  predicate WellFormed(rows: map<int, Job>)
  {
    forall id :: id in rows ==> rows[id].id == id && StampsAgree(rows[id])
  }

  predicate IsActive(rows: map<int, Job>, id: int)
  {
    id in rows && !rows[id].isDeleted
  }

  predicate IsTrashed(rows: map<int, Job>, id: int)
  {
    id in rows && rows[id].isDeleted
  }

  /** `GetByID`: only an active row is found (`WHERE id = $1 AND is_deleted = FALSE`). */
  function ActiveRow(rows: map<int, Job>, id: int): (r: Result<Job>)
    ensures r.Ok? <==> IsActive(rows, id)
    ensures r.Ok? ==> r.value == rows[id] && !r.value.isDeleted
    ensures r.Err? ==> r.error == NoRows
  {
    if IsActive(rows, id) then Ok(rows[id]) else Err(NoRows)
  }

  /** The row `Create` inserts: active, no stamps, `created_at == updated_at == now`. */
  function Inserted(req: CreateRequest, id: int, now: int): (j: Job)
    ensures j.id == id && j.alumniId == req.alumniId
    ensures !j.isDeleted && StampsAgree(j)
    ensures j.createdAt == now && j.updatedAt == now
    ensures j.namaPerusahaan == req.namaPerusahaan && j.posisiJabatan == req.posisiJabatan
    ensures j.bidangIndustri == req.bidangIndustri && j.lokasiKerja == req.lokasiKerja
    ensures j.gajiRange == req.gajiRange && j.tanggalMulaiKerja == req.tanggalMulaiKerja
    ensures j.tanggalSelesaiKerja == req.tanggalSelesaiKerja && j.statusPekerjaan == req.statusPekerjaan
    ensures j.deskripsiPekerjaan == req.deskripsiPekerjaan
  {
    Job(id, req.alumniId, req.namaPerusahaan, req.posisiJabatan, req.bidangIndustri, req.lokasiKerja,
        req.gajiRange, req.tanggalMulaiKerja, req.tanggalSelesaiKerja, req.statusPekerjaan,
        req.deskripsiPekerjaan, false, None, None, now, now)
  }

  /**
   * The row `Update` writes: the nine request fields and `updated_at`; the
   * id, the alumni id, the trash state and `created_at` are kept.
   */
  function Updated(j: Job, req: UpdateRequest, now: int): (u: Job)
    ensures u.id == j.id && u.alumniId == j.alumniId && u.createdAt == j.createdAt
    ensures u.isDeleted == j.isDeleted && u.deletedAt == j.deletedAt && u.deletedBy == j.deletedBy
    ensures u.updatedAt == now
    ensures u.namaPerusahaan == req.namaPerusahaan && u.posisiJabatan == req.posisiJabatan
    ensures u.bidangIndustri == req.bidangIndustri && u.lokasiKerja == req.lokasiKerja
    ensures u.gajiRange == req.gajiRange && u.tanggalMulaiKerja == req.tanggalMulaiKerja
    ensures u.tanggalSelesaiKerja == req.tanggalSelesaiKerja && u.statusPekerjaan == req.statusPekerjaan
    ensures u.deskripsiPekerjaan == req.deskripsiPekerjaan
  {
    j.(namaPerusahaan := req.namaPerusahaan, posisiJabatan := req.posisiJabatan,
       bidangIndustri := req.bidangIndustri, lokasiKerja := req.lokasiKerja,
       gajiRange := req.gajiRange, tanggalMulaiKerja := req.tanggalMulaiKerja,
       tanggalSelesaiKerja := req.tanggalSelesaiKerja, statusPekerjaan := req.statusPekerjaan,
       deskripsiPekerjaan := req.deskripsiPekerjaan, updatedAt := now)
  }

  /** `SET is_deleted = TRUE, deleted_at = NOW(), deleted_by = $2, updated_at = NOW()`. */
  function SoftDeleted(j: Job, deleterId: int, now: int): (t: Job)
    ensures t.isDeleted && StampsAgree(t)
    ensures t.deletedAt == Some(now) && t.deletedBy == Some(deleterId) && t.updatedAt == now
  {
    j.(isDeleted := true, deletedAt := Some(now), deletedBy := Some(deleterId), updatedAt := now)
  }

  /** `SET is_deleted = FALSE, deleted_at = NULL, deleted_by = NULL, updated_at = NOW()`. */
  function Restored(j: Job, now: int): (a: Job)
    ensures !a.isDeleted && StampsAgree(a) && a.updatedAt == now
  {
    j.(isDeleted := false, deletedAt := None, deletedBy := None, updatedAt := now)
  }

  /** Restoring a soft-deleted row gives back the row as it was, apart from `updated_at`. */
  lemma RestoreUndoesSoftDelete(j: Job, deleterId: int, deletedAt: int, restoredAt: int)
    requires !j.isDeleted && StampsAgree(j)
    ensures Restored(SoftDeleted(j, deleterId, deletedAt), restoredAt) == j.(updatedAt := restoredAt)
  {
  }

  /**
   * `GetOwnerUserID`: the `user_id` of the alumni the job belongs to,
   * whatever the job's trash state. No job or no alumni row is
   * `sql.ErrNoRows`; a NULL `user_id` fails the scan into an `int`.
   */
  function OwnerOf(rows: map<int, Job>, owners: map<int, Option<int>>, id: int): (r: Result<int>)
    ensures r == Err(NoRows) <==> id !in rows || rows[id].alumniId !in owners
    ensures r.Ok? <==> id in rows && rows[id].alumniId in owners && owners[rows[id].alumniId].Some?
    ensures r.Ok? ==> Some(r.value) == owners[rows[id].alumniId]
  {
    if id !in rows || rows[id].alumniId !in owners then Err(NoRows)
    else match owners[rows[id].alumniId]
      case Some(userId) => Ok(userId)
      case None => Err(Message(NullUserIdScan))
  }

  /** The error `database/sql` reports when a NULL column is scanned into an `int`. */
  const NullUserIdScan := "sql: Scan error on column index 0, name \"user_id\": converting NULL to int is unsupported"

  /** The job belongs to an alumni whose `user_id` is `userId` (the `a.user_id = $n` join). */
  predicate OwnedBy(rows: map<int, Job>, owners: map<int, Option<int>>, id: int, userId: int)
    requires id in rows
  {
    rows[id].alumniId in owners && owners[rows[id].alumniId] == Some(userId)
  }

  /**
   * The filter of `GetAllWithPagination` and `CountWithSearch`: an active
   * row one of whose five text columns contains `search`.
   */
  predicate Listed(j: Job, search: string)
  {
    !j.isDeleted
    && (Text.Contains(j.namaPerusahaan, search) || Text.Contains(j.posisiJabatan, search)
        || Text.Contains(j.bidangIndustri, search) || Text.Contains(j.lokasiKerja, search)
        || Text.Contains(j.statusPekerjaan, search))
  }

  /**
   * The filter of the trash listings: a trashed row, and either no search
   * or one of four text columns (not the status) contains it.
   */
  predicate TrashListed(j: Job, search: string)
  {
    j.isDeleted
    && (search == "" || Text.Contains(j.namaPerusahaan, search) || Text.Contains(j.posisiJabatan, search)
        || Text.Contains(j.bidangIndustri, search) || Text.Contains(j.lokasiKerja, search))
  }

  /** The `WHERE` clause of a listing statement. */
  datatype Filter =
    | ActiveSearch(search: string)                 // GetAllWithPagination, CountWithSearch
    | TrashSearch(search: string)                  // ListTrashAdmin
    | UserTrashSearch(userId: int, search: string) // ListTrashUser

  /** Row `j` passes filter `f`, given the alumni owners for the join. */
  predicate Keeps(f: Filter, owners: map<int, Option<int>>, j: Job)
  {
    match f
    case ActiveSearch(search) => Listed(j, search)
    case TrashSearch(search) => TrashListed(j, search)
    case UserTrashSearch(userId, search) =>
      TrashListed(j, search) && j.alumniId in owners && owners[j.alumniId] == Some(userId)
  }

  /** The ids of the rows filter `f` selects. */
  function Selected(rows: map<int, Job>, owners: map<int, Option<int>>, f: Filter): set<int>
  {
    set id | id in rows && Keeps(f, owners, rows[id])
  }

  /** The eight columns plus `id` a job listing may be ordered by. */
  const SortColumns: set<string> := {
    "id", "alumni_id", "nama_perusahaan", "posisi_jabatan", "bidang_industri",
    "lokasi_kerja", "status_pekerjaan", "tanggal_mulai_kerja", "created_at" }

  function Ids(s: seq<Job>): set<int>
  {
    set i | 0 <= i < |s| :: s[i].id
  }

  predicate DistinctIds(s: seq<Job>)
  {
    forall i, k :: 0 <= i < k < |s| ==> s[i].id != s[k].id
  }

  /** Every element of `s` is the row of `rows` stored under its id. */
  predicate RowsOf(s: seq<Job>, rows: map<int, Job>)
  {
    forall i :: 0 <= i < |s| ==> s[i].id in rows && rows[s[i].id] == s[i]
  }

  /** Rows with distinct ids are as many as their ids. */
  lemma {:induction false} DistinctIdsCount(s: seq<Job>)
    requires DistinctIds(s)
    ensures |Ids(s)| == |s|
  {
    if s != [] {
      var init := s[..|s| - 1];
      DistinctIdsCount(init);
      assert Ids(s) == Ids(init) + {s[|s| - 1].id};
      assert s[|s| - 1].id !in Ids(init);
    }
  }

  /**
   * `ORDER BY deleted_at DESC NULLS LAST`: `a` may come before `b`. Later
   * deletions come first, and rows without a deletion time come last.
   */
  predicate DeletedNoLater(a: Job, b: Job)
  {
    match (a.deletedAt, b.deletedAt)
    case (Some(x), Some(y)) => x >= y
    case (Some(_), None) => true
    case (None, Some(_)) => false
    case (None, None) => true
  }

  predicate TrashOrdered(s: seq<Job>)
  {
    forall i, k :: 0 <= i < k < |s| ==> DeletedNoLater(s[i], s[k])
  }

  /** Places `j` in a trash-ordered list, after every row it may not precede. */
  function InsertByDeletedAt(j: Job, s: seq<Job>): (r: seq<Job>)
    ensures multiset(r) == multiset(s) + multiset{j}
  {
    if s == [] then [j]
    else if DeletedNoLater(j, s[0]) then [j] + s
    else
      assert s == [s[0]] + s[1..];
      [s[0]] + InsertByDeletedAt(j, s[1..])
  }

  /** Insertion keeps a list in trash order. */
  lemma {:induction false} InsertKeepsOrder(j: Job, s: seq<Job>)
    requires TrashOrdered(s)
    ensures TrashOrdered(InsertByDeletedAt(j, s))
  {
    if s != [] && !DeletedNoLater(j, s[0]) {
      var rest := InsertByDeletedAt(j, s[1..]);
      InsertKeepsOrder(j, s[1..]);
      forall k | 0 <= k < |rest|
        ensures DeletedNoLater(s[0], rest[k])
      {
        assert rest[k] in multiset(rest);
        if rest[k] != j {
          assert rest[k] in multiset(s[1..]);
          var m :| 0 <= m < |s[1..]| && s[1..][m] == rest[k];
          assert s[m + 1] == rest[k];
        }
      }
      var r := [s[0]] + rest;
      assert forall k :: 0 < k < |r| ==> r[k] == rest[k - 1];
    }
  }

  /** The rows of `s` in trash order. */
  function SortByDeletedAt(s: seq<Job>): (r: seq<Job>)
    ensures TrashOrdered(r)
    ensures multiset(r) == multiset(s)
  {
    if s == [] then []
    else
      assert s == s[..|s| - 1] + [s[|s| - 1]];
      var sorted := SortByDeletedAt(s[..|s| - 1]);
      InsertKeepsOrder(s[|s| - 1], sorted);
      InsertByDeletedAt(s[|s| - 1], sorted)
  }

  /** Sorting keeps exactly the rows it is given, so it keeps their ids and their count. */
  lemma SortKeepsRows(s: seq<Job>)
    ensures |SortByDeletedAt(s)| == |s|
    ensures forall x :: x in SortByDeletedAt(s) <==> x in s
    ensures Ids(SortByDeletedAt(s)) == Ids(s)
    ensures DistinctIds(s) ==> DistinctIds(SortByDeletedAt(s))
  {
    var r := SortByDeletedAt(s);
    assert |r| == |multiset(r)| == |multiset(s)| == |s|;
    forall x
      ensures x in r <==> x in s
    {
      assert x in r <==> x in multiset(r);
      assert x in s <==> x in multiset(s);
    }
    forall v
      ensures v in Ids(r) <==> v in Ids(s)
    {
      if v in Ids(r) {
        var i :| 0 <= i < |r| && r[i].id == v;
        assert r[i] in s;
      }
      if v in Ids(s) {
        var i :| 0 <= i < |s| && s[i].id == v;
        assert s[i] in r;
      }
    }
    assert Ids(r) == Ids(s);
    if DistinctIds(s) {
      DistinctIdsCount(s);
      DistinctFromCount(r);
    }
  }

  /** A list with as many ids as rows repeats no id. */
  lemma {:induction false} DistinctFromCount(s: seq<Job>)
    requires |Ids(s)| == |s|
    ensures DistinctIds(s)
  {
    if s != [] {
      var init := s[..|s| - 1];
      var last := s[|s| - 1];
      assert Ids(s) == Ids(init) + {last.id};
      IdsBound(init);
      assert last.id !in Ids(init);
      DistinctFromCount(init);
      forall i, k | 0 <= i < k < |s|
        ensures s[i].id != s[k].id
      {
        assert s[i] == init[i];
        if k < |init| {
          assert s[k] == init[k];
        } else {
          assert s[i].id in Ids(init);
        }
      }
    }
  }

  /** There are never more ids than rows. */
  lemma {:induction false} IdsBound(s: seq<Job>)
    ensures |Ids(s)| <= |s|
  {
    if s != [] {
      var init := s[..|s| - 1];
      IdsBound(init);
      assert Ids(s) == Ids(init) + {s[|s| - 1].id};
    }
  }

  /** Rows of `rows`, each kept by `f`, none twice. */
  predicate Gathered(s: seq<Job>, rows: map<int, Job>, owners: map<int, Option<int>>, f: Filter)
  {
    DistinctIds(s) && RowsOf(s, rows) && forall i :: 0 <= i < |s| ==> Keeps(f, owners, s[i])
  }

  /** Appending a kept row whose id is new keeps a gathering one. */
  lemma GatheredSnoc(s: seq<Job>, x: Job, rows: map<int, Job>, owners: map<int, Option<int>>, f: Filter)
    requires Gathered(s, rows, owners, f)
    requires x.id in rows && rows[x.id] == x && Keeps(f, owners, x) && x.id !in Ids(s)
    ensures Gathered(s + [x], rows, owners, f)
    ensures Ids(s + [x]) == Ids(s) + {x.id}
  {
    assert forall i :: 0 <= i < |s| ==> s[i].id in Ids(s);
    IdsSnoc(s, x);
  }

  lemma IdsSnoc(s: seq<Job>, x: Job)
    ensures Ids(s + [x]) == Ids(s) + {x.id}
  {
    var t := s + [x];
    forall v
      ensures v in Ids(t) <==> v in Ids(s) || v == x.id
    {
      if v in Ids(t) {
        var i :| 0 <= i < |t| && t[i].id == v;
        if i < |s| { assert s[i].id == v; }
      }
      if v in Ids(s) {
        var i :| 0 <= i < |s| && s[i].id == v;
        assert t[i].id == v;
      }
      if v == x.id {
        assert t[|s|].id == v;
      }
    }
  }

  /** A `LIMIT`/`OFFSET` window keeps every property the rows it cuts from have. */
  lemma WindowKeeps(s: seq<Job>, limit: nat, offset: nat, rows: map<int, Job>, owners: map<int, Option<int>>, f: Filter)
    requires Gathered(s, rows, owners, f)
    ensures var w := Pagination.Window(s, limit, offset);
      Gathered(w, rows, owners, f) && (TrashOrdered(s) ==> TrashOrdered(w))
  {
    var w := Pagination.Window(s, limit, offset);
    assert forall i :: 0 <= i < |w| ==> w[i] == s[offset + i];
  }

  /** Sorting by deletion time keeps the same rows, as many, and orders them. */
  lemma SortGathered(s: seq<Job>, rows: map<int, Job>, owners: map<int, Option<int>>, f: Filter)
    requires Gathered(s, rows, owners, f)
    ensures Gathered(SortByDeletedAt(s), rows, owners, f)
    ensures |SortByDeletedAt(s)| == |s| && TrashOrdered(SortByDeletedAt(s))
  {
    SortKeepsRows(s);
    var r := SortByDeletedAt(s);
    forall i | 0 <= i < |r|
      ensures r[i].id in rows && rows[r[i].id] == r[i] && Keeps(f, owners, r[i])
    {
      assert r[i] in s;
    }
  }

  /** The state of the table, as the functions above see it. */
  class JobTable {
    var rows: map<int, Job>
    /** `alumni.user_id` by `alumni.id`; `None` where the column is NULL. */
    var owners: map<int, Option<int>>
    /** The next value of the `id` sequence. */
    var nextId: int

    ghost predicate Valid()
      reads this
    {
      WellFormed(rows) && forall id :: id in rows ==> id < nextId
    }

    constructor (owners: map<int, Option<int>>)
      ensures Valid() && rows == map[] && this.owners == owners
    {
      rows := map[];
      this.owners := owners;
      nextId := 1;
    }

    /** `GetByID`: the active row with this id, or `sql.ErrNoRows`. */
    method GetByID(id: int) returns (r: Result<Job>)
      ensures r == ActiveRow(rows, id)
    {
      if id in rows && !rows[id].isDeleted {
        r := Ok(rows[id]);
      } else {
        r := Err(NoRows);
      }
    }

    /** `Create`: inserts an active row under a fresh id. */
    method Create(req: CreateRequest, now: int) returns (j: Job)
      requires Valid()
      modifies this
      ensures Valid()
      ensures j == Inserted(req, old(nextId), now) && j.id !in old(rows)
      ensures rows == old(rows)[j.id := j] && owners == old(owners) && nextId == old(nextId) + 1
    {
      j := Inserted(req, nextId, now);
      rows := rows[nextId := j];
      nextId := nextId + 1;
    }

    /** `Update`: rewrites an active row; a trashed or missing one is `sql.ErrNoRows`. */
    method Update(id: int, req: UpdateRequest, now: int) returns (r: Result<Job>)
      requires Valid()
      modifies this
      ensures Valid() && owners == old(owners) && nextId == old(nextId)
      ensures IsActive(old(rows), id) ==> r == Ok(Updated(old(rows)[id], req, now)) && rows == old(rows)[id := r.value]
      ensures !IsActive(old(rows), id) ==> r == Err(NoRows) && rows == old(rows)
    {
      if id in rows && !rows[id].isDeleted {
        var u := Updated(rows[id], req, now);
        rows := rows[id := u];
        r := Ok(u);
      } else {
        r := Err(NoRows);
      }
    }

    /** `Delete`: removes the row whatever its state, and reports success even when none matched. */
    method Delete(id: int)
      requires Valid()
      modifies this
      ensures Valid() && owners == old(owners) && nextId == old(nextId)
      ensures rows == old(rows) - {id}
    {
      rows := rows - {id};
    }

    /** `SoftDelete`: moves an active row to the trash; otherwise `sql.ErrNoRows`. */
    method SoftDelete(id: int, deleterId: int, now: int) returns (err: Option<Error>)
      requires Valid()
      modifies this
      ensures Valid() && owners == old(owners) && nextId == old(nextId)
      ensures err.None? <==> IsActive(old(rows), id)
      ensures err.Some? ==> err.value == NoRows && rows == old(rows)
      ensures err.None? ==> rows == old(rows)[id := SoftDeleted(old(rows)[id], deleterId, now)]
    {
      if id in rows && !rows[id].isDeleted {
        rows := rows[id := SoftDeleted(rows[id], deleterId, now)];
        err := None;
      } else {
        err := Some(NoRows);
      }
    }

    /** `GetOwnerUserID`. */
    method GetOwnerUserID(id: int) returns (r: Result<int>)
      ensures r == OwnerOf(rows, owners, id)
    {
      if id !in rows || rows[id].alumniId !in owners {
        r := Err(NoRows);
      } else if owners[rows[id].alumniId].Some? {
        r := Ok(owners[rows[id].alumniId].value);
      } else {
        r := Err(Message(NullUserIdScan));
      }
    }

    /** `Restore`: moves a trashed row back; an active or missing one is `sql.ErrNoRows`. */
    method Restore(id: int, now: int) returns (err: Option<Error>)
      requires Valid()
      modifies this
      ensures Valid() && owners == old(owners) && nextId == old(nextId)
      ensures err.None? <==> IsTrashed(old(rows), id)
      ensures err.Some? ==> err.value == NoRows && rows == old(rows)
      ensures err.None? ==> rows == old(rows)[id := Restored(old(rows)[id], now)]
    {
      if id in rows && rows[id].isDeleted {
        rows := rows[id := Restored(rows[id], now)];
        err := None;
      } else {
        err := Some(NoRows);
      }
    }

    /** `HardDeleteAdmin`: removes a trashed row; an active or missing one is `sql.ErrNoRows`. */
    method HardDeleteAdmin(id: int) returns (err: Option<Error>)
      requires Valid()
      modifies this
      ensures Valid() && owners == old(owners) && nextId == old(nextId)
      ensures err.None? <==> IsTrashed(old(rows), id)
      ensures err.Some? ==> err.value == NoRows && rows == old(rows)
      ensures err.None? ==> rows == old(rows) - {id}
    {
      if id in rows && rows[id].isDeleted {
        rows := rows - {id};
        err := None;
      } else {
        err := Some(NoRows);
      }
    }

    /** `HardDeleteUser`: as `HardDeleteAdmin`, and only a row of an alumni whose `user_id` is `userId`. */
    method HardDeleteUser(id: int, userId: int) returns (err: Option<Error>)
      requires Valid()
      modifies this
      ensures Valid() && owners == old(owners) && nextId == old(nextId)
      ensures err.None? <==> IsTrashed(old(rows), id) && OwnedBy(old(rows), old(owners), id, userId)
      ensures err.Some? ==> err.value == NoRows && rows == old(rows)
      ensures err.None? ==> rows == old(rows) - {id}
    {
      if id in rows && rows[id].isDeleted && rows[id].alumniId in owners
         && owners[rows[id].alumniId] == Some(userId) {
        rows := rows - {id};
        err := None;
      } else {
        err := Some(NoRows);
      }
    }

    /**
     * The rows a `SELECT ... WHERE` returns before ordering: one per row
     * that filter `f` keeps, each exactly as stored, in an order the model
     * leaves open.
     */
    method Select(f: Filter) returns (out: seq<Job>)
      requires WellFormed(rows)
      ensures Ids(out) == Selected(rows, owners, f)
      ensures |out| == |Selected(rows, owners, f)|
      ensures Gathered(out, rows, owners, f)
    {
      var remaining := rows.Keys;
      out := [];
      ghost var taken: set<int> := {};
      while remaining != {}
        invariant remaining <= rows.Keys
        invariant taken == Ids(out)
        invariant forall k :: k in taken <==> k in rows && k !in remaining && Keeps(f, owners, rows[k])
        invariant Gathered(out, rows, owners, f)
        decreases |remaining|
      {
        var id := Pick(remaining);
        if Keeps(f, owners, rows[id]) {
          GatheredSnoc(out, rows[id], rows, owners, f);
          out := out + [rows[id]];
          taken := taken + {id};
        }
        remaining := remaining - {id};
      }
      assert forall k :: k in Selected(rows, owners, f) <==> k in taken;
      DistinctIdsCount(out);
    }

    /** `CountWithSearch`: the number of active rows the search matches. */
    method CountWithSearch(search: string) returns (total: int)
      requires WellFormed(rows)
      ensures total == |Selected(rows, owners, ActiveSearch(search))|
    {
      var matching := Select(ActiveSearch(search));
      total := |matching|;
    }

    /**
     * `GetAllWithPagination`: the `LIMIT`/`OFFSET` window of the active rows
     * the search matches, with the `ORDER BY` clause it sanitised.
     */
    method GetAllWithPagination(search: string, sortBy: string, order: string, limit: nat, offset: nat)
      returns (page: seq<Job>, orderBy: Pagination.OrderBy)
      requires WellFormed(rows)
      ensures orderBy == Pagination.SortClause(sortBy, order, SortColumns)
      ensures |page| == Pagination.WindowLength(|Selected(rows, owners, ActiveSearch(search))|, limit, offset)
      ensures DistinctIds(page) && RowsOf(page, rows)
      ensures forall i :: 0 <= i < |page| ==> Listed(page[i], search)
    {
      orderBy := Pagination.SortClause(sortBy, order, SortColumns);
      var matching := Select(ActiveSearch(search));
      page := Pagination.Window(matching, limit, offset);
      WindowKeeps(matching, limit, offset, rows, owners, ActiveSearch(search));
    }

    /**
     * `ListTrashAdmin`: the window, latest deletion first, of the trashed
     * rows the search matches. `all` is the whole ordered listing the
     * `LIMIT`/`OFFSET` window is cut from: every selected row once, in
     * `deleted_at DESC NULLS LAST` order (rows with equal times in an order
     * the model leaves open, as the query does).
     */
    method ListTrashAdmin(search: string, limit: nat, offset: nat) returns (page: seq<Job>, ghost all: seq<Job>)
      requires WellFormed(rows)
      ensures Gathered(all, rows, owners, TrashSearch(search)) && TrashOrdered(all)
      ensures |all| == |Selected(rows, owners, TrashSearch(search))|
      ensures page == Pagination.Window(all, limit, offset)
      ensures |page| == Pagination.WindowLength(|Selected(rows, owners, TrashSearch(search))|, limit, offset)
      ensures TrashOrdered(page) && DistinctIds(page) && RowsOf(page, rows)
      ensures forall i :: 0 <= i < |page| ==> TrashListed(page[i], search)
    {
      var matching := Select(TrashSearch(search));
      var sorted := SortByDeletedAt(matching);
      SortGathered(matching, rows, owners, TrashSearch(search));
      all := sorted;
      page := Pagination.Window(sorted, limit, offset);
      WindowKeeps(sorted, limit, offset, rows, owners, TrashSearch(search));
    }

    /**
     * `ListTrashUser`: as `ListTrashAdmin`, restricted to rows of alumni
     * whose `user_id` is `userId`.
     */
    method ListTrashUser(userId: int, search: string, limit: nat, offset: nat) returns (page: seq<Job>, ghost all: seq<Job>)
      requires WellFormed(rows)
      ensures Gathered(all, rows, owners, UserTrashSearch(userId, search)) && TrashOrdered(all)
      ensures |all| == |Selected(rows, owners, UserTrashSearch(userId, search))|
      ensures page == Pagination.Window(all, limit, offset)
      ensures |page| == Pagination.WindowLength(|Selected(rows, owners, UserTrashSearch(userId, search))|, limit, offset)
      ensures TrashOrdered(page) && DistinctIds(page) && RowsOf(page, rows)
      ensures forall i :: 0 <= i < |page| ==> TrashListed(page[i], search) && OwnedBy(rows, owners, page[i].id, userId)
    {
      var matching := Select(UserTrashSearch(userId, search));
      var sorted := SortByDeletedAt(matching);
      SortGathered(matching, rows, owners, UserTrashSearch(userId, search));
      all := sorted;
      page := Pagination.Window(sorted, limit, offset);
      WindowKeeps(sorted, limit, offset, rows, owners, UserTrashSearch(userId, search));
    }
  }
}

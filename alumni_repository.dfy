/**
 * The `alumni` table and the statements of
 * app/repository/alumni_repository.go: the same table-plus-statements shape
 * as the job records, with no trash stage. Each statement is one atomic
 * read or write and becomes one method of `AlumniTable`, specified by a
 * function on the table's value.
 */
module AlumniRepository {
  import opened Common
  import Text
  import Pagination

  /** One row of `alumni`. Timestamps are clock values. */
  datatype Alumni = Alumni(
    id: int,
    nim: string,
    nama: string,
    jurusan: string,
    angkatan: int,
    tahunLulus: int,
    email: string,
    noTelepon: string,
    alamat: string,
    createdAt: int,
    updatedAt: int)

  datatype CreateRequest = CreateRequest(
    nim: string,
    nama: string,
    jurusan: string,
    angkatan: int,
    tahunLulus: int,
    email: string,
    noTelepon: string,
    alamat: string)

  /** The update request carries no `nim`: the NIM of a record never changes. */
  datatype UpdateRequest = UpdateRequest(
    nama: string,
    jurusan: string,
    angkatan: int,
    tahunLulus: int,
    email: string,
    noTelepon: string,
    alamat: string)

  /** Every row sits under its own id. */
  predicate WellFormed(rows: map<int, Alumni>)
  {
    forall id :: id in rows ==> rows[id].id == id
  }

  /** `GetByID`: the row with this id, or `sql.ErrNoRows`. */
  function Lookup(rows: map<int, Alumni>, id: int): (r: Result<Alumni>)
    ensures r.Ok? <==> id in rows
    ensures r.Ok? ==> r.value == rows[id]
    ensures r.Err? ==> r.error == NoRows
  {
    if id in rows then Ok(rows[id]) else Err(NoRows)
  }

  /** The row `Create` inserts: the request's eight fields, `created_at == updated_at == now`. */
  function Inserted(req: CreateRequest, id: int, now: int): (a: Alumni)
    ensures a.id == id && a.nim == req.nim
    ensures a.createdAt == now && a.updatedAt == now
    ensures a.nama == req.nama && a.jurusan == req.jurusan && a.angkatan == req.angkatan
    ensures a.tahunLulus == req.tahunLulus && a.email == req.email
    ensures a.noTelepon == req.noTelepon && a.alamat == req.alamat
  {
    Alumni(id, req.nim, req.nama, req.jurusan, req.angkatan, req.tahunLulus,
           req.email, req.noTelepon, req.alamat, now, now)
  }

  /**
   * The row `Update` writes: the seven request fields and `updated_at`; the
   * id, the NIM and `created_at` are kept.
   */
  function Updated(a: Alumni, req: UpdateRequest, now: int): (u: Alumni)
    ensures u.id == a.id && u.nim == a.nim && u.createdAt == a.createdAt
    ensures u.updatedAt == now
    ensures u.nama == req.nama && u.jurusan == req.jurusan && u.angkatan == req.angkatan
    ensures u.tahunLulus == req.tahunLulus && u.email == req.email
    ensures u.noTelepon == req.noTelepon && u.alamat == req.alamat
  {
    a.(nama := req.nama, jurusan := req.jurusan, angkatan := req.angkatan,
       tahunLulus := req.tahunLulus, email := req.email, noTelepon := req.noTelepon,
       alamat := req.alamat, updatedAt := now)
  }

  /**
   * The filter shared by the paged listing and the count: one of nama, nim,
   * jurusan or email contains `search`.
   */
  predicate Matches(a: Alumni, search: string)
  {
    Text.Contains(a.nama, search) || Text.Contains(a.nim, search)
    || Text.Contains(a.jurusan, search) || Text.Contains(a.email, search)
  }

  /** The ids of the rows the search matches. */
  function MatchingIds(rows: map<int, Alumni>, search: string): set<int>
  {
    set id | id in rows && Matches(rows[id], search)
  }

  /** An empty search matches every row. */
  lemma EmptySearchMatchesAll(rows: map<int, Alumni>)
    ensures MatchingIds(rows, "") == rows.Keys
  {
    forall id | id in rows
      ensures Matches(rows[id], "")
    {
      assert rows[id].nama[..0] == "";
    }
  }

  /** The seven columns plus `id` an alumni listing may be ordered by. */
  const SortColumns: set<string> := {
    "id", "nim", "nama", "jurusan", "angkatan", "tahun_lulus", "email", "created_at" }

  /** The state of the table, as the functions above see it. */
  class AlumniTable {
    var rows: map<int, Alumni>
    /** The next value of the `id` sequence. */
    var nextId: int

    ghost predicate Valid()
      reads this
    {
      WellFormed(rows) && forall id :: id in rows ==> id < nextId
    }

    constructor ()
      ensures Valid() && rows == map[]
    {
      rows := map[];
      nextId := 1;
    }

    /** `GetByID`. */
    method GetByID(id: int) returns (r: Result<Alumni>)
      ensures r == Lookup(rows, id)
    {
      if id in rows {
        r := Ok(rows[id]);
      } else {
        r := Err(NoRows);
      }
    }

    /** `Create`: inserts a row under a fresh id. */
    method Create(req: CreateRequest, now: int) returns (a: Alumni)
      requires Valid()
      modifies this
      ensures Valid()
      ensures a == Inserted(req, old(nextId), now) && a.id !in old(rows)
      ensures rows == old(rows)[a.id := a] && nextId == old(nextId) + 1
    {
      a := Inserted(req, nextId, now);
      rows := rows[nextId := a];
      nextId := nextId + 1;
    }

    /** `Update`: rewrites the row; a missing one is `sql.ErrNoRows` and nothing changes. */
    method Update(id: int, req: UpdateRequest, now: int) returns (r: Result<Alumni>)
      requires Valid()
      modifies this
      ensures Valid() && nextId == old(nextId)
      ensures id in old(rows) ==> r == Ok(Updated(old(rows)[id], req, now)) && rows == old(rows)[id := r.value]
      ensures id !in old(rows) ==> r == Err(NoRows) && rows == old(rows)
    {
      if id in rows {
        var u := Updated(rows[id], req, now);
        rows := rows[id := u];
        r := Ok(u);
      } else {
        r := Err(NoRows);
      }
    }

    /** `Delete`: removes the row, and reports success even when none matched. */
    method Delete(id: int) returns (err: Option<Error>)
      requires Valid()
      modifies this
      ensures Valid() && nextId == old(nextId)
      ensures rows == old(rows) - {id}
      ensures err == None
    {
      rows := rows - {id};
      err := None;
    }

    /**
     * The rows the search matches, each exactly as stored and as many as
     * there are, in an order the model leaves open.
     */
    method Matching(search: string) returns (out: seq<Alumni>)
      requires WellFormed(rows)
      ensures |out| == |MatchingIds(rows, search)|
      ensures forall i :: 0 <= i < |out| ==> out[i].id in MatchingIds(rows, search) && rows[out[i].id] == out[i]
      ensures forall i, j :: 0 <= i < j < |out| ==> out[i].id != out[j].id
    {
      var remaining := rows.Keys;
      out := [];
      ghost var taken: set<int> := {};
      while remaining != {}
        invariant remaining <= rows.Keys
        invariant forall k :: k in taken <==> k in rows && k !in remaining && Matches(rows[k], search)
        invariant |out| == |taken|
        invariant forall i :: 0 <= i < |out| ==> out[i].id in taken && rows[out[i].id] == out[i]
        invariant forall i, j :: 0 <= i < j < |out| ==> out[i].id != out[j].id
        decreases |remaining|
      {
        var id := Pick(remaining);
        if Matches(rows[id], search) {
          out := out + [rows[id]];
          taken := taken + {id};
        }
        remaining := remaining - {id};
      }
      assert forall k :: k in MatchingIds(rows, search) <==> k in taken;
      assert taken == MatchingIds(rows, search);
    }

    /** `CountWithSearch`: the number of rows the search matches. */
    method CountWithSearch(search: string) returns (total: int)
      requires WellFormed(rows)
      ensures total == |MatchingIds(rows, search)|
    {
      var remaining := rows.Keys;
      total := 0;
      ghost var counted: set<int> := {};
      while remaining != {}
        invariant remaining <= rows.Keys
        invariant forall k :: k in counted <==> k in rows && k !in remaining && Matches(rows[k], search)
        invariant total == |counted|
        decreases |remaining|
      {
        var id := Pick(remaining);
        if Matches(rows[id], search) {
          total := total + 1;
          counted := counted + {id};
        }
        remaining := remaining - {id};
      }
      assert forall k :: k in MatchingIds(rows, search) <==> k in counted;
      assert counted == MatchingIds(rows, search);
    }

    /**
     * `GetAllWithPagination`: the `LIMIT`/`OFFSET` window of the rows the
     * search matches (the same filter `CountWithSearch` counts), with the
     * `ORDER BY` clause it sanitised.
     */
    method GetAllWithPagination(search: string, sortBy: string, order: string, limit: nat, offset: nat)
      returns (page: seq<Alumni>, orderBy: Pagination.OrderBy)
      requires WellFormed(rows)
      ensures orderBy == Pagination.SortClause(sortBy, order, SortColumns)
      ensures |page| == Pagination.WindowLength(|MatchingIds(rows, search)|, limit, offset)
      ensures forall i :: 0 <= i < |page| ==>
        page[i].id in rows && rows[page[i].id] == page[i] && Matches(page[i], search)
      ensures forall i, j :: 0 <= i < j < |page| ==> page[i].id != page[j].id
    {
      orderBy := Pagination.SortClause(sortBy, order, SortColumns);
      var matching := Matching(search);
      page := Pagination.Window(matching, limit, offset);
    }
  }
}

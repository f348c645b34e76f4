/**
 * app/service/pekerjaan_service.go: the job-record service over `JobTable`
 * (and the alumni table it checks on create), with its HTTP handlers.
 *
 * The service puts role and ownership checks in front of the repository's
 * conditional writes, and orders them relative to the existence checks:
 * soft delete checks existence first, restore checks ownership first and
 * leaves the trash-state check to the repository, hard delete leaves both to
 * the repository. The handlers map the service's error text to a status
 * code; the user id and role are those the authentication middleware put in
 * the request context.
 */
module JobService {
  import opened Common
  import Text
  import Pagination
  import Validation
  import opened JobRepository
  import AlumniRepository

  const PekerjaanNotFound := "pekerjaan not found"
  const NotFoundOrNoOwner := "pekerjaan not found or no owner"
  const DeleteDenied := "access denied: you can only delete your own pekerjaan"
  const RestoreDenied := "access denied: you can only restore your own pekerjaan"
  const AlumniNotFound := "alumni not found"

  const InvalidId := "Invalid ID parameter"
  const InvalidBody := "Invalid request body"

  /** The verdict of `ValidateCreatePekerjaan`, called with the alumni id as `strconv.Itoa` writes it. */
  function CreateVerdict(req: CreateRequest): Option<string>
  {
    Validation.Verdict(Validation.CreatePekerjaanChecks(
      Text.IntToString(req.alumniId), req.namaPerusahaan, req.posisiJabatan, req.bidangIndustri,
      req.lokasiKerja, req.tanggalMulaiKerja, req.statusPekerjaan))
  }

  /** The verdict of `ValidateUpdatePekerjaan`. */
  function UpdateVerdict(req: UpdateRequest): Option<string>
  {
    Validation.Verdict(Validation.UpdatePekerjaanChecks(
      req.namaPerusahaan, req.posisiJabatan, req.bidangIndustri,
      req.lokasiKerja, req.tanggalMulaiKerja, req.statusPekerjaan))
  }

  /**
   * An integer alumni id always prints as a non-empty string, so the
   * "Alumni ID is required" rule never fires on the create path: the create
   * validator reports exactly what the update validator would.
   */
  lemma {:induction false} AlumniIdRuleNeverFires(req: CreateRequest)
    ensures Validation.FailedMessages(Validation.CreatePekerjaanChecks(
        Text.IntToString(req.alumniId), req.namaPerusahaan, req.posisiJabatan, req.bidangIndustri,
        req.lokasiKerja, req.tanggalMulaiKerja, req.statusPekerjaan))
      == Validation.FailedMessages(Validation.UpdatePekerjaanChecks(
        req.namaPerusahaan, req.posisiJabatan, req.bidangIndustri,
        req.lokasiKerja, req.tanggalMulaiKerja, req.statusPekerjaan))
  {
    Validation.UpdatePekerjaanSkipsAlumniId(
      Text.IntToString(req.alumniId), req.namaPerusahaan, req.posisiJabatan, req.bidangIndustri,
      req.lokasiKerja, req.tanggalMulaiKerja, req.statusPekerjaan);
  }

  /** The caller may act on job `id`: an admin always, anyone else when the job's alumni is theirs. */
  predicate MayAct(rows: map<int, Job>, owners: map<int, Option<int>>, id: int, userId: int, role: string): (b: bool)
    ensures role != AdminRole ==> (b <==> id in rows && OwnedBy(rows, owners, id, userId))
  {
    role == AdminRole || OwnerOf(rows, owners, id) == Ok(userId)
  }

  class JobService {
    const jobs: JobTable
    const alumni: AlumniRepository.AlumniTable

    constructor (jobs: JobTable, alumni: AlumniRepository.AlumniTable)
      ensures this.jobs == jobs && this.alumni == alumni
    {
      this.jobs := jobs;
      this.alumni := alumni;
    }

    /**
     * `CreatePekerjaan`: the alumni must exist before the fields are
     * validated; any failure creates nothing.
     */
    method CreatePekerjaan(req: CreateRequest, now: int) returns (r: Result<Job>)
      requires jobs.Valid()
      modifies jobs
      ensures jobs.Valid() && jobs.owners == old(jobs.owners)
      ensures req.alumniId !in alumni.rows ==> r == Err(Message(AlumniNotFound))
      ensures req.alumniId in alumni.rows && CreateVerdict(req).Some? ==> r == Err(Message(CreateVerdict(req).value))
      ensures r.Ok? <==> req.alumniId in alumni.rows && Validation.JobFieldsValid(req.namaPerusahaan,
        req.posisiJabatan, req.bidangIndustri, req.lokasiKerja, req.tanggalMulaiKerja, req.statusPekerjaan)
      ensures r.Err? ==> jobs.rows == old(jobs.rows) && jobs.nextId == old(jobs.nextId)
      ensures r.Ok? ==> r.value == Inserted(req, old(jobs.nextId), now) && jobs.rows == old(jobs.rows)[r.value.id := r.value]
    {
      var found := alumni.GetByID(req.alumniId);
      if found.Err? {
        return Err(Message(AlumniNotFound));
      }
      var alumniId := Text.IntToString(req.alumniId);
      Validation.CreatePekerjaanAccepts(alumniId, req.namaPerusahaan, req.posisiJabatan, req.bidangIndustri,
        req.lokasiKerja, req.tanggalMulaiKerja, req.statusPekerjaan);
      var err := Validation.ValidateCreatePekerjaan(alumniId, req.namaPerusahaan, req.posisiJabatan,
        req.bidangIndustri, req.lokasiKerja, req.tanggalMulaiKerja, req.statusPekerjaan);
      if err.Some? {
        return Err(Message(err.value));
      }
      var j := jobs.Create(req, now);
      r := Ok(j);
    }

    /** `UpdatePekerjaan`: an absent or trashed id is "pekerjaan not found" before validation. */
    method UpdatePekerjaan(id: int, req: UpdateRequest, now: int) returns (r: Result<Job>)
      requires jobs.Valid()
      modifies jobs
      ensures jobs.Valid() && jobs.owners == old(jobs.owners) && jobs.nextId == old(jobs.nextId)
      ensures !IsActive(old(jobs.rows), id) ==> r == Err(Message(PekerjaanNotFound))
      ensures IsActive(old(jobs.rows), id) && UpdateVerdict(req).Some? ==> r == Err(Message(UpdateVerdict(req).value))
      ensures r.Ok? <==> IsActive(old(jobs.rows), id) && Validation.JobFieldsValid(req.namaPerusahaan,
        req.posisiJabatan, req.bidangIndustri, req.lokasiKerja, req.tanggalMulaiKerja, req.statusPekerjaan)
      ensures r.Err? ==> jobs.rows == old(jobs.rows)
      ensures r.Ok? ==> r.value == Updated(old(jobs.rows)[id], req, now) && jobs.rows == old(jobs.rows)[id := r.value]
    {
      var found := jobs.GetByID(id);
      if found.Err? {
        return Err(Message(PekerjaanNotFound));
      }
      Validation.UpdatePekerjaanAccepts(req.namaPerusahaan, req.posisiJabatan, req.bidangIndustri,
        req.lokasiKerja, req.tanggalMulaiKerja, req.statusPekerjaan);
      var err := Validation.ValidateUpdatePekerjaan(req.namaPerusahaan, req.posisiJabatan, req.bidangIndustri,
        req.lokasiKerja, req.tanggalMulaiKerja, req.statusPekerjaan);
      if err.Some? {
        return Err(Message(err.value));
      }
      r := jobs.Update(id, req, now);
    }

    /**
     * `DeletePekerjaan`: the existence check is the active-only `GetByID`,
     * so a trashed record is "pekerjaan not found" and stays; an active one
     * is removed for good.
     */
    method DeletePekerjaan(id: int) returns (err: Option<Error>)
      requires jobs.Valid()
      modifies jobs
      ensures jobs.Valid() && jobs.owners == old(jobs.owners) && jobs.nextId == old(jobs.nextId)
      ensures !IsActive(old(jobs.rows), id) ==> err == Some(Message(PekerjaanNotFound)) && jobs.rows == old(jobs.rows)
      ensures IsActive(old(jobs.rows), id) ==> err == None && jobs.rows == old(jobs.rows) - {id}
    {
      var found := jobs.GetByID(id);
      if found.Err? {
        return Some(Message(PekerjaanNotFound));
      }
      jobs.Delete(id);
      err := None;
    }

    /**
     * `SoftDeletePekerjaan`: existence first, then (for a non-admin) the
     * owner check; the trash stamp records the acting user.
     */
    method SoftDeletePekerjaan(id: int, userId: int, role: string, now: int) returns (err: Option<Error>)
      requires jobs.Valid()
      modifies jobs
      ensures jobs.Valid() && jobs.owners == old(jobs.owners) && jobs.nextId == old(jobs.nextId)
      ensures !IsActive(old(jobs.rows), id) ==> err == Some(Message(PekerjaanNotFound))
      ensures IsActive(old(jobs.rows), id) && role != AdminRole ==>
        var owner := OwnerOf(old(jobs.rows), jobs.owners, id);
        (owner == Err(NoRows) ==> err == Some(Message(NotFoundOrNoOwner)))
        && (owner.Err? && owner.error != NoRows ==> err == Some(owner.error))
        && (owner.Ok? && owner.value != userId ==> err == Some(Message(DeleteDenied)))
      ensures err.None? <==> IsActive(old(jobs.rows), id) && MayAct(old(jobs.rows), jobs.owners, id, userId, role)
      ensures err.Some? ==> jobs.rows == old(jobs.rows)
      ensures err.None? ==> jobs.rows == old(jobs.rows)[id := SoftDeleted(old(jobs.rows)[id], userId, now)]
    {
      var found := jobs.GetByID(id);
      if found.Err? {
        return Some(Message(PekerjaanNotFound));
      }
      if role != AdminRole {
        var owner := jobs.GetOwnerUserID(id);
        if owner.Err? {
          if owner.error == NoRows {
            return Some(Message(NotFoundOrNoOwner));
          }
          return Some(owner.error);
        }
        if owner.value != userId {
          return Some(Message(DeleteDenied));
        }
      }
      err := jobs.SoftDelete(id, userId, now);
    }

    /**
     * `RestorePekerjaan`: for a non-admin the owner check comes first,
     * whatever the trash state; only then does the repository's
     * `WHERE is_deleted = TRUE` decide, and an active record comes back as
     * the raw `sql.ErrNoRows`.
     */
    method RestorePekerjaan(id: int, userId: int, role: string, now: int) returns (err: Option<Error>)
      requires jobs.Valid()
      modifies jobs
      ensures jobs.Valid() && jobs.owners == old(jobs.owners) && jobs.nextId == old(jobs.nextId)
      ensures role != AdminRole ==>
        var owner := OwnerOf(old(jobs.rows), jobs.owners, id);
        (owner == Err(NoRows) ==> err == Some(Message(PekerjaanNotFound)))
        && (owner.Err? && owner.error != NoRows ==> err == Some(owner.error))
        && (owner.Ok? && owner.value != userId ==> err == Some(Message(RestoreDenied)))
      ensures MayAct(old(jobs.rows), jobs.owners, id, userId, role) && !IsTrashed(old(jobs.rows), id) ==> err == Some(NoRows)
      ensures err.None? <==> IsTrashed(old(jobs.rows), id) && MayAct(old(jobs.rows), jobs.owners, id, userId, role)
      ensures err.Some? ==> jobs.rows == old(jobs.rows)
      ensures err.None? ==> jobs.rows == old(jobs.rows)[id := Restored(old(jobs.rows)[id], now)]
    {
      if role != AdminRole {
        var owner := jobs.GetOwnerUserID(id);
        if owner.Err? {
          if owner.error == NoRows {
            return Some(Message(PekerjaanNotFound));
          }
          return Some(owner.error);
        }
        if owner.value != userId {
          return Some(Message(RestoreDenied));
        }
      }
      err := jobs.Restore(id, now);
    }

    /**
     * `HardDeletePekerjaan`: only a trashed record is ever removed, and for
     * a non-admin only one of their own; every refusal is `sql.ErrNoRows`.
     */
    method HardDeletePekerjaan(id: int, userId: int, role: string) returns (err: Option<Error>)
      requires jobs.Valid()
      modifies jobs
      ensures jobs.Valid() && jobs.owners == old(jobs.owners) && jobs.nextId == old(jobs.nextId)
      ensures err.None? <==> IsTrashed(old(jobs.rows), id) && (role == AdminRole || OwnedBy(old(jobs.rows), jobs.owners, id, userId))
      ensures err.Some? ==> err.value == NoRows && jobs.rows == old(jobs.rows)
      ensures err.None? ==> jobs.rows == old(jobs.rows) - {id}
    {
      if role == AdminRole {
        err := jobs.HardDeleteAdmin(id);
      } else {
        err := jobs.HardDeleteUser(id, userId);
      }
    }

    /**
     * `ListTrash`: clamp `page` and `limit`, then one page of the trash,
     * latest deletion first: every trashed row for an admin, only the
     * caller's own for anyone else. `all` is the ordered listing the page
     * is cut from.
     */
    method ListTrash(search: string, page: int, limit: int, userId: int, role: string)
      returns (list: seq<Job>, ghost all: seq<Job>)
      requires WellFormed(jobs.rows)
      ensures var f := if role == AdminRole then TrashSearch(search) else UserTrashSearch(userId, search);
        Gathered(all, jobs.rows, jobs.owners, f) && TrashOrdered(all)
        && |all| == |Selected(jobs.rows, jobs.owners, f)|
      ensures var p, l := Pagination.ClampPage(page), Pagination.ClampLimit(limit);
        list == Pagination.Window(all, l, Pagination.Offset(p, l))
      ensures var p, l := Pagination.ClampPage(page), Pagination.ClampLimit(limit);
        var f := if role == AdminRole then TrashSearch(search) else UserTrashSearch(userId, search);
        |list| == Pagination.WindowLength(|Selected(jobs.rows, jobs.owners, f)|, l, Pagination.Offset(p, l))
      ensures |list| <= Pagination.ClampLimit(limit) <= 100
      ensures TrashOrdered(list) && DistinctIds(list) && RowsOf(list, jobs.rows)
      ensures forall i :: 0 <= i < |list| ==> TrashListed(list[i], search)
      ensures role != AdminRole ==> forall i :: 0 <= i < |list| ==> OwnedBy(jobs.rows, jobs.owners, list[i].id, userId)
    {
      var p := Pagination.ClampPage(page);
      var l := Pagination.ClampLimit(limit);
      var offset := Pagination.Offset(p, l);
      if role == AdminRole {
        list, all := jobs.ListTrashAdmin(search, l, offset);
      } else {
        list, all := jobs.ListTrashUser(userId, search, l, offset);
      }
    }

    /** `GetPekerjaanWithPagination`: page `page` of the matching active rows, with the total and page count. */
    method GetPekerjaanWithPagination(search: string, sortBy: string, order: string, page: int, limit: int)
      returns (resp: Pagination.PageResponse<Job>)
      requires WellFormed(jobs.rows) && page >= 1 && limit >= 1
      ensures var total := |Selected(jobs.rows, jobs.owners, ActiveSearch(search))|;
        resp.meta == Pagination.MetaInfo(page, limit, total, Pagination.Pages(total, limit), sortBy, order, search)
      ensures |resp.data| == Pagination.WindowLength(|Selected(jobs.rows, jobs.owners, ActiveSearch(search))|, limit, Pagination.Offset(page, limit))
      ensures |resp.data| <= limit
      ensures DistinctIds(resp.data) && RowsOf(resp.data, jobs.rows)
      ensures forall i :: 0 <= i < |resp.data| ==> Listed(resp.data[i], search)
    {
      var offset := Pagination.Offset(page, limit);
      var data, _ := jobs.GetAllWithPagination(search, sortBy, order, limit, offset);
      var total := jobs.CountWithSearch(search);
      var pages := (total + limit - 1) / limit;
      resp := Pagination.PageResponse(data, Pagination.MetaInfo(page, limit, total, pages, sortBy, order, search));
    }

    /** `HandleGetAllPekerjaan`: as the alumni listing, over the active job records. */
    method HandleGetAllPekerjaan(q: Pagination.Query) returns (resp: Response, paged: Option<Pagination.PageResponse<Job>>)
      requires WellFormed(jobs.rows)
      ensures resp == Response(200, "Pekerjaan data retrieved successfully")
      ensures paged.Some? <==> Pagination.PlanList(q).Paged?
      ensures paged.Some? ==> var plan := Pagination.PlanList(q);
        paged.value.meta.page == plan.page && paged.value.meta.limit == plan.limit
        && 1 <= paged.value.meta.limit <= 100 && |paged.value.data| <= paged.value.meta.limit
        && paged.value.meta.total == |Selected(jobs.rows, jobs.owners, ActiveSearch(q.search))|
        && paged.value.meta.pages == Pagination.Pages(paged.value.meta.total, paged.value.meta.limit)
    {
      var plan := Pagination.PlanList(q);
      if plan.Paged? {
        var r := GetPekerjaanWithPagination(plan.search, plan.sortBy, plan.order, plan.page, plan.limit);
        paged := Some(r);
      } else {
        paged := None;
      }
      resp := Response(200, "Pekerjaan data retrieved successfully");
    }

    /** `HandleCreatePekerjaan`: 404 for a missing alumni, 400 for any other failure, 201 on success. */
    method HandleCreatePekerjaan(body: Option<CreateRequest>, now: int) returns (resp: Response)
      requires jobs.Valid()
      modifies jobs
      ensures jobs.Valid()
      ensures body.None? ==> resp == Response(400, InvalidBody)
      ensures resp.status == 404 <==> body.Some? && body.value.alumniId !in alumni.rows
      ensures resp.status == 404 ==> resp.message == "Alumni not found"
      ensures resp.status == 201 <==>
        (body.Some? && body.value.alumniId in alumni.rows && CreateVerdict(body.value).None?)
      ensures body.Some? && body.value.alumniId in alumni.rows && CreateVerdict(body.value).Some? ==>
        resp == Response(400, CreateVerdict(body.value).value)
      ensures resp.status in {201, 400, 404}
      ensures resp.status == 201 ==>
        resp.message == "Pekerjaan created successfully"
        && jobs.rows == old(jobs.rows)[old(jobs.nextId) := Inserted(body.value, old(jobs.nextId), now)]
      ensures resp.status != 201 ==> jobs.rows == old(jobs.rows)
    {
      if body.None? {
        return Response(400, InvalidBody);
      }
      var req := body.value;
      Validation.CreatePekerjaanAccepts(Text.IntToString(req.alumniId), req.namaPerusahaan, req.posisiJabatan,
        req.bidangIndustri, req.lokasiKerja, req.tanggalMulaiKerja, req.statusPekerjaan);
      Validation.PekerjaanVerdictsCapitalised(Text.IntToString(req.alumniId), req.namaPerusahaan,
        req.posisiJabatan, req.bidangIndustri, req.lokasiKerja, req.tanggalMulaiKerja, req.statusPekerjaan);
      var r := CreatePekerjaan(req, now);
      if r.Err? {
        if ErrorText(r.error) == AlumniNotFound {
          resp := Response(404, "Alumni not found");
        } else {
          resp := Response(400, ErrorText(r.error));
        }
      } else {
        resp := Response(201, "Pekerjaan created successfully");
      }
    }

    /** `HandleUpdatePekerjaan`: 400 for a bad id or body, 404 for an absent or trashed record, 400 for invalid fields. */
    method HandleUpdatePekerjaan(idParam: string, body: Option<UpdateRequest>, now: int) returns (resp: Response)
      requires jobs.Valid()
      modifies jobs
      ensures jobs.Valid()
      ensures Text.Atoi(idParam).None? ==> resp == Response(400, InvalidId)
      ensures Text.Atoi(idParam).Some? && body.None? ==> resp == Response(400, InvalidBody)
      ensures resp.status == 404 <==>
        (Text.Atoi(idParam).Some? && body.Some? && !IsActive(old(jobs.rows), Text.Atoi(idParam).value))
      ensures resp.status == 404 ==> resp.message == "Pekerjaan not found"
      ensures resp.status == 200 <==>
        (Text.Atoi(idParam).Some? && body.Some? && IsActive(old(jobs.rows), Text.Atoi(idParam).value)
         && UpdateVerdict(body.value).None?)
      ensures Text.Atoi(idParam).Some? && body.Some? && IsActive(old(jobs.rows), Text.Atoi(idParam).value) ==>
        UpdateVerdict(body.value).Some? ==> resp == Response(400, UpdateVerdict(body.value).value)
      ensures resp.status in {200, 400, 404}
      ensures resp.status == 200 ==>
        var id := Text.Atoi(idParam).value;
        resp.message == "Pekerjaan updated successfully"
        && jobs.rows == old(jobs.rows)[id := Updated(old(jobs.rows)[id], body.value, now)]
      ensures resp.status != 200 ==> jobs.rows == old(jobs.rows)
    {
      var id := Text.Atoi(idParam);
      if id.None? {
        return Response(400, InvalidId);
      }
      if body.None? {
        return Response(400, InvalidBody);
      }
      var req := body.value;
      Validation.UpdatePekerjaanAccepts(req.namaPerusahaan, req.posisiJabatan, req.bidangIndustri,
        req.lokasiKerja, req.tanggalMulaiKerja, req.statusPekerjaan);
      Validation.PekerjaanVerdictsCapitalised("", req.namaPerusahaan, req.posisiJabatan,
        req.bidangIndustri, req.lokasiKerja, req.tanggalMulaiKerja, req.statusPekerjaan);
      var r := UpdatePekerjaan(id.value, req, now);
      if r.Err? {
        if ErrorText(r.error) == PekerjaanNotFound {
          resp := Response(404, "Pekerjaan not found");
        } else {
          resp := Response(400, ErrorText(r.error));
        }
      } else {
        resp := Response(200, "Pekerjaan updated successfully");
      }
    }

    /** `HandleDeletePekerjaan`: 400 for a bad id, 404 for an absent or trashed record, 200 otherwise. */
    method HandleDeletePekerjaan(idParam: string) returns (resp: Response)
      requires jobs.Valid()
      modifies jobs
      ensures jobs.Valid()
      ensures Text.Atoi(idParam).None? ==> resp == Response(400, InvalidId) && jobs.rows == old(jobs.rows)
      ensures Text.Atoi(idParam).Some? && !IsActive(old(jobs.rows), Text.Atoi(idParam).value) ==>
        resp == Response(404, "Pekerjaan not found") && jobs.rows == old(jobs.rows)
      ensures Text.Atoi(idParam).Some? && IsActive(old(jobs.rows), Text.Atoi(idParam).value) ==>
        resp == Response(200, "Pekerjaan deleted successfully") && jobs.rows == old(jobs.rows) - {Text.Atoi(idParam).value}
    {
      var id := Text.Atoi(idParam);
      if id.None? {
        return Response(400, InvalidId);
      }
      var err := DeletePekerjaan(id.value);
      if err.Some? {
        if ErrorText(err.value) == PekerjaanNotFound {
          resp := Response(404, "Pekerjaan not found");
        } else {
          resp := Response(500, "Failed to delete pekerjaan");
        }
      } else {
        resp := Response(200, "Pekerjaan deleted successfully");
      }
    }

    /**
     * `HandleSoftDeletePekerjaan`: 404 for an absent or trashed record, 403
     * for another user's record. The service's "no owner" message matches
     * neither test, so a record whose alumni row is missing (or whose
     * `user_id` is NULL) answers 500.
     */
    method HandleSoftDeletePekerjaan(idParam: string, userId: int, role: string, now: int) returns (resp: Response)
      requires jobs.Valid()
      modifies jobs
      ensures jobs.Valid()
      ensures Text.Atoi(idParam).None? ==> resp == Response(400, InvalidId)
      ensures Text.Atoi(idParam).Some? && !IsActive(old(jobs.rows), Text.Atoi(idParam).value) ==>
        resp == Response(404, "Pekerjaan not found")
      ensures Text.Atoi(idParam).Some? && IsActive(old(jobs.rows), Text.Atoi(idParam).value) && role != AdminRole ==>
        var owner := OwnerOf(old(jobs.rows), jobs.owners, Text.Atoi(idParam).value);
        (owner.Err? ==> resp == Response(500, "Failed to delete pekerjaan"))
        && (owner.Ok? && owner.value != userId ==> resp == Response(403, "Access denied: you can only delete your own pekerjaan"))
      ensures resp.status == 200 <==>
        (Text.Atoi(idParam).Some? && IsActive(old(jobs.rows), Text.Atoi(idParam).value)
         && MayAct(old(jobs.rows), jobs.owners, Text.Atoi(idParam).value, userId, role))
      ensures resp.status == 200 ==>
        var id := Text.Atoi(idParam).value;
        resp.message == "Pekerjaan soft deleted successfully"
        && jobs.rows == old(jobs.rows)[id := SoftDeleted(old(jobs.rows)[id], userId, now)]
      ensures resp.status != 200 ==> jobs.rows == old(jobs.rows)
    {
      var id := Text.Atoi(idParam);
      if id.None? {
        return Response(400, InvalidId);
      }
      var err := SoftDeletePekerjaan(id.value, userId, role, now);
      if err.Some? {
        if ErrorText(err.value) == PekerjaanNotFound {
          resp := Response(404, "Pekerjaan not found");
        } else if ErrorText(err.value) == DeleteDenied {
          resp := Response(403, "Access denied: you can only delete your own pekerjaan");
        } else {
          resp := Response(500, "Failed to delete pekerjaan");
        }
      } else {
        resp := Response(200, "Pekerjaan soft deleted successfully");
      }
    }

    /**
     * `HandleListTrash`: `page` and `limit` parsed with their defaults, parse
     * errors read as 0; the listing is `ListTrash`'s page of `all`.
     */
    method HandleListTrash(pageParam: string, limitParam: string, search: string, userId: int, role: string)
      returns (resp: Response, list: seq<Job>, ghost all: seq<Job>)
      requires WellFormed(jobs.rows)
      ensures resp == Response(200, "Trash data retrieved successfully")
      ensures var f := if role == AdminRole then TrashSearch(search) else UserTrashSearch(userId, search);
        Gathered(all, jobs.rows, jobs.owners, f) && TrashOrdered(all)
        && |all| == |Selected(jobs.rows, jobs.owners, f)|
      ensures var p := Pagination.ClampPage(Text.AtoiOrZero(Pagination.QueryOr(pageParam, "1")));
        var l := Pagination.ClampLimit(Text.AtoiOrZero(Pagination.QueryOr(limitParam, "10")));
        list == Pagination.Window(all, l, Pagination.Offset(p, l))
        && |list| == Pagination.WindowLength(|all|, l, Pagination.Offset(p, l))
      ensures var limit := Pagination.ClampLimit(Text.AtoiOrZero(Pagination.QueryOr(limitParam, "10")));
        |list| <= limit && (limitParam == "" ==> limit == 10)
      ensures TrashOrdered(list) && DistinctIds(list) && RowsOf(list, jobs.rows)
      ensures forall i :: 0 <= i < |list| ==> TrashListed(list[i], search)
      ensures role != AdminRole ==> forall i :: 0 <= i < |list| ==> OwnedBy(jobs.rows, jobs.owners, list[i].id, userId)
    {
      var page := Text.AtoiOrZero(Pagination.QueryOr(pageParam, "1"));
      var limit := Text.AtoiOrZero(Pagination.QueryOr(limitParam, "10"));
      list, all := ListTrash(search, page, limit, userId, role);
      resp := Response(200, "Trash data retrieved successfully");
    }

    /**
     * `HandleRestorePekerjaan`: "pekerjaan not found" is 404 and a foreign
     * record 403; the raw `sql.ErrNoRows` the repository returns for a
     * record that is not in the trash matches neither, so restoring an
     * active record the caller may act on, or any id that is not in the
     * trash when the caller is an admin, answers 500.
     */
    method HandleRestorePekerjaan(idParam: string, userId: int, role: string, now: int) returns (resp: Response)
      requires jobs.Valid()
      modifies jobs
      ensures jobs.Valid()
      ensures Text.Atoi(idParam).None? ==> resp == Response(400, InvalidId)
      ensures Text.Atoi(idParam).Some? ==>
        var id := Text.Atoi(idParam).value;
        !IsTrashed(old(jobs.rows), id) && MayAct(old(jobs.rows), jobs.owners, id, userId, role) ==>
        resp == Response(500, "Failed to restore pekerjaan")
      ensures Text.Atoi(idParam).Some? && role != AdminRole && Text.Atoi(idParam).value !in old(jobs.rows) ==>
        resp == Response(404, "Pekerjaan not found in trash")
      ensures Text.Atoi(idParam).Some? && role != AdminRole ==>
        var owner := OwnerOf(old(jobs.rows), jobs.owners, Text.Atoi(idParam).value);
        (owner == Err(NoRows) ==> resp == Response(404, "Pekerjaan not found in trash"))
        && (owner.Err? && owner.error != NoRows ==> resp == Response(500, "Failed to restore pekerjaan"))
        && (owner.Ok? && owner.value != userId ==>
            resp == Response(403, "Access denied: you can only restore your own pekerjaan"))
      ensures resp.status == 200 <==>
        (Text.Atoi(idParam).Some? && IsTrashed(old(jobs.rows), Text.Atoi(idParam).value)
         && MayAct(old(jobs.rows), jobs.owners, Text.Atoi(idParam).value, userId, role))
      ensures resp.status == 200 ==>
        var id := Text.Atoi(idParam).value;
        resp.message == "Pekerjaan restored successfully"
        && jobs.rows == old(jobs.rows)[id := Restored(old(jobs.rows)[id], now)]
      ensures resp.status != 200 ==> jobs.rows == old(jobs.rows)
    {
      var id := Text.Atoi(idParam);
      if id.None? {
        return Response(400, InvalidId);
      }
      var err := RestorePekerjaan(id.value, userId, role, now);
      if err.Some? {
        if ErrorText(err.value) == PekerjaanNotFound {
          resp := Response(404, "Pekerjaan not found in trash");
        } else if ErrorText(err.value) == RestoreDenied {
          resp := Response(403, "Access denied: you can only restore your own pekerjaan");
        } else {
          resp := Response(500, "Failed to restore pekerjaan");
        }
      } else {
        resp := Response(200, "Pekerjaan restored successfully");
      }
    }

    /**
     * `HandleHardDeletePekerjaan`: every refusal (an active record, someone
     * else's, a missing one) is `sql.ErrNoRows`, answered with 404.
     */
    method HandleHardDeletePekerjaan(idParam: string, userId: int, role: string) returns (resp: Response)
      requires jobs.Valid()
      modifies jobs
      ensures jobs.Valid()
      ensures Text.Atoi(idParam).None? ==> resp == Response(400, InvalidId) && jobs.rows == old(jobs.rows)
      ensures Text.Atoi(idParam).Some? ==> resp.status in {200, 404}
      ensures resp.status == 200 <==>
        (Text.Atoi(idParam).Some? && IsTrashed(old(jobs.rows), Text.Atoi(idParam).value)
         && (role == AdminRole || OwnedBy(old(jobs.rows), jobs.owners, Text.Atoi(idParam).value, userId)))
      ensures resp.status == 404 ==> resp.message == "Pekerjaan not found in trash or access denied"
      ensures resp.status == 200 ==> jobs.rows == old(jobs.rows) - {Text.Atoi(idParam).value}
      ensures resp.status != 200 ==> jobs.rows == old(jobs.rows)
    {
      var id := Text.Atoi(idParam);
      if id.None? {
        return Response(400, InvalidId);
      }
      var err := HardDeletePekerjaan(id.value, userId, role);
      if err.Some? {
        if err.value == NoRows {
          resp := Response(404, "Pekerjaan not found in trash or access denied");
        } else {
          resp := Response(500, "Failed to hard delete pekerjaan");
        }
      } else {
        resp := Response(200, "Pekerjaan permanently deleted");
      }
    }
  }
}

/**
 * app/service/alumni_service.go: the alumni service over `AlumniTable` and
 * its HTTP handlers. The service validates before it writes and checks
 * existence before it validates; each handler turns the service's error
 * text into a status code.
 *
 * A handler's inputs are the raw path parameter and the parsed body, `None`
 * when the body does not parse; its answer is the status and message of the
 * JSON envelope.
 */
module AlumniService {
  import opened Common
  import Text
  import Pagination
  import Validation
  import opened AlumniRepository

  /** The error the service reports for an id with no row. */
  const AlumniNotFound := "alumni not found"

  const InvalidId := "Invalid ID parameter"
  const InvalidBody := "Invalid request body"

  /** The verdict of `ValidateCreateAlumni` on a create request. */
  function CreateVerdict(req: CreateRequest): Option<string>
  {
    Validation.Verdict(Validation.CreateAlumniChecks(req.nim, req.nama, req.jurusan, req.email, req.angkatan, req.tahunLulus))
  }

  /** The verdict of `ValidateUpdateAlumni` on an update request. */
  function UpdateVerdict(req: UpdateRequest): Option<string>
  {
    Validation.Verdict(Validation.UpdateAlumniChecks(req.nama, req.jurusan, req.email, req.angkatan, req.tahunLulus))
  }

  class AlumniService {
    const repo: AlumniTable

    constructor (repo: AlumniTable)
      ensures this.repo == repo
    {
      this.repo := repo;
    }

    /**
     * `CreateAlumni`: validate, then insert. Invalid input is reported with
     * the validator's message and creates nothing.
     */
    method CreateAlumni(req: CreateRequest, now: int) returns (r: Result<Alumni>)
      requires repo.Valid()
      modifies repo
      ensures repo.Valid()
      ensures r.Ok? <==> req.nim != "" && Validation.AlumniFieldsValid(req.nama, req.jurusan, req.email, req.angkatan, req.tahunLulus)
      ensures CreateVerdict(req).Some? ==>
        r == Err(Message(CreateVerdict(req).value)) && repo.rows == old(repo.rows) && repo.nextId == old(repo.nextId)
      ensures r.Ok? ==> r.value == Inserted(req, old(repo.nextId), now) && repo.rows == old(repo.rows)[r.value.id := r.value]
    {
      Validation.CreateAlumniAccepts(req.nim, req.nama, req.jurusan, req.email, req.angkatan, req.tahunLulus);
      var err := Validation.ValidateCreateAlumni(req.nim, req.nama, req.jurusan, req.email, req.angkatan, req.tahunLulus);
      if err.Some? {
        return Err(Message(err.value));
      }
      var a := repo.Create(req, now);
      r := Ok(a);
    }

    /**
     * `UpdateAlumni`: a missing id is "alumni not found" whatever the
     * request holds; then validation; then the update. Any failure leaves
     * the table as it was.
     */
    method UpdateAlumni(id: int, req: UpdateRequest, now: int) returns (r: Result<Alumni>)
      requires repo.Valid()
      modifies repo
      ensures repo.Valid() && repo.nextId == old(repo.nextId)
      ensures id !in old(repo.rows) ==> r == Err(Message(AlumniNotFound))
      ensures id in old(repo.rows) && UpdateVerdict(req).Some? ==> r == Err(Message(UpdateVerdict(req).value))
      ensures r.Ok? <==> id in old(repo.rows) && Validation.AlumniFieldsValid(req.nama, req.jurusan, req.email, req.angkatan, req.tahunLulus)
      ensures r.Err? ==> repo.rows == old(repo.rows)
      ensures r.Ok? ==> r.value == Updated(old(repo.rows)[id], req, now) && repo.rows == old(repo.rows)[id := r.value]
    {
      var found := repo.GetByID(id);
      if found.Err? {
        return Err(Message(AlumniNotFound));
      }
      Validation.UpdateAlumniAccepts(req.nama, req.jurusan, req.email, req.angkatan, req.tahunLulus);
      var err := Validation.ValidateUpdateAlumni(req.nama, req.jurusan, req.email, req.angkatan, req.tahunLulus);
      if err.Some? {
        return Err(Message(err.value));
      }
      r := repo.Update(id, req, now);
    }

    /** `DeleteAlumni`: a missing id is "alumni not found" and nothing changes. */
    method DeleteAlumni(id: int) returns (err: Option<Error>)
      requires repo.Valid()
      modifies repo
      ensures repo.Valid() && repo.nextId == old(repo.nextId)
      ensures id !in old(repo.rows) ==> err == Some(Message(AlumniNotFound)) && repo.rows == old(repo.rows)
      ensures id in old(repo.rows) ==> err == None && repo.rows == old(repo.rows) - {id}
    {
      var found := repo.GetByID(id);
      if found.Err? {
        return Some(Message(AlumniNotFound));
      }
      err := repo.Delete(id);
    }

    /**
     * `GetAlumniWithPagination`: page `page` of the matching rows, with the
     * total the count query reports and the number of pages it makes. The
     * `meta` echoes `sortBy` and `order` as the caller gave them, not as
     * the repository sanitised them.
     */
    method GetAlumniWithPagination(search: string, sortBy: string, order: string, page: int, limit: int)
      returns (resp: Pagination.PageResponse<Alumni>)
      requires repo.Valid() && page >= 1 && limit >= 1
      ensures var total := |MatchingIds(repo.rows, search)|;
        resp.meta == Pagination.MetaInfo(page, limit, total, Pagination.Pages(total, limit), sortBy, order, search)
      ensures |resp.data| == Pagination.WindowLength(|MatchingIds(repo.rows, search)|, limit, Pagination.Offset(page, limit))
      ensures |resp.data| <= limit
      ensures forall i :: 0 <= i < |resp.data| ==>
        resp.data[i].id in repo.rows && repo.rows[resp.data[i].id] == resp.data[i] && Matches(resp.data[i], search)
    {
      var offset := Pagination.Offset(page, limit);
      var data, _ := repo.GetAllWithPagination(search, sortBy, order, limit, offset);
      var total := repo.CountWithSearch(search);
      var pages := (total + limit - 1) / limit;
      resp := Pagination.PageResponse(data, Pagination.MetaInfo(page, limit, total, pages, sortBy, order, search));
    }

    /**
     * `HandleGetAllAlumni`: the paged listing when `page`, `limit`, `search`
     * or `sortBy` is present, with the clamped page and limit; otherwise the
     * plain listing, whose rows are not part of this model.
     */
    method HandleGetAllAlumni(q: Pagination.Query) returns (resp: Response, paged: Option<Pagination.PageResponse<Alumni>>)
      requires repo.Valid()
      ensures resp == Response(200, "Alumni data retrieved successfully")
      ensures paged.Some? <==> Pagination.PlanList(q).Paged?
      ensures paged.Some? ==> var plan := Pagination.PlanList(q);
        paged.value.meta.page == plan.page && paged.value.meta.limit == plan.limit
        && 1 <= paged.value.meta.limit <= 100 && |paged.value.data| <= paged.value.meta.limit
        && paged.value.meta.total == |MatchingIds(repo.rows, q.search)|
        && paged.value.meta.pages == Pagination.Pages(paged.value.meta.total, paged.value.meta.limit)
    {
      var plan := Pagination.PlanList(q);
      if plan.Paged? {
        var r := GetAlumniWithPagination(plan.search, plan.sortBy, plan.order, plan.page, plan.limit);
        paged := Some(r);
      } else {
        paged := None;
      }
      resp := Response(200, "Alumni data retrieved successfully");
    }

    /** `HandleCreateAlumni`: 201 on success, 400 with the service's message on any failure. */
    method HandleCreateAlumni(body: Option<CreateRequest>, now: int) returns (resp: Response)
      requires repo.Valid()
      modifies repo
      ensures repo.Valid()
      ensures body.None? ==> resp == Response(400, InvalidBody) && repo.rows == old(repo.rows)
      ensures body.Some? && CreateVerdict(body.value).Some? ==>
        resp == Response(400, CreateVerdict(body.value).value) && repo.rows == old(repo.rows)
      ensures resp.status == 201 <==> body.Some? && CreateVerdict(body.value).None?
      ensures resp.status == 201 ==>
        resp.message == "Alumni created successfully"
        && repo.rows == old(repo.rows)[old(repo.nextId) := Inserted(body.value, old(repo.nextId), now)]
    {
      if body.None? {
        return Response(400, InvalidBody);
      }
      var r := CreateAlumni(body.value, now);
      Validation.CreateAlumniAccepts(body.value.nim, body.value.nama, body.value.jurusan, body.value.email, body.value.angkatan, body.value.tahunLulus);
      if r.Err? {
        resp := Response(400, ErrorText(r.error));
      } else {
        resp := Response(201, "Alumni created successfully");
      }
    }

    /** `HandleUpdateAlumni`: 400 for a bad id or body, 404 for a missing row, 400 for invalid fields. */
    method HandleUpdateAlumni(idParam: string, body: Option<UpdateRequest>, now: int) returns (resp: Response)
      requires repo.Valid()
      modifies repo
      ensures repo.Valid()
      ensures Text.Atoi(idParam).None? ==> resp == Response(400, InvalidId)
      ensures Text.Atoi(idParam).Some? && body.None? ==> resp == Response(400, InvalidBody)
      ensures resp.status == 404 <==> Text.Atoi(idParam).Some? && body.Some? && Text.Atoi(idParam).value !in old(repo.rows)
      ensures resp.status == 404 ==> resp.message == "Alumni not found"
      ensures resp.status == 200 <==>
        (Text.Atoi(idParam).Some? && body.Some? && Text.Atoi(idParam).value in old(repo.rows)
         && UpdateVerdict(body.value).None?)
      ensures Text.Atoi(idParam).Some? && body.Some? && Text.Atoi(idParam).value in old(repo.rows) ==>
        UpdateVerdict(body.value).Some? ==> resp == Response(400, UpdateVerdict(body.value).value)
      ensures resp.status == 200 ==>
        var id := Text.Atoi(idParam).value;
        resp.message == "Alumni updated successfully"
        && repo.rows == old(repo.rows)[id := Updated(old(repo.rows)[id], body.value, now)]
      ensures resp.status != 200 ==> repo.rows == old(repo.rows)
      ensures resp.status in {200, 400, 404}
    {
      var id := Text.Atoi(idParam);
      if id.None? {
        return Response(400, InvalidId);
      }
      if body.None? {
        return Response(400, InvalidBody);
      }
      Validation.UpdateAlumniAccepts(body.value.nama, body.value.jurusan, body.value.email, body.value.angkatan, body.value.tahunLulus);
      Validation.AlumniVerdictCapitalised(body.value.nama, body.value.jurusan, body.value.email, body.value.angkatan, body.value.tahunLulus);
      var r := UpdateAlumni(id.value, body.value, now);
      if r.Err? {
        if ErrorText(r.error) == AlumniNotFound {
          resp := Response(404, "Alumni not found");
        } else {
          resp := Response(400, ErrorText(r.error));
        }
      } else {
        resp := Response(200, "Alumni updated successfully");
      }
    }

    /** `HandleDeleteAlumni`: 400 for a bad id, 404 for a missing row, 200 otherwise. */
    method HandleDeleteAlumni(idParam: string) returns (resp: Response)
      requires repo.Valid()
      modifies repo
      ensures repo.Valid()
      ensures Text.Atoi(idParam).None? ==> resp == Response(400, InvalidId) && repo.rows == old(repo.rows)
      ensures Text.Atoi(idParam).Some? && Text.Atoi(idParam).value !in old(repo.rows) ==>
        resp == Response(404, "Alumni not found") && repo.rows == old(repo.rows)
      ensures Text.Atoi(idParam).Some? && Text.Atoi(idParam).value in old(repo.rows) ==>
        resp == Response(200, "Alumni deleted successfully") && repo.rows == old(repo.rows) - {Text.Atoi(idParam).value}
    {
      var id := Text.Atoi(idParam);
      if id.None? {
        return Response(400, InvalidId);
      }
      var err := DeleteAlumni(id.value);
      if err.Some? {
        if ErrorText(err.value) == AlumniNotFound {
          resp := Response(404, "Alumni not found");
        } else {
          resp := Response(500, "Failed to delete alumni");
        }
      } else {
        resp := Response(200, "Alumni deleted successfully");
      }
    }
  }
}

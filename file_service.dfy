/**
 * app/service/file_service.go: uploading, listing and deleting the photos
 * and certificates of an alumnus. Each handler is a decision procedure
 * (route to category, size bound, content-type allow-list, then whose
 * alumni record the file belongs to and whether the caller may touch it)
 * followed by side effects on the disk and on the `files` collection.
 *
 * Alumni records here are identified by MongoDB ObjectIDs, and the two
 * alumni lookups the handlers make are state of `FileStore`: the set of
 * alumni ids that exist, and the map from a user id to the id of that
 * user's own alumni record. The UUID of a stored file, the id Mongo assigns,
 * the clock and the outcome of each disk or database write are parameters.
 */
module FileService {
  import opened Common
  import Text

  // ---------------------------------------------------------------- ObjectIDs

  newtype byte = x: int | 0 <= x < 256

  /** A MongoDB ObjectID: twelve bytes, written as 24 hexadecimal digits. */
  datatype ObjectId = ObjectId(bytes: seq<byte>)

  predicate IsHexDigit(c: char)
  {
    '0' <= c <= '9' || 'a' <= c <= 'f' || 'A' <= c <= 'F'
  }

  predicate IsLowerHexDigit(c: char)
  {
    '0' <= c <= '9' || 'a' <= c <= 'f'
  }

  predicate AllHex(s: string)
  {
    forall i :: 0 <= i < |s| ==> IsHexDigit(s[i])
  }

  function HexValue(c: char): (v: int)
    requires IsHexDigit(c)
    ensures 0 <= v < 16
  {
    if '0' <= c <= '9' then c as int - '0' as int
    else if 'a' <= c <= 'f' then c as int - 'a' as int + 10
    else c as int - 'A' as int + 10
  }

  /** The lower-case digit of a value below 16, as `ObjectID.Hex` writes it. */
  function HexDigit(v: int): (c: char)
    requires 0 <= v < 16
    ensures IsLowerHexDigit(c) && IsHexDigit(c) && HexValue(c) == v
  {
    if v < 10 then ('0' as int + v) as char else ('a' as int + v - 10) as char
  }

  /** A lower-case digit is written back as itself. */
  lemma HexDigitOfValue(c: char)
    requires IsLowerHexDigit(c)
    ensures HexDigit(HexValue(c)) == c
  {
  }

  /** Sixteen times the high digit plus the low digit splits back into the two digits. */
  lemma ByteDigits(hi: int, lo: int)
    requires 0 <= hi < 16 && 0 <= lo < 16
    ensures (hi * 16 + lo) / 16 == hi && (hi * 16 + lo) % 16 == lo
  {
  }

  /** `hex.DecodeString` on text of even length: two digits per byte. */
  function DecodeHex(s: string): (r: Option<seq<byte>>)
    requires |s| % 2 == 0
    ensures r.Some? ==> |r.value| == |s| / 2
    decreases |s|
  {
    if s == [] then Some([])
    else if !IsHexDigit(s[0]) || !IsHexDigit(s[1]) then None
    else
      match DecodeHex(s[2..])
      case None => None
      case Some(rest) => Some([(HexValue(s[0]) * 16 + HexValue(s[1])) as byte] + rest)
  }

  /** Decoding succeeds exactly on text made of hexadecimal digits. */
  lemma {:induction false} DecodeHexAccepts(s: string)
    requires |s| % 2 == 0
    ensures DecodeHex(s).Some? <==> AllHex(s)
    decreases |s|
  {
    if s != [] {
      DecodeHexAccepts(s[2..]);
      assert forall i :: 2 <= i < |s| ==> s[i] == s[2..][i - 2];
    }
  }

  /** Two lower-case digits per byte. */
  function EncodeHex(b: seq<byte>): (s: string)
    ensures |s| == 2 * |b|
  {
    if b == [] then ""
    else [HexDigit(b[0] as int / 16), HexDigit(b[0] as int % 16)] + EncodeHex(b[1..])
  }

  lemma {:induction false} DecodeEncode(b: seq<byte>)
    ensures DecodeHex(EncodeHex(b)) == Some(b)
  {
    if b != [] {
      DecodeEncode(b[1..]);
      var s := EncodeHex(b);
      assert s[2..] == EncodeHex(b[1..]);
      assert [b[0]] + b[1..] == b;
    }
  }

  lemma {:induction false} EncodeDecode(s: string)
    requires |s| % 2 == 0 && forall i :: 0 <= i < |s| ==> IsLowerHexDigit(s[i])
    ensures DecodeHex(s).Some? && EncodeHex(DecodeHex(s).value) == s
    decreases |s|
  {
    if s != [] {
      var tail := s[2..];
      assert forall i :: 0 <= i < |tail| ==> tail[i] == s[i + 2];
      EncodeDecode(tail);
      var hi, lo := HexValue(s[0]), HexValue(s[1]);
      ByteDigits(hi, lo);
      HexDigitOfValue(s[0]);
      HexDigitOfValue(s[1]);
      var b := (hi * 16 + lo) as byte;
      var rest := DecodeHex(tail).value;
      assert DecodeHex(s) == Some([b] + rest);
      assert ([b] + rest)[1..] == rest;
      assert EncodeHex([b] + rest) == [s[0], s[1]] + tail;
      assert [s[0], s[1]] + tail == s;
    }
  }

  /** `primitive.ObjectIDFromHex`: exactly 24 hexadecimal digits, of either case. */
  function ObjectIdFromHex(s: string): (r: Option<ObjectId>)
    ensures r.Some? ==> |s| == 24 && |r.value.bytes| == 12
  {
    if |s| != 24 then None
    else
      match DecodeHex(s)
      case None => None
      case Some(b) => Some(ObjectId(b))
  }

  /** `ObjectID.Hex`. */
  function Hex(id: ObjectId): string
  {
    EncodeHex(id.bytes)
  }

  /** The parser accepts exactly 24 hexadecimal digits. */
  lemma ObjectIdFromHexAccepts(s: string)
    ensures ObjectIdFromHex(s).Some? <==> |s| == 24 && AllHex(s)
  {
    if |s| == 24 {
      DecodeHexAccepts(s);
    }
  }

  /** Every ObjectID's text parses back to it. */
  lemma ObjectIdRoundTrip(id: ObjectId)
    requires |id.bytes| == 12
    ensures ObjectIdFromHex(Hex(id)) == Some(id)
  {
    DecodeEncode(id.bytes);
  }

  /** Lower-case text that parses is the text of the id it parses to. */
  lemma HexOfParsed(s: string)
    requires |s| == 24 && forall i :: 0 <= i < |s| ==> IsLowerHexDigit(s[i])
    ensures ObjectIdFromHex(s).Some? && Hex(ObjectIdFromHex(s).value) == s
  {
    EncodeDecode(s);
  }

  // ---------------------------------------------------------------- categories

  const FotoRoute := "/alumni-crud-api/upload/foto"
  const SertifikatRoute := "/alumni-crud-api/upload/sertifikat"

  const MiB := 1024 * 1024
  const MaxFotoSize := 1 * MiB
  const MaxSertifikatSize := 2 * MiB
  const AllowedFotoTypes: set<string> := {"image/jpeg", "image/png", "image/jpg"}
  const AllowedSertifikatTypes: set<string> := {"application/pdf"}

  /** What the route decides: the category name, the upload directory, the allowed types, the size bound. */
  datatype Category = Category(name: string, uploadDir: string, allowed: set<string>, maxSize: int)

  const Foto := Category("foto", "uploads/foto", AllowedFotoTypes, MaxFotoSize)
  const Sertifikat := Category("sertifikat", "uploads/sertifikat", AllowedSertifikatTypes, MaxSertifikatSize)

  /** The category of an upload route; any other path has none. */
  function CategoryOf(route: string): (c: Option<Category>)
    ensures c.Some? <==> route == FotoRoute || route == SertifikatRoute
    ensures c.Some? ==> c.value.maxSize > 0 && c.value.maxSize % MiB == 0 && c.value.allowed != {}
  {
    if route == FotoRoute then Some(Foto)
    else if route == SertifikatRoute then Some(Sertifikat)
    else None
  }

  /** No content type is allowed for both categories: a PDF is never a photo, and an image never a certificate. */
  lemma CategoriesDisjoint(t: string)
    ensures !(t in CategoryOf(FotoRoute).value.allowed && t in CategoryOf(SertifikatRoute).value.allowed)
    ensures "application/pdf" !in CategoryOf(FotoRoute).value.allowed
    ensures "image/png" !in CategoryOf(SertifikatRoute).value.allowed
  {
  }

  /** "Ukuran file melebihi batas. Maks: %d MB", with the bound in whole MiB. */
  function TooLarge(maxSize: int): string
  {
    "Ukuran file melebihi batas. Maks: " + Text.IntToString(maxSize / MiB) + " MB"
  }

  /** The size message names 1 MB for a photo and 2 MB for a certificate. */
  lemma TooLargeMessages()
    ensures TooLarge(MaxFotoSize) == "Ukuran file melebihi batas. Maks: 1 MB"
    ensures TooLarge(MaxSertifikatSize) == "Ukuran file melebihi batas. Maks: 2 MB"
  {
    assert MaxFotoSize / MiB == 1 && MaxSertifikatSize / MiB == 2;
  }

  const NoFile := "File 'file' tidak ditemukan di form-data"
  const WrongType := "Tipe file tidak diizinkan untuk kategori ini"
  const AdminNeedsAlumniId := "Admin harus menyertakan 'alumni_id' di form-data"
  const BadAlumniId := "Format 'alumni_id' tidak valid"
  const AlumniMissing := "Alumni dengan ID tersebut tidak ditemukan"
  const NoProfileToUpload := "Profil alumni Anda tidak ditemukan, tidak dapat mengupload file"
  const NoProfile := "Profil alumni Anda tidak ditemukan"
  const OnlyOwnList := "Anda hanya dapat melihat file Anda sendiri"
  const OnlyOwnDelete := "Anda hanya dapat menghapus file Anda sendiri"
  const BadListId := "Format Alumni ID tidak valid"
  const FileMissing := "File tidak ditemukan di database"

  function UnknownRoute(route: string): string
  {
    "Path rute tidak dikenal: " + route
  }

  // ---------------------------------------------------------------- decisions

  /** The part of the multipart form a handler looks at. */
  datatype FileHeader = FileHeader(filename: string, size: int, contentType: string)

  /** The request locals `AuthRequired` set. */
  datatype Caller = Caller(userId: string, role: string)

  /** `file` is the uploaded part, `None` when the form has none; `alumniId` the `alumni_id` field. */
  datatype UploadForm = UploadForm(file: Option<FileHeader>, alumniId: string)

  /** The decision half of `HandleUpload`: refuse with an answer, or store the file for this alumnus. */
  datatype UploadPlan = Refuse(resp: Response) | Store(category: Category, target: ObjectId, header: FileHeader)

  /** The checks on the uploaded part alone, before anyone's identity is looked at. */
  function CheckContent(route: string, file: FileHeader): (r: Result<Category>)
    ensures r.Ok? <==> CategoryOf(route).Some? && file.size <= CategoryOf(route).value.maxSize
                       && file.contentType in CategoryOf(route).value.allowed
    ensures r.Ok? ==> CategoryOf(route) == Some(r.value)
    ensures CategoryOf(route).None? ==> r == Err(Message(UnknownRoute(route)))
    ensures CategoryOf(route).Some? && file.size > CategoryOf(route).value.maxSize ==>
      r == Err(Message(TooLarge(CategoryOf(route).value.maxSize)))
  {
    match CategoryOf(route)
    case None => Err(Message(UnknownRoute(route)))
    case Some(c) =>
      if file.size > c.maxSize then Err(Message(TooLarge(c.maxSize)))
      else if file.contentType !in c.allowed then Err(Message(WrongType))
      else Ok(c)
  }

  /** Whose alumni record the upload is for: the admin's named one, or the caller's own. */
  function UploadTarget(form: UploadForm, caller: Caller, alumni: set<ObjectId>, profiles: map<string, ObjectId>): (r: Result<ObjectId>)
    ensures caller.role == AdminRole ==>
      (r.Ok? <==> ObjectIdFromHex(form.alumniId).Some? && ObjectIdFromHex(form.alumniId).value in alumni)
    ensures caller.role == AdminRole && r.Ok? ==> Some(r.value) == ObjectIdFromHex(form.alumniId)
    ensures caller.role == AdminRole && form.alumniId == "" ==> r == Err(Message(AdminNeedsAlumniId))
    ensures caller.role != AdminRole ==> (r.Ok? <==> caller.userId in profiles)
    ensures caller.role != AdminRole && r.Ok? ==> r.value == profiles[caller.userId]
  {
    if caller.role == AdminRole then
      if form.alumniId == "" then Err(Message(AdminNeedsAlumniId))
      else
        match ObjectIdFromHex(form.alumniId)
        case None => Err(Message(BadAlumniId))
        case Some(id) => if id in alumni then Ok(id) else Err(NoRows)
    else if caller.userId in profiles then Ok(profiles[caller.userId])
    else Err(NoRows)
  }

  function PlanUpload(route: string, form: UploadForm, caller: Caller, alumni: set<ObjectId>, profiles: map<string, ObjectId>): (p: UploadPlan)
    ensures p.Store? ==>
      form.file == Some(p.header) && CategoryOf(route) == Some(p.category)
      && p.header.size <= p.category.maxSize && p.header.contentType in p.category.allowed
    ensures p.Store? && caller.role == AdminRole ==> ObjectIdFromHex(form.alumniId) == Some(p.target) && p.target in alumni
    ensures p.Store? && caller.role != AdminRole ==> caller.userId in profiles && p.target == profiles[caller.userId]
    ensures p.Refuse? ==> p.resp.status in {400, 403, 404, 500}
    ensures form.file.None? ==> p == Refuse(Response(400, NoFile))
    ensures form.file.Some? && CategoryOf(route).None? ==> p == Refuse(Response(500, UnknownRoute(route)))
    ensures form.file.Some? && CategoryOf(route).Some? ==>
      var c, f := CategoryOf(route).value, form.file.value;
      (f.size > c.maxSize ==> p == Refuse(Response(400, TooLarge(c.maxSize))))
      && (f.size <= c.maxSize && f.contentType !in c.allowed ==> p == Refuse(Response(400, WrongType)))
    ensures form.file.Some? && CheckContent(route, form.file.value).Ok? && caller.role == AdminRole ==>
      var parsed := ObjectIdFromHex(form.alumniId);
      (form.alumniId == "" ==> p == Refuse(Response(400, AdminNeedsAlumniId)))
      && (form.alumniId != "" && parsed.None? ==> p == Refuse(Response(400, BadAlumniId)))
      && (parsed.Some? && parsed.value !in alumni ==> p == Refuse(Response(404, AlumniMissing)))
    ensures form.file.Some? && CheckContent(route, form.file.value).Ok? && caller.role != AdminRole ==>
      caller.userId !in profiles ==> p == Refuse(Response(403, NoProfileToUpload))
  {
    if form.file.None? then Refuse(Response(400, NoFile))
    else
      match CheckContent(route, form.file.value)
      case Err(e) =>
        Refuse(Response(if CategoryOf(route).None? then 500 else 400, ErrorText(e)))
      case Ok(c) =>
        match UploadTarget(form, caller, alumni, profiles)
        case Ok(id) => Store(c, id, form.file.value)
        case Err(e) =>
          if caller.role != AdminRole then Refuse(Response(403, NoProfileToUpload))
          else if e == NoRows then Refuse(Response(404, AlumniMissing))
          else Refuse(Response(400, ErrorText(e)))
  }

  /**
   * The size bound is inclusive: a file of exactly the limit passes the
   * size check, one byte more is refused with the size message.
   */
  lemma SizeBoundInclusive(route: string, file: FileHeader)
    requires CategoryOf(route).Some? && file.contentType in CategoryOf(route).value.allowed
    ensures file.size == CategoryOf(route).value.maxSize ==> CheckContent(route, file) == Ok(CategoryOf(route).value)
    ensures file.size == CategoryOf(route).value.maxSize + 1 ==>
      CheckContent(route, file) == Err(Message(TooLarge(CategoryOf(route).value.maxSize)))
  {
  }

  /**
   * Size and type are checked before authorization: a file the category
   * refuses gets the same 400 whoever sends it and whatever the alumni
   * records hold.
   */
  lemma ContentCheckedFirst(
    route: string, form: UploadForm, caller: Caller, alumni: set<ObjectId>, profiles: map<string, ObjectId>,
    other: Caller, otherAlumni: set<ObjectId>, otherProfiles: map<string, ObjectId>)
    requires form.file.Some? && CategoryOf(route).Some? && CheckContent(route, form.file.value).Err?
    ensures PlanUpload(route, form, caller, alumni, profiles) == PlanUpload(route, form, other, otherAlumni, otherProfiles)
    ensures PlanUpload(route, form, caller, alumni, profiles).resp.status == 400
  {
  }

  /** An upload is stored exactly when the part, the route, the size, the type and the target all check out. */
  lemma UploadStoredIff(route: string, form: UploadForm, caller: Caller, alumni: set<ObjectId>, profiles: map<string, ObjectId>)
    ensures PlanUpload(route, form, caller, alumni, profiles).Store? <==>
      form.file.Some? && CategoryOf(route).Some?
      && form.file.value.size <= CategoryOf(route).value.maxSize
      && form.file.value.contentType in CategoryOf(route).value.allowed
      && (if caller.role == AdminRole
          then ObjectIdFromHex(form.alumniId).Some? && ObjectIdFromHex(form.alumniId).value in alumni
          else caller.userId in profiles)
  {
  }

  /** A non-admin's `alumni_id` field is ignored: the upload always goes to their own record. */
  lemma UserAlumniIdIgnored(route: string, form: UploadForm, alumniId: string, caller: Caller, alumni: set<ObjectId>, profiles: map<string, ObjectId>)
    requires caller.role != AdminRole
    ensures PlanUpload(route, form, caller, alumni, profiles)
         == PlanUpload(route, form.(alumniId := alumniId), caller, alumni, profiles)
  {
  }

  /**
   * The access check of the list and delete handlers: an admin may act on
   * any record, anyone else only on their own. `None` lets the handler go on.
   */
  function OwnerCheck(caller: Caller, profiles: map<string, ObjectId>, alumniId: ObjectId, notOwned: string): (r: Option<Response>)
    ensures r.None? <==> caller.role == AdminRole || (caller.userId in profiles && profiles[caller.userId] == alumniId)
    ensures r.Some? ==> r.value.status == 403
  {
    if caller.role == AdminRole then None
    else if caller.userId !in profiles then Some(Response(403, NoProfile))
    else if profiles[caller.userId] != alumniId then Some(Response(403, notOwned))
    else None
  }

  /**
   * What a non-admin uploads lands on a record they may afterwards list and
   * delete files of.
   */
  lemma UploadsAreOwned(route: string, form: UploadForm, caller: Caller, alumni: set<ObjectId>, profiles: map<string, ObjectId>)
    requires PlanUpload(route, form, caller, alumni, profiles).Store?
    ensures var target := PlanUpload(route, form, caller, alumni, profiles).target;
      OwnerCheck(caller, profiles, target, OnlyOwnList).None? && OwnerCheck(caller, profiles, target, OnlyOwnDelete).None?
  {
  }

  /** `filepath.Ext`: the suffix from the last dot of the last path element, or nothing. */
  function Ext(path: string): (e: string)
    ensures |e| <= |path| && e == path[|path| - |e|..]
    ensures e == "" || (e[0] == '.' && '.' !in e[1..] && '/' !in e)
  {
    if path == [] || path[|path| - 1] == '/' then ""
    else if path[|path| - 1] == '.' then "."
    else
      var e := Ext(path[..|path| - 1]);
      if e == "" then "" else e + [path[|path| - 1]]
  }

  /** A name ending in a dot and a dot-free, slash-free suffix has that suffix as its extension. */
  lemma {:induction false} ExtOfName(stem: string, ext: string)
    requires '.' !in ext && '/' !in ext
    ensures Ext(stem + "." + ext) == "." + ext
    decreases |ext|
  {
    var path := stem + "." + ext;
    if ext != [] {
      var init := ext[..|ext| - 1];
      assert path[..|path| - 1] == stem + "." + init;
      assert path[|path| - 1] == ext[|ext| - 1];
      ExtOfName(stem, init);
      assert "." + init + [ext[|ext| - 1]] == "." + ext;
    }
  }

  // ---------------------------------------------------------------- state

  /** A document of the `files` collection. */
  datatype File = File(
    id: ObjectId,
    alumniId: ObjectId,
    category: string,
    fileName: string,
    originalName: string,
    filePath: string,
    size: int,
    fileType: string,
    uploadedAt: int)

  /** The metadata the upload handler stores for a planned upload. */
  function StoredFile(id: ObjectId, c: Category, target: ObjectId, header: FileHeader, uuid: string, now: int): (f: File)
    ensures f.id == id && f.alumniId == target && f.category == c.name
    ensures f.filePath == c.uploadDir + "/" + f.fileName && f.fileName == uuid + Ext(header.filename)
    ensures f.originalName == header.filename && f.size == header.size && f.fileType == header.contentType
  {
    var name := uuid + Ext(header.filename);
    File(id, target, c.name, name, header.filename, c.uploadDir + "/" + name, header.size, header.contentType, now)
  }

  /** The ids of the stored files that belong to an alumnus. */
  function FileIdsOf(files: map<ObjectId, File>, alumniId: ObjectId): set<ObjectId>
  {
    set id | id in files && files[id].alumniId == alumniId
  }

  class FileStore {
    /** The `files` collection. */
    var files: map<ObjectId, File>
    /** The paths of the files on disk. */
    var disk: set<string>
    /** The ids of the alumni records that exist. */
    var alumni: set<ObjectId>
    /** Each user's own alumni record. */
    var profiles: map<string, ObjectId>

    ghost predicate Valid()
      reads this
    {
      forall id :: id in files ==> files[id].id == id
    }

    constructor (alumni: set<ObjectId>, profiles: map<string, ObjectId>)
      ensures Valid() && files == map[] && disk == {}
      ensures this.alumni == alumni && this.profiles == profiles
    {
      files := map[];
      disk := {};
      this.alumni := alumni;
      this.profiles := profiles;
    }

    /**
     * `HandleUpload`. `uuid` names the stored file and `newId` is the id the
     * collection gives the document; `dirOk`, `saveOk` and `insertOk` are the
     * outcomes of creating the directory, writing the file and inserting the
     * metadata. A failed insert removes the written file again.
     */
    method HandleUpload(
      route: string, form: UploadForm, caller: Caller,
      uuid: string, newId: ObjectId, now: int, dirOk: bool, saveOk: bool, insertOk: bool)
      returns (resp: Response, saved: Option<File>)
      requires Valid() && newId !in files
      modifies this
      ensures Valid() && alumni == old(alumni) && profiles == old(profiles)
      ensures var plan := PlanUpload(route, form, caller, alumni, profiles);
        plan.Refuse? ==> resp == plan.resp && saved.None? && files == old(files) && disk == old(disk)
      ensures resp.status == 201 <==> PlanUpload(route, form, caller, alumni, profiles).Store? && dirOk && saveOk && insertOk
      ensures resp.status == 201 ==>
        var plan := PlanUpload(route, form, caller, alumni, profiles);
        var f := StoredFile(newId, plan.category, plan.target, plan.header, uuid, now);
        saved == Some(f) && files == old(files)[newId := f] && disk == old(disk) + {f.filePath}
      ensures resp.status != 201 ==> saved.None? && files == old(files)
      ensures resp.status != 201 && PlanUpload(route, form, caller, alumni, profiles).Store? ==>
        resp.status == 500 && disk <= old(disk)
    {
      var plan := PlanUpload(route, form, caller, alumni, profiles);
      if plan.Refuse? {
        return plan.resp, None;
      }
      var f := StoredFile(newId, plan.category, plan.target, plan.header, uuid, now);
      resp, saved := SaveUpload(f, dirOk, saveOk, insertOk);
    }

    /**
     * The side effects of an upload that passed every check: create the
     * directory, write the file, insert its metadata, and remove the file
     * again when the insert fails.
     */
    method SaveUpload(f: File, dirOk: bool, saveOk: bool, insertOk: bool) returns (resp: Response, saved: Option<File>)
      requires Valid() && f.id !in files
      modifies this
      ensures Valid() && alumni == old(alumni) && profiles == old(profiles)
      ensures resp.status == 201 <==> dirOk && saveOk && insertOk
      ensures resp.status == 201 ==>
        resp.message == "File berhasil di-upload" && saved == Some(f)
        && files == old(files)[f.id := f] && disk == old(disk) + {f.filePath}
      ensures resp.status != 201 ==> resp.status == 500 && saved.None? && files == old(files) && disk <= old(disk)
      ensures dirOk && saveOk && !insertOk ==> disk == old(disk) - {f.filePath}
    {
      if !dirOk {
        return Response(500, "Gagal membuat direktori upload"), None;
      }
      if !saveOk {
        return Response(500, "Gagal menyimpan file ke server"), None;
      }
      disk := disk + {f.filePath};
      if !insertOk {
        disk := disk - {f.filePath};
        return Response(500, "Gagal menyimpan metadata file ke database"), None;
      }
      files := files[f.id := f];
      resp, saved := Response(201, "File berhasil di-upload"), Some(f);
    }

    /**
     * `HandleGetFilesByAlumni`: the files of one alumnus, for an admin or
     * for that alumnus's own user.
     */
    method HandleGetFilesByAlumni(alumniIdParam: string, caller: Caller) returns (resp: Response, list: seq<File>)
      requires Valid()
      ensures ObjectIdFromHex(alumniIdParam).None? ==> resp == Response(400, BadListId) && list == []
      ensures ObjectIdFromHex(alumniIdParam).Some? ==>
        var target := ObjectIdFromHex(alumniIdParam).value;
        var check := OwnerCheck(caller, profiles, target, OnlyOwnList);
        (check.Some? ==> resp == check.value && list == [])
        && (check.None? ==> resp == Response(200, "Data file berhasil diambil") && |list| == |FileIdsOf(files, target)|)
      ensures forall i :: 0 <= i < |list| ==>
        list[i].id in files && files[list[i].id] == list[i] && Some(list[i].alumniId) == ObjectIdFromHex(alumniIdParam)
      ensures forall i, j :: 0 <= i < j < |list| ==> list[i].id != list[j].id
    {
      var target := ObjectIdFromHex(alumniIdParam);
      if target.None? {
        return Response(400, BadListId), [];
      }
      var check := OwnerCheck(caller, profiles, target.value, OnlyOwnList);
      if check.Some? {
        return check.value, [];
      }
      list := FilesOf(target.value);
      resp := Response(200, "Data file berhasil diambil");
    }

    /** `GetByAlumniID`: every stored file of the alumnus, in an order the model leaves open. */
    method FilesOf(alumniId: ObjectId) returns (list: seq<File>)
      requires Valid()
      ensures |list| == |FileIdsOf(files, alumniId)|
      ensures forall i :: 0 <= i < |list| ==>
        list[i].id in files && files[list[i].id] == list[i] && list[i].alumniId == alumniId
      ensures forall i, j :: 0 <= i < j < |list| ==> list[i].id != list[j].id
    {
      var remaining := files.Keys;
      list := [];
      ghost var taken: set<ObjectId> := {};
      while remaining != {}
        invariant remaining <= files.Keys
        invariant forall k :: k in taken <==> k in files && k !in remaining && files[k].alumniId == alumniId
        invariant |list| == |taken|
        invariant forall i :: 0 <= i < |list| ==>
          list[i].id in taken && files[list[i].id] == list[i] && list[i].alumniId == alumniId
        invariant forall i, j :: 0 <= i < j < |list| ==> list[i].id != list[j].id
        decreases |remaining|
      {
        var id := Pick(remaining);
        if files[id].alumniId == alumniId {
          list := list + [files[id]];
          taken := taken + {id};
        }
        remaining := remaining - {id};
      }
      assert forall k :: k in FileIdsOf(files, alumniId) <==> k in taken;
      assert taken == FileIdsOf(files, alumniId);
    }

    /**
     * `HandleDeleteFile`: 404 for an unknown file, 403 for someone else's
     * file, otherwise the metadata is deleted. `removeOk` is the outcome of
     * removing the file from disk; a failure there is only logged.
     */
    method HandleDeleteFile(fileIdParam: string, caller: Caller, removeOk: bool) returns (resp: Response)
      requires Valid()
      modifies this
      ensures Valid() && alumni == old(alumni) && profiles == old(profiles)
      ensures var id := ObjectIdFromHex(fileIdParam);
        (id.None? || id.value !in old(files)) ==> resp == Response(404, FileMissing)
      ensures resp.status == 200 <==>
        var id := ObjectIdFromHex(fileIdParam);
        id.Some? && id.value in old(files) && OwnerCheck(caller, profiles, old(files)[id.value].alumniId, OnlyOwnDelete).None?
      ensures resp.status == 200 ==>
        var id := ObjectIdFromHex(fileIdParam).value;
        files == old(files) - {id}
        && disk == (if removeOk then old(disk) - {old(files)[id].filePath} else old(disk))
      ensures resp.status != 200 ==> files == old(files) && disk == old(disk)
    {
      var id := ObjectIdFromHex(fileIdParam);
      if id.None? || id.value !in files {
        return Response(404, FileMissing);
      }
      var file := files[id.value];
      var check := OwnerCheck(caller, profiles, file.alumniId, OnlyOwnDelete);
      if check.Some? {
        return check.value;
      }
      if removeOk {
        disk := disk - {file.filePath};
      }
      files := files - {id.value};
      resp := Response(200, "File berhasil dihapus");
    }
  }
}

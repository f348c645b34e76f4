/**
 * The four request validators of helper/validation.go. Each one runs a fixed
 * list of checks in a fixed order, appends the message of every check that
 * fails, and reports the messages joined by ", " (nil when no check failed).
 *
 * The specification of a validator is its check table: `FailedMessages`
 * keeps, in order, the message of each failing check, and `Verdict` turns
 * that list into the validator's result.
 */
module Validation {
  import opened Common
  import Text

  const NimRequired := "NIM is required"
  const NamaRequired := "Nama is required"
  const JurusanRequired := "Jurusan is required"
  const EmailRequired := "Email is required"
  const AngkatanPositive := "Angkatan must be greater than 0"
  const TahunLulusPositive := "Tahun lulus must be greater than 0"
  const TahunLulusNotEarlier := "Tahun lulus cannot be earlier than angkatan"

  const AlumniIdRequired := "Alumni ID is required"
  const NamaPerusahaanRequired := "Nama perusahaan is required"
  const PosisiJabatanRequired := "Posisi jabatan is required"
  const BidangIndustriRequired := "Bidang industri is required"
  const LokasiKerjaRequired := "Lokasi kerja is required"
  const TanggalMulaiRequired := "Tanggal mulai kerja is required"
  const StatusRequired := "Status pekerjaan is required"
  const StatusMustBe := "Status pekerjaan must be 'aktif', 'selesai', or 'resigned'"

  const Separator := ", "

  /** One rule of a validator: whether it failed, and the message it adds if so. */
  datatype Check = Check(failed: bool, message: string)

  /** The message list after running check `c` on top of `errors`. */
  function Appended(errors: seq<string>, c: Check): (r: seq<string>)
    ensures |r| == |errors| + (if c.failed then 1 else 0)
    ensures r[..|errors|] == errors
    ensures c.failed ==> r[|errors|] == c.message
  {
    if c.failed then errors + [c.message] else errors
  }

  /** The messages of the failing checks, in check order. */
  function FailedMessages(checks: seq<Check>): seq<string>
  {
    if checks == [] then []
    else Appended(FailedMessages(checks[..|checks| - 1]), checks[|checks| - 1])
  }

  /** What a validator returns: nil when no check failed, otherwise the joined messages. */
  function Verdict(checks: seq<Check>): Option<string>
  {
    var messages := FailedMessages(checks);
    if |messages| > 0 then Some(Text.Join(messages, Separator)) else None
  }

  /** Appending one check appends its message exactly when it fails. */
  lemma FailedMessagesSnoc(checks: seq<Check>, c: Check)
    ensures FailedMessages(checks + [c]) == Appended(FailedMessages(checks), c)
  {
    assert (checks + [c])[..|checks|] == checks;
  }

  /** No message at all exactly when every check passes. */
  lemma {:induction false} NoFailedMessages(checks: seq<Check>)
    ensures FailedMessages(checks) == [] <==> forall i :: 0 <= i < |checks| ==> !checks[i].failed
  {
    if checks != [] {
      var init := checks[..|checks| - 1];
      NoFailedMessages(init);
      assert forall i :: 0 <= i < |init| ==> init[i] == checks[i];
    }
  }

  /** A message is reported exactly when some check carrying it fails. */
  lemma {:induction false} FailedMessage(checks: seq<Check>, m: string)
    ensures m in FailedMessages(checks)
        <==> exists i :: 0 <= i < |checks| && checks[i].failed && checks[i].message == m
  {
    if checks != [] {
      var init := checks[..|checks| - 1];
      FailedMessage(init, m);
      assert forall i :: 0 <= i < |init| ==> init[i] == checks[i];
    }
  }

  /** Every validator message starts with a capital letter; the services' own errors do not. */
  predicate Capitalised(m: string)
  {
    |m| > 0 && 'A' <= m[0] <= 'Z'
  }

  /** When every rule's message is capitalised, so is the joined verdict. */
  lemma VerdictCapitalised(checks: seq<Check>)
    requires forall i :: 0 <= i < |checks| ==> Capitalised(checks[i].message)
    ensures Verdict(checks).Some? ==> Capitalised(Verdict(checks).value)
  {
    var messages := FailedMessages(checks);
    if |messages| > 0 {
      FailedMessage(checks, messages[0]);
      Text.JoinStartsWithFirst(messages, Separator);
    }
  }

  /** The verdict of either job validator starts with a capital letter. */
  lemma PekerjaanVerdictsCapitalised(
    alumniId: string, namaPerusahaan: string, posisiJabatan: string, bidangIndustri: string,
    lokasiKerja: string, tanggalMulaiKerja: string, statusPekerjaan: string)
    ensures var v := Verdict(CreatePekerjaanChecks(alumniId, namaPerusahaan, posisiJabatan, bidangIndustri, lokasiKerja, tanggalMulaiKerja, statusPekerjaan));
      v.Some? ==> Capitalised(v.value)
    ensures var v := Verdict(UpdatePekerjaanChecks(namaPerusahaan, posisiJabatan, bidangIndustri, lokasiKerja, tanggalMulaiKerja, statusPekerjaan));
      v.Some? ==> Capitalised(v.value)
  {
    var t := UpdatePekerjaanChecks(namaPerusahaan, posisiJabatan, bidangIndustri, lokasiKerja, tanggalMulaiKerja, statusPekerjaan);
    var u := CreatePekerjaanChecks(alumniId, namaPerusahaan, posisiJabatan, bidangIndustri, lokasiKerja, tanggalMulaiKerja, statusPekerjaan);
    UpdatePekerjaanMessagesCapitalised(namaPerusahaan, posisiJabatan, bidangIndustri, lokasiKerja, tanggalMulaiKerja, statusPekerjaan);
    assert u[1..] == t;
    assert Capitalised(u[0].message);
    forall i | 0 <= i < |u|
      ensures Capitalised(u[i].message)
    {
      if i > 0 {
        assert u[i] == t[i - 1];
      }
    }
    VerdictCapitalised(u);
    VerdictCapitalised(t);
  }

  /** Every message of the job update rules starts with a capital letter. */
  lemma UpdatePekerjaanMessagesCapitalised(
    namaPerusahaan: string, posisiJabatan: string, bidangIndustri: string,
    lokasiKerja: string, tanggalMulaiKerja: string, statusPekerjaan: string)
    ensures var t := UpdatePekerjaanChecks(namaPerusahaan, posisiJabatan, bidangIndustri, lokasiKerja, tanggalMulaiKerja, statusPekerjaan);
      forall i :: 0 <= i < |t| ==> Capitalised(t[i].message)
  {
    var t := UpdatePekerjaanChecks(namaPerusahaan, posisiJabatan, bidangIndustri, lokasiKerja, tanggalMulaiKerja, statusPekerjaan);
    assert Capitalised(t[0].message) && Capitalised(t[1].message) && Capitalised(t[2].message)
      && Capitalised(t[3].message) && Capitalised(t[4].message) && Capitalised(t[5].message)
      && Capitalised(t[6].message);
  }

  /** The verdict of the alumni update validator starts with a capital letter. */
  lemma AlumniVerdictCapitalised(nama: string, jurusan: string, email: string, angkatan: int, tahunLulus: int)
    ensures var v := Verdict(UpdateAlumniChecks(nama, jurusan, email, angkatan, tahunLulus));
      v.Some? ==> Capitalised(v.value)
  {
    var t := UpdateAlumniChecks(nama, jurusan, email, angkatan, tahunLulus);
    assert Capitalised(t[0].message) && Capitalised(t[1].message) && Capitalised(t[2].message)
      && Capitalised(t[3].message) && Capitalised(t[4].message) && Capitalised(t[5].message);
    VerdictCapitalised(t);
  }

  /** A passing check in front changes nothing. */
  lemma {:induction false} PassingCheckFirst(c: Check, checks: seq<Check>)
    requires !c.failed
    ensures FailedMessages([c] + checks) == FailedMessages(checks)
  {
    if checks != [] {
      var init := checks[..|checks| - 1];
      PassingCheckFirst(c, init);
      assert ([c] + checks)[..|checks|] == [c] + init;
    }
  }

  /**
   * `if failed { errors = append(errors, message) }`: the step every
   * validator repeats once per rule.
   */
  method AppendIfFailed(errors: seq<string>, failed: bool, message: string) returns (r: seq<string>)
    ensures r == Appended(errors, Check(failed, message))
  {
    r := errors;
    if failed {
      r := r + [message];
    }
  }

  /** `if len(errors) > 0 { return fmt.Errorf(strings.Join(errors, ", ")) }; return nil`. */
  method Finish(errors: seq<string>) returns (err: Option<string>)
    ensures err.None? <==> errors == []
    ensures err.Some? ==> err.value == Text.Join(errors, Separator)
  {
    if |errors| > 0 {
      err := Some(Text.Join(errors, Separator));
    } else {
      err := None;
    }
  }

  /** The three job statuses the validators accept. */
  predicate ValidStatus(status: string)
  {
    status == "aktif" || status == "selesai" || status == "resigned"
  }

  /** Every alumni rule that both alumni validators share holds. */
  predicate AlumniFieldsValid(nama: string, jurusan: string, email: string, angkatan: int, tahunLulus: int)
  {
    nama != "" && jurusan != "" && email != "" && angkatan > 0 && tahunLulus > 0 && tahunLulus >= angkatan
  }

  /** Every job rule that both job validators share holds. */
  predicate JobFieldsValid(
    namaPerusahaan: string, posisiJabatan: string, bidangIndustri: string,
    lokasiKerja: string, tanggalMulaiKerja: string, statusPekerjaan: string)
  {
    namaPerusahaan != "" && posisiJabatan != "" && bidangIndustri != "" && lokasiKerja != ""
    && tanggalMulaiKerja != "" && ValidStatus(statusPekerjaan)
  }

  /** The rules of `ValidateUpdateAlumni`, in the order they run. */
  function UpdateAlumniChecks(nama: string, jurusan: string, email: string, angkatan: int, tahunLulus: int): seq<Check>
  {
    [Check(nama == "", NamaRequired)]
      + [Check(jurusan == "", JurusanRequired)]
      + [Check(email == "", EmailRequired)]
      + [Check(angkatan <= 0, AngkatanPositive)]
      + [Check(tahunLulus <= 0, TahunLulusPositive)]
      + [Check(tahunLulus < angkatan, TahunLulusNotEarlier)]
  }

  /** The rules of `ValidateCreateAlumni`: the NIM rule, then the update rules. */
  function CreateAlumniChecks(nim: string, nama: string, jurusan: string, email: string, angkatan: int, tahunLulus: int): seq<Check>
  {
    [Check(nim == "", NimRequired)]
      + [Check(nama == "", NamaRequired)]
      + [Check(jurusan == "", JurusanRequired)]
      + [Check(email == "", EmailRequired)]
      + [Check(angkatan <= 0, AngkatanPositive)]
      + [Check(tahunLulus <= 0, TahunLulusPositive)]
      + [Check(tahunLulus < angkatan, TahunLulusNotEarlier)]
  }

  /** The rules of `ValidateUpdatePekerjaan`, in the order they run. */
  function UpdatePekerjaanChecks(
    namaPerusahaan: string, posisiJabatan: string, bidangIndustri: string,
    lokasiKerja: string, tanggalMulaiKerja: string, statusPekerjaan: string): seq<Check>
  {
    [Check(namaPerusahaan == "", NamaPerusahaanRequired)]
      + [Check(posisiJabatan == "", PosisiJabatanRequired)]
      + [Check(bidangIndustri == "", BidangIndustriRequired)]
      + [Check(lokasiKerja == "", LokasiKerjaRequired)]
      + [Check(tanggalMulaiKerja == "", TanggalMulaiRequired)]
      + [Check(statusPekerjaan == "", StatusRequired)]
      + [Check(!ValidStatus(statusPekerjaan), StatusMustBe)]
  }

  /** The rules of `ValidateCreatePekerjaan`: the alumni id rule, then the update rules. */
  function CreatePekerjaanChecks(
    alumniId: string, namaPerusahaan: string, posisiJabatan: string, bidangIndustri: string,
    lokasiKerja: string, tanggalMulaiKerja: string, statusPekerjaan: string): seq<Check>
  {
    [Check(alumniId == "", AlumniIdRequired)]
      + [Check(namaPerusahaan == "", NamaPerusahaanRequired)]
      + [Check(posisiJabatan == "", PosisiJabatanRequired)]
      + [Check(bidangIndustri == "", BidangIndustriRequired)]
      + [Check(lokasiKerja == "", LokasiKerjaRequired)]
      + [Check(tanggalMulaiKerja == "", TanggalMulaiRequired)]
      + [Check(statusPekerjaan == "", StatusRequired)]
      + [Check(!ValidStatus(statusPekerjaan), StatusMustBe)]
  }

  /** Running the `CreateAlumni` rules one after the other gives their failed messages. */
  lemma {:induction false} RunCreateAlumni(nim: string, nama: string, jurusan: string, email: string, angkatan: int, tahunLulus: int)
    ensures
      var c1, c2, c3, c4, c5, c6, c7 :=
        Check(nim == "", NimRequired),
        Check(nama == "", NamaRequired),
        Check(jurusan == "", JurusanRequired),
        Check(email == "", EmailRequired),
        Check(angkatan <= 0, AngkatanPositive),
        Check(tahunLulus <= 0, TahunLulusPositive),
        Check(tahunLulus < angkatan, TahunLulusNotEarlier);
      FailedMessages(CreateAlumniChecks(nim, nama, jurusan, email, angkatan, tahunLulus)) == Appended(Appended(Appended(Appended(Appended(Appended(Appended([], c1), c2), c3), c4), c5), c6), c7)
  {
    var c1, c2, c3, c4, c5, c6, c7 :=
      Check(nim == "", NimRequired),
      Check(nama == "", NamaRequired),
      Check(jurusan == "", JurusanRequired),
      Check(email == "", EmailRequired),
      Check(angkatan <= 0, AngkatanPositive),
      Check(tahunLulus <= 0, TahunLulusPositive),
      Check(tahunLulus < angkatan, TahunLulusNotEarlier);
    assert [c1][..0] == [];
    FailedMessagesSnoc([c1], c2);
    FailedMessagesSnoc([c1] + [c2], c3);
    FailedMessagesSnoc([c1] + [c2] + [c3], c4);
    FailedMessagesSnoc([c1] + [c2] + [c3] + [c4], c5);
    FailedMessagesSnoc([c1] + [c2] + [c3] + [c4] + [c5], c6);
    FailedMessagesSnoc([c1] + [c2] + [c3] + [c4] + [c5] + [c6], c7);
  }

  /** No two rules of a table share a message. */
  predicate DistinctMessages(checks: seq<Check>)
  {
    forall j, k :: 0 <= j < k < |checks| ==> checks[j].message != checks[k].message
  }

  /** In a table of distinct messages, a rule's message is reported exactly when the rule fails. */
  lemma ReportedIffFailed(checks: seq<Check>, i: int)
    requires DistinctMessages(checks) && 0 <= i < |checks|
    ensures checks[i].message in FailedMessages(checks) <==> checks[i].failed
  {
    FailedMessage(checks, checks[i].message);
  }

  /** Checks run after a fixed prefix of messages leave that prefix in front. */
  lemma AppendedAfterPrefix(prefix: seq<string>, errors: seq<string>, c: Check)
    ensures Appended(prefix + errors, c) == prefix + Appended(errors, c)
  {
    if c.failed {
      assert prefix + errors + [c.message] == prefix + (errors + [c.message]);
    }
  }

  /** `ValidateCreateAlumni` returns nil exactly when NIM is present and every other rule holds. */
  lemma CreateAlumniAccepts(nim: string, nama: string, jurusan: string, email: string, angkatan: int, tahunLulus: int)
    ensures Verdict(CreateAlumniChecks(nim, nama, jurusan, email, angkatan, tahunLulus)).None?
        <==> nim != "" && AlumniFieldsValid(nama, jurusan, email, angkatan, tahunLulus)
  {
    RunCreateAlumni(nim, nama, jurusan, email, angkatan, tahunLulus);
  }

  /** `ValidateUpdateAlumni` returns nil exactly when every rule holds. */
  lemma UpdateAlumniAccepts(nama: string, jurusan: string, email: string, angkatan: int, tahunLulus: int)
    ensures Verdict(UpdateAlumniChecks(nama, jurusan, email, angkatan, tahunLulus)).None?
        <==> AlumniFieldsValid(nama, jurusan, email, angkatan, tahunLulus)
  {
    RunUpdateAlumni(nama, jurusan, email, angkatan, tahunLulus);
  }

  /** `ValidateCreatePekerjaan` returns nil exactly when the alumni id is present and every other rule holds. */
  lemma CreatePekerjaanAccepts(
    alumniId: string, namaPerusahaan: string, posisiJabatan: string, bidangIndustri: string,
    lokasiKerja: string, tanggalMulaiKerja: string, statusPekerjaan: string)
    ensures Verdict(CreatePekerjaanChecks(alumniId, namaPerusahaan, posisiJabatan, bidangIndustri, lokasiKerja, tanggalMulaiKerja, statusPekerjaan)).None?
        <==> alumniId != "" && JobFieldsValid(namaPerusahaan, posisiJabatan, bidangIndustri, lokasiKerja, tanggalMulaiKerja, statusPekerjaan)
  {
    RunCreatePekerjaan(alumniId, namaPerusahaan, posisiJabatan, bidangIndustri, lokasiKerja, tanggalMulaiKerja, statusPekerjaan);
  }

  /** `ValidateUpdatePekerjaan` returns nil exactly when every rule holds. */
  lemma UpdatePekerjaanAccepts(
    namaPerusahaan: string, posisiJabatan: string, bidangIndustri: string,
    lokasiKerja: string, tanggalMulaiKerja: string, statusPekerjaan: string)
    ensures Verdict(UpdatePekerjaanChecks(namaPerusahaan, posisiJabatan, bidangIndustri, lokasiKerja, tanggalMulaiKerja, statusPekerjaan)).None?
        <==> JobFieldsValid(namaPerusahaan, posisiJabatan, bidangIndustri, lokasiKerja, tanggalMulaiKerja, statusPekerjaan)
  {
    RunUpdatePekerjaan(namaPerusahaan, posisiJabatan, bidangIndustri, lokasiKerja, tanggalMulaiKerja, statusPekerjaan);
  }

  /**
   * The update validator never looks at NIM: the create validator reports
   * "NIM is required" first when NIM is empty, and otherwise exactly what
   * the update validator reports.
   */
  lemma UpdateAlumniSkipsNim(nim: string, nama: string, jurusan: string, email: string, angkatan: int, tahunLulus: int)
    ensures FailedMessages(CreateAlumniChecks(nim, nama, jurusan, email, angkatan, tahunLulus))
         == (if nim == "" then [NimRequired] else []) + FailedMessages(UpdateAlumniChecks(nama, jurusan, email, angkatan, tahunLulus))
  {
    RunCreateAlumni(nim, nama, jurusan, email, angkatan, tahunLulus);
    RunUpdateAlumni(nama, jurusan, email, angkatan, tahunLulus);
    var p: seq<string> := if nim == "" then [NimRequired] else [];
    var c1, c2, c3, c4, c5, c6 :=
      Check(nama == "", NamaRequired),
      Check(jurusan == "", JurusanRequired),
      Check(email == "", EmailRequired),
      Check(angkatan <= 0, AngkatanPositive),
      Check(tahunLulus <= 0, TahunLulusPositive),
      Check(tahunLulus < angkatan, TahunLulusNotEarlier);
    assert Appended([], Check(nim == "", NimRequired)) == p + [];
    AppendedAfterPrefix(p, [], c1);
    AppendedAfterPrefix(p, Appended([], c1), c2);
    AppendedAfterPrefix(p, Appended(Appended([], c1), c2), c3);
    AppendedAfterPrefix(p, Appended(Appended(Appended([], c1), c2), c3), c4);
    AppendedAfterPrefix(p, Appended(Appended(Appended(Appended([], c1), c2), c3), c4), c5);
    AppendedAfterPrefix(p, Appended(Appended(Appended(Appended(Appended([], c1), c2), c3), c4), c5), c6);
  }

  /**
   * The update validator never looks at the alumni id: the create validator
   * reports "Alumni ID is required" first when it is empty, and otherwise
   * exactly what the update validator reports.
   */
  lemma UpdatePekerjaanSkipsAlumniId(
    alumniId: string, namaPerusahaan: string, posisiJabatan: string, bidangIndustri: string,
    lokasiKerja: string, tanggalMulaiKerja: string, statusPekerjaan: string)
    ensures FailedMessages(CreatePekerjaanChecks(alumniId, namaPerusahaan, posisiJabatan, bidangIndustri, lokasiKerja, tanggalMulaiKerja, statusPekerjaan))
         == (if alumniId == "" then [AlumniIdRequired] else [])
            + FailedMessages(UpdatePekerjaanChecks(namaPerusahaan, posisiJabatan, bidangIndustri, lokasiKerja, tanggalMulaiKerja, statusPekerjaan))
  {
    RunCreatePekerjaan(alumniId, namaPerusahaan, posisiJabatan, bidangIndustri, lokasiKerja, tanggalMulaiKerja, statusPekerjaan);
    RunUpdatePekerjaan(namaPerusahaan, posisiJabatan, bidangIndustri, lokasiKerja, tanggalMulaiKerja, statusPekerjaan);
    var p: seq<string> := if alumniId == "" then [AlumniIdRequired] else [];
    var c1, c2, c3, c4, c5, c6, c7 :=
      Check(namaPerusahaan == "", NamaPerusahaanRequired),
      Check(posisiJabatan == "", PosisiJabatanRequired),
      Check(bidangIndustri == "", BidangIndustriRequired),
      Check(lokasiKerja == "", LokasiKerjaRequired),
      Check(tanggalMulaiKerja == "", TanggalMulaiRequired),
      Check(statusPekerjaan == "", StatusRequired),
      Check(!ValidStatus(statusPekerjaan), StatusMustBe);
    assert Appended([], Check(alumniId == "", AlumniIdRequired)) == p + [];
    AppendedAfterPrefix(p, [], c1);
    AppendedAfterPrefix(p, Appended([], c1), c2);
    AppendedAfterPrefix(p, Appended(Appended([], c1), c2), c3);
    AppendedAfterPrefix(p, Appended(Appended(Appended([], c1), c2), c3), c4);
    AppendedAfterPrefix(p, Appended(Appended(Appended(Appended([], c1), c2), c3), c4), c5);
    AppendedAfterPrefix(p, Appended(Appended(Appended(Appended(Appended([], c1), c2), c3), c4), c5), c6);
    AppendedAfterPrefix(p, Appended(Appended(Appended(Appended(Appended(Appended([], c1), c2), c3), c4), c5), c6), c7);
  }

  /** Each alumni rule adds its own message exactly when that rule is broken. */
  lemma UpdateAlumniMessages(nama: string, jurusan: string, email: string, angkatan: int, tahunLulus: int)
    ensures var m := FailedMessages(UpdateAlumniChecks(nama, jurusan, email, angkatan, tahunLulus));
      && (NamaRequired in m <==> nama == "")
      && (JurusanRequired in m <==> jurusan == "")
      && (EmailRequired in m <==> email == "")
      && (AngkatanPositive in m <==> angkatan <= 0)
      && (TahunLulusPositive in m <==> tahunLulus <= 0)
      && (TahunLulusNotEarlier in m <==> tahunLulus < angkatan)
  {
    var t := UpdateAlumniChecks(nama, jurusan, email, angkatan, tahunLulus);
    assert DistinctMessages(t);
    ReportedIffFailed(t, 0);
    ReportedIffFailed(t, 1);
    ReportedIffFailed(t, 2);
    ReportedIffFailed(t, 3);
    ReportedIffFailed(t, 4);
    ReportedIffFailed(t, 5);
  }

  /** Each job rule adds its own message exactly when that rule is broken. */
  lemma UpdatePekerjaanMessages(
    namaPerusahaan: string, posisiJabatan: string, bidangIndustri: string,
    lokasiKerja: string, tanggalMulaiKerja: string, statusPekerjaan: string)
    ensures var m := FailedMessages(UpdatePekerjaanChecks(namaPerusahaan, posisiJabatan, bidangIndustri, lokasiKerja, tanggalMulaiKerja, statusPekerjaan));
      && (NamaPerusahaanRequired in m <==> namaPerusahaan == "")
      && (PosisiJabatanRequired in m <==> posisiJabatan == "")
      && (BidangIndustriRequired in m <==> bidangIndustri == "")
      && (LokasiKerjaRequired in m <==> lokasiKerja == "")
      && (TanggalMulaiRequired in m <==> tanggalMulaiKerja == "")
      && (StatusRequired in m <==> statusPekerjaan == "")
      && (StatusMustBe in m <==> !ValidStatus(statusPekerjaan))
  {
    var t := UpdatePekerjaanChecks(namaPerusahaan, posisiJabatan, bidangIndustri, lokasiKerja, tanggalMulaiKerja, statusPekerjaan);
    assert DistinctMessages(t);
    ReportedIffFailed(t, 0);
    ReportedIffFailed(t, 1);
    ReportedIffFailed(t, 2);
    ReportedIffFailed(t, 3);
    ReportedIffFailed(t, 4);
    ReportedIffFailed(t, 5);
    ReportedIffFailed(t, 6);
  }

  /** An empty status is reported twice over: as missing, then as not one of the three values. */
  lemma EmptyStatusReportedTwice(
    namaPerusahaan: string, posisiJabatan: string, bidangIndustri: string,
    lokasiKerja: string, tanggalMulaiKerja: string)
    ensures var m := FailedMessages(UpdatePekerjaanChecks(namaPerusahaan, posisiJabatan, bidangIndustri, lokasiKerja, tanggalMulaiKerja, ""));
      |m| >= 2 && m[|m| - 2..] == [StatusRequired, StatusMustBe]
  {
    RunUpdatePekerjaan(namaPerusahaan, posisiJabatan, bidangIndustri, lokasiKerja, tanggalMulaiKerja, "");
  }

  /** A status outside the three values, with every other field valid, yields only the "must be" message. */
  lemma UnknownStatusAlone(
    namaPerusahaan: string, posisiJabatan: string, bidangIndustri: string,
    lokasiKerja: string, tanggalMulaiKerja: string, status: string)
    requires namaPerusahaan != "" && posisiJabatan != "" && bidangIndustri != ""
    requires lokasiKerja != "" && tanggalMulaiKerja != ""
    requires status != "" && !ValidStatus(status)
    ensures Verdict(UpdatePekerjaanChecks(namaPerusahaan, posisiJabatan, bidangIndustri, lokasiKerja, tanggalMulaiKerja, status))
         == Some(StatusMustBe)
  {
    RunUpdatePekerjaan(namaPerusahaan, posisiJabatan, bidangIndustri, lokasiKerja, tanggalMulaiKerja, status);
  }

  /** Messages come out in rule order. */
  lemma MessagesInRuleOrder()
    ensures FailedMessages(CreateAlumniChecks("", "", "Informatika", "a@b.id", 2018, 2017))
         == [NimRequired, NamaRequired, TahunLulusNotEarlier]
  {
    RunCreateAlumni("", "", "Informatika", "a@b.id", 2018, 2017);
  }

  /** `ValidateCreateAlumni`: NIM, name, programme and email required, both years positive, graduation not before cohort. */
  method ValidateCreateAlumni(nim: string, nama: string, jurusan: string, email: string, angkatan: int, tahunLulus: int)
    returns (err: Option<string>)
    ensures err == Verdict(CreateAlumniChecks(nim, nama, jurusan, email, angkatan, tahunLulus))
  {
    var errors: seq<string> := [];
    errors := AppendIfFailed(errors, nim == "", NimRequired);
    errors := AppendIfFailed(errors, nama == "", NamaRequired);
    errors := AppendIfFailed(errors, jurusan == "", JurusanRequired);
    errors := AppendIfFailed(errors, email == "", EmailRequired);
    errors := AppendIfFailed(errors, angkatan <= 0, AngkatanPositive);
    errors := AppendIfFailed(errors, tahunLulus <= 0, TahunLulusPositive);
    errors := AppendIfFailed(errors, tahunLulus < angkatan, TahunLulusNotEarlier);
    RunCreateAlumni(nim, nama, jurusan, email, angkatan, tahunLulus);
    err := Finish(errors);
  }

  /** Running the `UpdateAlumni` rules one after the other gives their failed messages. */
  lemma {:induction false} RunUpdateAlumni(nama: string, jurusan: string, email: string, angkatan: int, tahunLulus: int)
    ensures
      var c1, c2, c3, c4, c5, c6 :=
        Check(nama == "", NamaRequired),
        Check(jurusan == "", JurusanRequired),
        Check(email == "", EmailRequired),
        Check(angkatan <= 0, AngkatanPositive),
        Check(tahunLulus <= 0, TahunLulusPositive),
        Check(tahunLulus < angkatan, TahunLulusNotEarlier);
      FailedMessages(UpdateAlumniChecks(nama, jurusan, email, angkatan, tahunLulus)) == Appended(Appended(Appended(Appended(Appended(Appended([], c1), c2), c3), c4), c5), c6)
  {
    var c1, c2, c3, c4, c5, c6 :=
      Check(nama == "", NamaRequired),
      Check(jurusan == "", JurusanRequired),
      Check(email == "", EmailRequired),
      Check(angkatan <= 0, AngkatanPositive),
      Check(tahunLulus <= 0, TahunLulusPositive),
      Check(tahunLulus < angkatan, TahunLulusNotEarlier);
    assert [c1][..0] == [];
    FailedMessagesSnoc([c1], c2);
    FailedMessagesSnoc([c1] + [c2], c3);
    FailedMessagesSnoc([c1] + [c2] + [c3], c4);
    FailedMessagesSnoc([c1] + [c2] + [c3] + [c4], c5);
    FailedMessagesSnoc([c1] + [c2] + [c3] + [c4] + [c5], c6);
  }

  /** `ValidateUpdateAlumni`: the create rules without the NIM rule. */
  method ValidateUpdateAlumni(nama: string, jurusan: string, email: string, angkatan: int, tahunLulus: int)
    returns (err: Option<string>)
    ensures err == Verdict(UpdateAlumniChecks(nama, jurusan, email, angkatan, tahunLulus))
  {
    var errors: seq<string> := [];
    errors := AppendIfFailed(errors, nama == "", NamaRequired);
    errors := AppendIfFailed(errors, jurusan == "", JurusanRequired);
    errors := AppendIfFailed(errors, email == "", EmailRequired);
    errors := AppendIfFailed(errors, angkatan <= 0, AngkatanPositive);
    errors := AppendIfFailed(errors, tahunLulus <= 0, TahunLulusPositive);
    errors := AppendIfFailed(errors, tahunLulus < angkatan, TahunLulusNotEarlier);
    RunUpdateAlumni(nama, jurusan, email, angkatan, tahunLulus);
    err := Finish(errors);
  }

  /** Running the `CreatePekerjaan` rules one after the other gives their failed messages. */
  lemma {:induction false} RunCreatePekerjaan(
    alumniId: string, namaPerusahaan: string, posisiJabatan: string, bidangIndustri: string,
    lokasiKerja: string, tanggalMulaiKerja: string, statusPekerjaan: string)
    ensures
      var c1, c2, c3, c4, c5, c6, c7, c8 :=
        Check(alumniId == "", AlumniIdRequired),
        Check(namaPerusahaan == "", NamaPerusahaanRequired),
        Check(posisiJabatan == "", PosisiJabatanRequired),
        Check(bidangIndustri == "", BidangIndustriRequired),
        Check(lokasiKerja == "", LokasiKerjaRequired),
        Check(tanggalMulaiKerja == "", TanggalMulaiRequired),
        Check(statusPekerjaan == "", StatusRequired),
        Check(!ValidStatus(statusPekerjaan), StatusMustBe);
      FailedMessages(CreatePekerjaanChecks(alumniId, namaPerusahaan, posisiJabatan, bidangIndustri, lokasiKerja, tanggalMulaiKerja, statusPekerjaan)) == Appended(Appended(Appended(Appended(Appended(Appended(Appended(Appended([], c1), c2), c3), c4), c5), c6), c7), c8)
  {
    var c1, c2, c3, c4, c5, c6, c7, c8 :=
      Check(alumniId == "", AlumniIdRequired),
      Check(namaPerusahaan == "", NamaPerusahaanRequired),
      Check(posisiJabatan == "", PosisiJabatanRequired),
      Check(bidangIndustri == "", BidangIndustriRequired),
      Check(lokasiKerja == "", LokasiKerjaRequired),
      Check(tanggalMulaiKerja == "", TanggalMulaiRequired),
      Check(statusPekerjaan == "", StatusRequired),
      Check(!ValidStatus(statusPekerjaan), StatusMustBe);
    assert [c1][..0] == [];
    FailedMessagesSnoc([c1], c2);
    FailedMessagesSnoc([c1] + [c2], c3);
    FailedMessagesSnoc([c1] + [c2] + [c3], c4);
    FailedMessagesSnoc([c1] + [c2] + [c3] + [c4], c5);
    FailedMessagesSnoc([c1] + [c2] + [c3] + [c4] + [c5], c6);
    FailedMessagesSnoc([c1] + [c2] + [c3] + [c4] + [c5] + [c6], c7);
    FailedMessagesSnoc([c1] + [c2] + [c3] + [c4] + [c5] + [c6] + [c7], c8);
  }

  /** `ValidateCreatePekerjaan`: alumni id and the five text fields required, status one of the three values. */
  method ValidateCreatePekerjaan(
    alumniId: string, namaPerusahaan: string, posisiJabatan: string, bidangIndustri: string,
    lokasiKerja: string, tanggalMulaiKerja: string, statusPekerjaan: string)
    returns (err: Option<string>)
    ensures err == Verdict(CreatePekerjaanChecks(alumniId, namaPerusahaan, posisiJabatan, bidangIndustri, lokasiKerja, tanggalMulaiKerja, statusPekerjaan))
  {
    var errors: seq<string> := [];
    errors := AppendIfFailed(errors, alumniId == "", AlumniIdRequired);
    errors := AppendIfFailed(errors, namaPerusahaan == "", NamaPerusahaanRequired);
    errors := AppendIfFailed(errors, posisiJabatan == "", PosisiJabatanRequired);
    errors := AppendIfFailed(errors, bidangIndustri == "", BidangIndustriRequired);
    errors := AppendIfFailed(errors, lokasiKerja == "", LokasiKerjaRequired);
    errors := AppendIfFailed(errors, tanggalMulaiKerja == "", TanggalMulaiRequired);
    errors := AppendIfFailed(errors, statusPekerjaan == "", StatusRequired);
    errors := AppendIfFailed(errors, !ValidStatus(statusPekerjaan), StatusMustBe);
    RunCreatePekerjaan(alumniId, namaPerusahaan, posisiJabatan, bidangIndustri, lokasiKerja, tanggalMulaiKerja, statusPekerjaan);
    err := Finish(errors);
  }

  /** Running the `UpdatePekerjaan` rules one after the other gives their failed messages. */
  lemma {:induction false} RunUpdatePekerjaan(
    namaPerusahaan: string, posisiJabatan: string, bidangIndustri: string,
    lokasiKerja: string, tanggalMulaiKerja: string, statusPekerjaan: string)
    ensures
      var c1, c2, c3, c4, c5, c6, c7 :=
        Check(namaPerusahaan == "", NamaPerusahaanRequired),
        Check(posisiJabatan == "", PosisiJabatanRequired),
        Check(bidangIndustri == "", BidangIndustriRequired),
        Check(lokasiKerja == "", LokasiKerjaRequired),
        Check(tanggalMulaiKerja == "", TanggalMulaiRequired),
        Check(statusPekerjaan == "", StatusRequired),
        Check(!ValidStatus(statusPekerjaan), StatusMustBe);
      FailedMessages(UpdatePekerjaanChecks(namaPerusahaan, posisiJabatan, bidangIndustri, lokasiKerja, tanggalMulaiKerja, statusPekerjaan)) == Appended(Appended(Appended(Appended(Appended(Appended(Appended([], c1), c2), c3), c4), c5), c6), c7)
  {
    var c1, c2, c3, c4, c5, c6, c7 :=
      Check(namaPerusahaan == "", NamaPerusahaanRequired),
      Check(posisiJabatan == "", PosisiJabatanRequired),
      Check(bidangIndustri == "", BidangIndustriRequired),
      Check(lokasiKerja == "", LokasiKerjaRequired),
      Check(tanggalMulaiKerja == "", TanggalMulaiRequired),
      Check(statusPekerjaan == "", StatusRequired),
      Check(!ValidStatus(statusPekerjaan), StatusMustBe);
    assert [c1][..0] == [];
    FailedMessagesSnoc([c1], c2);
    FailedMessagesSnoc([c1] + [c2], c3);
    FailedMessagesSnoc([c1] + [c2] + [c3], c4);
    FailedMessagesSnoc([c1] + [c2] + [c3] + [c4], c5);
    FailedMessagesSnoc([c1] + [c2] + [c3] + [c4] + [c5], c6);
    FailedMessagesSnoc([c1] + [c2] + [c3] + [c4] + [c5] + [c6], c7);
  }

  /** `ValidateUpdatePekerjaan`: the create rules without the alumni id rule. */
  method ValidateUpdatePekerjaan(
    namaPerusahaan: string, posisiJabatan: string, bidangIndustri: string,
    lokasiKerja: string, tanggalMulaiKerja: string, statusPekerjaan: string)
    returns (err: Option<string>)
    ensures err == Verdict(UpdatePekerjaanChecks(namaPerusahaan, posisiJabatan, bidangIndustri, lokasiKerja, tanggalMulaiKerja, statusPekerjaan))
  {
    var errors: seq<string> := [];
    errors := AppendIfFailed(errors, namaPerusahaan == "", NamaPerusahaanRequired);
    errors := AppendIfFailed(errors, posisiJabatan == "", PosisiJabatanRequired);
    errors := AppendIfFailed(errors, bidangIndustri == "", BidangIndustriRequired);
    errors := AppendIfFailed(errors, lokasiKerja == "", LokasiKerjaRequired);
    errors := AppendIfFailed(errors, tanggalMulaiKerja == "", TanggalMulaiRequired);
    errors := AppendIfFailed(errors, statusPekerjaan == "", StatusRequired);
    errors := AppendIfFailed(errors, !ValidStatus(statusPekerjaan), StatusMustBe);
    RunUpdatePekerjaan(namaPerusahaan, posisiJabatan, bidangIndustri, lokasiKerja, tanggalMulaiKerja, statusPekerjaan);
    err := Finish(errors);
  }
}

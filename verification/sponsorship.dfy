/**
 * The report component (`reporte-resultados.ts`): the teacher list of the
 * selected career, the sponsorship code derived from a teacher's sequence
 * number, and the guards and file name of the sponsorship document.
 *
 * Filling the Word template (zip and OOXML handling) is outside the model:
 * whether it rendered is an argument, as is every remote outcome.
 */
module Sponsorship {
  import opened Common
  import opened Strings
  import opened Careers
  import opened Documents

  /**
   * A teacher (`Docente`). `sequence` is assigned by the server when the
   * teacher is created and is absent before.
   */
  datatype Teacher = Teacher(
    id: Option<string>,
    careerId: Option<string>,
    name: string,
    cedula: string,
    formation: string,
    program: string,
    status: string,
    period: string,
    sequence: Option<int>)

  // ---------------------------------------------------------------------
  // Sponsorship code
  // ---------------------------------------------------------------------

  const CodePrefix := "UGPA-RGI2-"
  const ProgramSegment := "-PRO134-"

  /** `n.toString().padStart(2, '0')`. */
  function TwoDigits(n: int): (r: string)
    ensures |r| >= 2
    ensures 0 <= n < 10 ==> r == ['0', DigitChar(n)]
    ensures n >= 10 ==> r == NatToString(n)
    ensures n >= 0 ==> AllDigits(r) && ParseNat(r) == n
  {
    var r := PadStart(IntToString(n), 2, '0');
    assert n >= 0 ==> AllDigits(r) && ParseNat(r) == n by {
      if n >= 0 {
        ParsePadded(n, 2);
      }
    }
    assert 0 <= n < 10 ==> NatToString(n) == [DigitChar(n)];
    r
  }

  /** `UGPA-RGI2-{sec}-PRO134-{year}-{mm}` with sequence and month padded to two digits. */
  function FormatCode(sequence: int, year: int, month: int): (r: string)
    ensures StartsWith(r, CodePrefix)
  {
    var rest := TwoDigits(sequence) + (ProgramSegment + (IntToString(year) + ("-" + TwoDigits(month))));
    StartsWithConcat(CodePrefix, rest);
    CodePrefix + rest
  }

  /** `docente?.secuencia` is truthy: a selected teacher with a non-zero sequence. */
  predicate HasSequence(t: Option<Teacher>) {
    t.Some? && t.value.sequence.Some? && t.value.sequence.value != 0
  }

  /**
   * `generarCodigo`: the code of the selected teacher for the given year and
   * month; with no teacher or no sequence the previous code stays.
   */
  function GenerateCode(teacher: Option<Teacher>, year: int, month: int, current: string): (r: string)
    ensures !HasSequence(teacher) ==> r == current
    ensures HasSequence(teacher) ==> r == FormatCode(teacher.value.sequence.value, year, month)
  {
    if HasSequence(teacher) then FormatCode(teacher.value.sequence.value, year, month) else current
  }

  /** The numbers a code was made from. */
  datatype CodeParts = CodeParts(sequence: nat, year: nat, month: nat)

  /** Reads a code back: prefix, padded sequence, program segment, year, dash, padded month. */
  function ParseCode(code: string): Option<CodeParts> {
    if StartsWith(code, CodePrefix) then ParseFromSequence(code[|CodePrefix|..]) else None
  }

  /**
   * The part of a code after its prefix. The sequence must be written as
   * `padStart(2, '0')` writes it: at least two digits, and a leading zero
   * only in a two-digit sequence.
   */
  function ParseFromSequence(rest: string): Option<CodeParts> {
    var sec := DigitPrefix(rest);
    var after := rest[|sec|..];
    if |sec| < 2 || (|sec| > 2 && sec[0] == '0') || !StartsWith(after, ProgramSegment) then None
    else
      match ParseYearMonth(after[|ProgramSegment|..])
      case None => None
      case Some(ym) => Some(CodeParts(ParseNat(sec), ym.0, ym.1))
  }

  /**
   * The year and month at the end of a code: the year without leading zeros,
   * as `toString` writes it, and the month padded like the sequence.
   */
  function ParseYearMonth(rest: string): Option<(nat, nat)> {
    var year := DigitPrefix(rest);
    var after := rest[|year|..];
    if year == [] || (|year| > 1 && year[0] == '0') || !StartsWith(after, "-") then None
    else
      var month := after[1..];
      if |month| < 2 || (|month| > 2 && month[0] == '0') || !AllDigits(month) then None
      else Some((ParseNat(year), ParseNat(month)))
  }

  lemma {:induction false} YearMonthRoundTrip(year: nat, month: nat)
    ensures ParseYearMonth(NatToString(year) + ("-" + TwoDigits(month))) == Some((year, month))
  {
    var y := NatToString(year);
    var tail := "-" + TwoDigits(month);
    DigitPrefixOf(y, tail);
    assert (y + tail)[|y|..] == tail;
    assert tail[1..] == TwoDigits(month);
    ParseNatToString(year);
  }

  lemma {:induction false} SequenceRoundTrip(sequence: nat, year: nat, month: nat)
    ensures ParseFromSequence(TwoDigits(sequence) + (ProgramSegment + (NatToString(year) + ("-" + TwoDigits(month)))))
         == Some(CodeParts(sequence, year, month))
  {
    var s := TwoDigits(sequence);
    var tail2 := NatToString(year) + ("-" + TwoDigits(month));
    var tail1 := ProgramSegment + tail2;
    DigitPrefixOf(s, tail1);
    assert (s + tail1)[|s|..] == tail1;
    assert tail1[..|ProgramSegment|] == ProgramSegment;
    assert tail1[|ProgramSegment|..] == tail2;
    YearMonthRoundTrip(year, month);
  }

  /** A code made from non-negative numbers reads back as those numbers. */
  lemma {:induction false} CodeRoundTrip(sequence: nat, year: nat, month: nat)
    ensures ParseCode(FormatCode(sequence, year, month)) == Some(CodeParts(sequence, year, month))
  {
    var rest := TwoDigits(sequence) + (ProgramSegment + (NatToString(year) + ("-" + TwoDigits(month))));
    var code := FormatCode(sequence, year, month);
    assert code == CodePrefix + rest;
    assert code[|CodePrefix|..] == rest;
    SequenceRoundTrip(sequence, year, month);
  }

  /** Two codes are equal exactly when they are made from the same numbers. */
  lemma CodeInjective(a: CodeParts, b: CodeParts)
    ensures FormatCode(a.sequence, a.year, a.month) == FormatCode(b.sequence, b.year, b.month) <==> a == b
  {
    CodeRoundTrip(a.sequence, a.year, a.month);
    CodeRoundTrip(b.sequence, b.year, b.month);
  }

  /** The sequence part: a one-digit sequence gains a leading zero; a longer one is never cut. */
  lemma SequencePadding(sequence: int)
    requires sequence >= 1
    ensures TwoDigits(sequence) == (if sequence < 10 then "0" else "") + NatToString(sequence)
  {
    if sequence < 10 {
      assert NatToString(sequence) == [DigitChar(sequence)];
    } else {
      assert "" + NatToString(sequence) == NatToString(sequence);
    }
  }

  /** A one-digit sequence and month are zero-padded. */
  lemma ShortCodeExample()
    ensures FormatCode(7, 2025, 3) == "UGPA-RGI2-07-PRO134-2025-03"
  {
    assert TwoDigits(7) == "07" && TwoDigits(3) == "03";
    assert NatToString(2025) == "2025";
  }

  /** A code whose sequence and month are not padded does not read back. */
  lemma UnpaddedCodeRejected()
    ensures ParseFromSequence("7-PRO134-2025-03") == None
    ensures ParseYearMonth("2025-3") == None
  {
    assert DigitPrefix("7-PRO134-2025-03") == "7";
    assert DigitPrefix("2025-3") == "2025";
  }

  /** The sequence part: 7 becomes `07`, and 123 stays `123` rather than being cut to two digits. */
  lemma SequenceExamples()
    ensures TwoDigits(7) == "07"
    ensures TwoDigits(123) == "123"
  {
    assert TwoDigits(123) == "123" by { assert NatToString(123) == "123"; }
  }

  // ---------------------------------------------------------------------
  // The component's fields
  // ---------------------------------------------------------------------

  /** The teacher form's inputs. */
  datatype TeacherForm = TeacherForm(name: string, cedula: string, formation: string, program: string, status: string, period: string)

  /** The form after `limpiarFormulario`. */
  const EmptyTeacherForm := TeacherForm("", "", "", "", "", "")

  /** The report component's fields that the modelled handlers read or write. */
  datatype Report = Report(
    career: Option<Career>,        // carreraSeleccionada
    teachers: seq<Teacher>,        // docentes of that career
    editing: Option<Teacher>,      // docenteEditando
    form: TeacherForm,
    sponsorOpen: bool,             // modalPatrocinioAbierto
    teacher: Option<Teacher>,      // docenteSeleccionado
    training: Option<Training>,    // capacitacionSeleccionada
    template: Option<Document>,    // plantillaSeleccionada
    year: int,
    month: int,
    code: string,                  // codigoGenerado
    generating: bool)              // generandoDocumento

  // ---------------------------------------------------------------------
  // Teacher list
  // ---------------------------------------------------------------------

  /**
   * The record `guardarDocente` sends: absent when no career is selected
   * or the name is blank; otherwise the trimmed fields and the career's id.
   */
  function TeacherRecord(career: Option<Career>, form: TeacherForm): (r: Option<Teacher>)
    ensures r.Some? <==> career.Some? && !IsBlank(form.name)
    ensures r.Some? ==>
      && r.value.careerId == career.value.id
      && Filled(r.value.name)
      && r.value.name == Trim(form.name) && r.value.cedula == Trim(form.cedula)
      && r.value.formation == Trim(form.formation) && r.value.program == Trim(form.program)
      && r.value.status == Trim(form.status) && r.value.period == Trim(form.period)
      && r.value.id.None? && r.value.sequence.None?
  {
    TrimmedField(form.name);
    if career.None? || IsBlank(form.name) then None
    else Some(Teacher(None, career.value.id, Trim(form.name), Trim(form.cedula), Trim(form.formation),
                      Trim(form.program), Trim(form.status), Trim(form.period), None))
  }

  /** `findIndex(d => d.id === id)`: the first position holding that id, or -1. */
  function FirstIndexOf(teachers: seq<Teacher>, id: Option<string>): (r: int)
    ensures -1 <= r < |teachers|
    ensures r == -1 <==> forall i | 0 <= i < |teachers| :: teachers[i].id != id
    ensures r >= 0 ==> teachers[r].id == id && forall j | 0 <= j < r :: teachers[j].id != id
    decreases |teachers|
  {
    if teachers == [] then -1
    else if teachers[0].id == id then 0
    else
      var k := FirstIndexOf(teachers[1..], id);
      if k == -1 then -1 else k + 1
  }

  /**
   * The list after an update succeeds: the first teacher with the edited
   * id replaced by the server's copy; the list as it was when none has it.
   */
  function ReplaceFirst(teachers: seq<Teacher>, id: Option<string>, updated: Teacher): (r: seq<Teacher>)
    ensures |r| == |teachers|
    ensures (forall i | 0 <= i < |teachers| :: teachers[i].id != id) ==> r == teachers
    ensures var k := FirstIndexOf(teachers, id);
      k >= 0 ==> r[k] == updated && forall j | 0 <= j < |teachers| && j != k :: r[j] == teachers[j]
  {
    var k := FirstIndexOf(teachers, id);
    if k == -1 then teachers else teachers[k := updated]
  }

  /** `filter(d => d.id !== id)`: every teacher with that id goes, the rest keep their order. */
  function RemoveTeacher(teachers: seq<Teacher>, id: string): (r: seq<Teacher>)
    ensures |r| <= |teachers|
    ensures forall t :: t in r <==> t in teachers && t.id != Some(id)
    decreases |teachers|
  {
    if teachers == [] then []
    else
      var rest := RemoveTeacher(teachers[1..], id);
      assert forall t :: t in teachers <==> t == teachers[0] || t in teachers[1..];
      if teachers[0].id == Some(id) then rest else [teachers[0]] + rest
  }

  /** How many teachers carry the id. */
  function CountWithId(teachers: seq<Teacher>, id: string): nat
    decreases |teachers|
  {
    if teachers == [] then 0
    else (if teachers[0].id == Some(id) then 1 else 0) + CountWithId(teachers[1..], id)
  }

  /** Removal keeps order: removing from a concatenation removes from each part. */
  lemma {:induction false} RemoveTeacherSplits(a: seq<Teacher>, b: seq<Teacher>, id: string)
    ensures RemoveTeacher(a + b, id) == RemoveTeacher(a, id) + RemoveTeacher(b, id)
    decreases |a|
  {
    if a == [] {
      assert a + b == b;
    } else {
      assert (a + b)[1..] == a[1..] + b;
      RemoveTeacherSplits(a[1..], b, id);
    }
  }

  /** Exactly the teachers carrying the id are dropped. */
  lemma {:induction false} RemoveTeacherCount(teachers: seq<Teacher>, id: string)
    ensures |RemoveTeacher(teachers, id)| == |teachers| - CountWithId(teachers, id)
    decreases |teachers|
  {
    if teachers != [] {
      RemoveTeacherCount(teachers[1..], id);
    }
  }

  /** Removing twice is removing once. */
  lemma {:induction false} RemoveTeacherIdempotent(teachers: seq<Teacher>, id: string)
    ensures RemoveTeacher(RemoveTeacher(teachers, id), id) == RemoveTeacher(teachers, id)
    decreases |teachers|
  {
    if teachers != [] {
      RemoveTeacherIdempotent(teachers[1..], id);
      var rest := RemoveTeacher(teachers[1..], id);
      if teachers[0].id != Some(id) {
        assert ([teachers[0]] + rest)[1..] == rest;
      }
    }
  }

  /** The request `guardarDocente` makes: create, or update under the edited teacher's id. */
  datatype TeacherCall = CreateTeacher(record: Teacher) | UpdateTeacher(id: Option<string>, record: Teacher)

  function TeacherCallOf(st: Report): (r: Option<TeacherCall>)
    ensures r.Some? <==> TeacherRecord(st.career, st.form).Some?
    ensures r.Some? && st.editing.None? ==> r.value == CreateTeacher(TeacherRecord(st.career, st.form).value)
    ensures r.Some? && st.editing.Some? ==>
      r.value == UpdateTeacher(st.editing.value.id, TeacherRecord(st.career, st.form).value)
  {
    match TeacherRecord(st.career, st.form)
    case None => None
    case Some(t) => Some(if st.editing.Some? then UpdateTeacher(st.editing.value.id, t) else CreateTeacher(t))
  }

  /**
   * `guardarDocente` with the server's answer: a created teacher is
   * appended, an updated one replaces the first teacher with its id, and
   * the form is cleared; a refused or failed call changes nothing.
   */
  function SaveTeacher(st: Report, outcome: Remote<Teacher>): (r: Report)
    ensures TeacherCallOf(st).None? || outcome.Err? ==> r == st
    ensures TeacherCallOf(st).Some? && outcome.Ok? && st.editing.None? ==>
      r == st.(teachers := st.teachers + [outcome.value], form := EmptyTeacherForm)
    ensures TeacherCallOf(st).Some? && outcome.Ok? && st.editing.Some? ==>
      r == st.(teachers := ReplaceFirst(st.teachers, st.editing.value.id, outcome.value),
               editing := None, form := EmptyTeacherForm)
  {
    if TeacherCallOf(st).None? then st
    else match outcome
      case Err(_, _) => st
      case Ok(saved) =>
        if st.editing.Some? then
          st.(teachers := ReplaceFirst(st.teachers, st.editing.value.id, saved), editing := None, form := EmptyTeacherForm)
        else
          st.(teachers := st.teachers + [saved], form := EmptyTeacherForm)
  }

  /** A create grows the list by one and keeps every earlier teacher in place. */
  lemma CreateAppendsOne(st: Report, saved: Teacher)
    requires st.career.Some? && !IsBlank(st.form.name) && st.editing.None?
    ensures var r := SaveTeacher(st, Ok(saved));
      |r.teachers| == |st.teachers| + 1 && r.teachers[..|st.teachers|] == st.teachers
      && r.teachers[|st.teachers|] == saved
  {
    assert TeacherCallOf(st).Some?;
    assert (st.teachers + [saved])[..|st.teachers|] == st.teachers;
  }

  /** `eliminarDocente(id)` with the server's answer: on success every teacher with the id goes. */
  function DeleteTeacher(st: Report, id: string, outcome: Remote<()>): (r: Report)
    ensures outcome.Err? ==> r == st
    ensures outcome.Ok? ==> r == st.(teachers := RemoveTeacher(st.teachers, id))
    ensures outcome.Ok? ==> forall i | 0 <= i < |r.teachers| :: r.teachers[i].id != Some(id)
  {
    match outcome
    case Err(_, _) => st
    case Ok(_) => st.(teachers := RemoveTeacher(st.teachers, id))
  }

  // ---------------------------------------------------------------------
  // Sponsorship document
  // ---------------------------------------------------------------------

  /** `abrirModalPatrocinio(docente)`: a fresh selection for that teacher and its code. */
  function OpenSponsorship(st: Report, teacher: Teacher): (r: Report)
    ensures r.sponsorOpen && r.teacher == Some(teacher) && r.training.None? && r.template.None?
    ensures HasSequence(Some(teacher)) ==> r.code == FormatCode(teacher.sequence.value, st.year, st.month)
    ensures !HasSequence(Some(teacher)) ==> r.code == st.code
    ensures r.(sponsorOpen := st.sponsorOpen, teacher := st.teacher, training := st.training,
               template := st.template, code := st.code) == st
  {
    st.(sponsorOpen := true, teacher := Some(teacher), training := None, template := None,
        code := GenerateCode(Some(teacher), st.year, st.month, st.code))
  }

  /** `cerrarModalPatrocinio`: closed, no teacher, no code; nothing else changes. */
  function CloseSponsorship(st: Report): (r: Report)
    ensures !r.sponsorOpen && r.teacher.None? && r.code == ""
    ensures r.(sponsorOpen := st.sponsorOpen, teacher := st.teacher, code := st.code) == st
  {
    st.(sponsorOpen := false, teacher := None, code := "")
  }

  /** Why no document was produced, or the document that was. */
  datatype Generation =
    | MissingSelection
    | InvalidDate
    | DownloadFailed
    | RenderFailed
    | Saved(fileName: string, fields: seq<(string, string)>)

  datatype Generated = Generated(next: Report, result: Generation)

  /** Teacher, training, template and career are all chosen. */
  predicate SelectionComplete(st: Report) {
    st.teacher.Some? && st.training.Some? && st.template.Some? && st.career.Some?
  }

  /** The template fields filled in, by placeholder name. */
  function TemplateFields(st: Report, code: string): seq<(string, string)>
    requires SelectionComplete(st)
  {
    [ ("NombresC", st.teacher.value.name),
      ("Cedula1", st.teacher.value.cedula),
      ("Carrera1", st.career.value.name),
      ("NombreCA", st.training.value.name),
      ("Codigo", code) ]
  }

  /**
   * The template `generarPatrocinio` downloads: none unless every selection
   * is made and year and month are non-zero.
   */
  function TemplateRequest(st: Report): (r: Option<string>)
    ensures r.Some? <==> SelectionComplete(st) && st.year != 0 && st.month != 0
    ensures r.Some? ==> r.value == st.template.value.fileId
  {
    if SelectionComplete(st) && st.year != 0 && st.month != 0 then Some(st.template.value.fileId) else None
  }

  /**
   * `generarPatrocinio` with the outcome of the template download and of the
   * render: the code is regenerated, and a rendered document is saved as
   * `{code}-{teacher}.docx` before the modal closes.
   */
  function GenerateSponsorship(st: Report, download: Remote<()>, rendered: bool): (r: Generated)
    ensures !SelectionComplete(st) ==> r == Generated(st, MissingSelection)
    ensures SelectionComplete(st) && (st.year == 0 || st.month == 0) ==> r == Generated(st, InvalidDate)
    ensures r.result.Saved? ==> TemplateRequest(st).Some? && download.Ok? && rendered
    ensures TemplateRequest(st).Some? ==>
      var code := GenerateCode(st.teacher, st.year, st.month, st.code);
      && !r.next.generating
      && (download.Err? ==> r == Generated(st.(code := code, generating := false), DownloadFailed))
      && (download.Ok? && !rendered ==> r == Generated(st.(code := code, generating := false), RenderFailed))
      && (download.Ok? && rendered ==>
            && r.result == Saved(code + "-" + st.teacher.value.name + ".docx", TemplateFields(st, code))
            && r.next == CloseSponsorship(st.(code := code, generating := false)))
  {
    if !SelectionComplete(st) then Generated(st, MissingSelection)
    else if st.year == 0 || st.month == 0 then Generated(st, InvalidDate)
    else
      var code := GenerateCode(st.teacher, st.year, st.month, st.code);
      var done := st.(code := code, generating := false);
      if download.Err? then Generated(done, DownloadFailed)
      else if !rendered then Generated(done, RenderFailed)
      else Generated(CloseSponsorship(done), Saved(code + "-" + st.teacher.value.name + ".docx", TemplateFields(st, code)))
  }

  /** A teacher with a sequence gets a document named after their fresh code. */
  lemma FileNameCarriesCode(st: Report)
    requires TemplateRequest(st).Some? && HasSequence(st.teacher)
    ensures var r := GenerateSponsorship(st, Ok(()), true).result;
      var code := FormatCode(st.teacher.value.sequence.value, st.year, st.month);
      && r.Saved?
      && r.fileName == code + "-" + st.teacher.value.name + ".docx"
      && StartsWith(r.fileName, CodePrefix)
      && EndsWith(r.fileName, ".docx")
  {
    var code := FormatCode(st.teacher.value.sequence.value, st.year, st.month);
    var n := st.teacher.value.name;
    assert GenerateCode(st.teacher, st.year, st.month, st.code) == code;
    StartsWithExtend(code, CodePrefix, "-");
    StartsWithExtend(code + "-", CodePrefix, n);
    StartsWithExtend(code + "-" + n, CodePrefix, ".docx");
    EndsWithConcat(code + "-" + n, ".docx");
  }

  /**
   * A teacher the server has not numbered yet: opening the modal after a
   * close leaves the code empty, so the document is named `-{teacher}.docx`.
   */
  lemma UnnumberedTeacherGetsEmptyCode(st: Report, teacher: Teacher, training: Training, template: Document)
    requires teacher.sequence.None? && st.career.Some? && st.year != 0 && st.month != 0
    ensures
      var reopened := OpenSponsorship(CloseSponsorship(st), teacher).(training := Some(training), template := Some(template));
      GenerateSponsorship(reopened, Ok(()), true).result.fileName == "-" + teacher.name + ".docx"
  {
  }
}

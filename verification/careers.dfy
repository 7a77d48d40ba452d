/**
 * The career component (`carrera-i.ts`): a two-phase wizard that creates a
 * draft career by name, collects its trainings, and saves it in one remote
 * call; and the edits made to the training list of an already saved career.
 *
 * Each handler is a pure step over the component's fields. The remote call
 * it makes is an argument holding its completed outcome, and the browser's
 * `confirm()` dialog is a boolean argument.
 */
module Careers {
  import opened Common
  import opened Strings
  import opened Lists

  /** A training program attached to a career (`Capacitacion`). */
  datatype Training = Training(name: string, hours: int, duration: string, period: string, kind: string)

  /** A career (`Career`): the identifier is absent until the server stores it. */
  datatype Career = Career(id: Option<string>, name: string, trainings: seq<Training>)

  /** `career.id` is truthy: present and not the empty string. */
  predicate HasId(c: Career) {
    c.id.Some? && c.id.value != ""
  }

  /** The training input fields bound to the form; hours is `number | null`. */
  datatype TrainingForm = TrainingForm(name: string, hours: Option<int>, duration: string, period: string, kind: string)

  /** The form after `limpiarFormularioCapacitacion`. */
  const EmptyForm := TrainingForm("", None, "", "", "")

  /** The fixed floor on a training's hours. */
  const MinHours := 30

  /** `!hours || hours < 30` fails; a null hours field or 0 are both below the floor. */
  predicate HoursAccepted(hours: Option<int>) {
    hours.Some? && hours.value >= MinHours
  }

  /** Which validation warning a form draws, in the order the handler checks them. */
  datatype FormError = BlankName | TooFewHours | BlankDuration | BlankPeriod | BlankKind

  /** The training a form describes, every text field trimmed. */
  function TrainingOf(f: TrainingForm): Training
    requires f.hours.Some?
  {
    Training(Trim(f.name), f.hours.value, Trim(f.duration), Trim(f.period), Trim(f.kind))
  }

  /** A form whose text fields are already trimmed describes itself verbatim. */
  lemma {:induction false} TrainingOfTrimmed(f: TrainingForm)
    requires f.hours.Some?
    requires IsTrimmed(f.name) && IsTrimmed(f.duration) && IsTrimmed(f.period) && IsTrimmed(f.kind)
    ensures TrainingOf(f) == Training(f.name, f.hours.value, f.duration, f.period, f.kind)
  {
    TrimKeepsTrimmed(f.name);
    TrimKeepsTrimmed(f.duration);
    TrimKeepsTrimmed(f.period);
    TrimKeepsTrimmed(f.kind);
  }

  /** A text field that holds something and has no white space at either end. */
  predicate Filled(s: string) {
    s != [] && IsTrimmed(s)
  }

  /** A training that passed the full validation of the add paths. */
  predicate WellFormed(t: Training) {
    && t.hours >= MinHours
    && Filled(t.name) && Filled(t.duration) && Filled(t.period) && Filled(t.kind)
  }

  /** A blank field trims to nothing; any other field trims to a filled one. */
  lemma TrimmedField(s: string)
    ensures IsBlank(s) <==> AllSpace(s)
    ensures !IsBlank(s) ==> Filled(Trim(s))
  {
  }

  /**
   * The five checks of `agregarCapacitacion` and `confirmarAgregarCapacitacion`:
   * name, hours, duration, period and type, first failure reported.
   */
  function CheckTraining(f: TrainingForm): (r: Result<Training, FormError>)
    ensures r.Success? <==>
      !IsBlank(f.name) && HoursAccepted(f.hours) && !IsBlank(f.duration) && !IsBlank(f.period) && !IsBlank(f.kind)
    ensures r.Success? ==> r.value == TrainingOf(f) && WellFormed(r.value)
    ensures !HoursAccepted(f.hours) ==> r.Failure?
    ensures r == Failure(BlankName) <==> IsBlank(f.name)
    ensures r == Failure(TooFewHours) <==> !IsBlank(f.name) && !HoursAccepted(f.hours)
  {
    TrimmedField(f.name);
    TrimmedField(f.duration);
    TrimmedField(f.period);
    TrimmedField(f.kind);
    if IsBlank(f.name) then Failure(BlankName)
    else if !HoursAccepted(f.hours) then Failure(TooFewHours)
    else if IsBlank(f.duration) then Failure(BlankDuration)
    else if IsBlank(f.period) then Failure(BlankPeriod)
    else if IsBlank(f.kind) then Failure(BlankKind)
    else Success(TrainingOf(f))
  }

  /** The two checks of `confirmarEdicionCapacitacion`: only name and hours. */
  function CheckEdit(f: TrainingForm): (r: Result<Training, FormError>)
    ensures r.Success? <==> !IsBlank(f.name) && HoursAccepted(f.hours)
    ensures r.Success? ==> r.value == TrainingOf(f) && r.value.hours >= MinHours && Filled(r.value.name)
    ensures r.Failure? ==> r.error == (if IsBlank(f.name) then BlankName else TooFewHours)
  {
    TrimmedField(f.name);
    if IsBlank(f.name) then Failure(BlankName)
    else if !HoursAccepted(f.hours) then Failure(TooFewHours)
    else Success(TrainingOf(f))
  }

  /** Every form the full check accepts, the edit check accepts with the same training. */
  lemma EditCheckIsWeaker(f: TrainingForm)
    ensures CheckTraining(f).Success? ==> CheckEdit(f) == CheckTraining(f)
  {
  }

  /** The edit check lets through a training whose duration, period and type are blank. */
  lemma EditAcceptsBlankFields()
    ensures var f := TrainingForm("Java", Some(40), " ", "", "");
      && CheckEdit(f).Success?
      && !WellFormed(CheckEdit(f).value)
      && CheckTraining(f) == Failure(BlankDuration)
  {
    var f := TrainingForm("Java", Some(40), " ", "", "");
    assert IsTrimmed(f.name) && AllSpace(f.duration);
    TrimKeepsTrimmed(f.name);
  }

  // ---------------------------------------------------------------------
  // The creation wizard
  // ---------------------------------------------------------------------

  /** The kind of modal a handler opens. */
  datatype Modal = Confirmed | Warned | Failed(message: string)

  /**
   * The wizard's fields: the career name input, the draft career
   * (`carreraActual`, null until created) and the training form.
   */
  datatype Wizard = Wizard(careerName: string, draft: Option<Career>, form: TrainingForm)

  /** A handler's effect: the next fields and the modal it opens, if any. */
  datatype Step = Step(next: Wizard, modal: Option<Modal>)

  /** The fields after `resetFormularioCompleto`: no draft, every input empty. */
  const Cleared := Wizard("", None, EmptyForm)

  /**
   * What the wizard keeps true: a draft has no identifier, a trimmed
   * non-empty name and only trainings that passed the full validation.
   */
  predicate Consistent(w: Wizard) {
    w.draft.Some? ==>
      && w.draft.value.id.None?
      && Filled(w.draft.value.name)
      && forall i | 0 <= i < |w.draft.value.trainings| :: WellFormed(w.draft.value.trainings[i])
  }

  /** `crearCarrera`: starts a fresh draft from the trimmed name, replacing any earlier one. */
  function CreateCareer(w: Wizard): (r: Step)
    ensures r.modal == Some(Warned) <==> IsBlank(w.careerName)
    ensures IsBlank(w.careerName) ==> r.next == w
    ensures !IsBlank(w.careerName) ==>
      && r.modal == Some(Confirmed)
      && r.next.draft == Some(Career(None, Trim(w.careerName), []))
      && r.next.careerName == w.careerName
      && r.next.form == w.form
    ensures Consistent(r.next) <== Consistent(w)
  {
    TrimmedField(w.careerName);
    if IsBlank(w.careerName) then Step(w, Some(Warned))
    else Step(w.(draft := Some(Career(None, Trim(w.careerName), []))), Some(Confirmed))
  }

  /**
   * `agregarCapacitacion`: appends the validated training to the draft and
   * clears the form; with no draft or an invalid form nothing changes.
   */
  function AddTraining(w: Wizard): (r: Step)
    ensures w.draft.None? || CheckTraining(w.form).Failure? ==> r == Step(w, Some(Warned))
    ensures w.draft.Some? && CheckTraining(w.form).Success? ==>
      var before := w.draft.value.trainings;
      && r.modal == Some(Confirmed)
      && r.next.draft.Some?
      && r.next.draft.value.id == w.draft.value.id
      && r.next.draft.value.name == w.draft.value.name
      && var after := r.next.draft.value.trainings;
      && |after| == |before| + 1
      && after[..|before|] == before
      && after[|before|] == TrainingOf(w.form)
      && r.next.form == EmptyForm
      && r.next.careerName == w.careerName
    ensures Consistent(r.next) <== Consistent(w)
  {
    if w.draft.None? then Step(w, Some(Warned))
    else match CheckTraining(w.form)
      case Failure(_) => Step(w, Some(Warned))
      case Success(t) => Step(Wizard(w.careerName, Some(WithTraining(w.draft.value, t)), EmptyForm), Some(Confirmed))
  }

  /** `career.capacitaciones.push(t)`: one more training at the end, the rest untouched. */
  function WithTraining(c: Career, t: Training): (r: Career)
    ensures r.id == c.id && r.name == c.name
    ensures |r.trainings| == |c.trainings| + 1
    ensures r.trainings[..|c.trainings|] == c.trainings && r.trainings[|c.trainings|] == t
    ensures WellFormed(t) && (forall i | 0 <= i < |c.trainings| :: WellFormed(c.trainings[i])) ==>
      forall i | 0 <= i < |r.trainings| :: WellFormed(r.trainings[i])
  {
    var r := c.(trainings := c.trainings + [t]);
    assert r.trainings[..|c.trainings|] == c.trainings;
    assert forall i | 0 <= i < |r.trainings| :: r.trainings[i] == if i < |c.trainings| then c.trainings[i] else t;
    r
  }

  /**
   * `eliminarCapacitacionTemporal(index)`: drops exactly that training from
   * the draft; an index outside the list, or no draft, changes nothing.
   */
  function RemoveDraftTraining(w: Wizard, index: int): (r: Step)
    ensures !(w.draft.Some? && 0 <= index < |w.draft.value.trainings|) ==> r == Step(w, None)
    ensures w.draft.Some? && 0 <= index < |w.draft.value.trainings| ==>
      var before := w.draft.value.trainings;
      && r.modal == Some(Confirmed)
      && r.next.careerName == w.careerName && r.next.form == w.form
      && r.next.draft.Some?
      && r.next.draft.value.id == w.draft.value.id
      && r.next.draft.value.name == w.draft.value.name
      && var after := r.next.draft.value.trainings;
      && |after| == |before| - 1
      && (forall j | 0 <= j < index :: after[j] == before[j])
      && (forall j | index <= j < |after| :: after[j] == before[j + 1])
      && multiset(after) + multiset{before[index]} == multiset(before)
    ensures Consistent(r.next) <== Consistent(w)
  {
    if w.draft.Some? && 0 <= index < |w.draft.value.trainings| then
      var d := w.draft.value;
      Step(w.(draft := Some(d.(trainings := RemoveAt(d.trainings, index)))), Some(Confirmed))
    else
      Step(w, None)
  }

  /** Removing the training just added gives back the draft as it was. */
  lemma RemoveUndoesAdd(w: Wizard)
    requires w.draft.Some? && CheckTraining(w.form).Success?
    ensures var added := AddTraining(w).next;
      RemoveDraftTraining(added, |w.draft.value.trainings|).next.draft == w.draft
  {
    var before := w.draft.value.trainings;
    var t := CheckTraining(w.form).value;
    assert AddTraining(w).next.draft.value.trainings == before + [t];
    RemoveAppended(before, t);
  }

  /**
   * The career `guardarCarreraCompleta` sends to the server: the draft,
   * only when there is one with at least one training.
   */
  function SaveRequest(w: Wizard): (r: Option<Career>)
    ensures r.Some? <==> w.draft.Some? && |w.draft.value.trainings| > 0
    ensures r.Some? ==> r.value == w.draft.value
  {
    if w.draft.Some? && |w.draft.value.trainings| > 0 then w.draft else None
  }

  const DuplicateCareerMessage := "No se puede guardar dos veces la misma carrera."
  const UnexpectedErrorMessage := "Ocurri\U{00F3} un error inesperado."

  /**
   * The message shown when saving fails: the server's own message when it
   * sent a non-empty one, else the duplicate-career message for status 500,
   * else the generic one.
   */
  function SaveErrorMessage(status: int, message: Option<string>): (r: string)
    ensures message.Some? && message.value != "" ==> r == message.value
    ensures (message.None? || message.value == "") ==>
      r == (if status == 500 then DuplicateCareerMessage else UnexpectedErrorMessage)
    ensures r != ""
  {
    if message.Some? && message.value != "" then message.value
    else if status == 500 then DuplicateCareerMessage
    else UnexpectedErrorMessage
  }

  /**
   * `guardarCarreraCompleta` with the outcome of its one remote call:
   * success clears the whole wizard; failure keeps the draft and reports.
   */
  function SaveDraft(w: Wizard, outcome: Remote<()>): (r: Step)
    ensures SaveRequest(w).None? ==> r == Step(w, Some(Warned))
    ensures SaveRequest(w).Some? && outcome.Ok? ==> r == Step(Cleared, Some(Confirmed))
    ensures SaveRequest(w).Some? && outcome.Err? ==>
      r == Step(w, Some(Failed(SaveErrorMessage(outcome.status, outcome.message))))
    ensures Consistent(r.next) <== Consistent(w)
  {
    if SaveRequest(w).None? then Step(w, Some(Warned))
    else match outcome
      case Ok(_) => Step(Cleared, Some(Confirmed))
      case Err(status, message) => Step(w, Some(Failed(SaveErrorMessage(status, message))))
  }

  /** With nothing to send, the save ignores the remote outcome: no call is made. */
  lemma SaveWithoutRequestIgnoresOutcome(w: Wizard, a: Remote<()>, b: Remote<()>)
    requires SaveRequest(w).None?
    ensures SaveDraft(w, a) == SaveDraft(w, b) == Step(w, Some(Warned))
  {
  }

  /**
   * `cancelarCreacion`: a draft holding trainings is discarded only when the
   * user confirms; otherwise the wizard is cleared at once.
   */
  function Cancel(w: Wizard, confirmed: bool): (r: Wizard)
    ensures w.draft.Some? && |w.draft.value.trainings| > 0 && !confirmed ==> r == w
    ensures (w.draft.None? || |w.draft.value.trainings| == 0 || confirmed) ==> r == Cleared
    ensures Consistent(r) <== Consistent(w)
  {
    if w.draft.Some? && |w.draft.value.trainings| > 0 then
      (if confirmed then Cleared else w)
    else
      Cleared
  }

  /** A form below the hour floor leaves the draft exactly as it was. */
  lemma FewHoursChangeNothing(w: Wizard)
    requires !HoursAccepted(w.form.hours)
    ensures AddTraining(w) == Step(w, Some(Warned))
  {
  }

  /** A valid training added to an empty draft becomes its only training. */
  lemma AddToEmptyDraft(w: Wizard, name: string)
    requires w.draft == Some(Career(None, name, [])) && CheckTraining(w.form).Success?
    ensures AddTraining(w).next == Wizard(w.careerName, Some(Career(None, name, [TrainingOf(w.form)])), EmptyForm)
  {
    var after := AddTraining(w).next.draft.value.trainings;
    assert |after| == 1 && after[0] == TrainingOf(w.form);
    assert after == [TrainingOf(w.form)];
  }

  /** A valid name then a valid training: a draft holding exactly that training. */
  lemma CreateThenAdd(name: string, form: TrainingForm)
    requires !IsBlank(name) && CheckTraining(form).Success?
    ensures AddTraining(CreateCareer(Wizard(name, None, form)).next).next
         == Wizard(name, Some(Career(None, Trim(name), [TrainingOf(form)])), EmptyForm)
  {
    var w1 := CreateCareer(Wizard(name, None, form)).next;
    assert w1 == Wizard(name, Some(Career(None, Trim(name), [])), form);
    AddToEmptyDraft(w1, Trim(name));
  }

  /**
   * Name, one valid training, save: the server receives a draft career
   * with the trimmed name and exactly that training, and success clears
   * the wizard.
   */
  lemma CreateAddSaveScenario(name: string, form: TrainingForm)
    requires !IsBlank(name) && CheckTraining(form).Success?
    ensures
      var w := AddTraining(CreateCareer(Wizard(name, None, form)).next).next;
      && SaveRequest(w) == Some(Career(None, Trim(name), [TrainingOf(form)]))
      && SaveDraft(w, Ok(())).next == Cleared
  {
    CreateThenAdd(name, form);
  }

  // ---------------------------------------------------------------------
  // Edits to a saved career
  // ---------------------------------------------------------------------

  /** Why an edit to a saved career sends nothing. */
  datatype Rejection = InvalidForm(error: FormError) | CareerNotFound | NoSuchTraining

  /** The update request sent to the server: the career's id and its new value. */
  datatype Update = Update(id: string, career: Career)

  /**
   * `confirmarAgregarCapacitacion`: full validation, then a career with an
   * id, then the update carrying the training appended at the end.
   *
   * The copy `{ ...career }` shares its training array with the listed
   * career, so the listed career holds the same new list whatever the
   * server answers; the value returned here is that list.
   */
  function AddToSaved(target: Option<Career>, form: TrainingForm): (r: Result<Update, Rejection>)
    ensures CheckTraining(form).Failure? ==> r == Failure(InvalidForm(CheckTraining(form).error))
    ensures CheckTraining(form).Success? && (target.None? || !HasId(target.value)) ==> r == Failure(CareerNotFound)
    ensures r.Success? <==> CheckTraining(form).Success? && target.Some? && HasId(target.value)
    ensures r.Success? ==>
      && r.value.id == target.value.id.value
      && r.value.career == target.value.(trainings := target.value.trainings + [TrainingOf(form)])
  {
    match CheckTraining(form)
    case Failure(e) => Failure(InvalidForm(e))
    case Success(t) =>
      if target.None? || !HasId(target.value) then Failure(CareerNotFound)
      else
        var c := target.value;
        Success(Update(c.id.value, c.(trainings := c.trainings + [t])))
  }

  /** The form `agregarNuevaCapacitacion` opens with: confirming it at once is refused. */
  lemma FreshAddFormRefused(target: Option<Career>)
    ensures AddToSaved(target, EmptyForm) == Failure(InvalidForm(BlankName))
  {
    assert AllSpace(EmptyForm.name);
  }

  /**
   * `confirmarEdicionCapacitacion`: name and hours checked, then a career
   * with an id, then the update with the training at `index` replaced.
   * The index is the position `editarCapacitacion` was opened on.
   */
  function EditSaved(target: Option<Career>, index: int, form: TrainingForm): (r: Result<Update, Rejection>)
    requires target.Some? && HasId(target.value) ==> 0 <= index < |target.value.trainings|
    ensures CheckEdit(form).Failure? ==> r == Failure(InvalidForm(CheckEdit(form).error))
    ensures CheckEdit(form).Success? && (target.None? || !HasId(target.value)) ==> r == Failure(CareerNotFound)
    ensures r.Success? <==> CheckEdit(form).Success? && target.Some? && HasId(target.value)
    ensures r.Success? ==>
      var before := target.value.trainings;
      var after := r.value.career.trainings;
      && r.value.id == target.value.id.value
      && r.value.career.id == target.value.id
      && r.value.career.name == target.value.name
      && |after| == |before|
      && after[index] == TrainingOf(form)
      && forall j | 0 <= j < |before| && j != index :: after[j] == before[j]
  {
    match CheckEdit(form)
    case Failure(e) => Failure(InvalidForm(e))
    case Success(t) =>
      if target.None? || !HasId(target.value) then Failure(CareerNotFound)
      else
        var c := target.value;
        Success(Update(c.id.value, c.(trainings := c.trainings[index := t])))
  }

  /** The form `editarCapacitacion` fills in from a training's current values. */
  function EditFormFor(t: Training): (f: TrainingForm)
    ensures f.hours == Some(t.hours)
    ensures IsTrimmed(t.name) && IsTrimmed(t.duration) && IsTrimmed(t.period) && IsTrimmed(t.kind) ==> TrainingOf(f) == t
    ensures Filled(t.name) && t.hours >= MinHours && IsTrimmed(t.duration) && IsTrimmed(t.period) && IsTrimmed(t.kind) ==>
      CheckEdit(f) == Success(t)
    ensures WellFormed(t) ==> CheckTraining(f) == Success(t)
  {
    var f := TrainingForm(t.name, Some(t.hours), t.duration, t.period, t.kind);
    if IsTrimmed(t.name) && IsTrimmed(t.duration) && IsTrimmed(t.period) && IsTrimmed(t.kind) then TrainingOfTrimmed(f); f else f
  }

  /**
   * Opening the editor on a saved training and confirming at once sends the
   * career unchanged, also for a training saved with blank duration, period or type.
   */
  lemma {:induction false} UnchangedEditIsIdentity(c: Career, index: int)
    requires HasId(c) && 0 <= index < |c.trainings|
    requires var t := c.trainings[index];
      Filled(t.name) && t.hours >= MinHours && IsTrimmed(t.duration) && IsTrimmed(t.period) && IsTrimmed(t.kind)
    ensures EditSaved(Some(c), index, EditFormFor(c.trainings[index])) == Success(Update(c.id.value, c))
  {
    var t := c.trainings[index];
    TrainingOfTrimmed(EditFormFor(t));
    assert TrainingOf(EditFormFor(t)) == t;
    assert c.trainings[index := t] == c.trainings;
  }

  /**
   * `eliminarCapacitacion`: with an id, the update drops the training at
   * `index`. Reading the name of a missing training throws before any call
   * is made, so an index outside the list sends nothing.
   */
  function RemoveSaved(c: Career, index: int): (r: Result<Update, Rejection>)
    ensures !HasId(c) ==> r == Failure(CareerNotFound)
    ensures HasId(c) && !(0 <= index < |c.trainings|) ==> r == Failure(NoSuchTraining)
    ensures r.Success? <==> HasId(c) && 0 <= index < |c.trainings|
    ensures r.Success? ==>
      && r.value.id == c.id.value
      && r.value.career.id == c.id && r.value.career.name == c.name
      && |r.value.career.trainings| == |c.trainings| - 1
      && (forall j | 0 <= j < index :: r.value.career.trainings[j] == c.trainings[j])
      && (forall j | index <= j < |r.value.career.trainings| :: r.value.career.trainings[j] == c.trainings[j + 1])
      && multiset(r.value.career.trainings) + multiset{c.trainings[index]} == multiset(c.trainings)
  {
    if !HasId(c) then Failure(CareerNotFound)
    else if !(0 <= index < |c.trainings|) then Failure(NoSuchTraining)
    else Success(Update(c.id.value, c.(trainings := RemoveAt(c.trainings, index))))
  }

  /** Deleting the training just added to a saved career gives the career back. */
  lemma RemoveSavedUndoesAdd(c: Career, form: TrainingForm)
    requires AddToSaved(Some(c), form).Success?
    ensures RemoveSaved(AddToSaved(Some(c), form).value.career, |c.trainings|) == Success(Update(c.id.value, c))
  {
    RemoveAppended(c.trainings, TrainingOf(form));
  }
}

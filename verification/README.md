# Career, training and sponsorship model

A Dafny model of the client-side logic in an Angular application that keeps
academic careers, the trainings attached to each career and the teachers of a
career, and that issues a "sponsorship" Word document for a teacher. It covers
three components.

- **`carrera-i.ts`** has two parts:
  - a two-phase wizard: create a draft career by name, append validated
    trainings to it, then save it in one remote call, or cancel it;
  - the add, edit and delete actions on the training list of a career
    already saved.
- **`reporte-resultados.ts`** covers:
  - the teacher list of the selected career, kept up to date after a create,
    an update or a delete;
  - the sponsorship code `UGPA-RGI2-{sequence}-PRO134-{year}-{month}`;
  - the guards of the sponsorship document and the name it is saved under.
- **`documentos.ts`** covers:
  - the guard on a template upload;
  - the name and extension a downloaded template is saved under;
  - whether the preview modal shows a template inline or shows a notice that
    Word files cannot be previewed;
  - closing that modal.

Each event handler is a pure function over the component's fields. A remote
call becomes an argument holding its completed outcome (`Remote<T>`: `Ok` or
`Err(status, message)`). The browser's `confirm()` becomes a boolean
argument. Whether the template library rendered the document also becomes a
boolean argument.

The JavaScript string operations the handlers use are modelled in
`strings.dfy` with their ECMAScript meaning:

- `trim` strips the WhiteSpace and LineTerminator set;
- `includes`, `endsWith` and `padStart` (`padStart` never truncates);
- `toLowerCase` on ASCII letters;
- `Number.prototype.toString` for integers.

Files:

| file | module | contents |
|---|---|---|
| `common.dfy` | `Common` | `Option`, `Result`, `Remote` |
| `strings.dfy` | `Strings` | trim, includes, endsWith, padStart, toLowerCase, decimal rendering and reading back |
| `lists.dfy` | `Lists` | `splice(i, 1)` |
| `careers.dfy` | `Careers` | the career wizard and the edits to saved careers |
| `documents.dfy` | `Documents` | download name, preview decision, preview modal, upload guard |
| `sponsorship.dfy` | `Sponsorship` | teacher list, sponsorship code, sponsorship document |

### Behaviour worth knowing

- **Edit validation.** Editing a saved training checks only the name and the
  hours (`carrera-i.ts:315-339`). A blank duration, period or type is
  accepted (`Careers.EditAcceptsBlankFields`).
- **Failed updates.** Adding, editing or deleting a training on a saved career
  copies the career with `{ ...career }` and then changes its training array
  in place (`carrera-i.ts:225-226`, `332-333`, `359-360`). That copy shares
  the array with the listed career, so the listed career already shows the new
  list when the remote update fails.
- **Code without a sequence.** `generarCodigo` returns early when the teacher
  has no sequence (`reporte-resultados.ts:239`), so the previous code stays,
  and it is empty after the modal was closed. The document is still produced
  and saved as `-{teacher}.docx` (`reporte-resultados.ts:295`,
  `Sponsorship.UnnumberedTeacherGetsEmptyCode`).
- **Render failures.** Every exception from the template library is caught in
  one place (`reporte-resultados.ts:303-307`) and gives one message, and the
  modal stays open. The model therefore has a single render outcome flag.

## Model

| member | source | states |
|---|---|---|
| Strings.Trim | src/app/components/carrera-i/carrera-i.ts:65 | The trimmed string has no white space at either end, is empty exactly when the input is all white space, and is never longer |
| Strings.TrimIsMiddle | src/app/components/carrera-i/carrera-i.ts:65 | The trimmed string is a contiguous part of the input, and everything cut off before and after it is white space |
| Strings.TrimKeepsTrimmed | src/app/components/carrera-i/carrera-i.ts:72 | Trimming leaves a string with no white space at its ends unchanged |
| Strings.TrimIdempotent | src/app/components/carrera-i/carrera-i.ts:72 | Trimming twice gives the same as trimming once |
| Strings.TrimDropsSurroundingSpace | src/app/components/carrera-i/carrera-i.ts:115 | Any white space typed before and after a trimmed non-empty value is removed, and the value itself is kept whole |
| Strings.ContainsIffOccurs | src/app/components/documentos/documentos.ts:132 | The left-to-right `includes` scan succeeds exactly when the part occurs at some position |
| Strings.ContainsChar | src/app/components/documentos/documentos.ts:132 | `includes('.')` holds exactly when the character is in the string |
| Strings.PadStart | src/app/components/reporte-resultados/reporte-resultados.ts:241-245 | The result has width characters, or the original length if longer; it ends with the input; everything before it is the fill character |
| Strings.IntToString | src/app/components/reporte-resultados/reporte-resultados.ts:242-245 | The rendering is non-empty and starts with a minus sign exactly for a negative number; what follows the sign is non-empty, all digits, and has no leading zero unless it is the single digit `0` |
| Strings.IntToStringReadsBack | src/app/components/reporte-resultados/reporte-resultados.ts:242-245 | What follows the sign of the rendering reads back as the number's magnitude |
| Strings.NatToString | src/app/components/reporte-resultados/reporte-resultados.ts:241-242 | The decimal rendering is non-empty and all digits; it has one digit exactly below ten and no leading zero otherwise |
| Strings.ParseNatToString | src/app/components/reporte-resultados/reporte-resultados.ts:241-242 | Reading back the decimal rendering of a number gives the number |
| Strings.ParsePadded | src/app/components/reporte-resultados/reporte-resultados.ts:241-245 | Zero-padding a decimal rendering keeps it all digits and keeps its value |
| Lists.RemoveAt | src/app/components/carrera-i/carrera-i.ts:134 | `splice(i, 1)` removes exactly element i: one shorter, earlier elements in place, later ones shifted down, and the multiset loses only that element |
| Lists.RemoveAppended | src/app/components/carrera-i/carrera-i.ts:123-134 | Splicing out the element just pushed gives the list back |
| Careers.TrainingOfTrimmed | src/app/components/carrera-i/carrera-i.ts:114-120 | A form whose text fields are already trimmed describes a training with exactly those values |
| Careers.TrimmedField | src/app/components/carrera-i/carrera-i.ts:88 | A field is blank exactly when it is all white space; a field that is not blank trims to a non-empty trimmed value |
| Careers.CheckTraining | src/app/components/carrera-i/carrera-i.ts:88-120 | Accepted exactly when name, duration, period and type are not blank and hours is at least 30; the accepted training is the trimmed form and satisfies every field rule; the name failure comes first, then the hours failure |
| Careers.CheckEdit | src/app/components/carrera-i/carrera-i.ts:316-324 | Accepted exactly when the name is not blank and hours is at least 30; a rejection names the first failing check |
| Careers.EditCheckIsWeaker | src/app/components/carrera-i/carrera-i.ts:316-324 | Every form the full check accepts, the edit check accepts with the same training |
| Careers.EditAcceptsBlankFields | src/app/components/carrera-i/carrera-i.ts:315-339 | The edit check accepts a form with blank duration, period and type, and the training it yields fails the full rules that the add paths apply |
| Careers.CreateCareer | src/app/components/carrera-i/carrera-i.ts:64-77 | A blank name warns and changes nothing; any other name starts an empty draft with no id named by the trimmed input; the wizard invariant is kept |
| Careers.AddTraining | src/app/components/carrera-i/carrera-i.ts:81-129 | With no draft or an invalid form it warns and changes nothing; otherwise the draft gains the validated training at its end, earlier trainings unchanged, and the form is cleared; the wizard invariant is kept |
| Careers.WithTraining | src/app/components/carrera-i/carrera-i.ts:123 | The push appends exactly one training, keeps id, name and earlier trainings, and keeps every training valid when the new one is |
| Careers.FewHoursChangeNothing | src/app/components/carrera-i/carrera-i.ts:93-96 | A missing, zero or below-30 hours value leaves the wizard exactly as it was |
| Careers.RemoveDraftTraining | src/app/components/carrera-i/carrera-i.ts:131-137 | An index outside the draft, or no draft, changes nothing and opens no modal; otherwise exactly that training leaves, order kept, everything else unchanged; the wizard invariant is kept |
| Careers.RemoveUndoesAdd | src/app/components/carrera-i/carrera-i.ts:81-137 | Removing the training just added gives back the draft as it was |
| Careers.SaveRequest | src/app/components/carrera-i/carrera-i.ts:139-151 | The draft is sent exactly when there is one with at least one training |
| Careers.SaveErrorMessage | src/app/components/carrera-i/carrera-i.ts:159-160 | The server's message is shown when present and non-empty, else the duplicate-career message for status 500, else the generic one; never empty |
| Careers.SaveDraft | src/app/components/carrera-i/carrera-i.ts:139-165 | With nothing to send it warns and changes nothing; success clears the whole wizard; failure keeps the draft and reports the derived message; the wizard invariant is kept |
| Careers.SaveWithoutRequestIgnoresOutcome | src/app/components/carrera-i/carrera-i.ts:140-148 | With no draft or an empty one the result does not depend on any remote outcome |
| Careers.Cancel | src/app/components/carrera-i/carrera-i.ts:443-451 | A draft with trainings is kept unless the user confirms; otherwise everything is cleared; the wizard invariant is kept |
| Careers.AddToEmptyDraft | src/app/components/carrera-i/carrera-i.ts:114-128 | A valid training added to an empty draft becomes its only training, and the form is cleared |
| Careers.CreateThenAdd | src/app/components/carrera-i/carrera-i.ts:64-129 | A valid name and then a valid training give a draft named by the trimmed name holding exactly that training |
| Careers.CreateAddSaveScenario | src/app/components/carrera-i/carrera-i.ts:64-165 | Name, one training, save: the server receives a career with no id, the trimmed name and exactly that training, and success returns the wizard to its cleared state |
| Careers.AddToSaved | src/app/components/carrera-i/carrera-i.ts:183-229 | An invalid form is refused with its first failure; then a career without an id is refused; otherwise the update carries the career's id and the career with the trimmed training appended |
| Careers.FreshAddFormRefused | src/app/components/carrera-i/carrera-i.ts:169-188 | Confirming the add form as it first opens is refused for the blank name |
| Careers.EditSaved | src/app/components/carrera-i/carrera-i.ts:315-341 | Name and hours are checked, then the career id; the update keeps id, name and length and replaces only the training at the edited index |
| Careers.EditFormFor | src/app/components/carrera-i/carrera-i.ts:303-307 | The edit form carries the training's hours; a training with trimmed text fields is described by its form exactly, including one saved with a blank duration, period or type; the edit check accepts such a form when name and hours are valid, and the full check accepts it when the training is valid, both giving the training back unchanged |
| Careers.UnchangedEditIsIdentity | src/app/components/carrera-i/carrera-i.ts:298-339 | Opening the editor on any saved training the edit check accepts, including one with a blank duration, period or type, and confirming at once sends the career unchanged |
| Careers.RemoveSaved | src/app/components/carrera-i/carrera-i.ts:355-362 | No id means no call; an index with no training throws before any call; otherwise the update keeps id and name and drops exactly that training: earlier trainings stay in place, later ones move down by one, and the multiset loses only that training |
| Careers.RemoveSavedUndoesAdd | src/app/components/carrera-i/carrera-i.ts:183-362 | Deleting the training just added to a saved career sends that career as it was before |
| Documents.BaseName | src/app/components/documentos/documentos.ts:123 | The selected template's name unless it is absent or empty, else `documento`; never empty |
| Documents.Extension | src/app/components/documentos/documentos.ts:125-130 | `.pdf` exactly when the type mentions pdf; `.doc` exactly for a Word type whose name ends in `.doc`; `.docx` otherwise |
| Documents.DownloadName | src/app/components/documentos/documentos.ts:132 | A name with a dot is kept as it is, a name without one gets the extension; the result always holds a dot |
| Documents.DocExtensionNeverAppended | src/app/components/documentos/documentos.ts:125-132 | The `.doc` branch never reaches the saved name: only `.pdf` or `.docx` is ever appended |
| Documents.Download | src/app/components/documentos/documentos.ts:115-139 | A file is saved exactly when the id is present and non-empty and the download succeeds, under the download name |
| Strings.ToLower | src/app/components/documentos/documentos.ts:81 | Same length; every ASCII capital becomes its small letter, no ASCII capital remains, and every other character is kept |
| Documents.Classify | src/app/components/documentos/documentos.ts:80-91 | The Word notice is shown exactly when neither type nor lower-cased name says PDF and one of them says Word or document |
| Documents.ToLowerIdempotent | src/app/components/documentos/documentos.ts:81 | Lower-casing twice is lower-casing once |
| Documents.ClassifyIgnoresCase | src/app/components/documentos/documentos.ts:81-88 | The decision is the same for a name and its lower-cased form |
| Documents.PdfNameShown | src/app/components/documentos/documentos.ts:83-84 | A name ending in `.pdf` in any letter case is shown inline whatever the type |
| Documents.DocxNameSuppressed | src/app/components/documentos/documentos.ts:85-88 | A name ending in `.docx` in any letter case gets the notice unless the type mentions pdf |
| Documents.OpenViewer | src/app/components/documentos/documentos.ts:70-100 | The modal opens on the template; a failed download sets only the error line; a loaded template keeps its object URL and is shown inline or replaced by the Word notice as classified |
| Documents.CloseViewer | src/app/components/documentos/documentos.ts:102-113 | Every field is reset, and the object URL is released exactly when there is one |
| Documents.CloseReleasesPreviewUrl | src/app/components/documentos/documentos.ts:77-110 | The object URL a successful preview creates is the one closing releases |
| Documents.UploadRequestOf | src/app/components/documentos/documentos.ts:44-46 | Upload is requested exactly when a file is chosen and name and description are non-empty, with those values |
| Documents.Upload | src/app/components/documentos/documentos.ts:44-58 | A successful upload clears the form; a refused or failed one leaves it as it was |
| Documents.UploadDoesNotTrim | src/app/components/documentos/documentos.ts:45 | A name and description of white space only are accepted, though they are blank once trimmed |
| Sponsorship.TwoDigits | src/app/components/reporte-resultados/reporte-resultados.ts:241-245 | At least two characters; a single digit gains a leading zero; ten or more is the plain rendering; a non-negative value reads back as itself |
| Sponsorship.FormatCode | src/app/components/reporte-resultados/reporte-resultados.ts:247 | Every code starts with `UGPA-RGI2-`; with CodeRoundTrip, whose reader accepts only padded sequence and month parts, every code has its sequence and month padded to at least two digits |
| Sponsorship.GenerateCode | src/app/components/reporte-resultados/reporte-resultados.ts:238-248 | With no teacher or a missing or zero sequence the previous code stays; otherwise the code is formatted from sequence, year and month |
| Sponsorship.YearMonthRoundTrip | src/app/components/reporte-resultados/reporte-resultados.ts:245-247 | The year-and-month tail of a code reads back as that year and month |
| Sponsorship.SequenceRoundTrip | src/app/components/reporte-resultados/reporte-resultados.ts:241-247 | The part after the prefix reads back as sequence, year and month |
| Sponsorship.CodeRoundTrip | src/app/components/reporte-resultados/reporte-resultados.ts:241-247 | A code made from non-negative numbers reads back as those numbers under a reader that accepts only a sequence and month of at least two digits with no extra leading zero and a year with no leading zero, so the code carries the `padStart(2, '0')` form |
| Sponsorship.CodeInjective | src/app/components/reporte-resultados/reporte-resultados.ts:241-247 | Two codes made from non-negative numbers are equal exactly when sequence, year and month are all equal |
| Sponsorship.SequencePadding | src/app/components/reporte-resultados/reporte-resultados.ts:241-243 | A sequence below ten gains one leading zero; a longer one is written in full, never cut |
| Sponsorship.ShortCodeExample | src/app/components/reporte-resultados/reporte-resultados.ts:241-247 | Sequence 7, year 2025 and month 3 give exactly `UGPA-RGI2-07-PRO134-2025-03` |
| Sponsorship.UnpaddedCodeRejected | src/app/components/reporte-resultados/reporte-resultados.ts:241-245 | A sequence or month written without its leading zero is not read as a code part |
| Sponsorship.SequenceExamples | src/app/components/reporte-resultados/reporte-resultados.ts:241-243 | Sequence 7 is written `07`, and 123 stays `123` |
| Sponsorship.TeacherRecord | src/app/components/reporte-resultados/reporte-resultados.ts:139-150 | A record is built exactly when a career is selected and the name is not blank; every field is trimmed, the name is non-empty, and the career id is attached |
| Sponsorship.FirstIndexOf | src/app/components/reporte-resultados/reporte-resultados.ts:157 | -1 exactly when no teacher has the id; otherwise the first position holding it |
| Sponsorship.ReplaceFirst | src/app/components/reporte-resultados/reporte-resultados.ts:157-160 | Length kept; only the first teacher with the id is replaced; with no such teacher the list is unchanged |
| Sponsorship.RemoveTeacher | src/app/components/reporte-resultados/reporte-resultados.ts:195 | A teacher is kept exactly when it was in the list and does not carry the id |
| Sponsorship.RemoveTeacherSplits | src/app/components/reporte-resultados/reporte-resultados.ts:195 | Filtering a concatenation filters each part, so the order of survivors is kept |
| Sponsorship.RemoveTeacherCount | src/app/components/reporte-resultados/reporte-resultados.ts:195 | The list shrinks by exactly the number of teachers carrying the id |
| Sponsorship.RemoveTeacherIdempotent | src/app/components/reporte-resultados/reporte-resultados.ts:195 | Removing twice is removing once |
| Sponsorship.TeacherCallOf | src/app/components/reporte-resultados/reporte-resultados.ts:139-170 | A call is made exactly when a record can be built: an update under the edited teacher's id when editing, a create otherwise |
| Sponsorship.SaveTeacher | src/app/components/reporte-resultados/reporte-resultados.ts:139-181 | A refused or failed call changes nothing; a create appends the server's teacher; an update replaces the first teacher with the edited id and ends editing; both clear the form |
| Sponsorship.CreateAppendsOne | src/app/components/reporte-resultados/reporte-resultados.ts:170-173 | A create grows the list by one, keeps earlier teachers in place and ends with the server's teacher |
| Sponsorship.DeleteTeacher | src/app/components/reporte-resultados/reporte-resultados.ts:192-203 | A failed delete changes nothing; a successful one leaves no teacher with the id |
| Sponsorship.OpenSponsorship | src/app/components/reporte-resultados/reporte-resultados.ts:223-230 | The modal opens on the teacher with no training or template chosen; the code is regenerated for a numbered teacher and kept otherwise; no other field changes |
| Sponsorship.CloseSponsorship | src/app/components/reporte-resultados/reporte-resultados.ts:232-236 | The modal is closed with no teacher and an empty code; no other field changes |
| Sponsorship.TemplateRequest | src/app/components/reporte-resultados/reporte-resultados.ts:251-269 | The template is downloaded exactly when teacher, training, template and career are chosen and year and month are non-zero |
| Sponsorship.GenerateSponsorship | src/app/components/reporte-resultados/reporte-resultados.ts:251-318 | Missing choices or a zero year or month change nothing; otherwise the code is regenerated and the spinner stops; a failed download or render reports and keeps the modal; a rendered document is saved as `{code}-{teacher}.docx` with the five fields, and the modal closes |
| Sponsorship.FileNameCarriesCode | src/app/components/reporte-resultados/reporte-resultados.ts:265-295 | For a numbered teacher the saved name is the fresh code, a dash, the teacher's name and `.docx`; it starts with `UGPA-RGI2-` and ends with `.docx` |
| Sponsorship.UnnumberedTeacherGetsEmptyCode | src/app/components/reporte-resultados/reporte-resultados.ts:223-295 | After a close, opening on a teacher without a sequence leaves the code empty, and the document is saved as `-{teacher}.docx` |

## Left out

- Template rendering is not modelled: unzipping the Word package, substituting placeholders and re-zipping it. Whether the render succeeded is a boolean argument, and the filled fields are returned as a list of name-value pairs.
- The HTTP services are not modelled: the career, teacher and document services and their endpoints. Each call is an argument holding its completed outcome, and responses arrive in the order the model applies them.
- Browser APIs are left out: object URLs, the `<a>` click, `FileReader`, `saveAs`, `alert`, `console` and change detection. An object URL is a string argument, `confirm()` is a boolean argument, and a saved file is its name.
- The modal title and message texts that only confirm success or repeat a warning are left out. Handlers report only which kind of modal opens, except for the save-error message and the two messages of the document preview.
- The re-fetches after a successful mutation are left out (`obtenerCarreras`, `obtenerTodosLosDocentes`, `listarDocumentos`). They replace lists with server data that the model does not have.
- The default year and month from `new Date()` are left out: year and month are fields of the report state.
- The career rename and delete handlers of `carrera-i.ts` are left out: `editarCarrera`, `confirmarEdicionCarrera` (a blank-name check, an id check, then `actualizarCarrera`), `eliminarCarrera` and `confirmarEliminacion` (an id check, then `eliminarCarrera` on the service). They act on a whole career, outside the training lists this model covers.
- These handlers are left out because they only copy fields or toggle flags:
  - in `carrera-i.ts`: `toggleCarreras`, `abrirModal`, `cerrarModal`;
  - in `reporte-resultados.ts`: `abrirModal` (which loads the teacher list), `cerrarModal`, `editarDocente`, `toggleFormularioDocente`, `toggleSeccionDocumentos`, `onDocumentosActualizados`;
  - in `documentos.ts`: `onFileSelected`.
- JavaScript numbers are modelled as unbounded integers. NaN, fractions and values written in exponent notation by `toString` are not modelled, so hours, sequence, year and month are integers.
- `toLowerCase` is modelled on ASCII letters only. A name whose extension uses non-ASCII capitals that lower-case to ASCII is not modelled.
- The optional string fields of a teacher (`cedula`, `formacion`, …) are modelled as strings. An `undefined` field becomes the empty string.
- The record interfaces (`Career.ts`, `Docente`, `Documento`) and the service files are not part of this model beyond the fields the handlers use.
- Careers.EditSaved: requires the edited index to lie inside the training list whenever the career has an id. In the component that index always comes from `editarCapacitacion` on a row of the same list, and `cerrarModal` resets the career together with the index. Writing to an index outside the array is not modelled.
- Careers.AddToSaved, Careers.EditSaved, Careers.RemoveSaved: return the update sent to the server, not the displayed list. Because `{ ...career }` shares the training array, the displayed career holds that same list whatever the server answers. The model states this in prose and has no separate state for the displayed list.

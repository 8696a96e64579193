# CIR report assistant: a verified model of its core

The modelled application is a small single-page wizard. It helps a company prepare a French
research tax credit (Crédit d'Impôt Recherche, CIR) report, in three stages:

1. A questionnaire of four sections collects ten text fields about the project.
2. The user uploads supporting documents (PDF, DOCX, PPTX, at most 10 MiB each).
3. A simulated generation runs through four timed steps. It then offers a plain-text report
   and its file name for download.

This Dafny project models the state and logic of the four components behind those stages:

| module | file | models |
|---|---|---|
| `Text` | `text.dfy` | white space as JavaScript's `trim()` and `\s` see it; `trim()`; `replace(/\s+/g, '_')` |
| `Uploads` | `uploads.dfy` | `src/components/FileUpload.tsx`: validation, batch add, removal, size formatting |
| `Questionnaire` | `questionnaire.dfy` | `src/components/CIRQuestionnaire.tsx`: section table, form record, section cursor |
| `Generation` | `generation.dfy` | `src/components/ReportGenerator.tsx`: step machine, regenerate, file name, report text |
| `Wizard` | `wizard.dfy` | `src/pages/Index.tsx`: stage machine, generate guard, progress bar |
| `Wrappers` | `wrappers.dfy` | `Option` |

How the code is cast:

- Each component's React state is a class. Its event handlers are methods that `modify` the
  object.
- What the handlers compute is given by pure functions. Examples are `BatchErrors`,
  `BatchAccepted`, `WithoutId`, `MarkCompleted` and `ResetSteps`. Lemmas state the source's
  promises about those functions.
- Randomness, clocks and number formatting are parameters:
  - the random progress increment;
  - the `Date.now()`-plus-random identifiers;
  - `toFixed(1)`, `toFixed(2)` and `toLocaleDateString('fr-FR')`.
- Timers become calls that the environment makes:
  - `Tick` is one firing of the 100 ms interval;
  - `Resume` is the end of the 500 ms delay;
  - `GenerationDelayElapsed` is the end of the 3 s wait.
- The pending timer of the generation simulation is explicit state (`Timer`).

Two behaviours that differ from what the application is documented to do. The model follows
the code in both:

- **Same-batch duplicates.** Files are documented to be deduplicated by name, so that of two
  same-named files only the first is kept. The code looks a name up only in the list as it
  stood before the batch, so two valid files with the same new name in one batch are both
  added (`Uploads.SameBatchDuplicatesBothAdded`).
- **Regenerate.** `handleRegenerate` resets the steps, the cursor, the overall progress and
  the ready flag. It does not start a new run: the simulation effect depends only on
  `isGenerating`, the step count and `toast`, and none of these changes. After a regenerate
  the component therefore waits with nothing pending (`Generation.ReportGenerator.Regenerate`
  ends in `Idle` with `reportReady` false).

## Model

| member | source | states |
|---|---|---|
| Text.IsSpace | src/components/CIRQuestionnaire.tsx:74 | white space is exactly the ECMAScript WhiteSpace and LineTerminator code points: tab, line feed, vertical tab, form feed, carriage return, space, U+00A0, U+1680, U+2000 to U+200A, U+2028, U+2029, U+202F, U+205F, U+3000 and U+FEFF; this is the set `trim()` strips here and at ReportGenerator.tsx:164, and the set `\s` matches at ReportGenerator.tsx:120 |
| Text.TrimStart | src/components/CIRQuestionnaire.tsx:74 | the leading part of `trim()`: the result is no longer than the input, strictly shorter when the input starts with white space, and does not itself start with white space |
| Text.TrimStartSplits | src/components/CIRQuestionnaire.tsx:74 | what the leading trim removes is a blank prefix, and the result is exactly the rest of the string |
| Text.TrimEnd | src/components/CIRQuestionnaire.tsx:74 | the trailing part of `trim()`: the result is a prefix of the input, what it drops is blank, and it does not end in white space |
| Text.Trim | src/components/CIRQuestionnaire.tsx:74 | `trim()`, also applied to the report at ReportGenerator.tsx:164: the result is no longer than the input and neither starts nor ends with white space; with `TrimEmptyIffBlank` it is empty exactly for blank input, and `TrimStartSplits`/`TrimEnd` pin down that only leading and trailing white space goes |
| Text.TrimEmptyIffBlank | src/components/CIRQuestionnaire.tsx:74 | `s.trim() !== ""` holds exactly when `s` has a character that is not white space |
| Text.TrimEndKeepsPrefix | src/components/ReportGenerator.tsx:133-164 | trailing trim of `p + q` leaves `p` alone when `q` is not blank |
| Text.TrimEndBlankSuffix | src/components/ReportGenerator.tsx:164 | a blank tail makes no difference to the trailing trim |
| Text.TrimStartAppend | src/components/ReportGenerator.tsx:120 | leading trim of `x + y` leaves `y` alone when `x` ends in a character that is not white space |
| Text.TrimStartKeepsLast | src/components/ReportGenerator.tsx:120 | leading trim keeps a final character that is not white space |
| Text.TrimStartOfRun | src/components/ReportGenerator.tsx:120 | leading trim of a blank run in front of `b` gives `b` when `b` does not start with white space |
| Text.UnderscoreSpacesSpaceless | src/components/ReportGenerator.tsx:120 | `replace(/\s+/g, '_')` leaves no white space and never lengthens the string |
| Text.UnderscoreSpacesIdentity | src/components/ReportGenerator.tsx:120 | a string without white space is left unchanged |
| Text.UnderscoreSpacesIdempotent | src/components/ReportGenerator.tsx:120 | applying the rewrite twice equals applying it once |
| Text.UnderscoreSpacesAppend | src/components/ReportGenerator.tsx:120 | the rewrite distributes over a cut made right after a character that is not white space |
| Text.UnderscoreSpacesLeadingRun | src/components/ReportGenerator.tsx:120 | a non-empty leading white-space run becomes one `_` |
| Text.UnderscoreSpacesRun | src/components/ReportGenerator.tsx:120 | a maximal white-space run between `a` and `b` becomes exactly one `_` |
| Text.UnderscoreSpaces | src/components/ReportGenerator.tsx:120 | `replace(/\s+/g, '_')`: by `UnderscoreSpacesRun` each maximal white-space run becomes exactly one `_`, by `UnderscoreSpacesIdentity` other characters are kept, and by `UnderscoreSpacesSpaceless` no white space is left |
| Uploads.AcceptedTypesAndCeiling | src/components/FileUpload.tsx:18-24 | the allow-list is exactly the PDF, DOCX and PPTX MIME types with their extensions; the ceiling is 10,485,760 bytes |
| Uploads.ValidateFile | src/components/FileUpload.tsx:26-34 | refused as unsupported iff the type is not allowed; refused as too large iff the type is allowed and the size exceeds the ceiling; passes exactly otherwise |
| Uploads.TypeCheckedFirst | src/components/FileUpload.tsx:27-31 | a file of the wrong type that is also too large reports only the type error |
| Uploads.CeilingInclusive | src/components/FileUpload.tsx:24-33 | a PDF of exactly 10 MiB passes; one byte more is refused as too large |
| Uploads.ErrorMessage | src/components/FileUpload.tsx:28-31 | the two refusal texts; `ErrorLineDeterminesError` shows they are distinct |
| Uploads.ErrorLine | src/components/FileUpload.tsx:43 | the reported line `name: message`; `ErrorLineDeterminesError` shows its prefix and that it identifies the refusal |
| Uploads.ErrorLineDeterminesError | src/components/FileUpload.tsx:28-43 | an error line starts with the file name and `: `, and two lines for the same file are equal iff the refusals are |
| Uploads.NameTaken | src/components/FileUpload.tsx:44 | `files.find(f => f.name === file.name)` finds something exactly when some entry of the list carries that name; `Classify` and `DuplicateSilentlySkipped` use it as the duplicate test |
| Uploads.Entry | src/components/FileUpload.tsx:45-51 | the pushed object: the offered identifier with the candidate's name, size and type; `BatchAcceptedExactly` shows every added entry is this record |
| Uploads.Classify | src/components/FileUpload.tsx:41-44 | a candidate is refused iff validation fails, with that error; skipped iff valid with a listed name; added iff valid with a name the list lacks |
| Uploads.BatchErrors | src/components/FileUpload.tsx:40-43 | the `errors` array of a batch; `RefusalReported`, `ReportedIsRefusal`, `BatchErrorsAppend` and `BatchErrorsBounded` show it holds exactly the refusals' lines in batch order |
| Uploads.BatchAccepted | src/components/FileUpload.tsx:40-53 | the `validFiles` array of a batch; `BatchAcceptedExactly`, `BatchAcceptedAppend` and `AcceptedAreValid` show it holds exactly the valid new-named candidates in batch order |
| Uploads.SkippedCount | src/components/FileUpload.tsx:44 | the valid candidates dropped for a listed name; `BatchAccounting` shows errors, additions and skips partition the batch |
| Uploads.BatchErrorsAppend | src/components/FileUpload.tsx:40-43 | the error lines of a split batch are those of the first part, then those of the second |
| Uploads.BatchAcceptedAppend | src/components/FileUpload.tsx:40-53 | the entries added by a split batch are those of the first part, then those of the second |
| Uploads.RefusalReported | src/components/FileUpload.tsx:41-43 | every refused candidate contributes its `name: message` line |
| Uploads.ReportedIsRefusal | src/components/FileUpload.tsx:41-43 | every error line is the `name: message` line of some refused candidate |
| Uploads.BatchErrorsBounded | src/components/FileUpload.tsx:40-43 | there are never more error lines than candidates |
| Uploads.BatchAcceptedExactly | src/components/FileUpload.tsx:40-53 | an entry is added iff its candidate is valid and its name is absent from the pre-batch list; it carries the identifier offered at its position |
| Uploads.AcceptedAreValid | src/components/FileUpload.tsx:41-51 | every added entry has an allowed type, a size within the ceiling, and a name not in the pre-batch list |
| Uploads.BatchAccounting | src/components/FileUpload.tsx:40-53 | error lines, added entries and silent skips together count every candidate once |
| Uploads.SameBatchDuplicatesBothAdded | src/components/FileUpload.tsx:44 | two valid same-named files of one batch, with a name new to the list, are both added and report nothing |
| Uploads.DuplicateSilentlySkipped | src/components/FileUpload.tsx:44 | a valid file whose name is listed is skipped, with no error and no entry |
| Uploads.AcceptedKeepsIdsUnique | src/components/FileUpload.tsx:45-46 | fresh identifiers keep the identifiers of the extended list pairwise distinct |
| Uploads.WithoutId | src/components/FileUpload.tsx:106 | removal by identifier never lengthens the list |
| Uploads.WithoutIdMembers | src/components/FileUpload.tsx:106 | removal keeps exactly the entries whose identifier differs |
| Uploads.WithoutIdAppend | src/components/FileUpload.tsx:106 | removal distributes over concatenation, so survivors keep their order |
| Uploads.WithoutAbsentId | src/components/FileUpload.tsx:105-108 | removing an identifier that is not listed leaves the list equal to the old one |
| Uploads.UniqueIdsSplit | src/components/FileUpload.tsx:45-46 | with unique identifiers, the identifier of entry k occurs nowhere else |
| Uploads.RemoveOnlyCarrier | src/components/FileUpload.tsx:106 | removing the identifier of the only entry that carries it takes out exactly that entry |
| Uploads.RemoveExactlyOne | src/components/FileUpload.tsx:105-108 | with unique identifiers, removing entry k's identifier yields the list minus entry k, one shorter |
| Uploads.WithoutIdKeepsUnique | src/components/FileUpload.tsx:105-107 | removal keeps identifiers unique |
| Uploads.DecimalString | src/components/FileUpload.tsx:112 | a byte count prints as a non-empty string of decimal digits; `DecimalStringValue` shows the digits spell the count |
| Uploads.DecimalStringValue | src/components/FileUpload.tsx:112 | the digits of `bytes + ' B'` spell `bytes`, and the text starts with `0` only for 0 |
| Uploads.UnitSuffixes | src/components/FileUpload.tsx:112-114 | a number text followed by one of the units " B", " KB", " MB" ends in that unit and in neither other one |
| Uploads.FormatFileSize | src/components/FileUpload.tsx:111-115 | the unit is " B" iff below 1024, " KB" iff in [1024, 1048576), " MB" iff from 1048576 on |
| Uploads.FileUpload.constructor | src/components/FileUpload.tsx:13 | the list starts empty |
| Uploads.FileUpload.HandleFileAdd | src/components/FileUpload.tsx:36-74 | the error lines are the batch's refusals in order; without an accepted file the list is unchanged and the parent is not called; otherwise the list is the old list followed by the accepted entries in batch order, and that list is reported; identifiers stay unique |
| Uploads.FileUpload.RemoveFile | src/components/FileUpload.tsx:105-109 | the list becomes the old list without the identifier's entries, it is reported to the parent, and identifiers stay unique |
| Questionnaire.FormData.Get | src/components/CIRQuestionnaire.tsx:74 | `formData[key]`: each of the ten keys reads its own field; `FormData.Set` shows a write to one key is seen by it and by no other |
| Questionnaire.FormData.Set | src/components/CIRQuestionnaire.tsx:67-69 | setting a key gives it the new value and leaves the other nine fields unchanged |
| Questionnaire.EmptyFormIsEmpty | src/components/CIRQuestionnaire.tsx:15-26 | all ten fields start as the empty string |
| Questionnaire.Filled | src/components/CIRQuestionnaire.tsx:74 | `formData[field.key].trim() !== ""`; by `TrimEmptyIffBlank` it holds exactly when the value has a character that is not white space |
| Questionnaire.SectionValid | src/components/CIRQuestionnaire.tsx:71-76 | the `every(...)` test of a section; `SectionValidIffNoBlankField` and `AllSectionsValidIffComplete` characterise it by non-blank fields |
| Questionnaire.SectionTableShape | src/components/CIRQuestionnaire.tsx:30-65 | four sections whose keys, read in order, list the ten keys once each; every field is required; each key sits in the section `SectionOf` names |
| Questionnaire.SectionValidIffNoBlankField | src/components/CIRQuestionnaire.tsx:71-76 | a section is valid iff each of its fields has a character that is not white space |
| Questionnaire.AllSectionsValidIffComplete | src/components/CIRQuestionnaire.tsx:71-84 | all four sections are valid iff every one of the ten fields is filled |
| Questionnaire.EditKeepsOtherSections | src/components/CIRQuestionnaire.tsx:67-76 | editing a key leaves the validity of every other section unchanged |
| Questionnaire.CIRQuestionnaire.constructor | src/components/CIRQuestionnaire.tsx:15-28 | the form starts empty and the cursor at section 0 |
| Questionnaire.CIRQuestionnaire.IsCurrentSectionValid | src/components/CIRQuestionnaire.tsx:71-76 | true iff every field of the current section has a character that is not white space |
| Questionnaire.CIRQuestionnaire.NextDisabled | src/components/CIRQuestionnaire.tsx:179 | Next is disabled iff some field of the current section is blank |
| Questionnaire.CIRQuestionnaire.PreviousDisabled | src/components/CIRQuestionnaire.tsx:167 | Previous is disabled iff the cursor is 0; otherwise the previous section exists |
| Questionnaire.CIRQuestionnaire.HandleInputChange | src/components/CIRQuestionnaire.tsx:67-69 | only the edited key changes; the cursor stays; editing a field of the current section keeps all passed sections valid |
| Questionnaire.CIRQuestionnaire.HandleNext | src/components/CIRQuestionnaire.tsx:78-84 | below the last section the cursor moves up by exactly one and nothing is emitted; on the last section the cursor stays and the form is emitted; the form never changes; pressed while enabled, it emits only a complete form |
| Questionnaire.CIRQuestionnaire.HandlePrevious | src/components/CIRQuestionnaire.tsx:86-90 | the cursor goes down by one only above 0, stays within the four sections, and the form never changes |
| Generation.InitialStepsShape | src/components/ReportGenerator.tsx:27-56 | four steps, ids analysis, contextualization, generation, formatting in that order, none completed, all at progress 0 |
| Generation.Advance | src/components/ReportGenerator.tsx:83-85 | a tick never lowers the accumulator, adds less than 20, reaches exactly 100 iff the sum is at least 100, and otherwise is the sum |
| Generation.WithProgress | src/components/ReportGenerator.tsx:100-105 | a partial tick changes only the progress of the active step; every other step, and that step's id, caption, description and completion, are unchanged |
| Generation.MarkCompleted | src/components/ReportGenerator.tsx:89-93 | completion sets the step to completed at 100 and leaves every other step unchanged |
| Generation.ResetSteps | src/components/ReportGenerator.tsx:177 | the reset keeps ids, captions, descriptions and order, and makes every step not completed at 0 |
| Generation.ResetRestoresInitial | src/components/ReportGenerator.tsx:175-180 | after any run, the reset gives back the initial steps, and resetting twice equals resetting once |
| Generation.PercentOfFour | src/components/ReportGenerator.tsx:96 | after step i of four completes the overall progress is 25, 50, 75 or 100, never beyond [0, 100] |
| Generation.Percent | src/components/ReportGenerator.tsx:96 | `((i + 1) / steps.length) * 100`; `PercentOfFour` gives its four values and bounds |
| Generation.InOrderIsSequential | src/components/ReportGenerator.tsx:67-108 | in an undisturbed run, no step has progress or completion unless every earlier step is complete |
| Generation.ReportGenerator.constructor | src/components/ReportGenerator.tsx:27-60 | initial steps, cursor 0, overall 0, report not ready, no timer |
| Generation.ReportGenerator.SimulateStep | src/components/ReportGenerator.tsx:67-79 | at or past the step count the report becomes ready and no timer starts; otherwise the step becomes current and its interval starts at 0 |
| Generation.ReportGenerator.Start | src/components/ReportGenerator.tsx:64-111 | on mount with generation on, step 0 becomes current and its interval starts |
| Generation.ReportGenerator.Tick | src/components/ReportGenerator.tsx:82-107 | the step completes iff the accumulator reaches 100; then the overall progress becomes (i+1)/n of 100 and step i+1 is next; otherwise only the active step's progress moves to the new accumulator; in an undisturbed run that progress never decreases and the run stays in order |
| Generation.ReportGenerator.Resume | src/components/ReportGenerator.tsx:67-99 | after the delay, the next step starts with the cursor on it, or, once past the last step, the report becomes ready with the cursor left where it was and nothing pending; steps and overall progress are unchanged and the run stays in order |
| Generation.ReportGenerator.Regenerate | src/components/ReportGenerator.tsx:175-187 | the steps become the initial steps, cursor and overall progress 0, report not ready; no timer is cancelled or started |
| Generation.DownloadName | src/components/ReportGenerator.tsx:120 | the download name; `DownloadNameShape` and `DownloadNameOfTwoWords` give its prefix, suffix and rewriting |
| Generation.DocumentLine | src/components/ReportGenerator.tsx:159 | `- name (size MB)` with the size in MiB through `toFixed(2)`; `ReportListsSpecPdf` instantiates it |
| Generation.JoinLines | src/components/ReportGenerator.tsx:159 | `join('\n')`; `JoinLinesSnoc` and `JoinLinesContains` give its append law and that every line occurs |
| Generation.DocumentList | src/components/ReportGenerator.tsx:159 | the mapped and joined file list; `DocumentListSnoc` gives one line per file in list order |
| Generation.TitleLine | src/components/ReportGenerator.tsx:135 | the title line; `ReportStartsWithCompany` shows the report begins with it |
| Generation.HeadBody | src/components/ReportGenerator.tsx:136-158 | the template text from the underline to the document-list heading, verbatim |
| Generation.ReportFoot | src/components/ReportGenerator.tsx:160-163 | the closing block ending in the date; `FootShape` shows it is never blank and ends with the date |
| Generation.GenerateMockReport | src/components/ReportGenerator.tsx:133-165 | the trimmed template; `ReportLayout` gives its exact layout, `ReportStartsWithCompany` and `ReportListsEveryFile` its title and file lines |
| Generation.DownloadNameShape | src/components/ReportGenerator.tsx:120 | the name is `Rapport_CIR_`, the rewritten company name, `.txt`; it holds no white space; a company name without white space appears verbatim |
| Generation.DownloadNameOfTwoWords | src/components/ReportGenerator.tsx:120 | two words separated by any white-space run give `Rapport_CIR_word1_word2.txt` |
| Generation.JoinLinesSnoc | src/components/ReportGenerator.tsx:159 | `join('\n')` of one more line appends a newline and that line |
| Generation.JoinLinesContains | src/components/ReportGenerator.tsx:159 | every joined line occurs in the joined text |
| Generation.DocumentListSnoc | src/components/ReportGenerator.tsx:159 | the document list is one `- name (size MB)` line per file, in list order, separated by newlines |
| Generation.TrimFramed | src/components/ReportGenerator.tsx:134-164 | trimming the template drops its opening newline, its indented closing line, and the white space ending the last part |
| Generation.FootShape | src/components/ReportGenerator.tsx:160-163 | the closing block is never blank, and it ends with the last character of the date |
| Generation.ReportLayout | src/components/ReportGenerator.tsx:133-165 | the report is the head, the document list and the closing block with its trailing white space removed; for a date that does not end in white space the closing block is kept whole |
| Generation.ReportStartsWithCompany | src/components/ReportGenerator.tsx:134-135 | the report begins with `RAPPORT CIR - `, the company name and a newline |
| Generation.ReportListsEveryFile | src/components/ReportGenerator.tsx:158-159 | the report holds the `- name (size MB)` line of every uploaded file |
| Generation.ReportListsSpecPdf | src/components/ReportGenerator.tsx:159 | a single 2 MiB `spec.pdf` shows up in the report as `spec.pdf (2.00 MB)` |
| Wizard.ProgressBar | src/pages/Index.tsx:56-60 | the questionnaire entry is completed iff a form exists, the upload entry iff a file is listed, and the report entry never is |
| Wizard.OneActiveEntry | src/pages/Index.tsx:83-86 | exactly one progress entry is highlighted: the shown stage's |
| Wizard.Wizard.constructor | src/pages/Index.tsx:31-34 | questionnaire stage, no form, no files, not generating |
| Wizard.Wizard.HandleQuestionnaireComplete | src/pages/Index.tsx:36-39 | the form is stored and the upload stage shown; the file list is unchanged |
| Wizard.Wizard.HandleFilesUploaded | src/pages/Index.tsx:41-43 | the file list is replaced wholesale by the reported one |
| Wizard.Wizard.HandleGenerateReport | src/pages/Index.tsx:45-49 | it starts iff a form exists and a file is listed; then it is generating on the generation stage, with the first two progress entries completed; otherwise nothing changes; past the questionnaire a form always exists |
| Wizard.Wizard.GenerationDelayElapsed | src/pages/Index.tsx:52-53 | generating is off again and the stage stays where it is |

## Left out

- JSX rendering, CSS classes, icons and `getFileIcon` are presentation only. So is the drag-hover flag with `handleDrop`, `handleDragOver`, `handleDragLeave`, `handleFileSelect` and `handleFileInputChange`. The handlers that deliver files only forward them to `handleFileAdd`.
- Toast notifications are UI side effects. The model keeps their data instead: the error lines of a batch, and whether anything was added.
- `handleDownload`'s `Blob`, object URL and link click, and `handlePreview` (a toast only), are browser I/O. Only the file name and the report text are modelled.
- Timers and the effect lifecycle are event-loop concurrency. Timers become the `Tick`, `Resume` and `GenerationDelayElapsed` calls. The effect is the single `Start` call made on mount: after the wait, `isGenerating` turns false and the effect returns at once.
- Two overlapping intervals, and an interval outliving the component, are not modelled. That would be a second effect run while a step is ticking.
- `Math.random()` is a parameter. The progress increment is a parameter in [0, 20). No claim is made that a run terminates, since the increment may be 0.
- `Date.now()` is also a parameter. Each accepted file's identifier is a parameter.
- Uploads.FileUpload.HandleFileAdd: requires the offered identifiers to be fresh and pairwise distinct (`FreshIds`). The code only expects `Date.now()` plus a random suffix to be distinct.
- Floating point is out of scope. Progress values, increments and the KB/MB size quotients are exact reals; byte counts are natural numbers.
- Numeric formatting is left abstract in three places:
  - `toFixed(1)` and `toFixed(2)` are function parameters;
  - `toLocaleDateString('fr-FR')` is a string parameter;
  - `Math.round` of the displayed percentages is not modelled.
- The `File` handle inside an uploaded file is never read, so it is not modelled.
- The parent wiring is not modelled as one combined state. That covers `onFilesUploaded`, `onComplete` and the `isGenerating` prop passed to the generator. Each component is a class of its own. Their handshakes are the out-parameters `reported` and `emitted`, and the parameters of the parent's handlers.
- Generation.ReportGenerator.Start: requires no pending timer and no completed step. This holds only because the effect runs once, on mount.
- Generation.ReportGenerator.Tick: promises non-decreasing progress only in an undisturbed run. A `Regenerate` made while a step is ticking resets the shown progress, and the interval keeps its own accumulator.

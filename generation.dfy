/** The generation stage: a fixed sequence of four simulated steps driven by
    timer callbacks, the overall progress figure, the reset on regenerate,
    and the two strings offered for download (the file name and the
    plain-text report). */
module Generation {
  import opened Text
  import opened Questionnaire
  import opened Uploads

  /** One step of the simulated pipeline. */
  datatype GenerationStep = GenerationStep(id: string, caption: string, description: string,
                                           completed: bool, progress: real)

  /** The step sequence the component starts with. */
  const InitialSteps: seq<GenerationStep> := [
    GenerationStep("analysis", "Analyse des documents",
                   "Extraction et analyse du contenu des fichiers téléversés...", false, 0.0),
    GenerationStep("contextualization", "Contextualisation",
                   "Intégration des informations du questionnaire...", false, 0.0),
    GenerationStep("generation", "Génération du rapport",
                   "Création du document CIR structuré...", false, 0.0),
    GenerationStep("formatting", "Mise en forme",
                   "Application du template et finalisation...", false, 0.0)
  ]

  /** The pending JavaScript timer of the simulation: nothing, the repeating
      interval of step `stepIndex` with its running accumulator `progress`,
      or the one-shot delay after which step `nextIndex` is simulated. */
  datatype Timer = Idle | Ticking(stepIndex: nat, progress: real) | Waiting(nextIndex: nat)

  /** A step that has not started. */
  predicate Pending(step: GenerationStep) {
    !step.completed && step.progress == 0.0
  }

  /** `a` and `b` list the same steps (ids, captions, descriptions) in the
      same order, whatever their progress. */
  predicate SameShape(a: seq<GenerationStep>, b: seq<GenerationStep>) {
    && |a| == |b|
    && forall j :: 0 <= j < |a| ==>
         a[j].id == b[j].id && a[j].caption == b[j].caption && a[j].description == b[j].description
  }

  lemma InitialStepsShape()
    ensures |InitialSteps| == 4
    ensures InitialSteps[0].id == "analysis" && InitialSteps[1].id == "contextualization"
    ensures InitialSteps[2].id == "generation" && InitialSteps[3].id == "formatting"
    ensures forall j :: 0 <= j < |InitialSteps| ==> Pending(InitialSteps[j])
  {
  }

  /** One interval tick of the accumulator: add the increment and clamp at
      100 once 100 is reached. */
  function Advance(p: real, increment: real): (r: real)
    requires 0.0 <= p < 100.0 && 0.0 <= increment < 20.0
    ensures p <= r <= 100.0 && r - p < 20.0
    ensures r == 100.0 <==> p + increment >= 100.0
    ensures r < 100.0 ==> r == p + increment
  {
    if p + increment >= 100.0 then 100.0 else p + increment
  }

  /** A partial tick: the step at `i` takes progress `p`. */
  function WithProgress(steps: seq<GenerationStep>, i: nat, p: real): (r: seq<GenerationStep>)
    requires i < |steps|
    ensures |r| == |steps| && SameShape(r, steps)
    ensures r[i].completed == steps[i].completed && r[i].progress == p
    ensures forall j :: 0 <= j < |steps| && j != i ==> r[j] == steps[j]
  {
    steps[i := steps[i].(progress := p)]
  }

  /** Completion of the step at `i`: `completed` and progress 100. */
  function MarkCompleted(steps: seq<GenerationStep>, i: nat): (r: seq<GenerationStep>)
    requires i < |steps|
    ensures |r| == |steps| && SameShape(r, steps)
    ensures r[i].completed && r[i].progress == 100.0
    ensures forall j :: 0 <= j < |steps| && j != i ==> r[j] == steps[j]
  {
    steps[i := steps[i].(completed := true, progress := 100.0)]
  }

  /** `handleRegenerate`'s map: every step back to not completed, progress 0. */
  function ResetSteps(steps: seq<GenerationStep>): (r: seq<GenerationStep>)
    ensures |r| == |steps| && SameShape(r, steps)
    ensures forall j :: 0 <= j < |r| ==> Pending(r[j])
  {
    seq(|steps|, j requires 0 <= j < |steps| => steps[j].(completed := false, progress := 0.0))
  }

  /** Whatever a run has done to the steps, the reset brings back the
      initial sequence; resetting twice is resetting once. */
  lemma ResetRestoresInitial(steps: seq<GenerationStep>)
    requires SameShape(steps, InitialSteps)
    ensures ResetSteps(steps) == InitialSteps
    ensures ResetSteps(ResetSteps(steps)) == ResetSteps(steps)
  {
    var r := ResetSteps(steps);
    forall j | 0 <= j < |r| ensures r[j] == InitialSteps[j] {
      assert r[j] == steps[j].(completed := false, progress := 0.0);
    }
  }

  /** The overall progress once `done` of `n` steps are complete:
      `(done / n) * 100`. */
  function Percent(done: nat, n: nat): (r: real)
    requires 0 < n
  {
    (done as real / n as real) * 100.0
  }

  /** After step i of four completes the overall figure is (i+1)/4 of 100:
      25, 50, 75 and 100, strictly increasing, never above 100. */
  lemma PercentOfFour()
    ensures Percent(1, 4) == 25.0 && Percent(2, 4) == 50.0
    ensures Percent(3, 4) == 75.0 && Percent(4, 4) == 100.0
    ensures forall d :: 0 <= d <= 4 ==> 0.0 <= Percent(d, 4) <= 100.0
  {
    forall d | 0 <= d <= 4 ensures 0.0 <= Percent(d, 4) <= 100.0 {
      assert d == 0 || d == 1 || d == 2 || d == 3 || d == 4;
    }
  }

  /** The shape every state of the component keeps: the four fixed steps,
      progress within [0, 100], a completed step at exactly 100, a timer
      that points inside the sequence, and no step completed from the
      timer's step onwards (a step completes only when its own interval
      ends, and the timer then moves on). */
  predicate WellFormed(steps: seq<GenerationStep>, timer: Timer) {
    && SameShape(steps, InitialSteps)
    && (forall j :: 0 <= j < |steps| ==>
          0.0 <= steps[j].progress <= 100.0 && (steps[j].completed ==> steps[j].progress == 100.0))
    && (timer.Ticking? ==> timer.stepIndex < |steps| && 0.0 <= timer.progress < 100.0)
    && (timer.Waiting? ==> 1 <= timer.nextIndex <= |steps|)
    && (timer.Ticking? ==> forall j :: timer.stepIndex <= j < |steps| ==> !steps[j].completed)
    && (timer.Waiting? ==> forall j :: timer.nextIndex <= j < |steps| ==> !steps[j].completed)
  }

  /** The state of a run that was started once and not disturbed by a
      regenerate in flight: steps before the active one are complete, those
      after it untouched, and the overall figure counts the completed
      steps. */
  predicate InOrder(steps: seq<GenerationStep>, cursor: nat, overall: real, ready: bool, timer: Timer)
    requires WellFormed(steps, timer)
  {
    var n := |steps|;
    match timer
    case Idle =>
      || (ready && (forall j :: 0 <= j < n ==> steps[j].completed) && overall == 100.0)
      || (!ready && steps == InitialSteps && overall == 0.0 && cursor == 0)
    case Ticking(i, p) =>
      && !ready && cursor == i && overall == Percent(i, n)
      && (forall j :: 0 <= j < i ==> steps[j].completed)
      && !steps[i].completed && steps[i].progress == p
      && (forall j :: i < j < n ==> Pending(steps[j]))
    case Waiting(k) =>
      && !ready && cursor == k - 1 && overall == Percent(k, n)
      && (forall j :: 0 <= j < k ==> steps[j].completed)
      && (forall j :: k <= j < n ==> Pending(steps[j]))
  }

  /** No step shows progress, or is complete, before every earlier step is
      complete. */
  predicate Sequential(steps: seq<GenerationStep>) {
    forall j, k :: 0 <= k < j < |steps| && (steps[j].progress > 0.0 || steps[j].completed) ==> steps[k].completed
  }

  /** A run in order is sequential. */
  lemma InOrderIsSequential(steps: seq<GenerationStep>, cursor: nat, overall: real, ready: bool, timer: Timer)
    requires WellFormed(steps, timer) && InOrder(steps, cursor, overall, ready, timer)
    ensures Sequential(steps)
  {
    forall j, k | 0 <= k < j < |steps| && (steps[j].progress > 0.0 || steps[j].completed)
      ensures steps[k].completed
    {
      match timer
      case Idle =>
        if !ready {
          assert false;
        }
      case Ticking(i, p) =>
        assert !Pending(steps[j]);
      case Waiting(m) =>
        assert !Pending(steps[j]);
    }
  }

  /** The state of the report generator component. */
  class ReportGenerator {
    var steps: seq<GenerationStep>
    var currentStepIndex: nat
    var overallProgress: real
    var reportReady: bool
    var timer: Timer

    ghost predicate Valid()
      reads this
    {
      WellFormed(steps, timer)
    }

    ghost predicate RunInOrder()
      reads this
      requires Valid()
    {
      InOrder(steps, currentStepIndex, overallProgress, reportReady, timer)
    }

    constructor ()
      ensures Valid() && RunInOrder()
      ensures steps == InitialSteps && currentStepIndex == 0 && overallProgress == 0.0
      ensures !reportReady && timer == Idle
    {
      steps := InitialSteps;
      currentStepIndex := 0;
      overallProgress := 0.0;
      reportReady := false;
      timer := Idle;
    }

    /** `simulateStep(stepIndex)`: past the last step, mark the report ready
        and start nothing; otherwise make the step current and start its
        interval with the accumulator at 0. */
    method SimulateStep(stepIndex: nat)
      requires Valid() && !timer.Ticking?
      requires forall j :: stepIndex <= j < |steps| ==> !steps[j].completed
      modifies this
      ensures Valid()
      ensures steps == old(steps) && overallProgress == old(overallProgress)
      ensures stepIndex >= |steps| ==>
        reportReady && timer == Idle && currentStepIndex == old(currentStepIndex)
      ensures stepIndex < |steps| ==>
        reportReady == old(reportReady) && currentStepIndex == stepIndex && timer == Ticking(stepIndex, 0.0)
    {
      if stepIndex >= |steps| {
        reportReady := true;
        timer := Idle;
        return;
      }
      currentStepIndex := stepIndex;
      timer := Ticking(stepIndex, 0.0);
    }

    /** The effect that runs when the component mounts with generation on:
        `simulateStep(0)`, with no step completed yet. */
    method Start()
      requires Valid() && timer.Idle?
      requires forall j :: 0 <= j < |steps| ==> !steps[j].completed
      modifies this
      ensures Valid()
      ensures steps == old(steps) && overallProgress == old(overallProgress) && reportReady == old(reportReady)
      ensures currentStepIndex == 0 && timer == Ticking(0, 0.0)
      ensures old(RunInOrder() && !reportReady) ==> RunInOrder()
    {
      SimulateStep(0);
    }

    /** One firing of the interval: advance the accumulator by `increment`
        (`Math.random() * 20`); below 100 only the active step's progress
        changes; at 100 the step completes, the overall figure becomes
        (i+1)/n of 100 and the delay before step i+1 starts. */
    method Tick(increment: real) returns (stepDone: bool)
      requires Valid() && timer.Ticking? && 0.0 <= increment < 20.0
      modifies this
      ensures Valid()
      ensures currentStepIndex == old(currentStepIndex) && reportReady == old(reportReady)
      ensures stepDone <==> old(timer.progress) + increment >= 100.0
      ensures stepDone ==>
        && steps == MarkCompleted(old(steps), old(timer.stepIndex))
        && overallProgress == Percent(old(timer.stepIndex) + 1, |steps|)
        && timer == Waiting(old(timer.stepIndex) + 1)
      ensures !stepDone ==>
        && steps == WithProgress(old(steps), old(timer.stepIndex), old(timer.progress) + increment)
        && overallProgress == old(overallProgress)
        && timer == Ticking(old(timer.stepIndex), old(timer.progress) + increment)
      ensures old(RunInOrder()) ==> RunInOrder()
      ensures old(RunInOrder()) ==> steps[old(timer.stepIndex)].progress >= old(steps[timer.stepIndex].progress)
    {
      var i := timer.stepIndex;
      var progress := Advance(timer.progress, increment);
      if progress >= 100.0 {
        steps := MarkCompleted(steps, i);
        overallProgress := Percent(i + 1, |steps|);
        timer := Waiting(i + 1);
        stepDone := true;
      } else {
        steps := WithProgress(steps, i, progress);
        timer := Ticking(i, progress);
        stepDone := false;
      }
    }

    /** The delay after a completion has elapsed: `simulateStep(i + 1)`. */
    method Resume()
      requires Valid() && timer.Waiting?
      modifies this
      ensures Valid()
      ensures steps == old(steps) && overallProgress == old(overallProgress)
      ensures old(timer.nextIndex) == |steps| ==> reportReady && timer == Idle && currentStepIndex == old(currentStepIndex)
      ensures old(timer.nextIndex) < |steps| ==>
        reportReady == old(reportReady) && currentStepIndex == old(timer.nextIndex)
        && timer == Ticking(old(timer.nextIndex), 0.0)
      ensures old(RunInOrder()) ==> RunInOrder()
    {
      ghost var wasInOrder := RunInOrder();
      SimulateStep(timer.nextIndex);
      if wasInOrder && reportReady {
        assert Percent(|steps|, |steps|) == 100.0;
      }
    }

    /** `handleRegenerate`: every step back to its initial state, cursor and
        overall figure to 0, report no longer ready. The control is shown
        only once the report is ready, when no timer is pending; the
        handler itself neither cancels a timer nor starts a new run. */
    method Regenerate()
      requires Valid()
      modifies this
      ensures Valid()
      ensures steps == ResetSteps(old(steps)) && steps == InitialSteps
      ensures currentStepIndex == 0 && overallProgress == 0.0 && !reportReady
      ensures timer == old(timer)
      ensures timer.Idle? ==> RunInOrder()
    {
      ResetRestoresInitial(steps);
      steps := ResetSteps(steps);
      currentStepIndex := 0;
      overallProgress := 0.0;
      reportReady := false;
    }
  }

  /** The download name: `Rapport_CIR_`, the company name with every run of
      white space replaced by `_`, then `.txt`. */
  function DownloadName(companyName: string): string {
    "Rapport_CIR_" + UnderscoreSpaces(companyName) + ".txt"
  }

  /** The name has the fixed prefix and suffix, holds no white space, keeps a
      name without white space verbatim, and turns each run of white space
      between two words into one underscore. */
  lemma DownloadNameShape(companyName: string)
    ensures var r := DownloadName(companyName);
      && |r| >= 16 && r[..12] == "Rapport_CIR_" && r[|r| - 4..] == ".txt"
      && Spaceless(r)
    ensures Spaceless(companyName) ==> DownloadName(companyName) == "Rapport_CIR_" + companyName + ".txt"
  {
    var u := UnderscoreSpaces(companyName);
    UnderscoreSpacesSpaceless(companyName);
    var r := DownloadName(companyName);
    assert r == "Rapport_CIR_" + u + ".txt";
    forall i | 0 <= i < |r| ensures !IsSpace(r[i]) {
      if 12 <= i < 12 + |u| {
        assert r[i] == u[i - 12];
      }
    }
    if Spaceless(companyName) {
      UnderscoreSpacesIdentity(companyName);
    }
  }

  /** Two words separated by any white-space run give `word1_word2`. */
  lemma DownloadNameOfTwoWords(a: string, w: string, b: string)
    requires Spaceless(a) && Spaceless(b) && w != [] && Blank(w)
    ensures DownloadName(a + w + b) == "Rapport_CIR_" + a + "_" + b + ".txt"
  {
    UnderscoreSpacesRun(a, w, b);
    UnderscoreSpacesIdentity(a);
    UnderscoreSpacesIdentity(b);
  }

  /** One line of the document list: `- name (size MB)`, where `toFixed2`
      stands for JavaScript's `toFixed(2)` of the size in MiB. */
  function DocumentLine(f: UploadedFile, toFixed2: real -> string): string {
    "- " + f.name + " (" + toFixed2(f.size as real / 1024.0 / 1024.0) + " MB)"
  }

  /** `lines.join('\n')`. */
  function JoinLines(lines: seq<string>): string
    decreases |lines|
  {
    if |lines| == 0 then ""
    else if |lines| == 1 then lines[0]
    else lines[0] + "\n" + JoinLines(lines[1..])
  }

  /** Joining one more line appends a newline and that line. */
  lemma {:induction false} JoinLinesSnoc(lines: seq<string>, last: string)
    requires lines != []
    ensures JoinLines(lines + [last]) == JoinLines(lines) + "\n" + last
    decreases |lines|
  {
    var all := lines + [last];
    assert all[0] == lines[0];
    if |lines| == 1 {
      assert all[1..] == [last];
    } else {
      assert all[1..] == lines[1..] + [last];
      JoinLinesSnoc(lines[1..], last);
    }
  }

  /** The document list: one line per uploaded file, in list order. */
  function DocumentList(files: seq<UploadedFile>, toFixed2: real -> string): string {
    JoinLines(seq(|files|, k requires 0 <= k < |files| => DocumentLine(files[k], toFixed2)))
  }

  /** The list of `files + [f]` is the list of `files`, a newline and the
      line of `f`; a single file gives its line alone. */
  lemma DocumentListSnoc(files: seq<UploadedFile>, f: UploadedFile, toFixed2: real -> string)
    ensures DocumentList([f], toFixed2) == DocumentLine(f, toFixed2)
    ensures files != [] ==>
      DocumentList(files + [f], toFixed2) == DocumentList(files, toFixed2) + "\n" + DocumentLine(f, toFixed2)
  {
    var lines := seq(|files|, k requires 0 <= k < |files| => DocumentLine(files[k], toFixed2));
    var more := seq(|files + [f]|, k requires 0 <= k < |files + [f]| => DocumentLine((files + [f])[k], toFixed2));
    assert more == lines + [DocumentLine(f, toFixed2)];
    if files != [] {
      JoinLinesSnoc(lines, DocumentLine(f, toFixed2));
    }
  }

  /** The report's first line: `RAPPORT CIR - ` and the company name. */
  function TitleLine(form: FormData): string {
    "RAPPORT CIR - " + form.companyName + "\n"
  }

  /** The report text from the underline to the document list. */
  function HeadBody(form: FormData): string {
    "=====================================\n"
    + "\n"
    + "PROJET: " + form.projectTitle + "\n"
    + "\n"
    + "1. CONTEXT/OBJECTIVES\n"
    + form.objectives + "\n"
    + "\n"
    + "2. DESCRIPTION DU PROJET\n"
    + form.projectDescription + "\n"
    + "\n"
    + "3. PÉRIODE ET BUDGET\n"
    + "- Début: " + form.startDate + "\n"
    + "- Fin: " + form.endDate + "\n"
    + "- Budget: " + form.budget + "€\n"
    + "- Équipe: " + form.teamSize + " personnes\n"
    + "\n"
    + "4. DÉFIS TECHNIQUES\n"
    + form.technicalChallenges + "\n"
    + "\n"
    + "5. RÉSULTATS ATTENDUS\n"
    + form.expectedResults + "\n"
    + "\n"
    + "6. DOCUMENTS ANALYSÉS\n"
  }

  /** The report text up to the document list. */
  function ReportHead(form: FormData): string {
    TitleLine(form) + HeadBody(form)
  }

  /** The report text after the document list; `today` stands for
      `new Date().toLocaleDateString('fr-FR')`. */
  function ReportFoot(today: string): string {
    "\n"
    + "\n"
    + "---\n"
    + "Rapport généré automatiquement par l'Assistant CIR\n"
    + "Date de génération: " + today
  }

  /** `generateMockReport`: the template literal, which opens with a newline
      and closes with a newline and four spaces, then `trim()`. */
  function GenerateMockReport(form: FormData, files: seq<UploadedFile>, today: string,
                              toFixed2: real -> string): string
  {
    Trim("\n" + ReportHead(form) + DocumentList(files, toFixed2) + ReportFoot(today) + "\n    ")
  }

  /** Trimming a text framed by a newline and an indented closing line, that
      starts with a character that is not white space and ends in a part `foot`
      that is not blank, drops the frame and the white space ending `foot`. */
  lemma TrimFramed(a: string, foot: string)
    requires a != [] && !IsSpace(a[0]) && !Blank(foot)
    ensures Trim("\n" + (a + foot) + "\n    ") == a + TrimEnd(foot)
  {
    var body := a + foot;
    var framed := "\n" + body + "\n    ";
    assert TrimStart(framed) == body + "\n    " by {
      assert framed[0] == '\n';
      assert framed[1..] == body + "\n    ";
      assert (body + "\n    ")[0] == a[0];
    }
    assert Blank("\n    ");
    TrimEndBlankSuffix(body, "\n    ");
    TrimEndKeepsPrefix(a, foot);
  }

  /** The foot is never blank, and it ends in the last character of a
      non-empty date. */
  lemma FootShape(today: string)
    ensures !Blank(ReportFoot(today))
    ensures today != [] ==> ReportFoot(today)[|ReportFoot(today)| - 1] == today[|today| - 1]
  {
    var foot := ReportFoot(today);
    assert foot[2] == '-';
  }

  /** The head is not empty and starts with `R`. */
  lemma HeadShape(form: FormData)
    ensures ReportHead(form) != [] && ReportHead(form)[0] == 'R'
  {
    assert TitleLine(form)[0] == 'R';
  }

  /** The trim of the template, for a head that starts with a character that
      is not white space and a foot that is not blank. */
  lemma FramedLayout(head: string, list: string, foot: string)
    requires head != [] && !IsSpace(head[0]) && !Blank(foot)
    ensures Trim("\n" + head + list + foot + "\n    ") == head + list + TrimEnd(foot)
  {
    var a := head + list;
    assert a[0] == head[0];
    assert "\n" + head + list + foot + "\n    " == "\n" + (a + foot) + "\n    ";
    TrimFramed(a, foot);
  }

  /** Trimming removes exactly the template's opening newline and closing
      indentation, and whatever white space ends the date: the report is the
      head, the document list and the trimmed foot. With a date that ends in
      a character that is not white space, the foot is kept whole. */
  lemma ReportLayout(form: FormData, files: seq<UploadedFile>, today: string, toFixed2: real -> string)
    ensures GenerateMockReport(form, files, today, toFixed2)
         == ReportHead(form) + DocumentList(files, toFixed2) + TrimEnd(ReportFoot(today))
    ensures today != [] && !IsSpace(today[|today| - 1]) ==>
      GenerateMockReport(form, files, today, toFixed2)
         == ReportHead(form) + DocumentList(files, toFixed2) + ReportFoot(today)
  {
    HeadShape(form);
    FootShape(today);
    FramedLayout(ReportHead(form), DocumentList(files, toFixed2), ReportFoot(today));
  }

  /** A concatenation of four parts starts with its first part. */
  lemma PrefixOfParts(h: string, b: string, l: string, t: string)
    ensures |h| <= |h + b + l + t| && (h + b + l + t)[..|h|] == h
  {
    assert h + b + l + t == h + (b + l + t);
  }

  /** The report begins with its title line: `RAPPORT CIR - `, the company
      name and a newline. */
  lemma ReportStartsWithCompany(form: FormData, files: seq<UploadedFile>, today: string, toFixed2: real -> string)
    ensures var r := GenerateMockReport(form, files, today, toFixed2);
      |TitleLine(form)| <= |r| && r[..|TitleLine(form)|] == TitleLine(form)
  {
    ReportLayout(form, files, today, toFixed2);
    PrefixOfParts(TitleLine(form), HeadBody(form), DocumentList(files, toFixed2), TrimEnd(ReportFoot(today)));
  }

  /** `t` occurs in `s` at position `i`. */
  predicate OccursAt(s: string, t: string, i: nat) {
    i + |t| <= |s| && s[i..i + |t|] == t
  }

  /** `t` occurs in `s`. */
  predicate Contains(s: string, t: string) {
    exists i: nat :: i <= |s| && OccursAt(s, t, i)
  }

  /** An occurrence of `t` in `b` is one in `a + b + c`, shifted by `|a|`. */
  lemma OccursInside(a: string, b: string, c: string, t: string, i: nat)
    requires OccursAt(b, t, i)
    ensures OccursAt(a + b + c, t, |a| + i)
  {
    var s := a + b + c;
    forall m | 0 <= m < |t| ensures s[|a| + i + m] == t[m] {
      assert b[i + m] == t[m];
    }
  }

  /** Each line given to `join('\n')` occurs in the joined text. */
  lemma {:induction false} JoinLinesContains(lines: seq<string>, k: nat)
    requires k < |lines|
    ensures Contains(JoinLines(lines), lines[k])
    decreases |lines|
  {
    var s := JoinLines(lines);
    if |lines| == 1 {
      assert OccursAt(s, lines[k], 0);
    } else if k == 0 {
      OccursInside([], lines[0], "\n" + JoinLines(lines[1..]), lines[0], 0);
      assert [] + lines[0] + ("\n" + JoinLines(lines[1..])) == s;
      assert OccursAt(s, lines[k], 0);
    } else {
      assert lines[1..][k - 1] == lines[k];
      JoinLinesContains(lines[1..], k - 1);
      var i: nat :| i <= |JoinLines(lines[1..])| && OccursAt(JoinLines(lines[1..]), lines[k], i);
      OccursInside(lines[0] + "\n", JoinLines(lines[1..]), [], lines[k], i);
      assert lines[0] + "\n" + JoinLines(lines[1..]) + [] == s;
      assert OccursAt(s, lines[k], |lines[0] + "\n"| + i);
    }
  }

  /** The report holds the line of every uploaded file. */
  lemma ReportListsEveryFile(form: FormData, files: seq<UploadedFile>, today: string,
                             toFixed2: real -> string, k: nat)
    requires k < |files|
    ensures Contains(GenerateMockReport(form, files, today, toFixed2), DocumentLine(files[k], toFixed2))
  {
    var lines := seq(|files|, j requires 0 <= j < |files| => DocumentLine(files[j], toFixed2));
    assert lines[k] == DocumentLine(files[k], toFixed2);
    JoinLinesContains(lines, k);
    var list := DocumentList(files, toFixed2);
    var i: nat :| i <= |list| && OccursAt(list, lines[k], i);
    ReportLayout(form, files, today, toFixed2);
    var head := ReportHead(form);
    OccursInside(head, list, TrimEnd(ReportFoot(today)), lines[k], i);
    var r := GenerateMockReport(form, files, today, toFixed2);
    assert OccursAt(r, lines[k], |head| + i);
  }

  /** A single 2 MiB PDF named `spec.pdf`, with `toFixed(2)` of 2 giving
      `2.00`, shows up in the report as `spec.pdf (2.00 MB)`. */
  lemma ReportListsSpecPdf(form: FormData, id: string, today: string, toFixed2: real -> string)
    requires toFixed2(2.0) == "2.00"
    ensures Contains(GenerateMockReport(form, [UploadedFile(id, "spec.pdf", 2097152, PdfType)], today, toFixed2),
                     "spec.pdf (2.00 MB)")
  {
    var f := UploadedFile(id, "spec.pdf", 2097152, PdfType);
    DocumentListSnoc([], f, toFixed2);
    assert [] + [f] == [f];
    assert f.size as real / 1024.0 / 1024.0 == 2.0;
    var t := "spec.pdf (2.00 MB)";
    assert DocumentLine(f, toFixed2) == "- " + t;
    ReportLayout(form, [f], today, toFixed2);
    var head, post := ReportHead(form), TrimEnd(ReportFoot(today));
    OccursAfter(head, "- ", t, post);
  }

  /** `t` occurs right after `a + d` in `a + (d + t) + c`. */
  lemma OccursAfter(a: string, d: string, t: string, c: string)
    ensures OccursAt(a + (d + t) + c, t, |a| + |d|)
  {
    var s := a + (d + t) + c;
    assert s == (a + d) + t + c;
    assert s[|a + d|..|a + d| + |t|] == t;
  }
}

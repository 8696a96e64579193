/** The page that strings the three stages together: questionnaire, then
    document upload, then report generation, with the progress bar above
    them. */
module Wizard {
  import opened Wrappers
  import opened Questionnaire
  import opened Uploads

  /** `currentStep`: which stage is shown. */
  datatype Stage = QuestionnaireStage | UploadStage | GenerateStage

  /** One entry of the progress bar. */
  datatype ProgressEntry = ProgressEntry(id: string, caption: string, completed: bool)

  /** The progress bar: a stage counts as completed once its data exists;
      the last one never does. */
  function ProgressBar(form: Option<FormData>, files: seq<UploadedFile>): (r: seq<ProgressEntry>)
    ensures |r| == 3
    ensures r[0].id == "questionnaire" && r[1].id == "upload" && r[2].id == "generate"
    ensures r[0].completed <==> form.Some?
    ensures r[1].completed <==> |files| > 0
    ensures !r[2].completed
  {
    [ProgressEntry("questionnaire", "Questionnaire", form.Some?),
     ProgressEntry("upload", "Documents", |files| > 0),
     ProgressEntry("generate", "Rapport CIR", false)]
  }

  /** The progress-bar id of each stage. */
  function StageId(s: Stage): string {
    match s
    case QuestionnaireStage => "questionnaire"
    case UploadStage => "upload"
    case GenerateStage => "generate"
  }

  /** Exactly one entry of the bar is highlighted as active: the one of the
      shown stage. */
  lemma OneActiveEntry(form: Option<FormData>, files: seq<UploadedFile>, s: Stage)
    ensures var bar := ProgressBar(form, files);
      |set j | 0 <= j < |bar| && bar[j].id == StageId(s)| == 1
  {
    var bar := ProgressBar(form, files);
    var active := set j | 0 <= j < |bar| && bar[j].id == StageId(s);
    var k := match s case QuestionnaireStage => 0 case UploadStage => 1 case GenerateStage => 2;
    assert active == {k} by {
      forall j | j in active ensures j == k {
        assert bar[j].id == StageId(s);
      }
    }
  }

  /** The state of the page. */
  class Wizard {
    var currentStep: Stage
    var formData: Option<FormData>
    var uploadedFiles: seq<UploadedFile>
    var isGenerating: bool

    /** Past the questionnaire the form exists, which is what lets the
        upload and generation stages be rendered with it. */
    ghost predicate Valid()
      reads this
    {
      currentStep != QuestionnaireStage ==> formData.Some?
    }

    constructor ()
      ensures Valid()
      ensures currentStep == QuestionnaireStage && formData == None
      ensures uploadedFiles == [] && !isGenerating
    {
      currentStep := QuestionnaireStage;
      formData := None;
      uploadedFiles := [];
      isGenerating := false;
    }

    /** `handleQuestionnaireComplete`: keep the form and show the upload
        stage. */
    method HandleQuestionnaireComplete(data: FormData)
      requires Valid()
      modifies this
      ensures Valid()
      ensures formData == Some(data) && currentStep == UploadStage
      ensures uploadedFiles == old(uploadedFiles) && isGenerating == old(isGenerating)
    {
      formData := Some(data);
      currentStep := UploadStage;
    }

    /** `handleFilesUploaded`: replace the document list with the one the
        upload component reports. */
    method HandleFilesUploaded(files: seq<UploadedFile>)
      requires Valid()
      modifies this
      ensures Valid()
      ensures uploadedFiles == files
      ensures currentStep == old(currentStep) && formData == old(formData) && isGenerating == old(isGenerating)
    {
      uploadedFiles := files;
    }

    /** `handleGenerateReport`, up to its three-second wait: without a form
        or without a document nothing happens; otherwise generation is on
        and the generation stage is shown. */
    method HandleGenerateReport() returns (started: bool)
      requires Valid()
      modifies this
      ensures Valid()
      ensures started <==> old(formData).Some? && |old(uploadedFiles)| > 0
      ensures started ==> isGenerating && currentStep == GenerateStage
      ensures started ==> ProgressBar(formData, uploadedFiles)[0].completed && ProgressBar(formData, uploadedFiles)[1].completed
      ensures !started ==> isGenerating == old(isGenerating) && currentStep == old(currentStep)
      ensures formData == old(formData) && uploadedFiles == old(uploadedFiles)
    {
      if formData.None? || |uploadedFiles| == 0 {
        return false;
      }
      isGenerating := true;
      currentStep := GenerateStage;
      started := true;
    }

    /** The end of `handleGenerateReport`'s wait: generation is off again;
        the stage stays as it is. */
    method GenerationDelayElapsed()
      requires Valid()
      modifies this
      ensures Valid()
      ensures !isGenerating
      ensures currentStep == old(currentStep) && formData == old(formData) && uploadedFiles == old(uploadedFiles)
    {
      isGenerating := false;
    }
  }
}

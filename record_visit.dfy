/**
 * The three-step visit wizard: patient details, recording, review of the summary.
 */
module RecordVisit {
  import opened Wrappers
  import opened Numerals
  import AudioRecorder

  datatype Patient = Patient(patientId: string, patientName: string, visitDate: string, physician: string, notes: string)

  /** What `renderStepContent` shows for a step. */
  datatype StepContent =
    | PatientFormStep(patient: Patient)
    | RecorderStep
    | SummaryStep(summary: Option<AudioRecorder.Reply>, isLoading: bool, error: string)
    | UnknownStep

  const StepCount := 3

  class Wizard {
    var activeStep: int
    var patient: Patient
    /** The reply handed over by the recorder. */
    var summary: Option<AudioRecorder.Reply>
    /** Never changed by the page: the summary step is always shown as loaded, without error. */
    const isLoading: bool
    const error: string

    /** The steps the buttons can reach. */
    predicate Valid()
      reads this
    {
      0 <= activeStep < StepCount
    }

    /** `renderStepContent(step)`. */
    function RenderStepContent(step: int): (c: StepContent)
      reads this
      ensures step == 0 <==> c.PatientFormStep?
      ensures step == 1 <==> c.RecorderStep?
      ensures step == 2 <==> c.SummaryStep?
      ensures c.UnknownStep? <==> step < 0 || step > 2
      ensures c.PatientFormStep? ==> c.patient == patient
      ensures c.SummaryStep? ==> c.summary == summary && c.isLoading == isLoading && c.error == error
    {
      if step == 0 then PatientFormStep(patient)
      else if step == 1 then RecorderStep
      else if step == 2 then SummaryStep(summary, isLoading, error)
      else UnknownStep
    }

    /** Back is disabled on the first step. */
    predicate BackEnabled()
      reads this
    {
      activeStep != 0
    }

    /** The last step shows "Save & Finish"; Next is shown only on the first step, and is
        disabled until a patient id has been entered. */
    predicate FinishShown()
      reads this
    {
      activeStep == StepCount - 1
    }

    predicate NextShown()
      reads this
    {
      !FinishShown() && activeStep == 0
    }

    predicate NextEnabled()
      reads this
    {
      NextShown() && patient.patientId != []
    }

    /** The initial state: step 0, empty patient fields, the visit date set to `today`. */
    constructor(today: Date)
      requires ValidDate(today)
      ensures Valid() && activeStep == 0 && summary == None
      ensures patient == Patient([], [], IsoDate(today), [], [])
      ensures !isLoading && error == []
      ensures RenderStepContent(activeStep) == PatientFormStep(patient)
      ensures !BackEnabled() && NextShown() && !NextEnabled()
    {
      activeStep := 0;
      patient := Patient([], [], IsoDate(today), [], []);
      summary := None;
      isLoading := false;
      error := [];
    }

    /** `handleNext`: one step forward, with no bound of its own. */
    method Next()
      modifies this
      ensures activeStep == old(activeStep) + 1
      ensures patient == old(patient) && summary == old(summary)
    {
      activeStep := activeStep + 1;
    }

    /** `handleBack`: one step back, with no bound of its own. */
    method Back()
      modifies this
      ensures activeStep == old(activeStep) - 1
      ensures patient == old(patient) && summary == old(summary)
    {
      activeStep := activeStep - 1;
    }

    /** `handleRecordingComplete`: keeps the reply and jumps to the review step. */
    method RecordingComplete(data: AudioRecorder.Reply)
      modifies this
      ensures Valid()
      ensures summary == Some(data) && activeStep == 2 && patient == old(patient)
      ensures RenderStepContent(activeStep) == SummaryStep(Some(data), isLoading, error)
    {
      summary := Some(data);
      activeStep := 2;
    }

    /** The patient form's `setPatient`. */
    method SetPatient(p: Patient)
      modifies this
      ensures patient == p && activeStep == old(activeStep) && summary == old(summary)
    {
      patient := p;
    }

    /** A click on Back, which does nothing while the button is disabled. */
    method PressBack()
      requires Valid()
      modifies this
      ensures Valid()
      ensures activeStep == if old(activeStep) == 0 then 0 else old(activeStep) - 1
      ensures patient == old(patient) && summary == old(summary)
    {
      if BackEnabled() {
        Back();
      }
    }

    /** A click on Next, which does nothing while the button is hidden or disabled. */
    method PressNext()
      requires Valid()
      modifies this
      ensures Valid()
      ensures activeStep == if old(activeStep) == 0 && old(patient).patientId != [] then 1 else old(activeStep)
      ensures patient == old(patient) && summary == old(summary)
    {
      if NextEnabled() {
        Next();
      }
    }
  }

  /** The user's actions on the page. */
  datatype Action = ClickBack | ClickNext | EditPatient(p: Patient) | Complete(data: AudioRecorder.Reply)

  /** Whatever the user does through the buttons, the form and the recorder, the wizard
      stays on one of its three steps and never shows "Unknown step". */
  method Run(today: Date, actions: seq<Action>) returns (w: Wizard)
    requires ValidDate(today)
    ensures w.Valid() && !w.RenderStepContent(w.activeStep).UnknownStep?
  {
    w := new Wizard(today);
    var i := 0;
    while i < |actions|
      invariant w.Valid()
    {
      match actions[i] {
        case ClickBack => w.PressBack();
        case ClickNext => w.PressNext();
        case EditPatient(p) => w.SetPatient(p);
        case Complete(data) => w.RecordingComplete(data);
      }
      i := i + 1;
    }
  }
}

/** The installation-diagram step sequencer: the current step, the two
    navigation buttons and the diagram it poses.  There is no separate
    "animating" flag in the page: a running step timeline is guarded by both
    buttons being disabled until the timeline's completion callback
    re-evaluates them. */
module Sequencer {
  import opened Poses

  /** Identifiers of the eight elements the walkthrough looks up. */
  const RequiredIds: seq<string> := [
    "diagram-step-text", "next-step-btn", "prev-step-btn", "diag-sensor",
    "diag-spacer", "diag-wrench", "diag-exhaust-group", "diag-cat-group"
  ]

  /** The caption shown for each step. */
  const StepTexts: seq<string> := [
    "Paso 1: Localice el sensor de oxígeno secundario (post-catalizador).",
    "Paso 2: Use una llave para desconectar y desenroscar el sensor.",
    "Paso 3: Enrosque firmemente la Alza en el puerto vacío del escape.",
    "Paso 4: Finalmente, enrosque el sensor en la Alza y reconecte.",
    "Paso 5: Borre los códigos de error con un escáner y conduzca el vehículo."
  ]

  /** True when every required element is present in the document, given as
      the set of identifiers it contains. */
  predicate AllPresent(document: set<string>) {
    forall i :: 0 <= i < |RequiredIds| ==> RequiredIds[i] in document
  }

  class Walkthrough {
    /** Index of the step on display. */
    var step: int
    var prevDisabled: bool
    var nextDisabled: bool
    /** A step timeline has started and its completion callback is pending
        (state of the animation engine, not a variable of the page). */
    var running: bool
    /** The diagram as the page shows it. */
    var scene: Scene
    /** The caption element's text. */
    var stepText: string

    ghost predicate Valid()
      reads this
    {
      0 <= step < StepCount &&
      stepText == StepTexts[step] &&
      (running ==> prevDisabled && nextDisabled && Satisfies(scene, EntryPose(step))) &&
      (!running ==> prevDisabled == (step == 0) && nextDisabled == (step == StepCount - 1) &&
                    Satisfies(scene, Settled(step)))
    }

    /** The walkthrough as set up over a document holding every required
        element: it shows step 0 and starts that step's timeline. */
    constructor (initial: Scene)
      ensures Valid()
      ensures step == 0 && running && prevDisabled && nextDisabled
      ensures scene == ApplyPose(EntryPose(0), initial)
    {
      step := 0;
      scene := initial;
      stepText := [];
      new;
      UpdateStep();
    }

    /** Set-up over a document: nothing is created when any required element
        is missing. */
    static method Setup(document: set<string>, initial: Scene) returns (w: Walkthrough?)
      ensures w == null <==> !AllPresent(document)
      ensures w != null ==> fresh(w) && w.Valid() && w.step == 0 && w.running &&
                            w.scene == ApplyPose(EntryPose(0), initial)
    {
      if !AllPresent(document) {
        return null;
      }
      w := new Walkthrough(initial);
    }

    /** Shows the caption of the current step, disables both buttons, snaps the
        diagram to the step's entry pose and starts its timeline. */
    method UpdateStep()
      requires 0 <= step < StepCount
      modifies this
      ensures step == old(step) && running && prevDisabled && nextDisabled
      ensures stepText == StepTexts[step]
      ensures scene == ApplyPose(EntryPose(step), old(scene))
      ensures Valid()
    {
      stepText := StepTexts[step];
      nextDisabled := true;
      prevDisabled := true;
      scene := ApplyPose(EntryPose(step), scene);
      ApplyEstablishes(EntryPose(step), old(scene));
      running := true;
    }

    /** A click on "next": honoured only when that button is enabled. */
    method ClickNext()
      requires Valid()
      modifies this
      ensures Valid()
      ensures old(nextDisabled) ==> step == old(step) && scene == old(scene) &&
                                    running == old(running) &&
                                    prevDisabled == old(prevDisabled) && nextDisabled == old(nextDisabled)
      ensures !old(nextDisabled) ==> !old(running) && step == old(step) + 1 && running &&
                                     prevDisabled && nextDisabled &&
                                     scene == ApplyPose(EntryPose(step), old(scene))
    {
      if !nextDisabled {
        step := step + 1;
        UpdateStep();
      }
    }

    /** A click on "previous": honoured only when that button is enabled. */
    method ClickPrev()
      requires Valid()
      modifies this
      ensures Valid()
      ensures old(prevDisabled) ==> step == old(step) && scene == old(scene) &&
                                    running == old(running) &&
                                    prevDisabled == old(prevDisabled) && nextDisabled == old(nextDisabled)
      ensures !old(prevDisabled) ==> !old(running) && step == old(step) - 1 && running &&
                                     prevDisabled && nextDisabled &&
                                     scene == ApplyPose(EntryPose(step), old(scene))
    {
      if !prevDisabled {
        step := step - 1;
        UpdateStep();
      }
    }

    /** The running timeline completes: its last keyframes are in place and the
        buttons are re-evaluated for the current step. */
    method Complete()
      requires Valid() && running
      modifies this
      ensures Valid() && !running
      ensures step == old(step) && stepText == old(stepText)
      ensures prevDisabled == (step == 0) && nextDisabled == (step == StepCount - 1)
      ensures scene == ApplyPose(FinalKeys(step), old(scene))
    {
      scene := ApplyPose(FinalKeys(step), scene);
      SatisfiesAfterApply(EntryPose(step), FinalKeys(step), old(scene));
      running := false;
      prevDisabled := step == 0;
      nextDisabled := step == StepCount - 1;
    }
  }

  /** Walking forward through the whole walkthrough, waiting for every
      timeline: four honoured "next" clicks end on the last step with "next"
      disabled, "previous" enabled and the diagram in the last step's
      settled pose. */
  method WalkToEnd(document: set<string>, initial: Scene) returns (w: Walkthrough?)
    ensures w == null <==> !AllPresent(document)
    ensures w != null ==> w.Valid() && w.step == StepCount - 1 && !w.running &&
                          w.nextDisabled && !w.prevDisabled &&
                          Satisfies(w.scene, Settled(StepCount - 1))
  {
    w := Walkthrough.Setup(document, initial);
    if w == null {
      return;
    }
    w.Complete();
    w.ClickNext(); w.Complete();
    w.ClickNext(); w.Complete();
    w.ClickNext(); w.Complete();
    w.ClickNext(); w.Complete();
  }

  /** Stepping back from a settled step 2 with two quick "previous" clicks,
      waiting for the timeline, and forward again with two quick "next"
      clicks: `back` is the step after the two "previous" clicks and `forth`
      the step after the first "next" click.  Each second click falls in a
      running timeline and is ignored.  The diagram ends in step 2's entry
      pose, with the wrench left hidden where step 1's timeline put it. */
  method BackAndForth(w: Walkthrough) returns (back: int, forth: int)
    requires w.Valid() && w.step == 2 && !w.running
    modifies w
    ensures back == 1 && forth == 2
    ensures w.Valid() && w.step == 2 && w.running
    ensures Satisfies(w.scene, EntryPose(2))
    ensures w.scene.wrench == PartState(Transform(385, 45, -50), 0)
  {
    w.ClickPrev();
    w.ClickPrev();
    back := w.step;
    w.Complete();
    w.ClickNext();
    forth := w.step;
    w.ClickNext();
  }
}

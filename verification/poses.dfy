/** The installation diagram of the walkthrough: its five parts, the pose every
    step snaps them into before its timeline starts, and the keyframes each
    step's forward timeline ends on.  Opacity is written in hundredths
    (100 = fully opaque, 40 = the dimmed 0.4), so every value is an integer. */
module Poses {
  import opened Wrappers

  /** Number of steps of the walkthrough. */
  const StepCount: nat := 5

  type StepIndex = s: int | 0 <= s < 5

  /** A part's transform: a translation and a rotation in degrees. */
  datatype Transform = Transform(tx: int, ty: int, rotate: int)

  /** What a pose writes into one part; `None` leaves that property as it was. */
  datatype PartPose = PartPose(transform: Option<Transform>, opacity: Option<int>)

  datatype Part = Sensor | Spacer | Wrench | Exhaust | Cat

  datatype Pose = Pose(sensor: PartPose, spacer: PartPose, wrench: PartPose,
                       exhaust: PartPose, cat: PartPose)
  {
    function At(part: Part): PartPose {
      match part
      case Sensor => sensor
      case Spacer => spacer
      case Wrench => wrench
      case Exhaust => exhaust
      case Cat => cat
    }
  }

  /** The on-screen state of one part. */
  datatype PartState = PartState(transform: Transform, opacity: int)

  /** The on-screen state of the whole diagram. */
  datatype Scene = Scene(sensor: PartState, spacer: PartState, wrench: PartState,
                         exhaust: PartState, cat: PartState)
  {
    function At(part: Part): PartState {
      match part
      case Sensor => sensor
      case Spacer => spacer
      case Wrench => wrench
      case Exhaust => exhaust
      case Cat => cat
    }
  }

  const Keep: PartPose := PartPose(None, None)

  function Place(t: Transform, opacity: int): PartPose {
    PartPose(Some(t), Some(opacity))
  }

  function Fade(opacity: int): PartPose {
    PartPose(None, Some(opacity))
  }

  function Move(t: Transform): PartPose {
    PartPose(Some(t), None)
  }

  /** Where the sensor sits when screwed in. */
  const Base: Transform := Transform(385, 60, 0)

  /** The pose `anime.set` forces for step `s` before the step's timeline, in
      whichever direction the step was reached.  A transform string without a
      rotate term (the spacer's) leaves the part unrotated. */
  function EntryPose(s: StepIndex): (p: Pose)
    ensures p.sensor.opacity == Some(100) && p.exhaust.opacity == Some(100) && p.cat.opacity == Some(100)
    ensures p.spacer.opacity == Some(if s <= 2 then 0 else 100)
    ensures p.wrench == Keep <==> s >= 3
    ensures p.sensor.transform.Some?
    ensures p.exhaust.transform.None? && p.cat.transform.None?
  {
    match s
    case 0 => Pose(Place(Base, 100), Fade(0), Fade(0), Fade(100), Fade(100))
    case 1 => Pose(Place(Base, 100), Fade(0), Place(Transform(450, 40, 30), 0), Fade(100), Fade(100))
    case 2 => Pose(Place(Transform(450, 30, -180), 100), Place(Base, 0), Fade(0), Fade(100), Fade(100))
    case 3 => Pose(Place(Transform(450, 30, 0), 100), Place(Base, 100), Keep, Fade(100), Fade(100))
    case 4 => Pose(Place(Transform(385, 60, 180), 100), Place(Base, 100), Keep, Fade(100), Fade(100))
  }

  /** The values step `s`'s forward timeline leaves behind once it completes:
      the last keyframe written to each property (scale and glow filter, which
      always return to their neutral values, are not part of a pose).  In step
      1 the wrench turns to -5 and then by a further -45 degrees.  Every step
      but the last leaves the converter dimmed and the last restores it; only
      step 1 touches the wrench, and hides it again; the sensor is moved in
      steps 1 and 3 only; the spacer is faded in by steps 2 and 4. */
  function FinalKeys(s: StepIndex): (p: Pose)
    ensures p.cat == Fade(if s == 4 then 100 else 40)
    ensures p.wrench != Keep <==> s == 1
    ensures p.wrench.opacity.Some? ==> p.wrench.opacity == Some(0)
    ensures p.sensor.transform.Some? <==> s == 1 || s == 3
    ensures p.spacer != Keep <==> s == 2 || s == 4
    ensures p.spacer.transform.None? && p.exhaust.transform.None?
  {
    match s
    case 0 => Pose(Keep, Keep, Keep, Fade(40), Fade(40))
    case 1 => Pose(Move(Transform(450, 30, -180)), Keep, Place(Transform(385, 45, -5 - 45), 0), Keep, Fade(40))
    case 2 => Pose(Fade(40), Fade(100), Keep, Keep, Fade(40))
    case 3 => Pose(Move(Transform(385, 60, 180)), Keep, Keep, Keep, Fade(40))
    case 4 => Pose(Fade(100), Fade(100), Keep, Fade(100), Fade(100))
  }

  function ApplyPart(pp: PartPose, st: PartState): PartState {
    PartState(if pp.transform.Some? then pp.transform.value else st.transform,
              if pp.opacity.Some? then pp.opacity.value else st.opacity)
  }

  /** Writes every property `p` sets and leaves the others alone. */
  function ApplyPose(p: Pose, sc: Scene): Scene {
    Scene(ApplyPart(p.sensor, sc.sensor), ApplyPart(p.spacer, sc.spacer),
          ApplyPart(p.wrench, sc.wrench), ApplyPart(p.exhaust, sc.exhaust),
          ApplyPart(p.cat, sc.cat))
  }

  function MergePart(first: PartPose, second: PartPose): PartPose {
    PartPose(if second.transform.Some? then second.transform else first.transform,
             if second.opacity.Some? then second.opacity else first.opacity)
  }

  /** The pose that writes `first` and then `second`. */
  function Merge(first: Pose, second: Pose): Pose {
    Pose(MergePart(first.sensor, second.sensor), MergePart(first.spacer, second.spacer),
         MergePart(first.wrench, second.wrench), MergePart(first.exhaust, second.exhaust),
         MergePart(first.cat, second.cat))
  }

  /** What holds of the diagram once step `s`'s timeline has completed. */
  function Settled(s: StepIndex): Pose {
    Merge(EntryPose(s), FinalKeys(s))
  }

  /** The scene at the end of step `s`'s forward timeline, from scene `sc`. */
  function Forward(s: StepIndex, sc: Scene): Scene {
    ApplyPose(FinalKeys(s), ApplyPose(EntryPose(s), sc))
  }

  predicate Holds(pp: PartPose, st: PartState) {
    (pp.transform.Some? ==> st.transform == pp.transform.value) &&
    (pp.opacity.Some? ==> st.opacity == pp.opacity.value)
  }

  /** Every property that `p` sets has in `sc` the value `p` gives it. */
  predicate Satisfies(sc: Scene, p: Pose) {
    forall part: Part :: Holds(p.At(part), sc.At(part))
  }

  /** Applying a pose establishes it, whatever the scene was before. */
  lemma ApplyEstablishes(p: Pose, sc: Scene)
    ensures Satisfies(ApplyPose(p, sc), p)
  {
    forall part: Part ensures Holds(p.At(part), ApplyPose(p, sc).At(part)) {
      match part
      case Sensor =>
      case Spacer =>
      case Wrench =>
      case Exhaust =>
      case Cat =>
    }
  }

  /** Applying a pose to a scene that already shows it changes nothing. */
  lemma ApplySatisfiedIsIdentity(p: Pose, sc: Scene)
    requires Satisfies(sc, p)
    ensures ApplyPose(p, sc) == sc
  {
    assert Holds(p.sensor, sc.sensor) by { assert p.At(Sensor) == p.sensor; }
    assert Holds(p.spacer, sc.spacer) by { assert p.At(Spacer) == p.spacer; }
    assert Holds(p.wrench, sc.wrench) by { assert p.At(Wrench) == p.wrench; }
    assert Holds(p.exhaust, sc.exhaust) by { assert p.At(Exhaust) == p.exhaust; }
    assert Holds(p.cat, sc.cat) by { assert p.At(Cat) == p.cat; }
  }

  /** Re-rendering a step is idempotent: snapping twice is snapping once. */
  lemma ApplyIdempotent(p: Pose, sc: Scene)
    ensures ApplyPose(p, ApplyPose(p, sc)) == ApplyPose(p, sc)
  {
    ApplyEstablishes(p, sc);
    ApplySatisfiedIsIdentity(p, ApplyPose(p, sc));
  }

  /** Properties a pose does not set keep their previous value. */
  lemma ApplyFrame(p: Pose, sc: Scene, part: Part)
    ensures p.At(part).transform.None? ==> ApplyPose(p, sc).At(part).transform == sc.At(part).transform
    ensures p.At(part).opacity.None? ==> ApplyPose(p, sc).At(part).opacity == sc.At(part).opacity
  {
  }

  /** Writing `first` and then `second` is writing their merge. */
  lemma ApplyMerge(first: Pose, second: Pose, sc: Scene)
    ensures ApplyPose(second, ApplyPose(first, sc)) == ApplyPose(Merge(first, second), sc)
  {
  }

  /** A scene that shows `first` shows the merge once `second` is written. */
  lemma SatisfiesAfterApply(first: Pose, second: Pose, sc: Scene)
    requires Satisfies(sc, first)
    ensures Satisfies(ApplyPose(second, sc), Merge(first, second))
  {
    forall part: Part ensures Holds(Merge(first, second).At(part), ApplyPose(second, sc).At(part)) {
      assert Holds(first.At(part), sc.At(part));
      match part
      case Sensor =>
      case Spacer =>
      case Wrench =>
      case Exhaust =>
      case Cat =>
    }
  }

  /** The entry pose depends on the target step only: from any two earlier
      scenes, snapping to step `s` gives the same sensor, spacer (from step 2
      on) and wrench (in step 1), and the same opacities everywhere but the
      wrench in steps 3 and 4. */
  lemma EntryPoseIgnoresHistory(s: StepIndex, a: Scene, b: Scene)
    ensures ApplyPose(EntryPose(s), a).sensor == ApplyPose(EntryPose(s), b).sensor
    ensures s >= 2 ==> ApplyPose(EntryPose(s), a).spacer == ApplyPose(EntryPose(s), b).spacer
    ensures s == 1 ==> ApplyPose(EntryPose(s), a).wrench == ApplyPose(EntryPose(s), b).wrench
    ensures forall part: Part :: part != Wrench || s < 3 ==>
              ApplyPose(EntryPose(s), a).At(part).opacity == ApplyPose(EntryPose(s), b).At(part).opacity
  {
    forall part: Part | part != Wrench || s < 3
      ensures ApplyPose(EntryPose(s), a).At(part).opacity == ApplyPose(EntryPose(s), b).At(part).opacity
    {
      match part
      case Sensor =>
      case Spacer =>
      case Wrench =>
      case Exhaust =>
      case Cat =>
    }
    if s >= 2 {
      assert EntryPose(s).spacer == Place(Base, if s == 2 then 0 else 100);
    }
  }

  /** The forward timelines hand over to the next step's entry pose: step 1
      leaves the sensor where step 2 places it, step 2 leaves the spacer shown
      at its base where step 3 places it, and step 3 leaves the sensor where
      step 4 places it. */
  lemma ForwardContinuity(sc: Scene)
    ensures Forward(1, sc).sensor == ApplyPose(EntryPose(2), Forward(1, sc)).sensor
    ensures Forward(1, sc).sensor.transform == Transform(450, 30, -180)
    ensures Forward(2, sc).spacer == ApplyPose(EntryPose(3), Forward(2, sc)).spacer
    ensures Forward(2, sc).spacer == PartState(Transform(385, 60, 0), 100)
    ensures Forward(3, sc).sensor == ApplyPose(EntryPose(4), Forward(3, sc)).sensor
    ensures Forward(3, sc).sensor.transform == Transform(385, 60, 180)
  {
  }

  /** Which parts jump when a forward step hands over to the next one.  No
      visible part is moved, except the sensor between steps 2 and 3 (step 2
      leaves it turned by -180 degrees, step 3 snaps it back to 0), and the
      only opacity that changes is the dimming of the exhaust (after step 0)
      and of the converter (after every step) being lifted. */
  lemma ForwardHandover(s: StepIndex, sc: Scene, part: Part)
    requires s < 4
    ensures var done := Forward(s, sc);
            var next := ApplyPose(EntryPose(s + 1), done);
            (done.At(part).opacity > 0 && !(s == 2 && part == Sensor) ==>
               next.At(part).transform == done.At(part).transform) &&
            (next.At(part).opacity != done.At(part).opacity <==>
               part == Cat || (part == Exhaust && s == 0) || (part == Sensor && s == 2))
    ensures s == 2 && part == Sensor ==>
              Forward(s, sc).sensor.transform.rotate == -180 &&
              ApplyPose(EntryPose(s + 1), Forward(s, sc)).sensor.transform.rotate == 0
  {
    match s
    case 0 =>
    case 1 =>
    case 2 =>
    case 3 =>
  }
}

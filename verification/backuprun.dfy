/**
 How a backup reports and cleans up, whichever of its steps fail
 (internal/core/backup/backup.go, orchestrate.go).
 */
module BackupRun {
  import opened Prelude
  import JobEvents

  type State = JobEvents.State

  datatype Step =
    | Whole
    | Resolve | Validate | Hold | Database | RecordRefs
    | Git | Blobs | Keys | WriteManifest | Verify
    | Encrypt | VerifyEncrypted | Write

  /** A progress event by step and state; `Whole` is the empty step of a whole-job event. */
  datatype Note = Note(step: Step, state: State)

  const STARTED := JobEvents.Started
  const SUCCEEDED := JobEvents.Succeeded
  const FAILED := JobEvents.Failed

  function UnderHold(): seq<Step> { [Database, RecordRefs] }

  function AfterHold(): seq<Step> { [Git, Blobs, Keys, WriteManifest, Verify] }

  function Delivery(): seq<Step> { [Encrypt, VerifyEncrypted, Write] }

  /** Which steps fail when reached; `step(Hold)` is engaging, and `release` the release. */
  datatype Faults = Faults(options: bool, step: Step -> bool, release: bool)

  // What is reported.

  function Attempted(steps: seq<Step>, f: Faults): seq<Note> {
    if steps == [] then []
    else if f.step(steps[0]) then [Note(steps[0], STARTED), Note(steps[0], FAILED)]
    else [Note(steps[0], STARTED), Note(steps[0], SUCCEEDED)] + Attempted(steps[1..], f)
  }

  predicate Pass(steps: seq<Step>, f: Faults) {
    forall s :: s in steps ==> !f.step(s)
  }

  function HeldNotes(f: Faults): seq<Note> {
    [Note(Hold, STARTED)] +
    if f.step(Hold) then [Note(Hold, FAILED)]
    else Attempted(UnderHold(), f) + [Note(Hold, if f.release then FAILED else SUCCEEDED)]
  }

  predicate HoldPasses(f: Faults) {
    !f.step(Hold) && Pass(UnderHold(), f) && !f.release
  }

  function CaptureNotes(f: Faults): seq<Note> {
    Attempted([Validate], f) +
    if f.step(Validate) then []
    else HeldNotes(f) + if !HoldPasses(f) then [] else Attempted(AfterHold(), f)
  }

  predicate CapturePasses(f: Faults) {
    !f.step(Validate) && HoldPasses(f) && Pass(AfterHold(), f)
  }

  function Notes(f: Faults): seq<Note> {
    if f.options then []
    else
      Attempted([Resolve], f) +
      if f.step(Resolve) then []
      else CaptureNotes(f) + if !CapturePasses(f) then [] else Attempted(Delivery(), f)
  }

  /** The steps reported failed, in order. */
  function Failures(notes: seq<Note>): seq<Step> {
    if notes == [] then []
    else (if notes[0].state == FAILED then [notes[0].step] else []) + Failures(notes[1..])
  }

  lemma {:induction false} FailuresAre(notes: seq<Note>, s: Step)
    ensures s in Failures(notes) <==> Note(s, JobEvents.Failed) in notes
  {
    if notes != [] {
      FailuresAre(notes[1..], s);
      assert notes == [notes[0]] + notes[1..];
    }
  }

  // The code.

  class Log {
    var notes: seq<Note>

    constructor ()
      ensures notes == []
    {
      notes := [];
    }

    predicate Ended()
      reads this
    {
      exists n :: n in notes && n.step == Whole
    }

    method Emit(step: Step, state: State)
      requires !Ended() && step != Whole
      modifies this
      ensures notes == old(notes) + [Note(step, state)] && !Ended()
    {
      notes := notes + [Note(step, state)];
    }

    method End(state: State)
      requires !Ended()
      modifies this
      ensures notes == old(notes) + [Note(Whole, state)]
    {
      notes := notes + [Note(Whole, state)];
    }
  }

  /** Engage and Release as a caller sees them; a failed Release still counts as made. */
  class PushHold {
    var engagements: nat
    var releases: nat

    constructor ()
      ensures engagements == 0 && releases == 0
    {
      engagements, releases := 0, 0;
    }

    method Engage(fails: bool) returns (ok: bool)
      modifies this
      ensures ok == !fails && releases == old(releases)
      ensures engagements == old(engagements) + if ok then 1 else 0
    {
      if !fails {
        engagements := engagements + 1;
      }
      return !fails;
    }

    method Release(fails: bool) returns (ok: bool)
      modifies this
      ensures ok == !fails && engagements == old(engagements)
      ensures releases == old(releases) + 1
    {
      releases := releases + 1;
      return !fails;
    }
  }

  method RunSteps(job: Log, steps: seq<Step>, f: Faults) returns (causes: seq<Step>)
    requires !job.Ended() && Whole !in steps
    modifies job
    ensures job.notes == old(job.notes) + Attempted(steps, f) && !job.Ended()
    ensures causes == Failures(Attempted(steps, f))
    ensures causes == [] <==> Pass(steps, f)
  {
    hide Attempted, Failures;
    var i := 0;
    while i < |steps|
      invariant 0 <= i <= |steps| && !job.Ended()
      invariant forall s :: s in steps[..i] ==> !f.step(s)
      invariant job.notes + Attempted(steps[i..], f) == old(job.notes) + Attempted(steps, f)
      invariant Failures(Attempted(steps[i..], f)) == Failures(Attempted(steps, f))
    {
      AttemptedUnfolds(steps[i..], f);
      assert steps[i..][1..] == steps[i + 1..] && steps[..i + 1] == steps[..i] + [steps[i]];
      job.Emit(steps[i], STARTED);
      if f.step(steps[i]) {
        job.Emit(steps[i], FAILED);
        return [steps[i]];
      }
      job.Emit(steps[i], SUCCEEDED);
      i := i + 1;
    }
    NothingAttempted(f);
    return [];
  }

  lemma AttemptedUnfolds(steps: seq<Step>, f: Faults)
    requires steps != []
    ensures var s, notes := steps[0], Attempted(steps, f);
            if f.step(s) then notes == [Note(s, STARTED), Note(s, FAILED)] && Failures(notes) == [s]
            else notes == [Note(s, STARTED), Note(s, SUCCEEDED)] + Attempted(steps[1..], f)
                 && Failures(notes) == Failures(Attempted(steps[1..], f))
  {
    TwoFailures(steps[0], if f.step(steps[0]) then FAILED else SUCCEEDED);
    FailuresConcat([Note(steps[0], STARTED), Note(steps[0], SUCCEEDED)], Attempted(steps[1..], f));
  }

  lemma NothingAttempted(f: Faults)
    ensures forall steps: seq<Step> :: steps == [] ==> Attempted(steps, f) == [] && Failures(Attempted(steps, f)) == []
  {
  }

  /** captureUnderHold. The release, whatever happened under the hold, decides the hold's outcome,
      and its failure is added to the error already there. */
  method CaptureUnderHold(job: Log, hold: PushHold, f: Faults) returns (causes: seq<Step>)
    requires !job.Ended()
    modifies job, hold
    ensures job.notes == old(job.notes) + HeldNotes(f) && !job.Ended()
    ensures causes == Failures(HeldNotes(f))
    ensures causes == [] <==> HoldPasses(f)
    ensures hold.engagements == old(hold.engagements) + if f.step(Hold) then 0 else 1
    ensures hold.releases - old(hold.releases) == hold.engagements - old(hold.engagements)
  {
    hide Attempted, Failures, Pass;
    job.Emit(Hold, STARTED);
    var engaged := hold.Engage(f.step(Hold));
    if !engaged {
      job.Emit(Hold, FAILED);
      TwoFailures(Hold, FAILED);
      assert HeldNotes(f) == [Note(Hold, STARTED), Note(Hold, FAILED)];
      return [Hold];
    }
    causes := RunSteps(job, UnderHold(), f);
    var released := hold.Release(f.release);
    if released {
      job.Emit(Hold, SUCCEEDED);
    } else {
      job.Emit(Hold, FAILED);
      causes := causes + [Hold];
    }
    HeldFailures(f);
  }

  /** Run, on a job of its own, which it ends. */
  method Run(job: Log, hold: PushHold, f: Faults) returns (causes: seq<Step>)
    requires !job.Ended()
    modifies job, hold
    ensures job.notes == old(job.notes) + CaptureNotes(f)
                         + [Note(Whole, if CapturePasses(f) then SUCCEEDED else FAILED)]
    ensures causes == Failures(CaptureNotes(f))
    ensures causes == [] <==> CapturePasses(f)
    ensures hold.releases - old(hold.releases) == hold.engagements - old(hold.engagements) <= 1
  {
    CaptureFailures(f);
    OneStep(Validate, f);
    hide Attempted, HeldNotes, Failures, HoldPasses;
    causes := RunSteps(job, [Validate], f);
    if causes == [] {
      causes := CaptureUnderHold(job, hold, f);
      if causes == [] {
        causes := RunSteps(job, AfterHold(), f);
      }
    }
    job.End(if causes == [] then SUCCEEDED else FAILED);
  }

  /** runCapture's relay: every step event of the private job, in order, and not its end. */
  method Relay(from: Log, to: Log)
    requires from != to && !to.Ended()
    requires from.notes != [] && Last(from.notes).step == Whole
    requires forall n :: n in from.notes[..|from.notes| - 1] ==> n.step != Whole
    modifies to
    ensures to.notes == old(to.notes) + from.notes[..|from.notes| - 1] && !to.Ended()
  {
    for i := 0 to |from.notes|
      invariant !to.Ended()
      invariant to.notes == old(to.notes) + from.notes[..Min(i, |from.notes| - 1)]
    {
      var note := from.notes[i];
      if note.step != Whole {
        assert from.notes[..i + 1] == from.notes[..i] + [note];
        to.Emit(note.step, note.state);
      }
    }
  }

  /** runCapture: the capture's step events reach the outer job in order, and its end does not. */
  method RunCapture(job: Log, hold: PushHold, f: Faults) returns (causes: seq<Step>)
    requires !job.Ended()
    modifies job, hold
    ensures job.notes == old(job.notes) + CaptureNotes(f) && !job.Ended()
    ensures causes == Failures(CaptureNotes(f))
    ensures causes == [] <==> CapturePasses(f)
    ensures hold.releases - old(hold.releases) == hold.engagements - old(hold.engagements) <= 1
  {
    hide CaptureNotes, Failures, CapturePasses;
    var own := new Log();
    causes := Run(own, hold, f);
    assert own.notes[..|own.notes| - 1] == CaptureNotes(f);
    NoWholeStep(f);
    Relay(own, job);
  }

  /** The body of Backup, which leaves ending the job to its caller. */
  method BackupSteps(job: Log, hold: PushHold, f: Faults) returns (ok: bool, causes: seq<Step>)
    requires !job.Ended()
    modifies job, hold
    ensures ok == Succeeds(f) && !job.Ended()
    ensures job.notes == old(job.notes) + Notes(f)
    ensures causes == Failures(Notes(f))
    ensures hold.releases - old(hold.releases) == hold.engagements - old(hold.engagements) <= 1
  {
    BackupFailures(f);
    OneStep(Resolve, f);
    hide Attempted, CaptureNotes, Failures, CapturePasses;
    if f.options {
      return false, [];
    }
    causes := RunSteps(job, [Resolve], f);
    if causes != [] {
      return false, causes;
    }
    causes := RunCapture(job, hold, f);
    if causes != [] {
      return false, causes;
    }
    causes := RunSteps(job, Delivery(), f);
    ok := causes == [];
  }

  /** Backup: what the job reports, ended once and last, and that a hold engaged is released
      exactly once. */
  method Backup(job: Log, hold: PushHold, f: Faults) returns (ok: bool, causes: seq<Step>)
    requires !job.Ended()
    modifies job, hold
    ensures ok == Succeeds(f)
    ensures job.notes == old(job.notes) + Notes(f) + [Note(Whole, if ok then SUCCEEDED else FAILED)]
    ensures causes == Failures(Notes(f))
    ensures hold.releases - old(hold.releases) == hold.engagements - old(hold.engagements) <= 1
  {
    hide Notes, Failures, Succeeds;
    ok, causes := BackupSteps(job, hold, f);
    job.End(if ok then SUCCEEDED else FAILED);
  }

  predicate Succeeds(f: Faults) {
    !f.options && !f.step(Resolve) && CapturePasses(f) && Pass(Delivery(), f)
  }

  // What the reports say.

  lemma {:induction false} FailuresConcat(a: seq<Note>, b: seq<Note>)
    ensures Failures(a + b) == Failures(a) + Failures(b)
  {
    if a == [] {
      assert a + b == b;
    } else {
      FailuresConcat(a[1..], b);
      assert (a + b)[1..] == a[1..] + b && (a + b)[0] == a[0];
    }
  }

  lemma {:induction false} PassingStepsHaveNoFailures(steps: seq<Step>, f: Faults)
    requires Pass(steps, f)
    ensures Failures(Attempted(steps, f)) == []
  {
    if steps != [] {
      PassingStepsHaveNoFailures(steps[1..], f);
      assert steps[0] in steps;
      FailuresConcat([Note(steps[0], STARTED), Note(steps[0], SUCCEEDED)], Attempted(steps[1..], f));
    }
  }

  lemma HeldFailures(f: Faults)
    requires !f.step(Hold)
    ensures Failures(HeldNotes(f)) == Failures(Attempted(UnderHold(), f)) + if f.release then [Hold] else []
    ensures HoldPasses(f) ==> Failures(HeldNotes(f)) == []
  {
    if Pass(UnderHold(), f) {
      PassingStepsHaveNoFailures(UnderHold(), f);
    }
    hide Attempted, Pass;
    var start, inner := [Note(Hold, STARTED)], Attempted(UnderHold(), f);
    var end := [Note(Hold, if f.release then FAILED else SUCCEEDED)];
    FailuresConcat(start, inner + end);
    FailuresConcat(inner, end);
    assert start[1..] == [] && end[1..] == [];
  }

  lemma CaptureFailures(f: Faults)
    ensures Failures(CaptureNotes(f)) ==
            if f.step(Validate) then [Validate]
            else if !HoldPasses(f) then Failures(HeldNotes(f)) else Failures(Attempted(AfterHold(), f))
    ensures CapturePasses(f) ==> Failures(CaptureNotes(f)) == []
  {
    if HoldPasses(f) {
      HeldFailures(f);
    }
    if CapturePasses(f) {
      PassingStepsHaveNoFailures(AfterHold(), f);
    }
    OneStep(Validate, f);
    hide Attempted, Pass, HeldNotes, HoldPasses;
    var tail := HeldNotes(f) + if !HoldPasses(f) then [] else Attempted(AfterHold(), f);
    FailuresConcat(Attempted([Validate], f), tail);
    FailuresConcat(HeldNotes(f), Attempted(AfterHold(), f));
    if f.step(Validate) {
      assert CaptureNotes(f) == Attempted([Validate], f);
    } else if !HoldPasses(f) {
      assert tail == HeldNotes(f);
    }
  }

  lemma OneStep(s: Step, f: Faults)
    ensures Failures(Attempted([s], f)) == if f.step(s) then [s] else []
  {
    AttemptedUnfolds([s], f);
    NothingAttempted(f);
    hide Attempted, Failures;
  }

  lemma TwoFailures(step: Step, outcome: State)
    ensures Failures([Note(step, STARTED), Note(step, outcome)]) == if outcome == FAILED then [step] else []
  {
    var notes := [Note(step, STARTED), Note(step, outcome)];
    var last := notes[1..];
    assert last == [Note(step, outcome)] && last[1..] == [];
    assert Failures(last) == if outcome == FAILED then [step] else [];
  }

  lemma BackupFailures(f: Faults)
    ensures Failures(Notes(f)) ==
            if f.options then []
            else if f.step(Resolve) then [Resolve]
            else if !CapturePasses(f) then Failures(CaptureNotes(f)) else Failures(Attempted(Delivery(), f))
  {
    CaptureFailures(f);
    OneStep(Resolve, f);
    hide Attempted, CaptureNotes, CapturePasses;
    if !f.options {
      var tail := CaptureNotes(f) + if !CapturePasses(f) then [] else Attempted(Delivery(), f);
      FailuresConcat(Attempted([Resolve], f), tail);
      FailuresConcat(CaptureNotes(f), Attempted(Delivery(), f));
      if f.step(Resolve) {
        assert Notes(f) == Attempted([Resolve], f);
      } else if !CapturePasses(f) {
        assert tail == CaptureNotes(f);
      }
    }
  }

  /** What is reported of one step, in order. */
  function Of(notes: seq<Note>, s: Step): seq<State> {
    if notes == [] then []
    else Told(notes[0], s) + Of(notes[1..], s)
  }

  function Told(note: Note, s: Step): seq<State> {
    if note.step == s then [note.state] else []
  }

  lemma {:induction false} OfConcat(a: seq<Note>, b: seq<Note>, s: Step)
    ensures Of(a + b, s) == Of(a, s) + Of(b, s)
  {
    hide Told;
    if a == [] {
      assert a + b == b;
    } else {
      OfConcat(a[1..], b, s);
      assert (a + b)[1..] == a[1..] + b && (a + b)[0] == a[0];
    }
  }

  lemma {:induction false} OfAbsent(notes: seq<Note>, s: Step)
    ensures Of(notes, s) == [] <==> forall n :: n in notes ==> n.step != s
  {
    if notes != [] {
      OfAbsent(notes[1..], s);
      assert notes == [notes[0]] + notes[1..];
    }
  }

  /** A step is reached when none before it fails. */
  predicate Reached(steps: seq<Step>, f: Faults, s: Step) {
    steps != [] && (steps[0] == s || (!f.step(steps[0]) && Reached(steps[1..], f, s)))
  }

  function Report(failed: bool): seq<State> {
    [STARTED, if failed then FAILED else SUCCEEDED]
  }

  lemma {:induction false} AttemptedReports(steps: seq<Step>, f: Faults, s: Step)
    requires Distinct(steps)
    ensures Of(Attempted(steps, f), s) == if Reached(steps, f, s) then Report(f.step(s)) else []
  {
    if steps != [] {
      var rest := if f.step(steps[0]) then [] else Attempted(steps[1..], f);
      var first := [Note(steps[0], STARTED), Note(steps[0], if f.step(steps[0]) then FAILED else SUCCEEDED)];
      assert Attempted(steps, f) == first + rest;
      OfConcat(first, rest, s);
      TwoNotes(steps[0], first[1].state, s);
      AttemptedReports(steps[1..], f, s);
      if steps[0] == s {
        NotReached(steps[1..], f, s);
      }
    }
  }

  lemma TwoNotes(step: Step, outcome: State, s: Step)
    ensures Of([Note(step, STARTED), Note(step, outcome)], s) == if step == s then [STARTED, outcome] else []
  {
    var notes := [Note(step, STARTED), Note(step, outcome)];
    var last := notes[1..];
    assert last == [Note(step, outcome)] && last[1..] == [];
    assert Of(last, s) == if step == s then [outcome] else [];
  }

  lemma {:induction false} NotReached(steps: seq<Step>, f: Faults, s: Step)
    requires s !in steps
    ensures !Reached(steps, f, s)
  {
    if steps != [] {
      NotReached(steps[1..], f, s);
    }
  }

  lemma {:induction false} ReachedLast(steps: seq<Step>, f: Faults, s: Step)
    requires s in steps && Pass(steps, f)
    ensures Reached(steps, f, s)
  {
    if steps[0] != s {
      ReachedLast(steps[1..], f, s);
    }
  }

  lemma OneStepReports(step: Step, f: Faults, s: Step)
    ensures Of(Attempted([step], f), s) == if s == step then Report(f.step(step)) else []
  {
    AttemptedReports([step], f, s);
    if s != step {
      NotReached([step], f, s);
    }
    hide Of, Attempted;
  }

  lemma ListReports(steps: seq<Step>, f: Faults, s: Step)
    requires Distinct(steps)
    ensures Of(Attempted(steps, f), s) == if s in steps && Reached(steps, f, s) then Report(f.step(s)) else []
  {
    AttemptedReports(steps, f, s);
    if s !in steps {
      NotReached(steps, f, s);
    }
    hide Of, Attempted;
  }

  lemma OneNote(step: Step, state: State, s: Step)
    ensures Of([Note(step, state)], s) == if s == step then [state] else []
  {
    var notes := [Note(step, state)];
    assert notes[1..] == [];
  }

  lemma HeldReports(f: Faults, s: Step)
    ensures Of(HeldNotes(f), s) ==
            if s == Hold then Report(f.step(Hold) || f.release)
            else if !f.step(Hold) && s in UnderHold() && Reached(UnderHold(), f, s) then Report(f.step(s)) else []
  {
    hide Of, Attempted, Reached;
    var outcome := if f.step(Hold) || f.release then FAILED else SUCCEEDED;
    var start, inner, end := [Note(Hold, STARTED)], Attempted(UnderHold(), f), [Note(Hold, outcome)];
    ListReports(UnderHold(), f, s);
    OneNote(Hold, STARTED, s);
    OneNote(Hold, outcome, s);
    OfConcat(start, end, s);
    OfConcat(start, inner + end, s);
    OfConcat(inner, end, s);
  }

  lemma GuardedReports(first: seq<Note>, go: bool, rest: seq<Note>, s: Step)
    ensures Of(first + if go then rest else [], s) == Of(first, s) + if go then Of(rest, s) else []
  {
    OfConcat(first, if go then rest else [], s);
  }

  lemma CaptureReports(f: Faults, s: Step)
    ensures Of(CaptureNotes(f), s) ==
            (if s == Validate then Report(f.step(Validate)) else []) +
            (if f.step(Validate) then []
             else Of(HeldNotes(f), s) +
                  if HoldPasses(f) && s in AfterHold() && Reached(AfterHold(), f, s) then Report(f.step(s)) else [])
  {
    OneStepReports(Validate, f, s);
    ListReports(AfterHold(), f, s);
    hide Of, Attempted, HeldNotes, HoldPasses, Reached;
    var held := HeldNotes(f) + if HoldPasses(f) then Attempted(AfterHold(), f) else [];
    GuardedReports(HeldNotes(f), HoldPasses(f), Attempted(AfterHold(), f), s);
    GuardedReports(Attempted([Validate], f), !f.step(Validate), held, s);
    assert CaptureNotes(f) == Attempted([Validate], f) + if !f.step(Validate) then held else [];
  }

  lemma NoWholeStep(f: Faults)
    ensures forall n :: n in CaptureNotes(f) ==> n.step != Whole
  {
    CaptureReports(f, Whole);
    HeldReports(f, Whole);
    OfAbsent(CaptureNotes(f), Whole);
    hide Of, CaptureNotes, HeldNotes;
  }

  /** Where a step stands in the whole backup: reached or not, and failed or not. */
  lemma BackupReports(f: Faults, s: Step)
    ensures Of(Notes(f), s) ==
            if f.options then []
            else (if s == Resolve then Report(f.step(Resolve)) else []) +
                 (if f.step(Resolve) then []
                  else Of(CaptureNotes(f), s) +
                       if CapturePasses(f) && s in Delivery() && Reached(Delivery(), f, s)
                       then Report(f.step(s)) else [])
  {
    if f.options {
      return;
    }
    OneStepReports(Resolve, f, s);
    ListReports(Delivery(), f, s);
    hide Of, Attempted, CaptureNotes, CapturePasses, Reached;
    var capture := CaptureNotes(f) + if CapturePasses(f) then Attempted(Delivery(), f) else [];
    GuardedReports(CaptureNotes(f), CapturePasses(f), Attempted(Delivery(), f), s);
    GuardedReports(Attempted([Resolve], f), !f.step(Resolve), capture, s);
    assert Notes(f) == Attempted([Resolve], f) + if !f.step(Resolve) then capture else [];
  }

  /** Every step is reported not at all, or as started and then once as what became of it: failed where it
      did, or where it is the hold and its release did, and otherwise succeeded. */
  lemma EveryStepHasOneOutcome(f: Faults, s: Step)
    ensures var failed := f.step(s) || (s == Hold && f.release);
            Of(Notes(f), s) == [] || Of(Notes(f), s) == [STARTED, if failed then FAILED else SUCCEEDED]
  {
    BackupReports(f, s);
    CaptureReports(f, s);
    HeldReports(f, s);
    hide Of, Notes, CaptureNotes, HeldNotes, Reached;
  }

  lemma WriteIsNotCaptured(f: Faults)
    ensures Of(CaptureNotes(f), Write) == []
  {
    CaptureReports(f, Write);
    HeldReports(f, Write);
    hide Of, CaptureNotes, HeldNotes, HoldPasses, Reached;
  }

  lemma DeliveryReaches(f: Faults)
    requires Reached(Delivery(), f, Write)
    ensures !f.step(Encrypt) && !f.step(VerifyEncrypted)
    ensures forall s :: s in Delivery() ==> Reached(Delivery(), f, s)
  {
    var last := Delivery()[1..];
    assert last == [VerifyEncrypted, Write];
    assert Reached(last, f, Write) && Reached(last, f, VerifyEncrypted);
    assert last[1..] == [Write];
    assert Reached(last[1..], f, Write);
  }

  lemma WriteReached(f: Faults)
    requires Of(Notes(f), Write) != []
    ensures !f.options && !f.step(Resolve) && CapturePasses(f) && !f.step(Encrypt) && !f.step(VerifyEncrypted)
    ensures forall s :: s in Delivery() ==> Reached(Delivery(), f, s)
  {
    hide Of, Notes, CaptureNotes, CapturePasses, Reached;
    BackupReports(f, Write);
    WriteIsNotCaptured(f);
    DeliveryReaches(f);
  }

  lemma CapturedReports(f: Faults, s: Step)
    requires CapturePasses(f)
    requires s == Validate || s == Hold || s in UnderHold() || s in AfterHold()
    ensures Of(CaptureNotes(f), s) == Report(false)
  {
    CaptureReports(f, s);
    HeldReports(f, s);
    if s in UnderHold() {
      ReachedLast(UnderHold(), f, s);
    } else if s in AfterHold() {
      ReachedLast(AfterHold(), f, s);
    }
    hide Of, CaptureNotes, HeldNotes, Reached;
  }

  /** A snapshot is put at its destination only after every other step was reported a success. */
  lemma WriteComesAfterEverything(f: Faults, s: Step)
    requires Of(Notes(f), Write) != [] && s != Whole && s != Write
    ensures Of(Notes(f), s) == [STARTED, SUCCEEDED]
  {
    hide Of, Notes, CaptureNotes, HeldNotes, CapturePasses, HoldPasses, Reached;
    WriteReached(f);
    BackupReports(f, s);
    if s in Delivery() || s == Resolve {
      CaptureReports(f, s);
      HeldReports(f, s);
    } else {
      CapturedReports(f, s);
    }
  }

  /** A backup that succeeds made every step, the put included, each reported a success. */
  lemma SuccessMadeEveryStep(f: Faults, s: Step)
    requires Succeeds(f) && s != Whole
    ensures Of(Notes(f), s) == [STARTED, SUCCEEDED]
  {
    WrittenOnSuccess(f);
    hide Of, Notes, Succeeds;
    if s != Write {
      WriteComesAfterEverything(f, s);
    }
  }

  lemma WrittenOnSuccess(f: Faults)
    requires Succeeds(f)
    ensures Of(Notes(f), Write) == [STARTED, SUCCEEDED]
  {
    BackupReports(f, Write);
    WriteIsNotCaptured(f);
    ReachedLast(Delivery(), f, Write);
    hide Of, Notes, CaptureNotes, CapturePasses, Reached;
  }

  /** The backup succeeds exactly when its options are valid and no step is reported failed: a
      release that fails after a good capture fails it, and the error names both failures when
      the capture failed too. */
  lemma SucceedsExactly(f: Faults)
    ensures Succeeds(f) <==> !f.options && Failures(Notes(f)) == []
    ensures !f.options && !f.step(Resolve) && !f.step(Validate) && !f.step(Hold) && f.release ==>
              Failures(Notes(f)) == Failures(Attempted(UnderHold(), f)) + [Hold]
  {
    BackupFailures(f);
    CaptureFailures(f);
    if !f.step(Hold) {
      HeldFailures(f);
    }
    AttemptedFails(UnderHold(), f);
    AttemptedFails(AfterHold(), f);
    AttemptedFails(Delivery(), f);
    if f.step(Hold) {
      TwoFailures(Hold, FAILED);
      assert HeldNotes(f) == [Note(Hold, STARTED), Note(Hold, FAILED)];
    }
    hide Failures, Attempted, Notes, CaptureNotes, HeldNotes, Pass;
  }

  lemma {:induction false} AttemptedFails(steps: seq<Step>, f: Faults)
    ensures Failures(Attempted(steps, f)) == [] <==> Pass(steps, f)
  {
    NothingAttempted(f);
    if steps != [] {
      AttemptedUnfolds(steps, f);
      AttemptedFails(steps[1..], f);
      assert steps == [steps[0]] + steps[1..];
    }
  }
}

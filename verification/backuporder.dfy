/** The order a backup's steps come in, read off what it reports (internal/core/backup/backup.go,
    orchestrate.go). */
module BackupOrder {
  import opened Prelude
  import opened BackupRun

  /** Nothing is reported of step `s` before `mark` was. */
  ghost predicate OnlyAfter(notes: seq<Note>, mark: Note, s: Step) {
    forall j :: 0 <= j < |notes| && notes[j].step == s ==> exists i :: 0 <= i < j && notes[i] == mark
  }

  lemma AbsentIsAfter(notes: seq<Note>, mark: Note, s: Step)
    requires Of(notes, s) == []
    ensures OnlyAfter(notes, mark, s)
  {
    OfAbsent(notes, s);
    hide Of;
  }

  /** Joined: the mark is in the first part, or each part keeps the order by itself. */
  lemma AfterConcat(a: seq<Note>, b: seq<Note>, mark: Note, s: Step)
    requires OnlyAfter(a, mark, s) && (mark in a || OnlyAfter(b, mark, s))
    ensures OnlyAfter(a + b, mark, s)
  {
    var all := a + b;
    forall j | 0 <= j < |all| && all[j].step == s ensures exists i :: 0 <= i < j && all[i] == mark {
      if j < |a| {
        var i :| 0 <= i < j && a[i] == mark;
        assert all[i] == mark;
      } else if mark in a {
        var i :| 0 <= i < |a| && a[i] == mark;
        assert all[i] == mark;
      } else {
        var i :| 0 <= i < j - |a| && b[i] == mark;
        assert all[|a| + i] == mark;
      }
    }
  }

  lemma AfterGuard(a: seq<Note>, go: bool, b: seq<Note>, mark: Note, s: Step)
    requires OnlyAfter(a, mark, s) && (go ==> mark in a || OnlyAfter(b, mark, s))
    ensures OnlyAfter(a + if go then b else [], mark, s)
  {
    AfterConcat(a, if go then b else [], mark, s);
  }

  lemma {:induction false} SucceedsInList(steps: seq<Step>, f: Faults, s: Step)
    requires s in steps && Pass(steps, f)
    ensures Note(s, SUCCEEDED) in Attempted(steps, f)
  {
    if steps[0] == s {
      assert Attempted(steps, f)[1] == Note(s, SUCCEEDED);
    } else {
      SucceedsInList(steps[1..], f, s);
      assert Attempted(steps, f) == [Note(steps[0], STARTED), Note(steps[0], SUCCEEDED)] + Attempted(steps[1..], f);
    }
  }

  /** Steps attempted in turn: each only after the one before it succeeded. */
  lemma {:induction false} ListOrder(steps: seq<Step>, f: Faults, k: nat)
    requires Distinct(steps) && k + 1 < |steps|
    ensures OnlyAfter(Attempted(steps, f), Note(steps[k], SUCCEEDED), steps[k + 1])
  {
    var failed := f.step(steps[0]);
    var first := [Note(steps[0], STARTED), Note(steps[0], if failed then FAILED else SUCCEEDED)];
    var rest := if failed then [] else Attempted(steps[1..], f);
    var mark, s := Note(steps[k], SUCCEEDED), steps[k + 1];
    assert Attempted(steps, f) == first + rest;
    assert OnlyAfter(first, mark, s);
    if failed {
      assert first + rest == first;
    } else if k == 0 {
      assert first[1] == mark;
      AfterConcat(first, rest, mark, s);
    } else {
      ListOrder(steps[1..], f, k - 1);
      AfterConcat(first, rest, mark, s);
    }
  }

  lemma HeldOrder(f: Faults)
    ensures OnlyAfter(HeldNotes(f), Note(Hold, STARTED), Database)
    ensures OnlyAfter(HeldNotes(f), Note(Database, SUCCEEDED), RecordRefs)
    ensures HoldPasses(f) ==> Note(Hold, SUCCEEDED) in HeldNotes(f)
  {
    var start, inner := [Note(Hold, STARTED)], Attempted(UnderHold(), f);
    var end := [Note(Hold, if f.release then FAILED else SUCCEEDED)];
    ListOrder(UnderHold(), f, 0);
    hide Attempted;
    if f.step(Hold) {
      assert HeldNotes(f) == [Note(Hold, STARTED), Note(Hold, FAILED)];
    } else {
      assert HeldNotes(f) == start + (inner + end);
      assert start[0] == Note(Hold, STARTED);
      AfterConcat(start, inner + end, Note(Hold, STARTED), Database);
      AfterConcat(inner, end, Note(Database, SUCCEEDED), RecordRefs);
      AfterConcat(start, inner + end, Note(Database, SUCCEEDED), RecordRefs);
      assert HeldNotes(f)[|HeldNotes(f)| - 1] == end[0];
    }
  }

  lemma CaptureIsNotes(f: Faults)
    ensures !f.options ==>
              Notes(f) == Attempted([Resolve], f) + if !f.step(Resolve)
                          then CaptureNotes(f) + if CapturePasses(f) then Attempted(Delivery(), f) else [] else []
    ensures CaptureNotes(f) == Attempted([Validate], f) + if !f.step(Validate)
                               then HeldNotes(f) + if HoldPasses(f) then Attempted(AfterHold(), f) else [] else []
  {
    hide Attempted, HeldNotes, HoldPasses, CapturePasses;
  }

  /** What orders two reports of the capture orders them in the backup. */
  lemma CaptureOrderCarries(f: Faults, mark: Note, s: Step)
    requires OnlyAfter(CaptureNotes(f), mark, s) && s != Resolve && s !in Delivery()
    ensures OnlyAfter(Notes(f), mark, s)
  {
    CaptureIsNotes(f);
    OneStepReports(Resolve, f, s);
    ListReports(Delivery(), f, s);
    hide Attempted, Notes, CaptureNotes, CapturePasses, OnlyAfter, Of;
    if f.options {
      NothingReported(f, mark, s);
    } else {
      AbsentIsAfter(Attempted([Resolve], f), mark, s);
      AbsentIsAfter(Attempted(Delivery(), f), mark, s);
      AfterGuard(CaptureNotes(f), CapturePasses(f), Attempted(Delivery(), f), mark, s);
      var tail := CaptureNotes(f) + if CapturePasses(f) then Attempted(Delivery(), f) else [];
      AfterGuard(Attempted([Resolve], f), !f.step(Resolve), tail, mark, s);
    }
  }

  lemma NothingReported(f: Faults, mark: Note, s: Step)
    ensures f.options ==> OnlyAfter(Notes(f), mark, s)
  {
  }

  /** The same for two reports under the hold, or after it. */
  lemma HeldOrderCarries(f: Faults, mark: Note, s: Step)
    requires OnlyAfter(HeldNotes(f), mark, s) && s != Validate && s !in AfterHold()
    ensures OnlyAfter(CaptureNotes(f), mark, s)
  {
    CaptureIsNotes(f);
    OneStepReports(Validate, f, s);
    ListReports(AfterHold(), f, s);
    hide Attempted, CaptureNotes, HeldNotes, HoldPasses, OnlyAfter, Of;
    AbsentIsAfter(Attempted([Validate], f), mark, s);
    AbsentIsAfter(Attempted(AfterHold(), f), mark, s);
    AfterGuard(HeldNotes(f), HoldPasses(f), Attempted(AfterHold(), f), mark, s);
    var tail := HeldNotes(f) + if HoldPasses(f) then Attempted(AfterHold(), f) else [];
    AfterGuard(Attempted([Validate], f), !f.step(Validate), tail, mark, s);
  }

  lemma LateOrderCarries(f: Faults, mark: Note, s: Step)
    requires s in AfterHold() && s != Validate
    requires HoldPasses(f) ==> mark in HeldNotes(f) || OnlyAfter(Attempted(AfterHold(), f), mark, s)
    ensures OnlyAfter(CaptureNotes(f), mark, s)
  {
    CaptureIsNotes(f);
    OneStepReports(Validate, f, s);
    HeldReports(f, s);
    hide Attempted, CaptureNotes, HeldNotes, HoldPasses, OnlyAfter, Of;
    AbsentIsAfter(Attempted([Validate], f), mark, s);
    AbsentIsAfter(HeldNotes(f), mark, s);
    AfterGuard(HeldNotes(f), HoldPasses(f), Attempted(AfterHold(), f), mark, s);
    var tail := HeldNotes(f) + if HoldPasses(f) then Attempted(AfterHold(), f) else [];
    AfterGuard(Attempted([Validate], f), !f.step(Validate), tail, mark, s);
  }

  lemma FirstSteps(f: Faults)
    ensures OnlyAfter(Notes(f), Note(Resolve, SUCCEEDED), Validate)
    ensures OnlyAfter(Notes(f), Note(Validate, SUCCEEDED), Hold)
  {
    CaptureIsNotes(f);
    SingleStep(Resolve, f, Validate);
    SingleStep(Validate, f, Hold);
    hide Attempted, Notes, CaptureNotes, HeldNotes, HoldPasses, CapturePasses, OnlyAfter;
    var resolved, validated := Note(Resolve, SUCCEEDED), Note(Validate, SUCCEEDED);
    var held := HeldNotes(f) + if HoldPasses(f) then Attempted(AfterHold(), f) else [];
    AfterGuard(Attempted([Validate], f), !f.step(Validate), held, validated, Hold);
    CaptureOrderCarries(f, validated, Hold);
    if f.options {
      NothingReported(f, resolved, Validate);
    } else {
      var tail := CaptureNotes(f) + if CapturePasses(f) then Attempted(Delivery(), f) else [];
      AfterGuard(Attempted([Resolve], f), !f.step(Resolve), tail, resolved, Validate);
    }
  }

  lemma SingleStep(step: Step, f: Faults, s: Step)
    requires s != step
    ensures !f.step(step) ==> Note(step, SUCCEEDED) in Attempted([step], f)
    ensures OnlyAfter(Attempted([step], f), Note(step, SUCCEEDED), s)
  {
    OneStepReports(step, f, s);
    AbsentIsAfter(Attempted([step], f), Note(step, SUCCEEDED), s);
    if !f.step(step) {
      SucceedsInList([step], f, step);
    }
    hide Attempted;
  }

  lemma HeldSteps(f: Faults)
    ensures OnlyAfter(Notes(f), Note(Hold, STARTED), Database)
    ensures OnlyAfter(Notes(f), Note(Database, SUCCEEDED), RecordRefs)
  {
    hide OnlyAfter, Notes, CaptureNotes, HeldNotes, HoldPasses;
    HeldOrder(f);
    HeldOrderCarries(f, Note(Hold, STARTED), Database);
    HeldOrderCarries(f, Note(Database, SUCCEEDED), RecordRefs);
    CaptureOrderCarries(f, Note(Hold, STARTED), Database);
    CaptureOrderCarries(f, Note(Database, SUCCEEDED), RecordRefs);
  }

  lemma LateSteps(f: Faults)
    ensures OnlyAfter(Notes(f), Note(Hold, SUCCEEDED), Git)
    ensures OnlyAfter(Notes(f), Note(Git, SUCCEEDED), Blobs)
    ensures OnlyAfter(Notes(f), Note(Blobs, SUCCEEDED), Keys)
    ensures OnlyAfter(Notes(f), Note(Keys, SUCCEEDED), WriteManifest)
    ensures OnlyAfter(Notes(f), Note(WriteManifest, SUCCEEDED), Verify)
  {
    hide OnlyAfter, Notes, CaptureNotes, HeldNotes, HoldPasses, Attempted;
    HeldOrder(f);
    LateOrderCarries(f, Note(Hold, SUCCEEDED), Git);
    CaptureOrderCarries(f, Note(Hold, SUCCEEDED), Git);
    forall k | 0 <= k < |AfterHold()| - 1
      ensures OnlyAfter(Notes(f), Note(AfterHold()[k], SUCCEEDED), AfterHold()[k + 1])
    {
      ListOrder(AfterHold(), f, k);
      LateOrderCarries(f, Note(AfterHold()[k], SUCCEEDED), AfterHold()[k + 1]);
      CaptureOrderCarries(f, Note(AfterHold()[k], SUCCEEDED), AfterHold()[k + 1]);
    }
    assert AfterHold()[0] == Git && AfterHold()[1] == Blobs && AfterHold()[2] == Keys;
    assert AfterHold()[3] == WriteManifest && AfterHold()[4] == Verify;
  }

  lemma VerifiedBeforeDelivery(f: Faults)
    requires CapturePasses(f)
    ensures Note(Verify, SUCCEEDED) in CaptureNotes(f)
  {
    SucceedsInList(AfterHold(), f, Verify);
    CaptureIsNotes(f);
    hide Attempted, HeldNotes, CaptureNotes;
  }

  lemma DeliverySteps(f: Faults)
    ensures OnlyAfter(Notes(f), Note(Verify, SUCCEEDED), Encrypt)
    ensures OnlyAfter(Notes(f), Note(Encrypt, SUCCEEDED), VerifyEncrypted)
    ensures OnlyAfter(Notes(f), Note(VerifyEncrypted, SUCCEEDED), Write)
  {
    ListOrder(Delivery(), f, 0);
    ListOrder(Delivery(), f, 1);
    hide OnlyAfter, Notes, CaptureNotes, Attempted;
    if CapturePasses(f) {
      VerifiedBeforeDelivery(f);
    }
    DeliveryOrderCarries(f, Note(Verify, SUCCEEDED), Encrypt);
    DeliveryOrderCarries(f, Note(Encrypt, SUCCEEDED), VerifyEncrypted);
    DeliveryOrderCarries(f, Note(VerifyEncrypted, SUCCEEDED), Write);
  }

  lemma DeliveryOrderCarries(f: Faults, mark: Note, s: Step)
    requires s in Delivery()
    requires CapturePasses(f) ==> mark in CaptureNotes(f) || OnlyAfter(Attempted(Delivery(), f), mark, s)
    ensures OnlyAfter(Notes(f), mark, s)
  {
    CaptureIsNotes(f);
    OneStepReports(Resolve, f, s);
    CaptureReports(f, s);
    HeldReports(f, s);
    hide Attempted, Notes, CaptureNotes, CapturePasses, OnlyAfter, Of;
    if f.options {
      NothingReported(f, mark, s);
    } else {
      AbsentIsAfter(Attempted([Resolve], f), mark, s);
      AbsentIsAfter(CaptureNotes(f), mark, s);
      AfterGuard(CaptureNotes(f), CapturePasses(f), Attempted(Delivery(), f), mark, s);
      var tail := CaptureNotes(f) + if CapturePasses(f) then Attempted(Delivery(), f) else [];
      AfterGuard(Attempted([Resolve], f), !f.step(Resolve), tail, mark, s);
    }
  }

  /** Nothing is reported of step `s` after `mark` was. */
  ghost predicate NoneAfter(notes: seq<Note>, mark: Note, s: Step) {
    forall i, j :: 0 <= i < j < |notes| && notes[i] == mark ==> notes[j].step != s
  }

  lemma NoneAfterGuard(a: seq<Note>, go: bool, b: seq<Note>, mark: Note, s: Step)
    requires NoneAfter(a, mark, s) && Of(b, s) == []
    ensures NoneAfter(a + if go then b else [], mark, s)
  {
    OfAbsent(b, s);
    hide Of;
  }

  lemma NoneAfterLater(a: seq<Note>, go: bool, b: seq<Note>, mark: Note, s: Step)
    requires Of(a, mark.step) == [] && NoneAfter(b, mark, s)
    ensures NoneAfter(a + if go then b else [], mark, s)
  {
    OfAbsent(a, mark.step);
    hide Of;
  }

  lemma EndIsLast(notes: seq<Note>, end: Note, mark: Note, s: Step)
    requires mark !in notes
    ensures NoneAfter(notes + [end], mark, s)
  {
  }

  lemma HoldEndsLast(f: Faults, mark: Note, s: Step)
    requires mark.step == Hold && mark.state != STARTED
    ensures NoneAfter(HeldNotes(f), mark, s)
  {
    var inner := Attempted(UnderHold(), f);
    ListReports(UnderHold(), f, Hold);
    OfAbsent(inner, Hold);
    hide Attempted, Of, NoneAfter;
    var start, end := [Note(Hold, STARTED)], Note(Hold, if f.step(Hold) || f.release then FAILED else SUCCEEDED);
    EndIsLast(start, end, mark, s);
    EndIsLast(start + inner, end, mark, s);
    assert HeldNotes(f) == (if f.step(Hold) then start else start + inner) + [end];
  }

  lemma ReadsReportedEarly(f: Faults, s: Step)
    requires s in UnderHold()
    ensures Of(Attempted(AfterHold(), f), s) == [] && Of(Attempted(Delivery(), f), s) == []
    ensures Of(Attempted([Validate], f), Hold) == [] && Of(Attempted([Resolve], f), Hold) == []
  {
    ListReports(AfterHold(), f, s);
    ListReports(Delivery(), f, s);
    OneStepReports(Validate, f, Hold);
    OneStepReports(Resolve, f, Hold);
    hide Attempted, Of, Reached;
  }

  lemma HoldEndsCapture(f: Faults, mark: Note, s: Step)
    requires mark.step == Hold && mark.state != STARTED && s in UnderHold()
    ensures NoneAfter(CaptureNotes(f), mark, s)
  {
    hide *;
    CaptureIsNotes(f);
    HoldEndsLast(f, mark, s);
    ReadsReportedEarly(f, s);
    var held := HeldNotes(f) + if HoldPasses(f) then Attempted(AfterHold(), f) else [];
    NoneAfterGuard(HeldNotes(f), HoldPasses(f), Attempted(AfterHold(), f), mark, s);
    NoneAfterLater(Attempted([Validate], f), !f.step(Validate), held, mark, s);
  }

  lemma HoldEndsAfterReads(f: Faults, mark: Note, s: Step)
    requires mark.step == Hold && mark.state != STARTED && s in UnderHold()
    ensures NoneAfter(Notes(f), mark, s)
  {
    hide *;
    CaptureIsNotes(f);
    HoldEndsCapture(f, mark, s);
    ReadsReportedEarly(f, s);
    NothingReportedAfter(f, mark, s);
    var tail := CaptureNotes(f) + if CapturePasses(f) then Attempted(Delivery(), f) else [];
    NoneAfterGuard(CaptureNotes(f), CapturePasses(f), Attempted(Delivery(), f), mark, s);
    NoneAfterLater(Attempted([Resolve], f), !f.step(Resolve), tail, mark, s);
  }

  lemma NothingReportedAfter(f: Faults, mark: Note, s: Step)
    ensures f.options ==> NoneAfter(Notes(f), mark, s)
  {
  }

  /** Whatever fails, the steps come in one order: the database and then the refs while the hold is engaged,
      and neither once it is released; objects, blobs and keys only once it was released well, the manifest
      after what it lists, and the delivery only after verification, sealing before the second verification
      and that before the put. */
  lemma StepsComeInOrder(f: Faults)
    ensures var notes := Notes(f);
            && OnlyAfter(notes, Note(Resolve, SUCCEEDED), Validate)
            && OnlyAfter(notes, Note(Validate, SUCCEEDED), Hold)
            && OnlyAfter(notes, Note(Hold, STARTED), Database)
            && OnlyAfter(notes, Note(Database, SUCCEEDED), RecordRefs)
            && OnlyAfter(notes, Note(Hold, SUCCEEDED), Git)
            && OnlyAfter(notes, Note(Git, SUCCEEDED), Blobs)
            && OnlyAfter(notes, Note(Blobs, SUCCEEDED), Keys)
            && OnlyAfter(notes, Note(Keys, SUCCEEDED), WriteManifest)
            && OnlyAfter(notes, Note(WriteManifest, SUCCEEDED), Verify)
            && OnlyAfter(notes, Note(Verify, SUCCEEDED), Encrypt)
            && OnlyAfter(notes, Note(Encrypt, SUCCEEDED), VerifyEncrypted)
            && OnlyAfter(notes, Note(VerifyEncrypted, SUCCEEDED), Write)
    ensures forall outcome, s :: outcome != STARTED && (s == Database || s == RecordRefs) ==>
              NoneAfter(Notes(f), Note(Hold, outcome), s)
  {
    forall outcome, s | outcome != STARTED && (s == Database || s == RecordRefs)
      ensures NoneAfter(Notes(f), Note(Hold, outcome), s)
    {
      hide Notes, NoneAfter;
      HoldEndsAfterReads(f, Note(Hold, outcome), s);
    }
    hide *;
    FirstSteps(f);
    HeldSteps(f);
    LateSteps(f);
    DeliverySteps(f);
  }
}

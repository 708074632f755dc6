/** What each step of a run leaves in its document, its report and its error. */
module SagaSteps {
  import opened Prelude
  import opened Saga

  /** The raw result of a write this step made, or found made. */
  ghost predicate Wrote(ev: Event, result: Raw) {
    (ev.Found? && ev.result == result) || (ev.Attempted? && ev.outcome.Ok? && ev.outcome.value.result == result)
  }

  /**
   * A write step that made its write, or found it made, puts the decoded result
   * under its output field, for every later step, and leaves every other field;
   * without an output field or a readable result, and when it failed, the
   * document stays as it is.
   */
  lemma OutputReachesDocument<T>(env: Env<T>, source: Doc, steps: seq<Step>, first: Mark<T>, marks: seq<Mark<T>>, i: nat)
    requires Forward(env, source, steps, first, marks) && i < |marks| && steps[i].WriteStep?
    ensures var before, after, output := At(first, marks, i).doc, marks[i].doc, steps[i].write.output;
      && (forall result :: Wrote(marks[i].event, result) && output != "" && env.decode(result).Some? ==>
            && after.Keys == before.Keys + {output} && after[output] == env.decode(result).value
            && forall k :: k in before && k != output ==> after[k] == before[k])
      && ((forall result :: Wrote(marks[i].event, result) ==> output == "" || env.decode(result).None?) ==> after == before)
  {
    assert StepOk(env, source, steps[i], At(first, marks, i), marks[i]);
    var ev := marks[i].event;
    if ev.Found? { assert Wrote(ev, ev.result); }
    if IsCommit(ev) { assert Wrote(ev, ev.outcome.value.result); }
    hide DecidedBy;
  }

  /** A map or resolve step hands on what its activity made of the document, and an unnamed one the document itself. */
  lemma StepReachesDocument<T>(env: Env<T>, source: Doc, steps: seq<Step>, first: Mark<T>, marks: seq<Mark<T>>, i: nat)
    requires Forward(env, source, steps, first, marks) && i < |marks| && !steps[i].WriteStep?
    ensures var pre, post := At(first, marks, i), marks[i];
      match steps[i]
      case MapStep(_, config) =>
        if env.mapDoc(pre.calls, config, pre.doc).Ok? then post.doc == env.mapDoc(pre.calls, config, pre.doc).value && !Failing(post.event)
        else post.doc == pre.doc && post.event == Refused(env.mapDoc(pre.calls, config, pre.doc).error)
      case ResolveStep(_, config) =>
        if env.resolve(pre.calls, config, pre.doc).Ok? then post.doc == env.resolve(pre.calls, config, pre.doc).value && !Failing(post.event)
        else post.doc == pre.doc && post.event == Refused(env.resolve(pre.calls, config, pre.doc).error)
      case EmptyStep(_) => post.doc == pre.doc && !Failing(post.event)
  {
    assert StepOk(env, source, steps[i], At(first, marks, i), marks[i]);
  }

  // ----- Decisions -----------------------------------------------------------

  /** A decision approves exactly when the wake it rests on is an approving signal, and names who sent it. */
  lemma DecidedExactly<T>(env: Env<T>, source: Doc, steps: seq<Step>, first: Mark<T>, marks: seq<Mark<T>>, i: nat)
    requires Forward(env, source, steps, first, marks) && WasDecided(marks, i)
    ensures Decider(marks, i) >= 0
    ensures var wake, a := WakeAt(env.wakes, Decider(marks, i)), marks[i].event.approval.value;
      && (a.approved <==> wake.Arrived? && wake.signal.status == "approved")
      && a.actor == (if wake.Arrived? then wake.signal.actor else APPROVAL_TIMEOUT_ACTOR)
      && (Decider(marks, i) < |env.wakes| ==> wake == env.wakes[Decider(marks, i)])
      && (Decider(marks, i) >= |env.wakes| ==> wake.TimerFired?)
  {
    assert StepOk(env, source, steps[i], At(first, marks, i), marks[i]);
  }

  // ----- The report ----------------------------------------------------------

  /** What a mark is reported as, in plain terms. */
  ghost predicate ReportedAs(step: Step, ev: Event, r: WriteRecord) {
    && step.WriteStep? && r.step == step.name && r.endpoint == step.write.endpoint && r.operation == step.write.operation
    && Wrote(ev, r.result)
    && (ev.Found? ==> r.status == StatusDuplicate)
    && (ev.Attempted? && ev.outcome.Ok? ==> r.status == ev.outcome.value.status)
  }

  /** Where the record of the i-th step stands. */
  function Place<T>(steps: seq<Step>, marks: seq<Mark<T>>, i: nat): nat
    requires i <= |marks| <= |steps|
  {
    |Records(steps, marks[..i])|
  }

  lemma RecordsSoFar<T>(steps: seq<Step>, marks: seq<Mark<T>>, i: nat)
    requires i < |marks| <= |steps|
    ensures Records(steps, marks[..i + 1]) == Records(steps, marks[..i]) + NewRecords(steps[i], marks[i].event)
  {
    assert marks[..i + 1][..i] == marks[..i];
  }

  lemma {:induction false} RecordsPrefix<T>(steps: seq<Step>, marks: seq<Mark<T>>, i: nat, j: nat)
    requires i <= j <= |marks| <= |steps|
    ensures Records(steps, marks[..i]) <= Records(steps, marks[..j])
    decreases j
  {
    hide Records, NewRecords;
    if i < j {
      RecordsPrefix(steps, marks, i, j - 1);
      RecordsSoFar(steps, marks, j - 1);
    }
  }

  /**
   * The report lists, in order, exactly the write steps that made their write
   * or found it made, each once, with its endpoint, operation, status and
   * result.
   */
  lemma ReportExactly<T>(env: Env<T>, source: Doc, steps: seq<Step>, first: Mark<T>, marks: seq<Mark<T>>, i: nat)
    requires Forward(env, source, steps, first, marks) && i < |marks|
    ensures Place(steps, marks, |marks|) == |Records(steps, marks)| && Place(steps, marks, 0) == 0
    ensures if steps[i].WriteStep? && exists result :: Wrote(marks[i].event, result) then
              && Place(steps, marks, i + 1) == Place(steps, marks, i) + 1 <= |Records(steps, marks)|
              && ReportedAs(steps[i], marks[i].event, Records(steps, marks)[Place(steps, marks, i)])
            else Place(steps, marks, i + 1) == Place(steps, marks, i)
  {
    assert |marks| <= |steps|;
    hide Forward, StepOk;
    assert marks[..|marks|] == marks && marks[..0] == [];
    RecordsSoFar(steps, marks, i);
    RecordsPrefix(steps, marks, i + 1, |marks|);
    NewReported(steps[i], marks[i].event);
    hide ReportedAs, Wrote, NewRecords;
  }

  lemma NewReported(step: Step, ev: Event)
    ensures var found := NewRecords(step, ev);
      if step.WriteStep? && exists result :: Wrote(ev, result) then |found| == 1 && ReportedAs(step, ev, found[0]) else found == []
  {
    if ev.Found? { assert Wrote(ev, ev.result); }
    if IsCommit(ev) { assert Wrote(ev, ev.outcome.value.result); }
  }

  // ----- The error -----------------------------------------------------------

  /** The error a run returns is the one its failing activity answered; it counts the compensations that failed. */
  lemma OwnError<T>(
    env: Env<T>, steps: seq<Step>, source: Doc, targets: T,
    records: seq<WriteRecord>, error: Option<RunError>, marks: seq<Mark<T>>, undone: seq<Write>, after: T)
    requires Finished(env, steps, source, targets, records, error, marks, undone, after) && error.Some?
    ensures marks != [] && !error.value.InvalidPayload?
    ensures var ev := marks[|marks| - 1].event;
      || (ev.Refused? && error.value.error == ev.error)
      || (ev.Attempted? && ev.outcome.Err? && error.value.error == ev.outcome.error)
    ensures error.value.CompensationFailed? ==> 0 < error.value.failures <= |undone|
    ensures forall i :: 0 <= i < |marks| - 1 ==> !marks[i].event.Refused? && !(marks[i].event.Attempted? && marks[i].event.outcome.Err?)
  {
    hide StepOk, Failures, Unwound, Commits, Records;
    var last := marks[|marks| - 1];
    FailuresBound(env, last.calls, Commits(steps, marks), last.targets);
    assert forall i :: 0 <= i < |marks| - 1 ==> !Failing(marks[i].event);
  }

  lemma {:induction false} FailuresBound<T>(env: Env<T>, calls: nat, writes: seq<Write>, targets: T)
    ensures Failures(env, calls, writes, targets) <= |writes|
    decreases |writes|
  {
    if writes != [] {
      var n := |writes| - 1;
      FailuresBound(env, calls + 1, writes[..n], env.compensate(calls, writes[n], targets).1);
    }
  }

  /** Every write compensated is one the run committed, with its own step, request and result. */
  lemma UndoneAreCommits<T>(
    env: Env<T>, steps: seq<Step>, source: Doc, targets: T,
    records: seq<WriteRecord>, error: Option<RunError>, marks: seq<Mark<T>>, undone: seq<Write>, after: T, w: Write)
    requires Finished(env, steps, source, targets, records, error, marks, undone, after) && w in undone
    ensures exists i :: 0 <= i < |marks| && marks[i].event.Attempted? && marks[i].event.outcome.Ok? && CommittedAs(steps[i], marks[i].event, w)
  {
    UndoesItsCommits(env, steps, source, targets, records, error, marks, undone, after);
    var i :| 0 <= i < |marks| && IsCommit(marks[i].event) && w == WriteOf(steps[i], marks[i].event);
    assert CommittedAs(steps[i], marks[i].event, w);
  }

  ghost predicate CommittedAs(step: Step, ev: Event, w: Write)
    requires ev.Attempted? && ev.outcome.Ok?
  {
    w.step == step.name && w.request == ev.request && w.result == ev.outcome.value.result
  }
}

/** What one more approval signal does to a whole run: nothing, unless it names what the run waits on. */
module SagaSignals {
  import opened Prelude
  import opened Saga

  // ----- A run is determined -------------------------------------------------

  lemma StepUnique<T>(env: Env<T>, source: Doc, step: Step, pre: Mark<T>, post: Mark<T>, post': Mark<T>)
    requires StepOk(env, source, step, pre, post) && StepOk(env, source, step, pre, post')
    ensures post == post'
  {
    if post.event.Attempted? && post.event.approval.Some? {
      var p := Pending(step.name, env.digest(post.event.request));
      DecisionUnique(p, env.wakes, pre.woke, post.woke, post.event.approval.value, post'.woke, post'.event.approval.value);
    }
    hide DecidedBy;
  }

  /** Two forward parts of one run agree as far as both go. */
  lemma {:induction false} MarksUnique<T>(env: Env<T>, source: Doc, steps: seq<Step>, first: Mark<T>, marks: seq<Mark<T>>, marks': seq<Mark<T>>, k: nat)
    requires Forward(env, source, steps, first, marks) && Forward(env, source, steps, first, marks') && k <= |marks| && k <= |marks'|
    ensures marks[..k] == marks'[..k]
  {
    hide StepOk;
    if k > 0 {
      MarksUnique(env, source, steps, first, marks, marks', k - 1);
      assert k > 1 ==> marks[k - 2] == marks[..k - 1][k - 2] && marks'[k - 2] == marks'[..k - 1][k - 2];
      assert At(first, marks, k - 1) == At(first, marks', k - 1);
      assert StepOk(env, source, steps[k - 1], At(first, marks, k - 1), marks[k - 1]);
      assert StepOk(env, source, steps[k - 1], At(first, marks', k - 1), marks'[k - 1]);
      StepUnique(env, source, steps[k - 1], At(first, marks, k - 1), marks[k - 1], marks'[k - 1]);
      assert marks[..k] == marks[..k - 1] + [marks[k - 1]] && marks'[..k] == marks'[..k - 1] + [marks'[k - 1]];
    }
  }

  /** A forward part that has ended: every step was tried, or the last one failed. */
  ghost predicate Ended<T>(steps: seq<Step>, marks: seq<Mark<T>>) {
    |marks| == |steps| || (marks != [] && Failing(marks[|marks| - 1].event))
  }

  lemma EndedUnique<T>(env: Env<T>, source: Doc, steps: seq<Step>, first: Mark<T>, marks: seq<Mark<T>>, marks': seq<Mark<T>>)
    requires Forward(env, source, steps, first, marks) && Ended(steps, marks)
    requires Forward(env, source, steps, first, marks') && Ended(steps, marks')
    ensures marks == marks'
  {
    hide StepOk;
    var k := if |marks| < |marks'| then |marks| else |marks'|;
    MarksUnique(env, source, steps, first, marks, marks', k);
    assert marks[..|marks|] == marks && marks'[..|marks'|] == marks';
  }

  /** The interpreter has one result. */
  lemma FinishedUnique<T>(
    env: Env<T>, steps: seq<Step>, source: Doc, targets: T,
    records: seq<WriteRecord>, error: Option<RunError>, marks: seq<Mark<T>>, undone: seq<Write>, after: T,
    records': seq<WriteRecord>, error': Option<RunError>, marks': seq<Mark<T>>, undone': seq<Write>, after': T)
    requires Finished(env, steps, source, targets, records, error, marks, undone, after)
    requires Finished(env, steps, source, targets, records', error', marks', undone', after')
    ensures records == records' && error == error' && marks == marks' && undone == undone' && after == after'
  {
    EndedUnique(env, source, steps, First(source, targets), marks, marks');
    hide Forward, Commits, Unwound, Failures, Records;
  }

  // ----- One more signal -----------------------------------------------------

  function Inserted(wakes: seq<Wake>, at: nat, other: Signal): seq<Wake>
    requires at <= |wakes|
  {
    wakes[..at] + [Arrived(other)] + wakes[at..]
  }

  function WithSignal<T>(env: Env<T>, at: nat, other: Signal): Env<T>
    requires at <= |env.wakes|
  {
    env.(wakes := Inserted(env.wakes, at, other))
  }

  /** Where a wake is found once another has come in at `at`. */
  function Later(woke: nat, at: nat): nat { if woke > at then woke + 1 else woke }

  function Shifted<T>(mark: Mark<T>, at: nat): Mark<T> { mark.(woke := Later(mark.woke, at)) }

  function ShiftedAll<T>(marks: seq<Mark<T>>, at: nat): (r: seq<Mark<T>>)
    ensures |r| == |marks|
  {
    seq(|marks|, i requires 0 <= i < |marks| => Shifted(marks[i], at))
  }

  /** If this step waits when the signal at `at` is read, the signal names another step or request. */
  ghost predicate Ignores<T>(env: Env<T>, step: Step, pre: Mark<T>, post: Mark<T>, at: nat, other: Signal) {
    post.event.Attempted? && post.event.approval.Some? && pre.woke <= at < post.woke ==>
      !Matches(Pending(step.name, env.digest(post.event.request)), Arrived(other))
  }

  /** The signal is for nothing the run waits on when it reads it. */
  ghost predicate AllIgnore<T>(env: Env<T>, steps: seq<Step>, first: Mark<T>, marks: seq<Mark<T>>, at: nat, other: Signal)
    requires |marks| <= |steps|
  {
    forall i :: 0 <= i < |marks| ==> Ignores(env, steps[i], At(first, marks, i), marks[i], at, other)
  }

  lemma WakeShifts(wakes: seq<Wake>, at: nat, other: Signal, i: nat)
    requires at <= |wakes|
    ensures i < at ==> WakeAt(Inserted(wakes, at, other), i) == WakeAt(wakes, i)
    ensures i >= at ==> WakeAt(Inserted(wakes, at, other), i + 1) == WakeAt(wakes, i)
  {
  }

  /** A wait is decided as before, by the same wake. */
  lemma DecisionShifts(p: Pending, wakes: seq<Wake>, from: nat, to: nat, a: Approval, at: nat, other: Signal)
    requires DecidedBy(p, wakes, from, to, a) && at <= |wakes|
    requires from <= at < to ==> !Matches(p, Arrived(other))
    ensures DecidedBy(p, Inserted(wakes, at, other), Later(from, at), Later(to, at), a)
  {
    if from <= at < to {
      OtherSignalsIgnored(p, wakes, from, to, a, at, other);
    } else {
      var more, d := Inserted(wakes, at, other), if at < from then 1 else 0;
      WakeShifts(wakes, at, other, to - 1);
      forall i | Later(from, at) <= i < Later(to, at) - 1 ensures i < |more| && more[i].Arrived? && !Matches(p, more[i]) {
        WakeShifts(wakes, at, other, i - d);
        assert wakes[i - d].Arrived?;
      }
    }
  }

  lemma StepShifts<T>(env: Env<T>, source: Doc, step: Step, pre: Mark<T>, post: Mark<T>, at: nat, other: Signal)
    requires StepOk(env, source, step, pre, post) && at <= |env.wakes| && Ignores(env, step, pre, post, at, other)
    ensures StepOk(WithSignal(env, at, other), source, step, Shifted(pre, at), Shifted(post, at))
  {
    if post.event.Attempted? && post.event.approval.Some? {
      DecisionShifts(Pending(step.name, env.digest(post.event.request)), env.wakes, pre.woke, post.woke, post.event.approval.value, at, other);
    }
    hide DecidedBy, Inserted;
  }

  lemma AtShifts<T>(first: Mark<T>, marks: seq<Mark<T>>, at: nat, i: nat)
    requires i <= |marks|
    ensures At(Shifted(first, at), ShiftedAll(marks, at), i) == Shifted(At(first, marks, i), at)
  {
  }

  lemma ForwardAt<T>(env: Env<T>, source: Doc, steps: seq<Step>, first: Mark<T>, marks: seq<Mark<T>>, at: nat, other: Signal, i: nat)
    requires Forward(env, source, steps, first, marks) && at <= |env.wakes| && AllIgnore(env, steps, first, marks, at, other) && i < |marks|
    ensures StepOk(WithSignal(env, at, other), source, steps[i], At(Shifted(first, at), ShiftedAll(marks, at), i), ShiftedAll(marks, at)[i])
  {
    hide StepOk, Ignores, At, Shifted;
    assert StepOk(env, source, steps[i], At(first, marks, i), marks[i]);
    assert Ignores(env, steps[i], At(first, marks, i), marks[i], at, other);
    hide Forward, AllIgnore;
    StepShifts(env, source, steps[i], At(first, marks, i), marks[i], at, other);
    AtShifts(first, marks, at, i);
  }

  lemma ForwardShifts<T>(env: Env<T>, source: Doc, steps: seq<Step>, first: Mark<T>, marks: seq<Mark<T>>, at: nat, other: Signal)
    requires Forward(env, source, steps, first, marks) && at <= |env.wakes| && AllIgnore(env, steps, first, marks, at, other)
    ensures Forward(WithSignal(env, at, other), source, steps, Shifted(first, at), ShiftedAll(marks, at))
  {
    hide StepOk, Ignores, At, AllIgnore, WithSignal;
    var more := ShiftedAll(marks, at);
    assert forall i :: 0 <= i < |marks| ==> more[i].event == marks[i].event;
    forall i | 0 <= i < |more| ensures StepOk(WithSignal(env, at, other), source, steps[i], At(Shifted(first, at), more, i), more[i]) {
      ForwardAt(env, source, steps, first, marks, at, other, i);
    }
  }

  lemma {:induction false} SameCommits<T>(steps: seq<Step>, marks: seq<Mark<T>>, at: nat)
    requires |marks| <= |steps|
    ensures Commits(steps, ShiftedAll(marks, at)) == Commits(steps, marks)
    ensures Records(steps, ShiftedAll(marks, at)) == Records(steps, marks)
  {
    if marks != [] {
      var n := |marks| - 1;
      SameCommits(steps, marks[..n], at);
      assert ShiftedAll(marks, at)[..n] == ShiftedAll(marks[..n], at);
    }
  }

  lemma {:induction false} SameUndoing<T>(env: Env<T>, at: nat, other: Signal, calls: nat, writes: seq<Write>, targets: T)
    requires at <= |env.wakes|
    ensures Unwound(WithSignal(env, at, other), calls, writes, targets) == Unwound(env, calls, writes, targets)
    ensures Failures(WithSignal(env, at, other), calls, writes, targets) == Failures(env, calls, writes, targets)
    decreases |writes|
  {
    if writes != [] {
      var n := |writes| - 1;
      SameUndoing(env, at, other, calls + 1, writes[..n], env.compensate(calls, writes[n], targets).1);
    }
  }

  /**
   * A run with one more signal, wherever it comes in, that names no step and
   * request the run waits on when it reads it, goes exactly as before: the same
   * documents, events, decisions, records, error, compensations and targets.
   * Only the wakes after it are counted one later.
   */
  lemma OtherSignalsChangeNothing<T>(
    env: Env<T>, steps: seq<Step>, source: Doc, targets: T,
    records: seq<WriteRecord>, error: Option<RunError>, marks: seq<Mark<T>>, undone: seq<Write>, after: T, at: nat, other: Signal)
    requires Finished(env, steps, source, targets, records, error, marks, undone, after)
    requires at <= |env.wakes| && AllIgnore(env, steps, First(source, targets), marks, at, other)
    ensures Finished(WithSignal(env, at, other), steps, source, targets, records, error, ShiftedAll(marks, at), undone, after)
    ensures forall records', error', marks', undone', after' ::
      Finished(WithSignal(env, at, other), steps, source, targets, records', error', marks', undone', after') ==>
        records' == records && error' == error && marks' == ShiftedAll(marks, at) && undone' == undone && after' == after
  {
    var env', first, more := WithSignal(env, at, other), First(source, targets), ShiftedAll(marks, at);
    FinishedShifts(env, steps, source, targets, records, error, marks, undone, after, at, other);
    forall records', error', marks', undone', after' | Finished(env', steps, source, targets, records', error', marks', undone', after')
      ensures records' == records && error' == error && marks' == more && undone' == undone && after' == after
    {
      FinishedUnique(env', steps, source, targets, records, error, more, undone, after, records', error', marks', undone', after');
    }
  }

  lemma FailedShifts<T>(
    env: Env<T>, done: seq<Write>, last: Mark<T>, error: Option<RunError>, undone: seq<Write>, after: T, at: nat, other: Signal)
    requires Failing(last.event) && at <= |env.wakes|
    ensures Failed(WithSignal(env, at, other), done, Shifted(last, at), error, undone, after) <==> Failed(env, done, last, error, undone, after)
  {
    SameUndoing(env, at, other, last.calls, done, last.targets);
    hide Unwound, Failures;
  }

  lemma FinishedShifts<T>(
    env: Env<T>, steps: seq<Step>, source: Doc, targets: T,
    records: seq<WriteRecord>, error: Option<RunError>, marks: seq<Mark<T>>, undone: seq<Write>, after: T, at: nat, other: Signal)
    requires Finished(env, steps, source, targets, records, error, marks, undone, after)
    requires at <= |env.wakes| && AllIgnore(env, steps, First(source, targets), marks, at, other)
    ensures Finished(WithSignal(env, at, other), steps, source, targets, records, error, ShiftedAll(marks, at), undone, after)
  {
    var first, more := First(source, targets), ShiftedAll(marks, at);
    ForwardShifts(env, source, steps, first, marks, at, other);
    assert Shifted(first, at) == first;
    SameCommits(steps, marks, at);
    AtShifts(first, marks, at, |marks|);
    hide Forward, Commits, Records, WithSignal, AllIgnore, At, Failed;
    if marks != [] {
      var n := |marks| - 1;
      assert more[n] == Shifted(marks[n], at);
      if Failing(marks[n].event) { FailedShifts(env, Commits(steps, marks), marks[n], error, undone, after, at, other); }
    }
    hide ShiftedAll;
  }
}

/**
 * The interpreter of one compiled workflow for one event: map, resolve and
 * write steps, durable approvals, and compensation of the committed writes
 * when a step fails.  Activities are an environment of total functions that
 * also see how many activities ran before, so they may answer anything.
 */
module Saga {
  import opened Prelude

  type Json = string
  /** A raw result; it may be missing or unreadable. */
  type Raw = string
  type Doc = map<string, Json>
  type Error = string

  datatype Request = Request(target: string, operation: string, key: string, payload: Json)

  datatype Approval = Approval(approved: bool, actor: string)

  /** An approval names the step and the digest of the request it decides. */
  datatype Signal = Signal(step: string, digest: string, status: string, actor: string)

  datatype Pending = Pending(step: string, digest: string)

  /** What a waiting run is woken by. */
  datatype Wake = Arrived(signal: Signal) | TimerFired

  datatype WriteConfig = WriteConfig(endpoint: string, operation: string, output: string)

  datatype Step =
    | MapStep(name: string, config: string)
    | ResolveStep(name: string, config: string)
    | WriteStep(name: string, write: WriteConfig)
    | EmptyStep(name: string)

  datatype Prepared = AlreadyWritten(result: Raw) | Ready(needsApproval: bool)

  /** StatusDuplicate is a commit that found the write already there. */
  datatype Status = StatusCommitted | StatusDuplicate

  datatype Outcome = Outcome(status: Status, result: Raw)

  datatype PrepareOutput = PrepareOutput(request: Request, prepared: Prepared)

  /**
   * The activities, over a state T of the target systems.  `wakes` are the
   * signals and timer firings in the order the run sees them; once they are
   * used up the timer fires.
   */
  datatype Env<!T> = Env(
    mapDoc: (nat, string, Doc) -> Result<Doc, Error>,
    resolve: (nat, string, Doc) -> Result<Doc, Error>,
    prepare: (nat, Step, Doc, Doc) -> Result<PrepareOutput, Error>,
    commit: (nat, Request, Option<Approval>, T) -> (Result<Outcome, Error>, T),
    compensate: (nat, Write, T) -> (Option<Error>, T),
    digest: Request -> string,
    decode: Raw -> Option<Json>,
    wakes: seq<Wake>)

  /** A write this run may have to undo. */
  datatype Write = Write(step: string, request: Request, result: Raw)

  datatype WriteRecord = WriteRecord(step: string, endpoint: string, operation: string, status: Status, result: Raw)

  datatype RunError = StepFailed(error: Error) | CompensationFailed(failures: nat, error: Error) | InvalidPayload

  /** What a step did. */
  datatype Event =
    | Passed
    | Found(request: Request, result: Raw)
    | Attempted(request: Request, approval: Option<Approval>, outcome: Result<Outcome, Error>)
    | Refused(error: Error)

  /** The run after a step: the document, the activities and wakes used so far, and the targets. */
  datatype Mark<T> = Mark(event: Event, doc: Doc, calls: nat, woke: nat, targets: T)

  const APPROVAL_TIMEOUT_ACTOR := "turgon/approval-timeout"

  // ----- Approvals -----------------------------------------------------------

  predicate Matches(p: Pending, wake: Wake) {
    wake.Arrived? && wake.signal.step == p.step && wake.signal.digest == p.digest
  }

  /** The decision a wake brings: a rejection unless it is an approving signal. */
  function Decided(wake: Wake): Approval {
    match wake
    case TimerFired => Approval(false, APPROVAL_TIMEOUT_ACTOR)
    case Arrived(signal) => Approval(signal.status == "approved", signal.actor)
  }

  function WakeAt(wakes: seq<Wake>, i: nat): Wake {
    if i < |wakes| then wakes[i] else TimerFired
  }

  /** The wake at `to - 1` is the first from `from` on that decides the request. */
  ghost predicate DecidedBy(p: Pending, wakes: seq<Wake>, from: nat, to: nat, a: Approval) {
    && from < to
    && (WakeAt(wakes, to - 1).TimerFired? || Matches(p, WakeAt(wakes, to - 1)))
    && a == Decided(WakeAt(wakes, to - 1))
    && (from < to - 1 ==> to - 1 <= |wakes|)
    && forall i :: from <= i < to - 1 ==> wakes[i].Arrived? && !Matches(p, wakes[i])
  }

  method AwaitApproval(p: Pending, wakes: seq<Wake>, from: nat) returns (a: Approval, to: nat)
    ensures DecidedBy(p, wakes, from, to, a)
  {
    var got: Option<Approval> := None;
    to := from;
    while got.None?
      invariant from <= to
      invariant got.None? && from < to ==> to <= |wakes|
      invariant got.None? ==> forall i :: from <= i < to ==> wakes[i].Arrived? && !Matches(p, wakes[i])
      invariant got.Some? ==> DecidedBy(p, wakes, from, to, got.value)
      decreases got.None?, |wakes| - to
    {
      match WakeAt(wakes, to) {
        case TimerFired => got := Some(Approval(false, APPROVAL_TIMEOUT_ACTOR));
        case Arrived(signal) =>
          if signal.step == p.step && signal.digest == p.digest {
            got := Some(Approval(signal.status == "approved", signal.actor));
          }
      }
      to := to + 1;
    }
    a := got.value;
  }

  // ----- The steps -----------------------------------------------------------

  /** A copy of the document with a write's result under a field. */
  function WithOutput(doc: Doc, field: string, decoded: Option<Json>): Doc {
    if field == "" || decoded.None? then doc else doc[field := decoded.value]
  }

  ghost predicate SimpleStep<T>(r: Result<Doc, Error>, pre: Mark<T>, post: Mark<T>) {
    && post.calls == pre.calls + 1 && post.woke == pre.woke && post.targets == pre.targets
    && match r
       case Ok(doc) => post.event == Passed && post.doc == doc
       case Err(e) => post.event == Refused(e) && post.doc == pre.doc
  }

  ghost predicate CommitStep<T>(env: Env<T>, step: Step, request: Request, needsApproval: bool, pre: Mark<T>, post: Mark<T>)
    requires step.WriteStep?
  {
    var ev := post.event;
    && ev.Attempted? && ev.request == request
    && (if needsApproval then
          ev.approval.Some? && DecidedBy(Pending(step.name, env.digest(request)), env.wakes, pre.woke, post.woke, ev.approval.value)
        else ev.approval == None && post.woke == pre.woke)
    && (ev.outcome, post.targets) == env.commit(pre.calls + 1, request, ev.approval, pre.targets)
    && post.calls == pre.calls + 2
    && post.doc == match ev.outcome
                   case Ok(out) => WithOutput(pre.doc, step.write.output, env.decode(out.result))
                   case Err(_) => pre.doc
  }

  /** What a step makes of the run before it. */
  ghost predicate StepOk<T>(env: Env<T>, source: Doc, step: Step, pre: Mark<T>, post: Mark<T>) {
    match step
    case MapStep(_, config) => SimpleStep(env.mapDoc(pre.calls, config, pre.doc), pre, post)
    case ResolveStep(_, config) => SimpleStep(env.resolve(pre.calls, config, pre.doc), pre, post)
    case EmptyStep(_) => post == pre.(event := Passed)
    case WriteStep(_, write) =>
      match env.prepare(pre.calls, step, source, pre.doc)
      case Err(e) => post == pre.(event := Refused(e), calls := pre.calls + 1)
      case Ok(PrepareOutput(request, AlreadyWritten(result))) =>
        post == pre.(event := Found(request, result), calls := pre.calls + 1,
                     doc := WithOutput(pre.doc, write.output, env.decode(result)))
      case Ok(PrepareOutput(request, Ready(needsApproval))) => CommitStep(env, step, request, needsApproval, pre, post)
  }

  function First<T>(source: Doc, targets: T): Mark<T> { Mark(Passed, source, 0, 0, targets) }

  function At<T>(first: Mark<T>, marks: seq<Mark<T>>, i: nat): Mark<T>
    requires i <= |marks|
  {
    if i == 0 then first else marks[i - 1]
  }

  predicate Failing(ev: Event) { ev.Refused? || (ev.Attempted? && ev.outcome.Err?) }

  function ErrorOf(ev: Event): Error
    requires Failing(ev)
  {
    if ev.Refused? then ev.error else ev.outcome.error
  }

  /** The forward part of a run: one mark per step tried, each following from the one before; only the last may have failed. */
  ghost predicate Forward<T>(env: Env<T>, source: Doc, steps: seq<Step>, first: Mark<T>, marks: seq<Mark<T>>) {
    && |marks| <= |steps|
    && (forall i :: 0 <= i < |marks| ==> StepOk(env, source, steps[i], At(first, marks, i), marks[i]))
    && (forall i :: 0 <= i < |marks| - 1 ==> !Failing(marks[i].event))
  }

  // ----- Undoing -------------------------------------------------------------

  predicate IsCommit(ev: Event) { ev.Attempted? && ev.outcome.Ok? }

  function WriteOf(step: Step, ev: Event): Write
    requires IsCommit(ev)
  {
    Write(step.name, ev.request, ev.outcome.value.result)
  }

  function NewCommits(step: Step, ev: Event): seq<Write> {
    if IsCommit(ev) then [WriteOf(step, ev)] else []
  }

  /** The writes the run committed, oldest first. */
  function Commits<T>(steps: seq<Step>, marks: seq<Mark<T>>): seq<Write>
    requires |marks| <= |steps|
  {
    if marks == [] then []
    else var n := |marks| - 1; Commits(steps, marks[..n]) + NewCommits(steps[n], marks[n].event)
  }

  /** The targets after compensating writes, newest first. */
  function Unwound<T>(env: Env<T>, calls: nat, writes: seq<Write>, targets: T): T
    decreases |writes|
  {
    if writes == [] then targets
    else
      var n := |writes| - 1;
      Unwound(env, calls + 1, writes[..n], env.compensate(calls, writes[n], targets).1)
  }

  /** How many of those compensations fail. */
  function Failures<T>(env: Env<T>, calls: nat, writes: seq<Write>, targets: T): nat
    decreases |writes|
  {
    if writes == [] then 0
    else
      var n := |writes| - 1;
      var (error, after) := env.compensate(calls, writes[n], targets);
      (if error.Some? then 1 else 0) + Failures(env, calls + 1, writes[..n], after)
  }

  /** Compensates committed writes, newest first, whatever fails on the way. */
  method Compensate<T>(env: Env<T>, done: seq<Write>, calls: nat, targets: T)
    returns (undone: seq<Write>, failures: nat, after: T)
    ensures |undone| == |done| && forall i :: 0 <= i < |undone| ==> undone[i] == done[|done| - 1 - i]
    ensures failures == Failures(env, calls, done, targets)
    ensures after == Unwound(env, calls, done, targets)
  {
    undone, failures, after := [], 0, targets;
    var i := |done|;
    assert done[..i] == done;
    while i > 0
      invariant 0 <= i <= |done|
      invariant |undone| == |done| - i && forall k :: 0 <= k < |undone| ==> undone[k] == done[|done| - 1 - k]
      invariant failures + Failures(env, calls + |undone|, done[..i], after) == Failures(env, calls, done, targets)
      invariant Unwound(env, calls + |undone|, done[..i], after) == Unwound(env, calls, done, targets)
    {
      i := i - 1;
      assert done[..i + 1][..i] == done[..i];
      var (error, next) := env.compensate(calls + |undone|, done[i], after);
      if error.Some? { failures := failures + 1; }
      undone, after := undone + [done[i]], next;
    }
  }

  // ----- The run -------------------------------------------------------------

  function NewRecords(step: Step, ev: Event): seq<WriteRecord> {
    if !step.WriteStep? then []
    else if ev.Found? then [WriteRecord(step.name, step.write.endpoint, step.write.operation, StatusDuplicate, ev.result)]
    else if IsCommit(ev) then
      [WriteRecord(step.name, step.write.endpoint, step.write.operation, ev.outcome.value.status, ev.outcome.value.result)]
    else []
  }

  /** What a run reports: the writes it made and the ones it found made. */
  function Records<T>(steps: seq<Step>, marks: seq<Mark<T>>): seq<WriteRecord>
    requires |marks| <= |steps|
  {
    if marks == [] then []
    else var n := |marks| - 1; Records(steps, marks[..n]) + NewRecords(steps[n], marks[n].event)
  }

  lemma CommitsAppend<T>(steps: seq<Step>, marks: seq<Mark<T>>, mark: Mark<T>)
    requires |marks| < |steps|
    ensures Commits(steps, marks + [mark]) == Commits(steps, marks) + NewCommits(steps[|marks|], mark.event)
    ensures Records(steps, marks + [mark]) == Records(steps, marks) + NewRecords(steps[|marks|], mark.event)
  {
    assert (marks + [mark])[..|marks|] == marks;
  }

  /** A forward part in which no step has failed yet. */
  ghost predicate Clean<T>(env: Env<T>, source: Doc, steps: seq<Step>, first: Mark<T>, marks: seq<Mark<T>>) {
    Forward(env, source, steps, first, marks) && forall i :: 0 <= i < |marks| ==> !Failing(marks[i].event)
  }

  lemma CleanAppend<T>(env: Env<T>, source: Doc, steps: seq<Step>, first: Mark<T>, marks: seq<Mark<T>>, next: Mark<T>)
    requires Clean(env, source, steps, first, marks) && |marks| < |steps|
    requires StepOk(env, source, steps[|marks|], At(first, marks, |marks|), next)
    ensures Forward(env, source, steps, first, marks + [next])
    ensures !Failing(next.event) ==> Clean(env, source, steps, first, marks + [next])
  {
    hide StepOk;
    var more := marks + [next];
    forall i | 0 <= i < |more| ensures StepOk(env, source, steps[i], At(first, more, i), more[i]) {
      assert At(first, more, i) == At(first, marks, i);
    }
  }

  /** One write step: prepare, wait for a decision if one is needed, commit. */
  method RunWrite<T>(env: Env<T>, source: Doc, step: Step, pre: Mark<T>) returns (post: Mark<T>)
    requires step.WriteStep?
    ensures StepOk(env, source, step, pre, post)
  {
    var prep := env.prepare(pre.calls, step, source, pre.doc);
    if prep.Err? {
      return pre.(event := Refused(prep.error), calls := pre.calls + 1);
    }
    var request := prep.value.request;
    match prep.value.prepared {
      case AlreadyWritten(result) =>
        return pre.(event := Found(request, result), calls := pre.calls + 1,
                    doc := WithOutput(pre.doc, step.write.output, env.decode(result)));
      case Ready(needsApproval) =>
        var approval: Option<Approval> := None;
        var woke := pre.woke;
        if needsApproval {
          var a;
          a, woke := AwaitApproval(Pending(step.name, env.digest(request)), env.wakes, pre.woke);
          approval := Some(a);
        }
        var (outcome, targets) := env.commit(pre.calls + 1, request, approval, pre.targets);
        var doc := match outcome
                   case Ok(out) => WithOutput(pre.doc, step.write.output, env.decode(out.result))
                   case Err(_) => pre.doc;
        return Mark(Attempted(request, approval, outcome), doc, pre.calls + 2, woke, targets);
    }
  }

  method RunStep<T>(env: Env<T>, source: Doc, step: Step, pre: Mark<T>) returns (post: Mark<T>)
    ensures StepOk(env, source, step, pre, post)
  {
    match step
    case WriteStep(_, _) => post := RunWrite(env, source, step, pre);
    case EmptyStep(_) => post := pre.(event := Passed);
    case MapStep(_, config) =>
      match env.mapDoc(pre.calls, config, pre.doc) {
        case Ok(doc) => post := pre.(event := Passed, doc := doc, calls := pre.calls + 1);
        case Err(e) => post := pre.(event := Refused(e), calls := pre.calls + 1);
      }
    case ResolveStep(_, config) =>
      match env.resolve(pre.calls, config, pre.doc) {
        case Ok(doc) => post := pre.(event := Passed, doc := doc, calls := pre.calls + 1);
        case Err(e) => post := pre.(event := Refused(e), calls := pre.calls + 1);
      }
  }

  /**
   * IntegrationWorkflow.  `marks` are the steps tried, `undone` the
   * compensations issued, in order, and `after` the targets at the end.
   */
  method IntegrationWorkflow<T>(env: Env<T>, steps: seq<Step>, payload: Option<Doc>, targets: T)
    returns (records: seq<WriteRecord>, error: Option<RunError>, marks: seq<Mark<T>>, undone: seq<Write>, after: T)
    ensures payload.None? ==> error == Some(InvalidPayload) && marks == [] && undone == [] && after == targets && records == []
    ensures payload.Some? ==> Finished(env, steps, payload.value, targets, records, error, marks, undone, after)
  {
    if payload.None? {
      return [], Some(InvalidPayload), [], [], targets;
    }
    hide StepOk, Commits, Records, Unwound, Failures, Clean, Forward, Finished, NewRecords, NewCommits;
    var source := payload.value;
    NothingYet(env, source, steps, First(source, targets));
    var current, done := First(source, targets), [];
    records, marks, undone := [], [], [];
    for k := 0 to |steps|
      invariant |marks| == k && current == At(First(source, targets), marks, k)
      invariant Clean(env, source, steps, First(source, targets), marks)
      invariant done == Commits(steps, marks) && records == Records(steps, marks) && undone == []
    {
      var next := RunStep(env, source, steps[k], current);
      CommitsAppend(steps, marks, next);
      CleanAppend(env, source, steps, First(source, targets), marks, next);
      marks := marks + [next];
      if Failing(next.event) {
        var failures;
        undone, failures, after := Compensate(env, done, next.calls, next.targets);
        var own := ErrorOf(next.event);
        error := Some(if failures == 0 then StepFailed(own) else CompensationFailed(failures, own));
        FailedAddsNothing(steps[k], next.event);
        assert records + [] == records && done + [] == done;
        FailedRun(env, steps, source, targets, records, error, marks, undone, after);
        return;
      }
      records := records + NewRecords(steps[k], next.event);
      done := done + NewCommits(steps[k], next.event);
      current := next;
    }
    error, after := None, current.targets;
    CompletedRun(env, steps, source, targets, marks);
  }

  /** What a finished run is. */
  ghost predicate Finished<T>(
    env: Env<T>, steps: seq<Step>, source: Doc, targets: T,
    records: seq<WriteRecord>, error: Option<RunError>, marks: seq<Mark<T>>, undone: seq<Write>, after: T)
  {
    var first := First(source, targets);
    && Forward(env, source, steps, first, marks)
    && records == Records(steps, marks)
    && if marks != [] && Failing(marks[|marks| - 1].event) then
         Failed(env, Commits(steps, marks), marks[|marks| - 1], error, undone, after)
       else
         |marks| == |steps| && error == None && undone == [] && after == At(first, marks, |marks|).targets
  }

  /** How a run ends whose last step failed: its commits undone, newest first, and the error. */
  ghost predicate Failed<T>(env: Env<T>, done: seq<Write>, last: Mark<T>, error: Option<RunError>, undone: seq<Write>, after: T)
    requires Failing(last.event)
  {
    var failures := Failures(env, last.calls, done, last.targets);
    && after == Unwound(env, last.calls, done, last.targets)
    && |undone| == |done| && (forall i :: 0 <= i < |undone| ==> undone[i] == done[|done| - 1 - i])
    && error == Some(if failures == 0 then StepFailed(ErrorOf(last.event)) else CompensationFailed(failures, ErrorOf(last.event)))
  }

  lemma FailedAddsNothing(step: Step, ev: Event)
    requires Failing(ev)
    ensures NewRecords(step, ev) == [] && NewCommits(step, ev) == []
  {
  }

  lemma NothingYet<T>(env: Env<T>, source: Doc, steps: seq<Step>, first: Mark<T>)
    ensures Clean(env, source, steps, first, []) && Commits<T>(steps, []) == [] && Records<T>(steps, []) == []
  {
  }

  lemma FailedRun<T>(
    env: Env<T>, steps: seq<Step>, source: Doc, targets: T,
    records: seq<WriteRecord>, error: Option<RunError>, marks: seq<Mark<T>>, undone: seq<Write>, after: T)
    requires Forward(env, source, steps, First(source, targets), marks)
    requires marks != [] && Failing(marks[|marks| - 1].event)
    requires records == Records(steps, marks)
    requires var last := marks[|marks| - 1];
      var done := Commits(steps, marks);
      var failures := Failures(env, last.calls, done, last.targets);
      && after == Unwound(env, last.calls, done, last.targets)
      && |undone| == |done| && (forall i :: 0 <= i < |undone| ==> undone[i] == done[|done| - 1 - i])
      && error == Some(if failures == 0 then StepFailed(ErrorOf(last.event)) else CompensationFailed(failures, ErrorOf(last.event)))
    ensures Finished(env, steps, source, targets, records, error, marks, undone, after)
  {
  }

  lemma CompletedRun<T>(env: Env<T>, steps: seq<Step>, source: Doc, targets: T, marks: seq<Mark<T>>)
    requires Clean(env, source, steps, First(source, targets), marks) && |marks| == |steps|
    ensures Finished(env, steps, source, targets, Records(steps, marks), None, marks, [], At(First(source, targets), marks, |marks|).targets)
  {
  }

  // ----- What a run promises -------------------------------------------------

  /**
   * A failing run undoes exactly the writes it committed, each once, newest
   * first, whether or not a compensation fails, and it returns the step's own
   * error exactly when none failed.  A run that does not fail undoes nothing.
   */
  lemma UndoesItsCommits<T>(
    env: Env<T>, steps: seq<Step>, source: Doc, targets: T,
    records: seq<WriteRecord>, error: Option<RunError>, marks: seq<Mark<T>>, undone: seq<Write>, after: T)
    requires Finished(env, steps, source, targets, records, error, marks, undone, after)
    ensures error.None? ==> undone == [] && |marks| == |steps|
    ensures error.Some? ==> |undone| == |Commits(steps, marks)|
    ensures error.Some? ==>
              forall i :: 0 <= i < |undone| ==> undone[i] == Commits(steps, marks)[|undone| - 1 - i]
    ensures error.Some? ==> marks != [] && Failing(marks[|marks| - 1].event)
    ensures error.Some? ==>
              (error == Some(StepFailed(ErrorOf(marks[|marks| - 1].event))) <==>
               Failures(env, marks[|marks| - 1].calls, Commits(steps, marks), marks[|marks| - 1].targets) == 0)
    ensures forall w :: w in undone ==> exists i :: 0 <= i < |marks| && IsCommit(marks[i].event) && w == WriteOf(steps[i], marks[i].event)
  {
    forall w | w in undone ensures exists i :: 0 <= i < |marks| && IsCommit(marks[i].event) && w == WriteOf(steps[i], marks[i].event) {
      CommitsAreCommits(steps, marks, w);
    }
  }

  lemma {:induction false} CommitsAreCommits<T>(steps: seq<Step>, marks: seq<Mark<T>>, w: Write)
    requires |marks| <= |steps| && w in Commits(steps, marks)
    ensures exists i :: 0 <= i < |marks| && IsCommit(marks[i].event) && w == WriteOf(steps[i], marks[i].event)
  {
    var n := |marks| - 1;
    if w in Commits(steps, marks[..n]) {
      CommitsAreCommits(steps, marks[..n], w);
      var i :| 0 <= i < n && IsCommit(marks[..n][i].event) && w == WriteOf(steps[i], marks[..n][i].event);
      assert IsCommit(marks[i].event);
    } else {
      assert IsCommit(marks[n].event);
    }
  }

  /** A failed activity changes nothing, a commit that finds its write there changes nothing, a compensation undoes its own commit. */
  ghost predicate Lawful<T(!new)>(env: Env<T>) {
    && (forall n, r, a, t :: LawfulCommit(env, n, r, a, t))
    && (forall n, r, a, t, m, step :: LawfulUndo(env, n, r, a, t, m, step))
  }

  ghost predicate LawfulCommit<T>(env: Env<T>, n: nat, r: Request, a: Option<Approval>, t: T) {
    var (outcome, after) := env.commit(n, r, a, t);
    outcome.Err? || outcome.value.status == StatusDuplicate ==> after == t
  }

  ghost predicate LawfulUndo<T>(env: Env<T>, n: nat, r: Request, a: Option<Approval>, t: T, m: nat, step: string) {
    var (outcome, after) := env.commit(n, r, a, t);
    outcome.Ok? && outcome.value.status == StatusCommitted ==>
      var (error, undone) := env.compensate(m, Write(step, r, outcome.value.result), after);
      error.None? ==> undone == t
  }

  /** No commit answered that the write was already there. */
  ghost predicate NoLateDuplicate<T>(marks: seq<Mark<T>>) {
    forall i :: 0 <= i < |marks| && IsCommit(marks[i].event) ==> marks[i].event.outcome.value.status == StatusCommitted
  }

  /** The targets after a commit, undone, are the targets before it. */
  lemma CommitUndone<T(!new)>(env: Env<T>, source: Doc, step: Step, pre: Mark<T>, post: Mark<T>, calls: nat)
    requires Lawful(env) && StepOk(env, source, step, pre, post) && IsCommit(post.event)
    requires post.event.outcome.value.status == StatusCommitted
    ensures var (error, undone) := env.compensate(calls, WriteOf(step, post.event), post.targets);
      error.None? ==> undone == pre.targets
  {
    assert LawfulUndo(env, pre.calls + 1, post.event.request, post.event.approval, pre.targets, calls, step.name);
  }

  lemma UnwindLast<T>(env: Env<T>, calls: nat, writes: seq<Write>, w: Write, targets: T)
    ensures var (error, after) := env.compensate(calls, w, targets);
      && Unwound(env, calls, writes + [w], targets) == Unwound(env, calls + 1, writes, after)
      && Failures(env, calls, writes + [w], targets) == (if error.Some? then 1 else 0) + Failures(env, calls + 1, writes, after)
  {
    assert (writes + [w])[..|writes|] == writes;
  }

  lemma UnwindNone<T>(env: Env<T>, calls: nat, targets: T)
    ensures Unwound(env, calls, [], targets) == targets
  {
  }

  /** Undoing the writes of a prefix of the run, from the targets that prefix left, gives the first targets back. */
  lemma {:induction false} UnwindRestores<T(!new)>(
    env: Env<T>, steps: seq<Step>, source: Doc, first: Mark<T>, marks: seq<Mark<T>>, k: nat, calls: nat)
    requires Lawful(env) && Forward(env, source, steps, first, marks) && k <= |marks| && NoLateDuplicate(marks)
    requires Failures(env, calls, Commits(steps, marks[..k]), At(first, marks, k).targets) == 0
    ensures Unwound(env, calls, Commits(steps, marks[..k]), At(first, marks, k).targets) == first.targets
    decreases k
  {
    hide StepOk, Lawful, Unwound, Failures, Commits;
    NextCommits(steps, marks, k);
    if k == 0 {
      UnwindNone(env, calls, first.targets);
    } else {
      var pre, post := At(first, marks, k - 1), marks[k - 1];
      var before := Commits(steps, marks[..k - 1]);
      assert StepOk(env, source, steps[k - 1], pre, post);
      if IsCommit(post.event) {
        var w := WriteOf(steps[k - 1], post.event);
        UnwindLast(env, calls, before, w, post.targets);
        CommitUndone(env, source, steps[k - 1], pre, post, calls);
        assert env.compensate(calls, w, post.targets) == (None, pre.targets);
        UnwindRestores(env, steps, source, first, marks, k - 1, calls + 1);
      } else {
        KeepsTargets(env, source, steps[k - 1], pre, post);
        UnwindRestores(env, steps, source, first, marks, k - 1, calls);
      }
    }
  }

  lemma NextCommits<T>(steps: seq<Step>, marks: seq<Mark<T>>, k: nat)
    requires k <= |marks| <= |steps|
    ensures k == 0 ==> Commits(steps, marks[..k]) == []
    ensures k > 0 ==>
      var before := Commits(steps, marks[..k - 1]);
      Commits(steps, marks[..k]) == if IsCommit(marks[k - 1].event) then before + [WriteOf(steps[k - 1], marks[k - 1].event)] else before
  {
    if k > 0 { assert marks[..k][..k - 1] == marks[..k - 1]; }
  }

  lemma KeepsTargets<T(!new)>(env: Env<T>, source: Doc, step: Step, pre: Mark<T>, post: Mark<T>)
    requires Lawful(env) && StepOk(env, source, step, pre, post) && !IsCommit(post.event)
    ensures post.targets == pre.targets
  {
    if post.event.Attempted? {
      assert LawfulCommit(env, pre.calls + 1, post.event.request, post.event.approval, pre.targets);
    }
  }

  /** If every compensation succeeds, a failing run leaves the targets as it found them. */
  lemma FailedRunRestores<T(!new)>(
    env: Env<T>, steps: seq<Step>, source: Doc, targets: T,
    records: seq<WriteRecord>, error: Option<RunError>, marks: seq<Mark<T>>, undone: seq<Write>, after: T)
    requires Finished(env, steps, source, targets, records, error, marks, undone, after)
    requires Lawful(env) && NoLateDuplicate(marks) && error.Some? && error.value.StepFailed?
    ensures after == targets
  {
    assert marks[..|marks|] == marks;
    UnwindRestores(env, steps, source, First(source, targets), marks, |marks|, marks[|marks| - 1].calls);
  }

  /** A target system that counts its records: a commit adds one, a compensation takes one away. */
  ghost predicate Counts<T(!new)>(env: Env<T>, size: T -> nat) {
    && (forall n, r, a, t :: CountsCommit(env, size, n, r, a, t))
    && (forall n, w, t :: CountsUndo(env, size, n, w, t))
  }

  ghost predicate CountsCommit<T>(env: Env<T>, size: T -> nat, n: nat, r: Request, a: Option<Approval>, t: T) {
    var (outcome, after) := env.commit(n, r, a, t);
    outcome.Ok? && outcome.value.status == StatusCommitted ==> size(after) == size(t) + 1
  }

  ghost predicate CountsUndo<T>(env: Env<T>, size: T -> nat, n: nat, w: Write, t: T) {
    var (error, after) := env.compensate(n, w, t);
    error.None? ==> size(t) == size(after) + 1
  }

  predicate LateDuplicate(ev: Event) { IsCommit(ev) && ev.outcome.value.status == StatusDuplicate }

  /** How many commits of the run found their write already there. */
  function LateDuplicates<T>(marks: seq<Mark<T>>): nat {
    if marks == [] then 0
    else var n := |marks| - 1; LateDuplicates(marks[..n]) + if LateDuplicate(marks[n].event) then 1 else 0
  }

  lemma {:induction false} NoLateDuplicates<T>(marks: seq<Mark<T>>)
    ensures LateDuplicates(marks) == 0 <==> NoLateDuplicate(marks)
  {
    if marks != [] {
      var n := |marks| - 1;
      NoLateDuplicates(marks[..n]);
      assert forall i :: 0 <= i < n ==> marks[..n][i] == marks[i];
      assert NoLateDuplicate(marks) <==> NoLateDuplicate(marks[..n]) && !LateDuplicate(marks[n].event);
    }
  }

  lemma {:induction false} UnwoundSize<T(!new)>(env: Env<T>, size: T -> nat, calls: nat, writes: seq<Write>, targets: T)
    requires Counts(env, size) && Failures(env, calls, writes, targets) == 0
    ensures size(targets) == size(Unwound(env, calls, writes, targets)) + |writes|
    decreases |writes|
  {
    if writes != [] {
      var n := |writes| - 1;
      assert CountsUndo(env, size, calls, writes[n], targets);
      hide Counts;
      UnwoundSize(env, size, calls + 1, writes[..n], env.compensate(calls, writes[n], targets).1);
    }
  }

  lemma StepSize<T(!new)>(env: Env<T>, size: T -> nat, source: Doc, step: Step, pre: Mark<T>, post: Mark<T>)
    requires Lawful(env) && Counts(env, size) && StepOk(env, source, step, pre, post)
    ensures size(post.targets) + (if LateDuplicate(post.event) then 1 else 0) == size(pre.targets) + |NewCommits(step, post.event)|
  {
    if post.event.Attempted? {
      assert LawfulCommit(env, pre.calls + 1, post.event.request, post.event.approval, pre.targets);
      assert CountsCommit(env, size, pre.calls + 1, post.event.request, post.event.approval, pre.targets);
    }
    hide Lawful, Counts;
  }

  lemma {:induction false} RunSize<T(!new)>(env: Env<T>, size: T -> nat, steps: seq<Step>, source: Doc, first: Mark<T>, marks: seq<Mark<T>>, k: nat)
    requires Lawful(env) && Counts(env, size) && Forward(env, source, steps, first, marks) && k <= |marks|
    ensures size(At(first, marks, k).targets) + LateDuplicates(marks[..k]) == size(first.targets) + |Commits(steps, marks[..k])|
  {
    hide StepOk, Lawful, Counts;
    if k > 0 {
      RunSize(env, size, steps, source, first, marks, k - 1);
      assert marks[..k][..k - 1] == marks[..k - 1];
      assert StepOk(env, source, steps[k - 1], At(first, marks, k - 1), marks[k - 1]);
      StepSize(env, size, source, steps[k - 1], At(first, marks, k - 1), marks[k - 1]);
    }
  }

  /**
   * On targets that count their records the condition is exact: a failing run
   * whose compensations succeed ends one record short for every commit that
   * found its write already there, so it restores the targets exactly when
   * none did.
   */
  lemma RestoresExactly<T(!new)>(
    env: Env<T>, size: T -> nat, steps: seq<Step>, source: Doc, targets: T,
    records: seq<WriteRecord>, error: Option<RunError>, marks: seq<Mark<T>>, undone: seq<Write>, after: T)
    requires Finished(env, steps, source, targets, records, error, marks, undone, after)
    requires Lawful(env) && Counts(env, size) && error.Some? && error.value.StepFailed?
    ensures size(after) + LateDuplicates(marks) == size(targets)
    ensures after == targets <==> NoLateDuplicate(marks)
  {
    var last := marks[|marks| - 1];
    assert marks[..|marks|] == marks;
    NoLateDuplicates(marks);
    RunSize(env, size, steps, source, First(source, targets), marks, |marks|);
    UnwoundSize(env, size, last.calls, Commits(steps, marks), last.targets);
    if NoLateDuplicate(marks) { FailedRunRestores(env, steps, source, targets, records, error, marks, undone, after); }
  }

  // ----- A write another run made meanwhile ----------------------------------

  /** A target that holds keys: a commit adds its key unless it is there, a compensation removes it if it is. */
  function KeyedCommit(n: nat, r: Request, a: Option<Approval>, keys: set<string>): (Result<Outcome, Error>, set<string>) {
    if r.operation == "refused" then (Err("refused"), keys)
    else if r.key in keys then (Ok(Outcome(StatusDuplicate, r.key)), keys)
    else (Ok(Outcome(StatusCommitted, r.key)), keys + {r.key})
  }

  function KeyedCompensate(n: nat, w: Write, keys: set<string>): (Option<Error>, set<string>) {
    if w.request.key in keys then (None, keys - {w.request.key}) else (Some("absent"), keys)
  }

  function Size(keys: set<string>): nat { |keys| }

  function KeyedEnv(): Env<set<string>> {
    Env((n, config, doc) => Ok(doc), (n, config, doc) => Ok(doc),
        (n, step: Step, source, doc) => Ok(PrepareOutput(Request("t", step.name, "k", ""), Ready(false))),
        KeyedCommit,
        KeyedCompensate,
        (r: Request) => r.key, (raw: Raw) => None, [])
  }

  /**
   * NoLateDuplicate is needed.  The environment is lawful, but the first
   * commit finds the write made after its prepare; the interpreter keeps it
   * for compensation all the same and, when the second step is refused,
   * undoes a write this run did not make.
   */
  lemma LateDuplicateIsUndone()
    returns (steps: seq<Step>, records: seq<WriteRecord>, marks: seq<Mark<set<string>>>, undone: seq<Write>)
    ensures Lawful(KeyedEnv()) && Counts(KeyedEnv(), Size) && !NoLateDuplicate(marks)
    ensures Finished(KeyedEnv(), steps, map[], {"k"}, records, Some(StepFailed("refused")), marks, undone, {})
  {
    hide Lawful, Counts, StepOk, Unwound, Failures, Finished;
    KeyedLawful();
    var write := WriteConfig("t", "create", "");
    steps := [WriteStep("create", write), WriteStep("refused", write)];
    var first := First(map[], {"k"});
    var m0, m1 := KeyedMark("create", 2), KeyedMark("refused", 4);
    KeyedStep("create", first);
    KeyedStep("refused", m0);
    NothingYet(KeyedEnv(), map[], steps, first);
    CleanAppend(KeyedEnv(), map[], steps, first, [], m0);
    CleanAppend(KeyedEnv(), map[], steps, first, [m0], m1);
    CommitsAppend(steps, [], m0);
    CommitsAppend(steps, [m0], m1);
    marks := [m0, m1];
    assert [] + [m0] == [m0] && [m0] + [m1] == marks;
    var w := Write("create", Request("t", "create", "k", ""), "k");
    assert Commits(steps, marks) == [w];
    KeyedUndo(w);
    undone, records := [w], Records(steps, marks);
    assert marks[0].event.outcome.value.status == StatusDuplicate;
    FailedRun(KeyedEnv(), steps, map[], {"k"}, records, Some(StepFailed("refused")), marks, undone, {});
  }

  lemma KeyedCommits(n: nat, r: Request, a: Option<Approval>, t: set<string>)
    ensures LawfulCommit(KeyedEnv(), n, r, a, t) && CountsCommit(KeyedEnv(), Size, n, r, a, t)
  {
  }

  lemma KeyedUndoes(n: nat, r: Request, a: Option<Approval>, t: set<string>, m: nat, step: string)
    ensures LawfulUndo(KeyedEnv(), n, r, a, t, m, step)
  {
    assert r.key !in t ==> t + {r.key} - {r.key} == t;
  }

  lemma KeyedTakes(n: nat, w: Write, t: set<string>)
    ensures CountsUndo(KeyedEnv(), Size, n, w, t)
  {
  }

  lemma KeyedLawful()
    ensures Lawful(KeyedEnv()) && Counts(KeyedEnv(), Size)
  {
    forall n, r, a, t ensures LawfulCommit(KeyedEnv(), n, r, a, t) && CountsCommit(KeyedEnv(), Size, n, r, a, t) { KeyedCommits(n, r, a, t); }
    forall n, r, a, t, m, step ensures LawfulUndo(KeyedEnv(), n, r, a, t, m, step) { KeyedUndoes(n, r, a, t, m, step); }
    forall n, w, t ensures CountsUndo(KeyedEnv(), Size, n, w, t) { KeyedTakes(n, w, t); }
    hide LawfulCommit, LawfulUndo, CountsCommit, CountsUndo, KeyedEnv;
  }

  function KeyedMark(step: string, calls: nat): Mark<set<string>> {
    var r := Request("t", step, "k", "");
    Mark(Attempted(r, None, KeyedCommit(0, r, None, {"k"}).0), map[], calls, 0, {"k"})
  }

  lemma KeyedStep(step: string, pre: Mark<set<string>>)
    requires pre.targets == {"k"} && pre.doc == map[] && pre.woke == 0
    ensures StepOk(KeyedEnv(), map[], WriteStep(step, WriteConfig("t", "create", "")), pre, KeyedMark(step, pre.calls + 2))
  {
  }

  lemma KeyedUndo(w: Write)
    requires w.request.key == "k"
    ensures Unwound(KeyedEnv(), 4, [w], {"k"}) == {} && Failures(KeyedEnv(), 4, [w], {"k"}) == 0
  {
    assert [w][..0] == [] && {"k"} - {"k"} == {};
  }

  // ----- What approvals promise ----------------------------------------------

  /** A step never gives a wake back, and a decision uses at least one. */
  lemma StepWoke<T>(env: Env<T>, source: Doc, step: Step, pre: Mark<T>, post: Mark<T>)
    requires StepOk(env, source, step, pre, post)
    ensures pre.woke <= post.woke
    ensures post.event.Attempted? && post.event.approval.Some? ==> pre.woke < post.woke
  {
  }

  lemma {:induction false} WokeGrows<T>(env: Env<T>, source: Doc, steps: seq<Step>, first: Mark<T>, marks: seq<Mark<T>>, i: nat, j: nat)
    requires Forward(env, source, steps, first, marks) && i <= j <= |marks|
    ensures At(first, marks, i).woke <= At(first, marks, j).woke
    decreases j - i
  {
    hide StepOk;
    if i < j {
      StepWoke(env, source, steps[j - 1], At(first, marks, j - 1), marks[j - 1]);
      WokeGrows(env, source, steps, first, marks, i, j - 1);
    }
  }

  /** The index of the wake that decided a step's write. */
  function Decider<T>(marks: seq<Mark<T>>, i: nat): int
    requires i < |marks|
  {
    marks[i].woke - 1
  }

  ghost predicate WasDecided<T>(marks: seq<Mark<T>>, i: nat) {
    i < |marks| && marks[i].event.Attempted? && marks[i].event.approval.Some?
  }

  /**
   * A commit carries an approved decision only if a signal the run consumed
   * while this step waited said approved and named this step and the digest
   * of this request; with a collision-free digest, of no other request.
   */
  lemma ApprovedOnlyBySignal<T>(env: Env<T>, source: Doc, steps: seq<Step>, first: Mark<T>, marks: seq<Mark<T>>, i: nat)
    requires Forward(env, source, steps, first, marks) && WasDecided(marks, i) && marks[i].event.approval.value.approved
    ensures At(first, marks, i).woke <= Decider(marks, i) < |env.wakes| && env.wakes[Decider(marks, i)].Arrived?
    ensures var signal := env.wakes[Decider(marks, i)].signal;
      && signal.status == "approved" && signal.step == steps[i].name && signal.digest == env.digest(marks[i].event.request)
      && signal.actor == marks[i].event.approval.value.actor
      && ((forall r, r' :: env.digest(r) == env.digest(r') ==> r == r') ==>
          forall shown :: env.digest(shown) == signal.digest ==> shown == marks[i].event.request)
  {
    assert StepOk(env, source, steps[i], At(first, marks, i), marks[i]);
  }

  /** Each signal decides at most one write, and later writes are decided by later wakes. */
  lemma SignalsDecideOnce<T>(env: Env<T>, source: Doc, steps: seq<Step>, first: Mark<T>, marks: seq<Mark<T>>, i: nat, j: nat)
    requires Forward(env, source, steps, first, marks) && i < j && WasDecided(marks, i) && WasDecided(marks, j)
    ensures Decider(marks, i) < Decider(marks, j)
  {
    hide StepOk;
    WokeGrows(env, source, steps, first, marks, i + 1, j);
    StepWoke(env, source, steps[j], At(first, marks, j), marks[j]);
  }

  /** A write that needs approval is never committed without a decision, and a timeout is a rejection. */
  lemma NeededApprovalsDecided<T>(env: Env<T>, source: Doc, step: Step, pre: Mark<T>, post: Mark<T>)
    requires StepOk(env, source, step, pre, post) && post.event.Attempted?
    ensures step.WriteStep? && env.prepare(pre.calls, step, source, pre.doc).Ok?
    ensures var prep := env.prepare(pre.calls, step, source, pre.doc).value;
      && prep.prepared.Ready? && prep.request == post.event.request
      && (post.event.approval.Some? <==> prep.prepared.needsApproval)
    ensures post.event.approval.Some? && WakeAt(env.wakes, post.woke - 1).TimerFired? ==>
              post.event.approval == Some(Approval(false, APPROVAL_TIMEOUT_ACTOR))
  {
  }

  /** Signals for another step or another request change nothing: with one more of them the decision is the same. */
  lemma OtherSignalsIgnored(p: Pending, wakes: seq<Wake>, from: nat, to: nat, a: Approval, at: nat, other: Signal)
    requires DecidedBy(p, wakes, from, to, a) && from <= at < to && at <= |wakes| && !Matches(p, Arrived(other))
    ensures DecidedBy(p, wakes[..at] + [Arrived(other)] + wakes[at..], from, to + 1, a)
  {
    var more := wakes[..at] + [Arrived(other)] + wakes[at..];
    forall i | from <= i < to ensures i < |more| && more[i].Arrived? && !Matches(p, more[i]) {
      if i < at {
        assert more[i] == wakes[i];
      } else if i > at {
        assert more[i] == wakes[i - 1];
      }
    }
    if to - 1 < |wakes| { assert more[to] == wakes[to - 1]; }
  }

  /** The first deciding wake is the only one: a wait has one outcome. */
  lemma DecisionUnique(p: Pending, wakes: seq<Wake>, from: nat, to: nat, a: Approval, to': nat, a': Approval)
    requires DecidedBy(p, wakes, from, to, a) && DecidedBy(p, wakes, from, to', a')
    ensures to == to' && a == a'
  {
    if to < to' {
      NotBefore(p, wakes, from, to', a', to);
    } else if to' < to {
      NotBefore(p, wakes, from, to, a, to');
    }
  }

  lemma NotBefore(p: Pending, wakes: seq<Wake>, from: nat, to: nat, a: Approval, k: nat)
    requires DecidedBy(p, wakes, from, to, a) && from < k < to
    ensures !WakeAt(wakes, k - 1).TimerFired? && !Matches(p, WakeAt(wakes, k - 1))
  {
    assert wakes[k - 1].Arrived?;
  }
}

/**
 * The dispatcher's loops, the webhook handler and the subscription loop, as
 * code over the shared stores.  Every store call is one step of the delivery
 * protocol, and other workers may take any steps between two calls, so each
 * execution of this code is a run of the protocol and keeps its promises.
 */
module Dispatching {
  import opened Prelude
  import opened Delivery
  import opened DeliveryProof

  ghost predicate Mine(a: Action, w: nat) {
    match a
    case SourceEmits => false
    case StreamEmits => false
    case EndRun(_, _) => false
    case RetryRun(_) => false
    case _ => a.w == w
  }

  /** What other workers, the source and the runs did between two calls of worker w. */
  ghost predicate Interleaved(c: Config, w: nat, s: State, t: State) {
    exists acts :: Exec(c, s, acts) == Some(t) && forall i :: 0 <= i < |acts| ==> !Mine(acts[i], w)
  }

  /** What later states keep of an earlier one. */
  ghost predicate Extends(c: Config, s: State, t: State) {
    && s.emitted <= t.emitted
    && s.inbox <= t.inbox
    && s.resumes <= t.resumes && s.streamed <= t.streamed
    && RunsGrow(s.runs, t.runs)
  }

  lemma InsertGrows(inbox: seq<Event>, ids: seq<string>, gaps: seq<nat>)
    ensures inbox <= Insert(inbox, ids, gaps)
    decreases |ids|
  {
  }

  lemma StepExtends(c: Config, s: State, a: Action)
    requires Apply(c, s, a).Some?
    ensures Extends(c, s, Apply(c, s, a).value)
  {
    if a.DeliverPolled? || a.ReceiveHook? || a.DeliverStream? {
      InboxStep(c, s, a);
      hide Apply;
    } else if a.StartRun? || a.EndRun? || a.RetryRun? {
      RunStep(c, s, a);
      hide Apply, RunsGrow;
    } else {
      QuietStep(c, s, a);
      hide Apply;
    }
  }

  lemma InboxStep(c: Config, s: State, a: Action)
    requires Apply(c, s, a).Some? && (a.DeliverPolled? || a.ReceiveHook? || a.DeliverStream?)
    ensures var t := Apply(c, s, a).value; t.runs == s.runs && s.inbox <= t.inbox && s.emitted <= t.emitted && s.resumes <= t.resumes && s.streamed <= t.streamed
  {
    hide Insert, Ids;
    match a
    case DeliverPolled(w, gaps) => InsertGrows(s.inbox, Ids(PcOf(s, w).events), gaps);
    case ReceiveHook(w, ids, gaps) => InsertGrows(s.inbox, ids, gaps);
    case DeliverStream(w, n, gaps) => InsertGrows(s.inbox, c.stream[PcOf(s, w).at..PcOf(s, w).at + n], gaps);
  }

  lemma RunStep(c: Config, s: State, a: Action)
    requires Apply(c, s, a).Some? && (a.StartRun? || a.EndRun? || a.RetryRun?)
    ensures var t := Apply(c, s, a).value; RunsGrow(s.runs, t.runs) && t.inbox == s.inbox && t.emitted == s.emitted && t.resumes == s.resumes && t.streamed == s.streamed
  {
    match a
    case StartRun(w) =>
      StartGrows(s.runs, PcOf(s, w).workflow, PcOf(s, w).pending[0].id);
      hide Start, RunsGrow, RunId;
    case EndRun(_, _) =>
    case RetryRun(_) =>
  }

  /** The other steps leave the inbox and the runs alone. */
  lemma QuietStep(c: Config, s: State, a: Action)
    requires Apply(c, s, a).Some?
    requires !a.DeliverPolled? && !a.ReceiveHook? && !a.DeliverStream? && !a.StartRun? && !a.EndRun? && !a.RetryRun?
    ensures var t := Apply(c, s, a).value; t.runs == s.runs && t.inbox == s.inbox && s.emitted <= t.emitted && t.resumes == s.resumes && s.streamed <= t.streamed
  {
    hide Insert, RunId, Batch, Ids, Start;
  }

  lemma StartGrows(runs: map<string, seq<Run>>, workflow: string, event: string)
    ensures RunsGrow(runs, Start(runs, workflow, event))
  {
  }

  lemma OtherStep(c: Config, w: nat, s: State, a: Action)
    requires Apply(c, s, a).Some? && !Mine(a, w)
    ensures PcOf(Apply(c, s, a).value, w) == PcOf(s, w)
  {
    hide Insert, RunId, Batch, Start;
  }

  lemma ExtendsReflexive(c: Config, s: State)
    ensures Extends(c, s, s)
  {
  }

  lemma ExtendsTransitive(c: Config, s: State, t: State, u: State)
    requires Extends(c, s, t) && Extends(c, t, u)
    ensures Extends(c, s, u)
  {
  }

  lemma {:induction false} ExecExtends(c: Config, w: nat, s: State, acts: seq<Action>)
    requires Exec(c, s, acts).Some? && forall i :: 0 <= i < |acts| ==> !Mine(acts[i], w)
    ensures Extends(c, s, Exec(c, s, acts).value) && PcOf(Exec(c, s, acts).value, w) == PcOf(s, w)
    ensures Reachable(c, s) ==> Reachable(c, Exec(c, s, acts).value)
  {
    hide Apply, Mine, PcOf, Reachable;
    if acts != [] {
      var n := |acts| - 1;
      var mid := Exec(c, s, acts[..n]).value;
      ExecExtends(c, w, s, acts[..n]);
      StepExtends(c, mid, acts[n]);
      OtherStep(c, w, mid, acts[n]);
      ExtendsTransitive(c, s, mid, Apply(c, mid, acts[n]).value);
      if Reachable(c, s) { var t := Reach(c, mid, acts[n]); }
    }
  }

  lemma InterleavedKeeps(c: Config, w: nat, s: State, t: State)
    requires Interleaved(c, w, s, t)
    ensures Extends(c, s, t) && PcOf(t, w) == PcOf(s, w)
    ensures Reachable(c, s) ==> Reachable(c, t)
  {
    var acts :| Exec(c, s, acts) == Some(t) && forall i :: 0 <= i < |acts| ==> !Mine(acts[i], w);
    ExecExtends(c, w, s, acts);
  }

  lemma ExtendsGrows(c: Config, s: State, t: State)
    requires Extends(c, s, t)
    ensures forall wf, e :: Started(s, wf, e) ==> Started(t, wf, e)
    ensures forall id :: Holds(s.inbox, id) ==> Holds(t.inbox, id)
    ensures Emitted(c, s) <= Emitted(c, t) && Feed(c, s) <= Feed(c, t)
  {
    RanGrows(s.runs, t.runs);
    HoldsMore(s.inbox, t.inbox);
  }

  /** A batch that is not full reaches the end of the feed. */
  lemma ShortBatchCovers(c: Config, s: State, name: Cursor, pos: int)
    requires Inv(c, s) && CursorOk(c, s, name, pos)
    ensures var feed := FeedOf(c, s, name); var b := Batch(feed, pos, c.batch);
      && |b| <= c.batch
      && (Trusted(c, name) && |b| < c.batch ==> forall i :: 0 <= i < |feed| ==> Done(c, s, name, feed[i]) || feed[i] in b)
  {
    var feed := FeedOf(c, s, name);
    var b := Batch(feed, pos, c.batch);
    if !Trusted(c, name) { return; }
    var at := BatchIsNext(feed, pos, c.batch);
    if |b| < c.batch {
      forall i | 0 <= i < |feed| ensures Done(c, s, name, feed[i]) || feed[i] in b {
        if i >= at { assert feed[i] == b[i - at]; }
      }
    }
  }

  /** Of the events there were at first, each has its run started or was just read; in the inbox always, of a source when its positions do not tie. */
  ghost predicate Covers(c: Config, first: State, s: State, wf: string, read: seq<Event>) {
    Trusted(c, DrainCursor(c, wf)) ==> forall i :: 0 <= i < |Feed(c, first)| ==> Started(s, wf, Feed(c, first)[i].id) || Feed(c, first)[i] in read
  }

  lemma FeedCovered(c: Config, first: State, s: State, w: nat)
    requires WellFormed(c) && Reachable(c, s) && Extends(c, first, s) && PcOf(s, w).DrainAt?
    ensures var t := Apply(c, s, ReadFeed(w)).value; var pc := PcOf(t, w);
      && pc.Draining? && |pc.pending| <= c.batch
      && (|pc.pending| < c.batch ==> Covers(c, first, t, pc.workflow, pc.pending))
  {
    ReachableInv(c, s);
    PcHolds(c, s, w);
    var pc := PcOf(s, w);
    ShortBatchCovers(c, s, DrainCursor(c, pc.workflow), pc.pos);
    ExtendsGrows(c, first, s);
    var f, g := Feed(c, first), Feed(c, s);
    assert forall i :: 0 <= i < |f| ==> f[i] == g[i];
  }

  lemma CoveredMore(c: Config, first: State, s: State, t: State, wf: string, read: seq<Event>)
    requires Extends(c, first, s) && Covers(c, s, t, wf, read)
    ensures Covers(c, first, t, wf, read)
  {
    ExtendsGrows(c, first, s);
    assert forall i :: 0 <= i < |Feed(c, first)| ==> Feed(c, first)[i] == Feed(c, s)[i];
  }

  /** When everything read is started too, so is everything there was at first. */
  lemma CoveredStarted(c: Config, first: State, s: State, t: State, wf: string, read: seq<Event>)
    requires Covers(c, first, s, wf, read) && Extends(c, s, t)
    requires forall i :: 0 <= i < |read| ==> Started(t, wf, read[i].id)
    ensures AllStarted(c, first, t, wf)
  {
    ExtendsGrows(c, s, t);
  }

  /** Every event there was at first has its run started. */
  ghost predicate AllStarted(c: Config, first: State, s: State, wf: string) {
    Trusted(c, DrainCursor(c, wf)) ==> forall i :: 0 <= i < |Feed(c, first)| ==> Started(s, wf, Feed(c, first)[i].id)
  }

  lemma AllStartedMore(c: Config, before: State, first: State, s: State, t: State, wf: string)
    requires Extends(c, before, first) && AllStarted(c, first, s, wf) && Extends(c, s, t)
    ensures AllStarted(c, before, t, wf)
  {
    ExtendsGrows(c, before, first);
    ExtendsGrows(c, s, t);
    assert forall i :: 0 <= i < |Feed(c, before)| ==> Feed(c, before)[i] == Feed(c, first)[i];
  }

  /** Every event the source had at first has its run started. */
  ghost predicate LogStarted(c: Config, first: State, s: State, wf: string) {
    Increasing(c.log) ==> forall i :: 0 <= i < |Emitted(c, first)| ==> Started(s, wf, Emitted(c, first)[i].id)
  }

  lemma LogStartedMore(c: Config, first: State, s: State, t: State, wf: string)
    requires LogStarted(c, first, s, wf) && Extends(c, s, t)
    ensures LogStarted(c, first, t, wf)
  {
    ExtendsGrows(c, s, t);
  }

  /** What a reconciliation put in the inbox, a drain of the whole inbox starts. */
  lemma ReconciledStarted(c: Config, first: State, s: State, t: State, wf: string)
    requires c.mode == Hooked && HoldsLog(c, first, s) && AllStarted(c, s, t, wf)
    ensures LogStarted(c, first, t, wf)
  {
    if Increasing(c.log) {
      forall i | 0 <= i < |Emitted(c, first)| ensures Started(t, wf, Emitted(c, first)[i].id) {
        var id := Emitted(c, first)[i].id;
        assert Holds(s.inbox, id);
        var k :| 0 <= k < |s.inbox| && s.inbox[k].id == id;
        assert Feed(c, s)[k].id == id;
      }
    }
  }

  /** The inbox of a state holds every event the source had in an earlier one, unless positions tie. */
  ghost predicate HoldsLog(c: Config, first: State, s: State) {
    Increasing(c.log) ==> forall i :: 0 <= i < |Emitted(c, first)| ==> Holds(s.inbox, Emitted(c, first)[i].id)
  }

  lemma HeldFromFirst(c: Config, first: State, s: State, t: State)
    requires Extends(c, first, s) && HoldsLog(c, s, t)
    ensures HoldsLog(c, first, t)
  {
    ExtendsGrows(c, first, s);
    assert forall i :: 0 <= i < |Emitted(c, first)| ==> Emitted(c, first)[i] == Emitted(c, s)[i];
  }

  ghost predicate PollCovers(c: Config, first: State, s: State, events: seq<Event>) {
    Increasing(c.log) ==> forall i :: 0 <= i < |Emitted(c, first)| ==> Holds(s.inbox, Emitted(c, first)[i].id) || Emitted(c, first)[i] in events
  }

  lemma PollCovered(c: Config, first: State, s: State, w: nat)
    requires WellFormed(c) && Reachable(c, s) && Extends(c, first, s) && PcOf(s, w).ReconcileAt?
    ensures var t := Apply(c, s, PollSource(w)).value; var pc := PcOf(t, w);
      && pc.Fetched? && |pc.events| <= c.batch
      && (|pc.events| < c.batch ==> PollCovers(c, first, t, pc.events))
  {
    ReachableInv(c, s);
    PcHolds(c, s, w);
    var pc := PcOf(s, w);
    ShortBatchCovers(c, s, PollCursor(pc.workflow), pc.pos);
    ExtendsGrows(c, first, s);
    var f, g := Emitted(c, first), Emitted(c, s);
    assert forall i :: 0 <= i < |f| ==> f[i] == g[i];
  }

  lemma PollCoversMore(c: Config, first: State, s: State, t: State, events: seq<Event>)
    requires Extends(c, first, s)
    ensures PollCovers(c, s, t, events) ==> PollCovers(c, first, t, events)
  {
    ExtendsGrows(c, first, s);
    assert forall i :: 0 <= i < |Emitted(c, first)| ==> Emitted(c, first)[i] == Emitted(c, s)[i];
  }

  lemma PolledHeld(c: Config, first: State, s: State, t: State, events: seq<Event>)
    requires PollCovers(c, first, s, events) && Extends(c, s, t)
    requires forall i :: 0 <= i < |events| ==> Holds(t.inbox, events[i].id)
    ensures HoldsLog(c, first, t)
  {
    ExtendsGrows(c, s, t);
  }

  lemma DeliveredHeld(c: Config, s: State, w: nat)
    requires WellFormed(c) && Reachable(c, s) && PcOf(s, w).Delivered?
    ensures forall i :: 0 <= i < |PcOf(s, w).events| ==> Holds(s.inbox, PcOf(s, w).events[i].id)
  {
    ReachableInv(c, s);
    PcHolds(c, s, w);
  }

  lemma ReceivedHeld(c: Config, s: State, w: nat)
    requires WellFormed(c) && Reachable(c, s) && PcOf(s, w).Received?
    ensures forall id :: id in PcOf(s, w).ids ==> Holds(s.inbox, id)
  {
    ReachableInv(c, s);
    PcHolds(c, s, w);
  }

  /** The starter has a run of the event once Start succeeded. */
  lemma StartedAfter(c: Config, s: State, t: State, w: nat, wf: string, pending: seq<Event>)
    requires WellFormed(c) && Reachable(c, s) && Some(t) == Apply(c, s, StartRun(w))
    requires PcOf(s, w) == Draining(wf, pending, false) && pending != []
    ensures Started(t, wf, pending[0].id)
  {
    ReachableInv(c, s);
    PcHolds(c, s, w);
    StartOk(c, s.runs, wf, pending[0].id);
  }

  /** What a store or source call, or a pass of them, reports. */
  datatype Outcome = Fine | Failure

  /** A call, or a pass that ends with the first failed call, tells its failure and no other. */
  ghost predicate Told(ok: bool, failures: nat, before: nat) { failures == before + if ok then 0 else 1 }

  /** How often a poll cursor was moved. */
  ghost function Moves(calls: seq<Action>): nat {
    if calls == [] then 0 else Moves(calls[..|calls| - 1]) + if calls[|calls| - 1].AdvancePollCursor? then 1 else 0
  }

  /** So many batches, all full. */
  ghost predicate AllFull(batches: seq<seq<Event>>, n: nat, batch: nat) {
    |batches| == n && forall i :: 0 <= i < n ==> |batches[i]| == batch
  }

  /** Full batches and then one that is not. */
  ghost predicate EndsShort(batches: seq<seq<Event>>, batch: nat) {
    batches != [] && AllFull(batches[..|batches| - 1], |batches| - 1, batch) && |batches[|batches| - 1]| < batch
  }

  /** How a webhook delivery verifies. */
  datatype Hook = Events(ids: seq<string>) | Unauthenticated | Malformed | Unknown | TooLarge

  lemma OpeningSteps(c: Config, s: State, w: nat)
    requires WellFormed(c) && c.mode == Streamed && Reachable(c, s)
    ensures PcOf(s, w).Idle? && (c.exclusive ==> s.holder == None) ==>
      Apply(c, s, TakeLock(w)).Some? && PcOf(Apply(c, s, TakeLock(w)).value, w) == Standing
    ensures PcOf(s, w).Standing? ==> Apply(c, s, ReadResume(w)).Some? && PcOf(Apply(c, s, ReadResume(w)).value, w) == Resuming(s.resume)
    ensures s.resume.Some? ==> s.resume.value in s.resumes
    ensures PcOf(s, w).Resuming? ==>
      var from := PcOf(s, w).from;
      var t := Apply(c, s, Subscribe(w));
      t.Some? && PcOf(t.value, w).Subscribed? && PcOf(t.value, w).at == if from.Some? then from.value else s.streamed
  {
    ReachableInv(c, s);
    hide Inv;
  }

  lemma PollAdvances(c: Config, s: State, w: nat, forwardOnly: bool)
    requires PcOf(s, w).Delivered? && PcOf(s, w).events != []
    ensures var t := Apply(c, s, AdvancePollCursor(w, forwardOnly));
      t.Some? && PcOf(t.value, w) == Idle && CursorValue(t.value, PollCursor(PcOf(s, w).workflow)) >= PcOf(s, w).events[|PcOf(s, w).events| - 1].pos
  {
  }

  /** One delivery stores its events and the position after them. */
  lemma StreamSteps(c: Config, s: State, w: nat, n: nat, gaps: seq<nat>)
    requires WellFormed(c) && Reachable(c, s) && PcOf(s, w).Subscribed? && PcOf(s, w).at + n <= s.streamed
    ensures s.streamed <= |c.stream| && Apply(c, s, DeliverStream(w, n, gaps)).Some?
    ensures var at, t := PcOf(s, w).at, Apply(c, s, DeliverStream(w, n, gaps)).value;
      && PcOf(t, w) == Subscribed(at + n, None) && at + n in t.resumes
      && StreamHeld(c, t, at, at + n)
  {
    ReachableInv(c, s);
    var at := PcOf(s, w).at;
    InsertKeeps(s.inbox, c.stream[at..at + n], gaps);
    hide Insert, Inv, Holds;
    var t := Apply(c, s, DeliverStream(w, n, gaps)).value;
    forall k | at <= k < at + n ensures Holds(t.inbox, c.stream[k]) {
      assert c.stream[k] == c.stream[at..at + n][k - at];
    }
  }

  /** The inbox holds this part of the stream. */
  ghost predicate StreamHeld(c: Config, s: State, from: nat, to: nat) {
    from <= to <= |c.stream| && forall k :: from <= k < to ==> Holds(s.inbox, c.stream[k])
  }

  lemma StreamHeldMore(c: Config, s: State, t: State, from: nat, at: nat, to: nat)
    requires StreamHeld(c, s, from, at) && Extends(c, s, t) && StreamHeld(c, t, at, to)
    ensures StreamHeld(c, t, from, to)
  {
    HoldsMore(s.inbox, t.inbox);
  }

  lemma StreamStays(c: Config, s: State, w: nat)
    requires WellFormed(c) && Reachable(c, s) && PcOf(s, w).Subscribed?
    ensures StreamHeld(c, s, PcOf(s, w).at, PcOf(s, w).at)
  {
    ReachableInv(c, s);
    PcHolds(c, s, w);
    hide CursorOk, Next;
  }

  function Sum(sizes: seq<nat>): nat {
    if sizes == [] then 0 else Sum(sizes[..|sizes| - 1]) + sizes[|sizes| - 1]
  }

  /** The waits after subscriptions that ended: doubled up to a bound, from the start again once events arrived. */
  function Backoffs(arrived: seq<bool>, least: nat, most: nat): (waits: seq<nat>)
    ensures |waits| == |arrived|
  {
    if arrived == [] then []
    else
      var n := |arrived| - 1;
      var before := Backoffs(arrived[..n], least, most);
      before + [if n == 0 || arrived[n] then least else Min(2 * before[n - 1], most)]
  }

  lemma NextBackoff(arrived: seq<bool>, next: bool, least: nat, most: nat)
    ensures Backoffs([], least, most) == []
    ensures var before := Backoffs(arrived, least, most);
      Backoffs(arrived + [next], least, most) == before + [if before == [] || next then least else Min(2 * before[|before| - 1], most)]
  {
    assert (arrived + [next])[..|arrived|] == arrived;
  }

  function Doubled(least: nat, times: nat): nat { if times == 0 then least else 2 * Doubled(least, times - 1) }

  /** After so many subscriptions in a row that brought nothing, the wait is doubled as often, within the bound. */
  lemma {:induction false} BackoffDoubles(arrived: seq<bool>, least: nat, most: nat, i: nat, times: nat)
    requires i + times < |arrived| && least <= most && (i == 0 || arrived[i])
    requires forall k :: i < k <= i + times ==> !arrived[k]
    ensures Backoffs(arrived, least, most)[i + times] == Min(Doubled(least, times), most)
    decreases |arrived|
  {
    var n := |arrived| - 1;
    if i + times < n {
      BackoffDoubles(arrived[..n], least, most, i, times);
    } else if times > 0 {
      BackoffDoubles(arrived[..n], least, most, i, times - 1);
    }
  }

  /**
   * Where a subscription begins: at the position that was stored when it was
   * read, or, when none was, at what the stream had come to while it opened.
   */
  ghost predicate Begins(c: Config, first: State, read: State, t: State, resume: Option<nat>, from: nat) {
    && Extends(c, first, read) && Extends(c, read, t) && resume == read.resume
    && if resume.Some? then from == resume.value else first.streamed <= from <= t.streamed
  }

  lemma BeginsNow(c: Config, s: State, t: State)
    requires Extends(c, s, t)
    ensures s.streamed <= t.streamed
  {
  }

  lemma BeginsLater(c: Config, first: State, read: State, s: State, t: State, resume: Option<nat>, from: nat)
    requires Begins(c, first, read, s, resume, from) && Extends(c, s, t)
    ensures Begins(c, first, read, t, resume, from)
  {
    ExtendsTransitive(c, read, s, t);
  }

  /** One subscription: which try it was, whether it began and where, how many batches it stored, and how many of its calls failed. */
  datatype Span = Span(turn: nat, began: bool, resume: Option<nat>, read: State, from: nat, taken: nat, failed: nat)

  function FailedCalls(spans: seq<Span>): nat {
    if spans == [] then 0 else FailedCalls(spans[..|spans| - 1]) + spans[|spans| - 1].failed
  }

  /** A subscription that began stored, of what the source delivered in its try, the batches it took, and no less is held now. */
  ghost predicate SpanOk(c: Config, first: State, t: State, span: Span, sources: seq<seq<nat>>, arrived: bool) {
    && span.turn < |sources| && span.taken <= |sources[span.turn]| && (arrived <==> span.taken > 0)
    && (arrived ==> span.began)
    && (span.began ==>
          && Begins(c, first, span.read, t, span.resume, span.from)
          && StreamHeld(c, t, span.from, span.from + Sum(sources[span.turn][..span.taken])))
    && (arrived ==> span.from + Sum(sources[span.turn][..span.taken]) in t.resumes)
    && (span.failed == 0 ==> span.began && ReachesEnd(span, sources[span.turn], first.streamed))
  }

  /** All the batches were stored, up to what the stream had come to. */
  ghost predicate ReachesEnd(span: Span, batches: seq<nat>, streamed: nat) {
    span.taken < |batches| ==> span.from + Sum(batches[..span.taken + 1]) > streamed
  }

  lemma SpanLater(c: Config, first: State, s: State, t: State, span: Span, sources: seq<seq<nat>>, arrived: bool)
    requires SpanOk(c, first, s, span, sources, arrived) && Extends(c, s, t)
    ensures SpanOk(c, first, t, span, sources, arrived)
  {
    if span.began {
      var to := span.from + Sum(sources[span.turn][..span.taken]);
      ExtendsReflexive(c, s);
      StreamHeldLater(c, s, s, t, span.from, to, None);
      BeginsLater(c, first, span.read, s, t, span.resume, span.from);
    }
    hide Extends, StreamHeld, Begins;
  }

  lemma SpansLater(c: Config, first: State, s: State, t: State, spans: seq<Span>, sources: seq<seq<nat>>, arrived: seq<bool>)
    requires |spans| == |arrived| && Extends(c, s, t)
    requires forall i :: 0 <= i < |spans| ==> SpanOk(c, first, s, spans[i], sources, arrived[i])
    ensures forall i :: 0 <= i < |spans| ==> SpanOk(c, first, t, spans[i], sources, arrived[i])
  {
    hide SpanOk, Extends;
    forall i | 0 <= i < |spans| ensures SpanOk(c, first, t, spans[i], sources, arrived[i]) {
      SpanLater(c, first, s, t, spans[i], sources, arrived[i]);
    }
  }

  lemma SpanStored(span: Span, batches: seq<nat>, streamed: nat)
    requires span.taken < |batches| && span.failed == 0 ==> span.from + Sum(batches[..span.taken + 1]) > streamed
    ensures span.failed == 0 ==> ReachesEnd(span, batches, streamed)
  {
  }

  /** The tries of the subscriptions, in order. */
  ghost predicate InTurn(spans: seq<Span>, n: nat) {
    && (forall i :: 0 <= i < |spans| ==> spans[i].turn < n)
    && (forall i, j :: 0 <= i < j < |spans| ==> spans[i].turn < spans[j].turn)
  }

  /** States of the run in which a worker held the lock. */
  ghost predicate HeldBy(c: Config, first: State, held: seq<State>) {
    forall s :: s in held ==> c.exclusive && s.holder != None && Extends(c, first, s)
  }

  lemma HeldMore(c: Config, first: State, held: seq<State>, s: State)
    requires HeldBy(c, first, held) && c.exclusive && s.holder != None && Extends(c, first, s)
    ensures HeldBy(c, first, held + [s])
  {
    hide Extends;
  }

  lemma TurnMore(spans: seq<Span>, span: Span)
    requires InTurn(spans, span.turn)
    ensures InTurn(spans + [span], span.turn + 1)
  {
  }

  lemma TurnLater(spans: seq<Span>, k: nat)
    requires InTurn(spans, k)
    ensures InTurn(spans, k + 1)
  {
  }

  lemma NoneYet(c: Config, first: State)
    ensures FailedCalls([]) == 0 && InTurn([], 0) && HeldBy(c, first, [])
  {
  }

  lemma FailedMore(spans: seq<Span>, span: Span)
    ensures FailedCalls(spans + [span]) == FailedCalls(spans) + span.failed
  {
    assert (spans + [span])[..|spans|] == spans;
  }

  /** A subscription that began after some state began after any earlier one. */
  lemma NewSpan(c: Config, first: State, s: State, t: State, span: Span, sources: seq<seq<nat>>)
    requires Extends(c, first, s) && span.turn < |sources| && span.taken <= |sources[span.turn]| && (!span.began ==> span.taken == 0)
    requires var to := span.from + Sum(sources[span.turn][..span.taken]);
      && (span.began ==> Begins(c, s, span.read, t, span.resume, span.from) && StreamHeld(c, t, span.from, to))
      && (span.taken > 0 ==> to in t.resumes)
    requires span.failed == 0 ==> span.began && ReachesEnd(span, sources[span.turn], s.streamed)
    ensures SpanOk(c, first, t, span, sources, span.taken > 0)
  {
    if span.began { ExtendsTransitive(c, first, s, span.read); }
    hide StreamHeld, RunsGrow;
  }

  lemma StreamHeldLater(c: Config, s: State, last: State, t: State, from: nat, to: nat, resume: Option<nat>)
    requires StreamHeld(c, last, from, to) && Extends(c, s, last) && Extends(c, last, t)
    ensures StreamHeld(c, t, from, to) && last.resumes <= t.resumes
    ensures resume.Some? && resume.value in s.resumes ==> resume.value in t.resumes
  {
    HoldsMore(last.inbox, t.inbox);
  }

  lemma TimedMore(first: map<string, int>, polled: map<string, int>, after: map<string, int>, order: seq<string>, i: nat, now: int, interval: int)
    requires i < |order| && Timed(first, polled, order[..i], now)
    requires after == polled || after == polled[order[i] := now]
    ensures Timed(first, after, order[..i + 1], now)
    ensures forall k :: 0 <= k < i && !Due(polled, order[k], now, interval) && interval > 0 ==> !Due(after, order[k], now, interval)
  {
    assert order[..i + 1] == order[..i] + [order[i]];
  }

  /** What was started after earlier turns still is after this one; a source due at first was due in its first turn. */
  lemma TurnStarted(c: Config, first: State, s: State, t: State, order: seq<string>, i: nat)
    requires i <= |order| && Extends(c, first, s) && Extends(c, s, t)
    ensures forall k :: 0 <= k < i && AllStarted(c, first, s, order[k]) ==> AllStarted(c, first, t, order[k])
    ensures forall k :: 0 <= k < i && LogStarted(c, first, s, order[k]) ==> LogStarted(c, first, t, order[k])
    ensures forall wf :: AllStarted(c, s, t, wf) ==> AllStarted(c, first, t, wf)
    ensures forall wf :: LogStarted(c, s, t, wf) ==> LogStarted(c, first, t, wf)
  {
    ExtendsReflexive(c, first);
    ExtendsReflexive(c, t);
    forall wf | AllStarted(c, first, s, wf) ensures AllStarted(c, first, t, wf) { AllStartedMore(c, first, first, s, t, wf); }
    forall wf | LogStarted(c, first, s, wf) ensures LogStarted(c, first, t, wf) { LogStartedMore(c, first, s, t, wf); }
    forall wf | AllStarted(c, s, t, wf) ensures AllStarted(c, first, t, wf) { AllStartedMore(c, first, s, t, t, wf); }
    forall wf | LogStarted(c, s, t, wf) ensures LogStarted(c, first, t, wf) { LogStartedFrom(c, first, s, t, wf); }
  }

  lemma LogStartedFrom(c: Config, first: State, s: State, t: State, wf: string)
    requires Extends(c, first, s) && LogStarted(c, s, t, wf)
    ensures LogStarted(c, first, t, wf)
  {
    ExtendsGrows(c, first, s);
    assert forall i :: 0 <= i < |Emitted(c, first)| ==> Emitted(c, first)[i] == Emitted(c, s)[i];
  }

  /** A workflow's source is to be reconciled. */
  predicate Due(polled: map<string, int>, wf: string, now: int, interval: int): (due: bool)
    ensures wf in polled ==> (due <==> polled[wf] + interval <= now)
  {
    wf !in polled || now - polled[wf] >= interval
  }

  /** Only these workflows were reconciled, now. */
  ghost predicate Timed(before: map<string, int>, after: map<string, int>, order: seq<string>, now: int) {
    && (forall wf :: wf in before ==> wf in after)
    && forall wf :: wf in after ==> (wf in order && after[wf] == now) || (wf in before && after[wf] == before[wf])
  }

  /** Every clean turn whose reconciliation was due has recorded the time. */
  ghost predicate Renewed(before: map<string, int>, after: map<string, int>, order: seq<string>, clean: seq<bool>, now: int, interval: int) {
    |clean| <= |order| && forall i :: 0 <= i < |clean| && clean[i] && Due(before, order[i], now, interval) ==> order[i] in after && after[order[i]] == now
  }

  /** A turn records the time of a reconciliation that is due, unless an earlier turn has. */
  lemma RenewedMore(first: map<string, int>, polled: map<string, int>, after: map<string, int>, order: seq<string>, clean: seq<bool>, last: bool, now: int, interval: int)
    requires |clean| < |order| && interval > 0 && Timed(first, polled, order[..|clean|], now) && Renewed(first, polled, order, clean, now, interval)
    requires var wf := order[|clean|];
      && (after == polled || after == polled[wf := now])
      && (last && Due(polled, wf, now, interval) ==> after == polled[wf := now])
    ensures Renewed(first, after, order, clean + [last], now, interval)
  {
  }

  /** Every event there was at first is started, for the first n workflows; those only the source had too, where their reconciliation was due. */
  ghost predicate CaughtUp(c: Config, first: State, s: State, order: seq<string>, n: nat, polled: map<string, int>, now: int, interval: int) {
    && n <= |order| && (forall i :: 0 <= i < n ==> AllStarted(c, first, s, order[i]))
    && (c.mode == Hooked ==> forall i :: 0 <= i < n && Due(polled, order[i], now, interval) ==> LogStarted(c, first, s, order[i]))
  }

  lemma CaughtMore(c: Config, first: State, s: State, t: State, order: seq<string>, i: nat, before: map<string, int>, polled: map<string, int>, now: int, interval: int)
    requires i < |order| && Extends(c, first, s) && Extends(c, s, t) && CaughtUp(c, first, s, order, i, before, now, interval)
    requires Timed(before, polled, order[..i], now) && AllStarted(c, s, t, order[i])
    requires c.mode == Hooked && Due(polled, order[i], now, interval) ==> LogStarted(c, s, t, order[i])
    ensures CaughtUp(c, first, t, order, i + 1, before, now, interval)
  {
    TurnStarted(c, first, s, t, order, i);
    hide Extends, AllStarted, LogStarted;
    if c.mode == Hooked && Due(before, order[i], now, interval) && !Due(polled, order[i], now, interval) {
      assert order[i] in order[..i];
      var k :| 0 <= k < i && order[k] == order[i];
    }
  }

  lemma NoTurns(c: Config, s: State, order: seq<string>, polled: map<string, int>, now: int, interval: int)
    ensures CaughtUp(c, s, s, order, 0, polled, now, interval) && Renewed(polled, polled, order, [], now, interval)
  {
  }

  /** How many turns were not clean. */
  ghost function Unclean(clean: seq<bool>): nat {
    if clean == [] then 0 else Unclean(clean[..|clean| - 1]) + if clean[|clean| - 1] then 0 else 1
  }

  lemma NoneUnclean()
    ensures Unclean([]) == 0
  {
  }

  lemma UncleanMore(clean: seq<bool>, last: bool)
    ensures Unclean(clean + [last]) == Unclean(clean) + if last then 0 else 1
  {
    assert (clean + [last])[..|clean|] == clean;
  }

  class Worker {
    const c: Config
    const w: nat
    /** The stores, the source and every worker's place: shared with the other workers. */
    var st: State
    /** The calls this worker made, and how many of its store, source and starter calls failed. */
    ghost var done: seq<Action>
    ghost var failures: nat

    ghost predicate Valid()
      reads this
    {
      WellFormed(c) && Reachable(c, st)
    }

    constructor (c: Config, w: nat, st: State)
      requires WellFormed(c) && Reachable(c, st)
      ensures Valid() && this.c == c && this.w == w && this.st == st && this.done == [] && this.failures == 0
    {
      this.c, this.w, this.st, this.done, this.failures := c, w, st, [], 0;
    }

    /** Other workers run here. */
    method Yield()
      requires Valid()
      modifies this`st
      ensures Valid() && Interleaved(c, w, old(st), st)
      ensures Extends(c, old(st), st) && PcOf(st, w) == PcOf(old(st), w)
    {
      assert Exec(c, st, []) == Some(st);
      InterleavedKeeps(c, w, st, st);
    }

    /** One call of this worker. */
    method Call(a: Action)
      requires Valid() && Mine(a, w) && Apply(c, st, a).Some?
      modifies this`st, this`done
      ensures Valid() && Some(st) == Apply(c, old(st), a) && Extends(c, old(st), st)
      ensures done == old(done) + [a]
      ensures Moves(done) == Moves(old(done)) + if a.AdvancePollCursor? then 1 else 0
    {
      hide Apply, Extends, Mine;
      StepExtends(c, st, a);
      ghost var t := Reach(c, st, a);
      assert (done + [a])[..|done|] == done;
      st, done := Apply(c, st, a).value, done + [a];
    }

    /** Giving up on an error, and the end of a pass. */
    method Leave()
      requires Valid()
      modifies this`st, this`done
      ensures Valid() && PcOf(st, w) == Idle && st == Move(Release(old(st), w), w, Idle) && Extends(c, old(st), st)
      ensures done == old(done) + [Stop(w)] && Moves(done) == Moves(old(done))
    {
      Call(Stop(w));
    }

    /** CursorStore.Cursor, which may fail. */
    method ReadCursor(wf: string) returns (ok: bool)
      requires Valid() && wf in c.workflows && PcOf(st, w) == Idle
      modifies this`st, this`done, this`failures
      ensures Valid() && Extends(c, old(st), st)
      ensures if ok then PcOf(st, w).DrainAt? && PcOf(st, w).workflow == wf else PcOf(st, w) == Idle
      ensures Told(ok, failures, old(failures)) && Moves(done) == Moves(old(done))
    {
      Yield();
      if * {
        failures := failures + 1;
        return false;
      }
      ghost var s := st;
      Call(Action.ReadCursor(w, wf));
      ExtendsTransitive(c, old(st), s, st);
      return true;
    }

    /** Source.Poll, or Inbox.Inbox: the next batch, unless the call fails. */
    method ReadFeed(wf: string) returns (read: Option<seq<Event>>)
      requires Valid() && PcOf(st, w).DrainAt? && PcOf(st, w).workflow == wf
      modifies this`st, this`done, this`failures
      ensures Valid() && Extends(c, old(st), st)
      ensures PcOf(st, w) == match read case None => Idle case Some(events) => Draining(wf, events, false)
      ensures read.Some? ==> |read.value| <= c.batch
      ensures read.Some? && |read.value| < c.batch ==> Covers(c, old(st), st, wf, read.value)
      ensures Told(read.Some?, failures, old(failures)) && Moves(done) == Moves(old(done))
    {
      Yield();
      ghost var s := st;
      if * {
        failures := failures + 1;
        Leave();
        ExtendsTransitive(c, old(st), s, st);
        return None;
      }
      FeedCovered(c, old(st), st, w);
      Call(Action.ReadFeed(w));
      ExtendsTransitive(c, old(st), s, st);
      read := Some(PcOf(st, w).pending);
    }

    /**
     * One pass over a workflow's events: starts the runs of the next batch and
     * moves the cursor past each.  A store call may fail, with or without
     * effect; the pass then ends before the event it failed on, and answers
     * Failure for no other reason.
     */
    method Drain(wf: string) returns (started: nat, outcome: Outcome, read: seq<Event>)
      requires Valid() && wf in c.workflows && PcOf(st, w) == Idle
      modifies this`st, this`done, this`failures
      ensures Valid() && PcOf(st, w) == Idle && Extends(c, old(st), st)
      ensures started <= |read| <= c.batch && (outcome == Fine ==> started == |read|)
      ensures Told(outcome == Fine, failures, old(failures)) && Moves(done) == Moves(old(done))
      ensures forall i :: 0 <= i < started ==> Started(st, wf, read[i].id)
      ensures outcome == Fine && |read| < c.batch ==> AllStarted(c, old(st), st, wf)
    {
      hide Extends, Started, Feed, Covers, Reachable, WellFormed, Increasing, Moves;
      started, outcome, read := 0, Failure, [];
      var ok := ReadCursor(wf);
      if !ok { return; }
      ghost var s1 := st;
      var batch := ReadFeed(wf);
      ExtendsTransitive(c, old(st), s1, st);
      if batch.None? { return; }
      read, outcome := batch.value, Fine;
      ghost var s2 := st;
      ExtendsReflexive(c, s2);
      while started < |read|
        invariant Valid() && Extends(c, s2, st) && started <= |read| && outcome == Fine
        invariant PcOf(st, w) == Draining(wf, read[started..], false)
        invariant forall i :: 0 <= i < started ==> Started(st, wf, read[i].id)
        invariant failures == old(failures) && Moves(done) == Moves(old(done))
      {
        ghost var s := st;
        var n: nat;
        n, ok := StartAndAdvance(wf, read, started);
        ExtendsTransitive(c, s2, s, st);
        ExtendsGrows(c, s, st);
        started := started + n;
        if !ok {
          outcome := Failure;
          break;
        }
      }
      ghost var s3 := st;
      Leave();
      ExtendsGrows(c, s3, st);
      ExtendsTransitive(c, s2, s3, st);
      ExtendsTransitive(c, old(st), s2, st);
      if outcome == Fine && |read| < c.batch {
        CoveredMore(c, old(st), s1, s2, wf, read);
        CoveredStarted(c, old(st), s2, st, wf, read);
      }
    }

    /** Starts one event's run and moves the cursor past it: how many runs that started, and whether both calls succeeded. */
    method StartAndAdvance(wf: string, read: seq<Event>, k: nat) returns (n: nat, ok: bool)
      requires Valid() && k < |read| && PcOf(st, w) == Draining(wf, read[k..], false)
      modifies this`st, this`done, this`failures
      ensures Valid() && Extends(c, old(st), st)
      ensures n <= 1 && (ok ==> n == 1)
      ensures n == 1 ==> Started(st, wf, read[k].id)
      ensures ok ==> PcOf(st, w) == Draining(wf, read[k + 1..], false) && CursorValue(st, DrainCursor(c, wf)) >= read[k].pos
      ensures Told(ok, failures, old(failures)) && Moves(done) == Moves(old(done))
    {
      ok := Start(wf, read[k..]);
      if !ok { return 0, false; }
      ghost var s := st;
      ok := SetCursor(wf, read[k..]);
      n := 1;
      ExtendsTransitive(c, old(st), s, st);
      ExtendsGrows(c, s, st);
      assert read[k..][1..] == read[k + 1..];
    }

    /** Starter.Start for the first pending event, which may fail with or without effect: the cursor then stays before it. */
    method Start(wf: string, pending: seq<Event>) returns (ok: bool)
      requires Valid() && pending != [] && PcOf(st, w) == Draining(wf, pending, false)
      modifies this`st, this`done, this`failures
      ensures Valid() && Extends(c, old(st), st)
      ensures ok ==> PcOf(st, w) == Draining(wf, pending, true) && Started(st, wf, pending[0].id)
      ensures Told(ok, failures, old(failures)) && Moves(done) == Moves(old(done))
    {
      Yield();
      ghost var s := st;
      var applied: bool;
      ok, applied := *, *;
      if !ok { failures := failures + 1; }
      if ok || applied {
        Call(StartRun(w));
        StartedAfter(c, s, st, w, wf, pending);
        ExtendsTransitive(c, old(st), s, st);
      }
    }

    /** CursorStore.SetCursor, which may fail with or without effect. */
    method SetCursor(wf: string, pending: seq<Event>) returns (ok: bool)
      requires Valid() && pending != [] && PcOf(st, w) == Draining(wf, pending, true)
      modifies this`st, this`done, this`failures
      ensures Valid() && Extends(c, old(st), st)
      ensures ok ==> PcOf(st, w) == Draining(wf, pending[1..], false) && CursorValue(st, DrainCursor(c, wf)) >= pending[0].pos
      ensures Told(ok, failures, old(failures)) && Moves(done) == Moves(old(done))
    {
      Yield();
      ghost var s := st;
      var forwardOnly: bool := *;
      var applied: bool := *;
      ok := *;
      if !ok { failures := failures + 1; }
      if ok || applied {
        Call(AdvanceCursor(w, forwardOnly));
        ExtendsTransitive(c, old(st), s, st);
      }
    }

    // ----- Reconciling a webhook event's source with the inbox ----------------

    /**
     * Polls the source into the inbox, one batch at a time until it has
     * nothing more.  `patience` is how many batches the caller's context
     * lasts, `batches` what was read and stored.  On success the inbox holds
     * every event the source had at first.  It fails exactly when a call
     * failed, or when every batch the context lasted for was a full one.
     */
    method Reconcile(wf: string, patience: nat) returns (outcome: Outcome, ghost batches: seq<seq<Event>>)
      requires Valid() && c.mode == Hooked && wf in c.workflows && PcOf(st, w) == Idle
      modifies this`st, this`done, this`failures
      ensures Valid() && PcOf(st, w) == Idle && Extends(c, old(st), st)
      ensures outcome == Fine ==> HoldsLog(c, old(st), st)
      ensures outcome == Fine <==> failures == old(failures) && !AllFull(batches, patience, c.batch)
      ensures old(failures) <= failures <= old(failures) + 1 && |batches| <= patience && Moves(done) >= Moves(old(done))
      ensures failures == old(failures) ==>
        if outcome == Fine then EndsShort(batches, c.batch) else Moves(done) >= Moves(old(done)) + patience
      ensures forall b, e :: b in batches && e in b ==> Holds(st.inbox, e.id)
    {
      hide Extends, HoldsLog, Reachable, WellFormed, Holds, Moves;
      ExtendsReflexive(c, st);
      batches := [];
      var rounds := patience;
      while rounds > 0
        invariant Valid() && PcOf(st, w) == Idle && Extends(c, old(st), st)
        invariant failures == old(failures) && |batches| + rounds == patience && Moves(done) >= Moves(old(done)) + |batches|
        invariant AllFull(batches, |batches|, c.batch)
        invariant forall b, e :: b in batches && e in b ==> Holds(st.inbox, e.id)
      {
        ghost var s := st;
        rounds := rounds - 1;
        var done: bool;
        ghost var read;
        outcome, done, read := ReconcileBatch(wf);
        ExtendsTransitive(c, old(st), s, st);
        ExtendsGrows(c, s, st);
        if outcome == Failure || done {
          if outcome == Fine {
            HeldFromFirst(c, old(st), s, st);
            batches := batches + [read];
            assert |batches[|batches| - 1]| < c.batch;
          }
          return;
        }
        batches := batches + [read];
      }
      outcome := Failure;
    }

    /** One batch; `done` when it was the last, which is when it was not full. */
    method ReconcileBatch(wf: string) returns (outcome: Outcome, done: bool, ghost read: seq<Event>)
      requires Valid() && c.mode == Hooked && wf in c.workflows && PcOf(st, w) == Idle
      modifies this`st, this`done, this`failures
      ensures Valid() && PcOf(st, w) == Idle && Extends(c, old(st), st)
      ensures outcome == Fine && done ==> HoldsLog(c, old(st), st)
      ensures Told(outcome == Fine, failures, old(failures))
      ensures outcome == Fine ==> |read| <= c.batch && (done <==> |read| < c.batch) && forall e :: e in read ==> Holds(st.inbox, e.id)
      ensures Moves(this.done) >= Moves(old(this.done)) + if outcome == Fine && !done then 1 else 0
    {
      hide Extends, HoldsLog, Reachable, Increasing, PollCovers, Holds, Moves;
      outcome, done, read := Failure, true, [];
      var polled := PollBatch(wf);
      if polled.None? { return; }
      var events := polled.value;
      read := events;
      ghost var s := st;
      if events == [] {
        Leave();
        ExtendsTransitive(c, old(st), s, st);
        PolledHeld(c, old(st), s, st, events);
        return Fine, true, [];
      }
      outcome := StorePolled(wf, events);
      ExtendsTransitive(c, old(st), s, st);
      done := |events| < c.batch;
      if outcome == Fine && done { PolledHeld(c, old(st), s, st, events); }
    }

    /** Reads the poll cursor and polls the source past it; either call may fail. */
    method PollBatch(wf: string) returns (read: Option<seq<Event>>)
      requires Valid() && c.mode == Hooked && wf in c.workflows && PcOf(st, w) == Idle
      modifies this`st, this`done, this`failures
      ensures Valid() && Extends(c, old(st), st)
      ensures PcOf(st, w) == match read case None => Idle case Some(events) => Fetched(wf, events)
      ensures read.Some? && |read.value| < c.batch ==> PollCovers(c, old(st), st, read.value)
      ensures read.Some? ==> |read.value| <= c.batch
      ensures Told(read.Some?, failures, old(failures)) && Moves(done) == Moves(old(done))
    {
      hide Extends, Reachable, WellFormed, Increasing, PollCovers, Moves;
      var ok := ReadPollCursor(wf);
      if !ok { return None; }
      ghost var s := st;
      read := PollSource(wf);
      ExtendsTransitive(c, old(st), s, st);
      if read.Some? { PollCoversMore(c, old(st), s, st, read.value); }
    }

    /** CursorStore.Cursor for a reconciling poll, which may fail. */
    method ReadPollCursor(wf: string) returns (ok: bool)
      requires Valid() && c.mode == Hooked && wf in c.workflows && PcOf(st, w) == Idle
      modifies this`st, this`done, this`failures
      ensures Valid() && Extends(c, old(st), st)
      ensures if ok then PcOf(st, w).ReconcileAt? && PcOf(st, w).workflow == wf else PcOf(st, w) == Idle
      ensures Told(ok, failures, old(failures)) && Moves(done) == Moves(old(done))
    {
      hide Extends, Moves;
      Yield();
      if * {
        failures := failures + 1;
        return false;
      }
      ghost var s := st;
      Call(Action.ReadPollCursor(w, wf));
      ExtendsTransitive(c, old(st), s, st);
      return true;
    }

    /** Source.Poll for a reconciling poll, which may fail. */
    method PollSource(wf: string) returns (read: Option<seq<Event>>)
      requires Valid() && PcOf(st, w).ReconcileAt? && PcOf(st, w).workflow == wf
      modifies this`st, this`done, this`failures
      ensures Valid() && Extends(c, old(st), st)
      ensures PcOf(st, w) == match read case None => Idle case Some(events) => Fetched(wf, events)
      ensures read.Some? && |read.value| < c.batch ==> PollCovers(c, old(st), st, read.value)
      ensures read.Some? ==> |read.value| <= c.batch
      ensures Told(read.Some?, failures, old(failures)) && Moves(done) == Moves(old(done))
    {
      hide Extends, Reachable, WellFormed, Increasing, PollCovers, Moves;
      Yield();
      ghost var s := st;
      if * {
        failures := failures + 1;
        Leave();
        ExtendsTransitive(c, old(st), s, st);
        return None;
      }
      PollCovered(c, old(st), s, w);
      Call(Action.PollSource(w));
      ExtendsTransitive(c, old(st), s, st);
      read := Some(PcOf(st, w).events);
    }

    /** Stores a batch and then moves the poll cursor to its end; each call may fail, with or without effect. */
    method StorePolled(wf: string, events: seq<Event>) returns (outcome: Outcome)
      requires Valid() && events != [] && PcOf(st, w) == Fetched(wf, events)
      modifies this`st, this`done, this`failures
      ensures Valid() && PcOf(st, w) == Idle && Extends(c, old(st), st)
      ensures outcome == Fine ==> forall i :: 0 <= i < |events| ==> Holds(st.inbox, events[i].id)
      ensures outcome == Fine ==> CursorValue(st, PollCursor(wf)) >= events[|events| - 1].pos
      ensures Told(outcome == Fine, failures, old(failures))
      ensures Moves(done) >= Moves(old(done)) + if outcome == Fine then 1 else 0
    {
      hide Extends, Moves;
      var ok := DeliverBatch(wf, events);
      if !ok {
        ghost var s1 := st;
        Leave();
        ExtendsTransitive(c, old(st), s1, st);
        return Failure;
      }
      ghost var s2 := st;
      ok := MovePollCursor(wf, events);
      ExtendsTransitive(c, old(st), s2, st);
      ExtendsGrows(c, s2, st);
      outcome := if ok then Fine else Failure;
    }

    /** Inbox.Deliver for a reconciling poll. */
    method DeliverBatch(wf: string, events: seq<Event>) returns (ok: bool)
      requires Valid() && events != [] && PcOf(st, w) == Fetched(wf, events)
      modifies this`st, this`done, this`failures
      ensures Valid() && Extends(c, old(st), st)
      ensures ok ==> PcOf(st, w) == Delivered(wf, events) && forall i :: 0 <= i < |events| ==> Holds(st.inbox, events[i].id)
      ensures Told(ok, failures, old(failures)) && Moves(done) == Moves(old(done))
    {
      hide Extends, Insert;
      Yield();
      ghost var s1 := st;
      var applied: bool, gaps: seq<nat> := *, *;
      ok := *;
      if !ok { failures := failures + 1; }
      if ok || applied {
        Call(DeliverPolled(w, gaps));
        DeliveredHeld(c, st, w);
        ExtendsTransitive(c, old(st), s1, st);
      }
    }

    /** CursorStore.SetCursor for a reconciling poll. */
    method MovePollCursor(wf: string, events: seq<Event>) returns (ok: bool)
      requires Valid() && events != [] && PcOf(st, w) == Delivered(wf, events)
      modifies this`st, this`done, this`failures
      ensures Valid() && PcOf(st, w) == Idle && Extends(c, old(st), st)
      ensures Told(ok, failures, old(failures)) && Moves(done) >= Moves(old(done)) + if ok then 1 else 0
      ensures ok ==> CursorValue(st, PollCursor(wf)) >= events[|events| - 1].pos
    {
      hide Extends, Apply, CursorValue, Moves;
      Yield();
      ghost var s1 := st;
      var applied: bool, forwardOnly: bool := *, *;
      ok := *;
      if !ok { failures := failures + 1; }
      PollAdvances(c, st, w, forwardOnly);
      if ok || applied { Call(AdvancePollCursor(w, forwardOnly)); } else { Leave(); }
      ExtendsTransitive(c, old(st), s1, st);
    }

    // ----- Webhooks -----------------------------------------------------------

    /**
     * A webhook delivery: stored first, then acknowledged.  200 is answered
     * only when the inbox holds every event of the delivery, whatever other
     * workers do meanwhile; any other answer acknowledges nothing.  503 means
     * that the store failed.
     */
    method HandleDelivery(hook: Hook) returns (status: nat)
      requires Valid() && c.mode == Hooked && PcOf(st, w) == Idle
      modifies this`st, this`done, this`failures
      ensures Valid() && PcOf(st, w) == Idle && Extends(c, old(st), st)
      ensures status == match hook
                        case Unknown => 404 case TooLarge => 413 case Unauthenticated => 401 case Malformed => 400
                        case Events(_) => if status == 200 then 200 else 503
      ensures status == 200 ==> forall id :: id in hook.ids ==> id in st.acked && Holds(st.inbox, id)
      ensures hook.Events? && hook.ids == [] ==> status == 200
      ensures Told(status != 503, failures, old(failures))
      ensures status != 200 ==> old(done) <= done && forall k :: |old(done)| <= k < |done| ==> !done[k].Acknowledge?
    {
      hide Extends, Insert;
      ExtendsReflexive(c, st);
      match hook
      case Unknown => status := 404;
      case TooLarge => status := 413;
      case Unauthenticated => status := 401;
      case Malformed => status := 400;
      case Events(ids) =>
        if ids == [] { return 200; }
        var ok := StoreDelivery(ids);
        ghost var stored := st;
        if !ok {
          Leave();
          ExtendsTransitive(c, old(st), stored, st);
          return 503;
        }
        Confirm(ids);
        ExtendsTransitive(c, old(st), stored, st);
        status := 200;
    }

    /** Inbox.Deliver for a webhook, which may fail with or without effect. */
    method StoreDelivery(ids: seq<string>) returns (ok: bool)
      requires Valid() && c.mode == Hooked && PcOf(st, w) == Idle
      modifies this`st, this`done, this`failures
      ensures Valid() && Extends(c, old(st), st) && (ok ==> PcOf(st, w) == Received(ids))
      ensures Told(ok, failures, old(failures))
      ensures old(done) <= done <= old(done) + done[|old(done)|..] && forall k :: |old(done)| <= k < |done| ==> !done[k].Acknowledge?
    {
      hide Extends, Insert;
      Yield();
      ghost var s := st;
      var applied: bool, gaps: seq<nat>;
      ok, applied, gaps := *, *, *;
      if !ok { failures := failures + 1; }
      if ok || applied {
        Call(ReceiveHook(w, ids, gaps));
        ExtendsTransitive(c, old(st), s, st);
      }
    }

    /** The acknowledgement of a stored delivery. */
    method Confirm(ids: seq<string>)
      requires Valid() && PcOf(st, w) == Received(ids)
      modifies this`st, this`done
      ensures Valid() && PcOf(st, w) == Idle && Extends(c, old(st), st)
      ensures forall id :: id in ids ==> id in st.acked && Holds(st.inbox, id)
    {
      hide Extends;
      Yield();
      ghost var s := st;
      ReceivedHeld(c, st, w);
      Call(Acknowledge(w));
      ExtendsTransitive(c, old(st), s, st);
      ExtendsGrows(c, s, st);
    }

    // ----- Subscriptions ------------------------------------------------------

    /** Locker.TryLock, when there is one: the lock may be taken, `held` in a state of the run, or its store may fail. */
    method TryLock() returns (ok: bool, ghost held: Option<State>)
      requires Valid() && c.mode == Streamed && PcOf(st, w) == Idle
      modifies this`st, this`done, this`failures
      ensures Valid() && Extends(c, old(st), st) && PcOf(st, w) == if ok then Standing else Idle
      ensures ok || held.Some? ==> failures == old(failures)
      ensures !ok && held.None? ==> c.exclusive && failures == old(failures) + 1
      ensures held.Some? ==> !ok && c.exclusive && held.value.holder != None && Extends(c, old(st), held.value) && Extends(c, held.value, st)
    {
      hide Extends, Apply;
      Yield();
      ghost var s := st;
      ExtendsReflexive(c, s);
      if c.exclusive {
        if st.holder != None { return false, Some(s); }
        if * {
          failures := failures + 1;
          return false, None;
        }
      }
      OpeningSteps(c, st, w);
      Call(TakeLock(w));
      ExtendsTransitive(c, old(st), s, st);
      return true, None;
    }

    /**
     * StreamInbox.StreamResume and Streamer.Stream; either may fail.  `read` is
     * the state in which the stored position was read: the subscription begins
     * there, or from now when there was none.
     */
    method Open() returns (resume: Option<nat>, ok: bool, ghost read: State)
      requires Valid() && c.mode == Streamed && PcOf(st, w) == Standing
      modifies this`st, this`done, this`failures
      ensures Valid() && Extends(c, old(st), st)
      ensures ok ==> PcOf(st, w).Subscribed? && Begins(c, old(st), read, st, resume, PcOf(st, w).at)
      ensures Told(ok, failures, old(failures))
    {
      hide Extends, Apply, Reachable, WellFormed;
      resume, ok, read := None, false, st;
      Yield();
      if * {
        failures := failures + 1;
        return;
      }
      read := st;
      OpeningSteps(c, st, w);
      Call(ReadResume(w));
      resume := PcOf(st, w).from;
      ExtendsTransitive(c, old(st), read, st);
      ghost var s2 := st;
      Yield();
      ExtendsTransitive(c, old(st), s2, st);
      if * {
        failures := failures + 1;
        return;
      }
      ghost var s3 := st;
      OpeningSteps(c, st, w);
      Call(Subscribe(w));
      ExtendsTransitive(c, old(st), s3, st);
      ExtendsTransitive(c, s2, s3, st);
      ExtendsTransitive(c, read, s2, st);
      BeginsNow(c, s3, st);
      BeginsNow(c, old(st), s3);
      ok := true;
    }

    /**
     * One subscription, from the stored position: `batches` are the sizes of
     * the deliveries the source makes until it ends, and `taken` is how many
     * were stored.  Each is stored with the position after it in one call, and
     * a failed call ends the subscription.  Everything from the place where it
     * began to the last position it stored is then in the inbox.  Only a failed
     * call keeps it from beginning, and from storing what the stream had at first.
     */
    method Subscription(batches: seq<nat>) returns (taken: nat, began: bool, ghost resume: Option<nat>, ghost read: State, ghost from: nat)
      requires Valid() && c.mode == Streamed && PcOf(st, w) == Standing
      modifies this`st, this`done, this`failures
      ensures Valid() && PcOf(st, w) == Idle && Extends(c, old(st), st)
      ensures taken <= |batches| && (!began ==> taken == 0)
      ensures began ==> StreamHeld(c, st, from, from + Sum(batches[..taken])) && Begins(c, old(st), read, st, resume, from)
      ensures taken > 0 ==> from + Sum(batches[..taken]) in st.resumes
      ensures old(failures) <= failures <= old(failures) + 1 && (!began ==> failures == old(failures) + 1)
      ensures taken < |batches| && failures == old(failures) ==> from + Sum(batches[..taken + 1]) > old(st).streamed
    {
      hide Extends, Apply, StreamHeld, Reachable, WellFormed, Begins;
      taken, from := 0, 0;
      resume, began, read := Open();
      ghost var s := st;
      ExtendsReflexive(c, s);
      if began {
        from := PcOf(st, w).at;
        StreamStays(c, st, w);
        assert batches[..0] == [];
        taken := Deliveries(batches, from);
        ExtendsTransitive(c, old(st), s, st);
        BeginsNow(c, old(st), s);
      }
      ghost var last := st;
      Leave();
      ExtendsTransitive(c, old(st), last, st);
      ExtendsTransitive(c, s, last, st);
      if began {
        StreamHeldLater(c, s, last, st, from, from + Sum(batches[..taken]), resume);
        BeginsLater(c, old(st), read, s, st, resume, from);
      }
    }

    method Deliveries(batches: seq<nat>, ghost from: nat) returns (taken: nat)
      requires Valid() && c.mode == Streamed && PcOf(st, w).Subscribed? && PcOf(st, w).at == from && StreamHeld(c, st, from, from)
      modifies this`st, this`done, this`failures
      ensures Valid() && Extends(c, old(st), st) && taken <= |batches|
      ensures StreamHeld(c, st, from, from + Sum(batches[..taken])) && (taken > 0 ==> from + Sum(batches[..taken]) in st.resumes)
      ensures old(failures) <= failures <= old(failures) + 1 && (taken == |batches| ==> failures == old(failures))
      ensures taken < |batches| && failures == old(failures) ==> from + Sum(batches[..taken + 1]) > old(st).streamed
    {
      hide Extends, Apply, StreamHeld, Reachable, WellFormed;
      taken := 0;
      ExtendsReflexive(c, st);
      assert batches[..0] == [];
      while taken < |batches|
        invariant Valid() && Extends(c, old(st), st) && taken <= |batches|
        invariant PcOf(st, w).Subscribed? && PcOf(st, w).at == from + Sum(batches[..taken])
        invariant StreamHeld(c, st, from, from + Sum(batches[..taken])) && (taken > 0 ==> from + Sum(batches[..taken]) in st.resumes)
        invariant failures == old(failures)
      {
        ghost var s, at := st, PcOf(st, w).at;
        var ok := StreamDelivery(batches[taken]);
        ExtendsTransitive(c, old(st), s, st);
        assert batches[..taken + 1][..taken] == batches[..taken];
        BeginsNow(c, old(st), s);
        if !ok {
          ExtendsReflexive(c, s);
          StreamHeldLater(c, s, s, st, from, at, if taken > 0 then Some(at) else None);
          break;
        }
        StreamHeldMore(c, s, st, from, at, at + batches[taken]);
        taken := taken + 1;
      }
    }

    /** StreamInbox.DeliverStream for n events, which may fail with or without effect. */
    method StreamDelivery(n: nat) returns (ok: bool)
      requires Valid() && PcOf(st, w).Subscribed?
      modifies this`st, this`done, this`failures
      ensures Valid() && Extends(c, old(st), st)
      ensures ok ==>
        var at := PcOf(old(st), w).at;
        PcOf(st, w) == Subscribed(at + n, None) && at + n in st.resumes && StreamHeld(c, st, at, at + n)
      ensures old(failures) <= failures <= old(failures) + 1 && (ok ==> failures == old(failures))
      ensures !ok && failures == old(failures) ==> PcOf(old(st), w).at + n > old(st).streamed
    {
      hide Extends, Apply, StreamHeld;
      Yield();
      ghost var s := st;
      var gaps: seq<nat>, applied: bool := *, *;
      ok := *;
      BeginsNow(c, old(st), st);
      if PcOf(st, w).at + n > st.streamed { return false; }
      if !ok { failures := failures + 1; }
      StreamSteps(c, st, w, n, gaps);
      if ok || applied {
        Call(DeliverStream(w, n, gaps));
        ExtendsTransitive(c, old(st), s, st);
      }
    }

    /**
     * Keeps a subscription open: takes the lock, subscribes, and when that
     * ends waits before it tries again, twice as long each time up to a bound,
     * from the start again once events arrived.  `sources` are what the source
     * delivers in each try; the waits are those after subscriptions that ended,
     * and `spans` the parts of the stream they stored, each from where it began
     * to the last position it stored.  A try brings no subscription only when
     * the lock was held, in the states `held`, or the call for it failed.
     */
    method KeepSubscribed(sources: seq<seq<nat>>, minBackoff: nat, maxBackoff: nat)
      returns (waits: seq<nat>, arrived: seq<bool>, ghost spans: seq<Span>, ghost held: seq<State>)
      requires Valid() && c.mode == Streamed && PcOf(st, w) == Idle
      modifies this`st, this`done, this`failures
      ensures Valid() && PcOf(st, w) == Idle && Extends(c, old(st), st)
      ensures |spans| == |arrived| <= |sources| && waits == Backoffs(arrived, minBackoff, maxBackoff)
      ensures forall i :: 0 <= i < |spans| ==> SpanOk(c, old(st), st, spans[i], sources, arrived[i])
      ensures InTurn(spans, |sources|) && HeldBy(c, old(st), held)
      ensures failures == old(failures) + FailedCalls(spans) + (|sources| - |spans| - |held|) && (!c.exclusive ==> |spans| == |sources|)
    {
      hide Extends, Backoffs, Reachable, WellFormed, StreamHeld, SpanOk, Begins, FailedCalls, ReachesEnd, InTurn, HeldBy;
      NoneYet(c, st);
      ExtendsReflexive(c, st);
      NextBackoff([], false, minBackoff, maxBackoff);
      waits, arrived, spans, held := [], [], [], [];
      var backoff := minBackoff;
      for k := 0 to |sources|
        invariant Valid() && PcOf(st, w) == Idle && Extends(c, old(st), st)
        invariant |waits| == |arrived| == |spans| <= k && waits == Backoffs(arrived, minBackoff, maxBackoff)
        invariant backoff == if waits == [] then minBackoff else Min(2 * waits[|waits| - 1], maxBackoff)
        invariant forall i :: 0 <= i < |spans| ==> SpanOk(c, old(st), st, spans[i], sources, arrived[i])
        invariant InTurn(spans, k) && HeldBy(c, old(st), held)
        invariant failures == old(failures) + FailedCalls(spans) + (k - |spans| - |held|) && (!c.exclusive ==> |spans| == k)
      {
        ghost var s := st;
        var locked;
        ghost var seen;
        locked, seen := TryLock();
        ExtendsTransitive(c, old(st), s, st);
        SpansLater(c, old(st), s, st, spans, sources, arrived);
        if !locked {
          if seen.Some? {
            ExtendsTransitive(c, old(st), s, seen.value);
            HeldMore(c, old(st), held, seen.value);
            held := held + [seen.value];
          }
          TurnLater(spans, k);
          continue;
        }
        s := st;
        ghost var failed := failures;
        var taken, began;
        ghost var resume, read, from;
        taken, began, resume, read, from := Subscription(sources[k]);
        ExtendsTransitive(c, old(st), s, st);
        SpansLater(c, old(st), s, st, spans, sources, arrived);
        ghost var span := Span(k, began, resume, read, from, taken, failures - failed);
        SpanStored(span, sources[k], s.streamed);
        NewSpan(c, old(st), s, st, span, sources);
        FailedMore(spans, span);
        TurnMore(spans, span);
        if taken > 0 { backoff := minBackoff; }
        NextBackoff(arrived, taken > 0, minBackoff, maxBackoff);
        waits, arrived, spans := waits + [backoff], arrived + [taken > 0], spans + [span];
        backoff := Min(backoff * 2, maxBackoff);
      }
    }

    // ----- One pass over every workflow ---------------------------------------

    /** When the source of each workflow was last reconciled. */
    var lastPolled: map<string, int>

    /**
     * One workflow's turn: its source is reconciled with the inbox when that is
     * due, and its events are drained.  `ids` are the events whose runs it
     * started, `short` tells whether that was all there was to read, and
     * `stuck` that the context ended before the source did.  Each failed call
     * is one error and there is no other, so a turn without one records the
     * time of a reconciliation that was due.
     */
    method PollWorkflow(wf: string, now: int, interval: int, patience: nat)
      returns (started: nat, errors: nat, ghost ids: seq<string>, ghost short: bool, ghost stuck: bool)
      requires Valid() && PcOf(st, w) == Idle && interval > 0 && wf in c.workflows
      modifies this
      ensures Valid() && PcOf(st, w) == Idle && Extends(c, old(st), st)
      ensures |ids| == started && forall k :: 0 <= k < |ids| ==> Started(st, wf, ids[k])
      ensures lastPolled == old(lastPolled) || (c.mode == Hooked && Due(old(lastPolled), wf, now, interval) && lastPolled == old(lastPolled)[wf := now])
      ensures failures >= old(failures) && errors == failures - old(failures) + (if stuck then 1 else 0)
      ensures stuck ==> c.mode == Hooked && Due(old(lastPolled), wf, now, interval)
      ensures Moves(done) >= Moves(old(done)) + if stuck then patience else 0
      ensures c.mode == Hooked && Due(old(lastPolled), wf, now, interval) && errors == 0 ==> lastPolled == old(lastPolled)[wf := now]
      ensures c.mode == Hooked && errors == 0 ==> !Due(lastPolled, wf, now, interval)
      ensures errors == 0 && short ==> AllStarted(c, old(st), st, wf)
      ensures errors == 0 && short && c.mode == Hooked && Due(old(lastPolled), wf, now, interval) ==> LogStarted(c, old(st), st, wf)
    {
      hide Extends, HoldsLog, AllStarted, LogStarted, Reachable, WellFormed, Started, Moves;
      ExtendsReflexive(c, st);
      errors, stuck := 0, false;
      var outcome: Outcome;
      ghost var due := c.mode == Hooked && Due(lastPolled, wf, now, interval);
      if c.mode == Hooked && (wf !in lastPolled || now - lastPolled[wf] >= interval) {
        ghost var batches;
        outcome, batches := Reconcile(wf, patience);
        stuck := outcome == Failure && failures == old(failures);
        if outcome == Failure { errors := errors + 1; } else { lastPolled := lastPolled[wf := now]; }
      }
      ghost var s := st;
      var read;
      started, outcome, read := Drain(wf);
      ExtendsTransitive(c, old(st), s, st);
      if outcome == Failure { errors := errors + 1; }
      ids, short := Ids(read)[..started], |read| < c.batch;
      if errors == 0 && short {
        ExtendsReflexive(c, st);
        AllStartedMore(c, old(st), s, st, st, wf);
        if due { ReconciledStarted(c, old(st), s, st, wf); }
      }
    }

    /**
     * One pass: webhook events whose last reconciliation is `interval` ago are
     * reconciled, then every workflow is drained.  `begun` are the runs it
     * counts.  A pass without errors that read everything there was leaves
     * every event there was started, those the source had not delivered too
     * when their reconciliation was due.  There is one error for each failed
     * call and for each of the `stuck` turns whose reconciliation outlasted the
     * context; every other turn is `clean` and records the time of a
     * reconciliation that was due.
     */
    method Poll(order: seq<string>, now: int, interval: int, patience: nat)
      returns (started: nat, errors: nat, ghost begun: seq<(string, string)>, ghost short: bool, ghost stuck: nat, ghost clean: seq<bool>)
      requires Valid() && PcOf(st, w) == Idle && interval > 0
      requires forall i :: 0 <= i < |order| ==> order[i] in c.workflows
      modifies this
      ensures Valid() && PcOf(st, w) == Idle && Extends(c, old(st), st)
      ensures forall wf :: wf in lastPolled ==>
                lastPolled[wf] == now || (wf in old(lastPolled) && lastPolled[wf] == old(lastPolled)[wf])
      ensures failures >= old(failures) && errors == failures - old(failures) + stuck
      ensures stuck > 0 ==> c.mode == Hooked && Moves(done) >= Moves(old(done)) + patience
      ensures |clean| == |order| && Unclean(clean) <= errors
      ensures c.mode == Hooked ==> Renewed(old(lastPolled), lastPolled, order, clean, now, interval)
      ensures c.mode == Hooked && errors == 0 ==> forall i :: 0 <= i < |order| ==> !Due(lastPolled, order[i], now, interval)
      ensures c.mode != Hooked ==> lastPolled == old(lastPolled)
      ensures |begun| == started && forall k :: 0 <= k < |begun| ==> Started(st, begun[k].0, begun[k].1)
      ensures errors == 0 && short ==> CaughtUp(c, old(st), st, order, |order|, old(lastPolled), now, interval)
    {
      hide Extends, AllStarted, LogStarted, Reachable, WellFormed, Started, Moves, Unclean, Renewed, CaughtUp;
      ExtendsReflexive(c, st);
      NoneUnclean();
      NoTurns(c, st, order, lastPolled, now, interval);
      started, errors, begun, short, stuck, clean := 0, 0, [], true, 0, [];
      for i := 0 to |order|
        invariant Valid() && PcOf(st, w) == Idle && Extends(c, old(st), st)
        invariant Timed(old(lastPolled), lastPolled, order[..i], now) && (c.mode != Hooked ==> lastPolled == old(lastPolled))
        invariant failures >= old(failures) && errors == failures - old(failures) + stuck
        invariant Moves(done) >= Moves(old(done)) && (stuck > 0 ==> c.mode == Hooked && Moves(done) >= Moves(old(done)) + patience)
        invariant |clean| == i && Unclean(clean) <= errors
        invariant c.mode == Hooked ==> Renewed(old(lastPolled), lastPolled, order, clean, now, interval)
        invariant c.mode == Hooked && errors == 0 ==> forall k :: 0 <= k < i ==> !Due(lastPolled, order[k], now, interval)
        invariant |begun| == started && forall k :: 0 <= k < |begun| ==> Started(st, begun[k].0, begun[k].1)
        invariant errors == 0 && short ==> CaughtUp(c, old(st), st, order, i, old(lastPolled), now, interval)
      {
        ghost var s, polled := st, lastPolled;
        var n, failed;
        ghost var ids, all, late;
        n, failed, ids, all, late := PollWorkflow(order[i], now, interval, patience);
        ExtendsTransitive(c, old(st), s, st);
        ExtendsGrows(c, s, st);
        if errors == 0 && failed == 0 && short && all { CaughtMore(c, old(st), s, st, order, i, old(lastPolled), polled, now, interval); }
        TimedMore(old(lastPolled), polled, lastPolled, order, i, now, interval);
        if c.mode == Hooked { RenewedMore(old(lastPolled), polled, lastPolled, order, clean, failed == 0, now, interval); }
        UncleanMore(clean, failed == 0);
        started, errors := started + n, errors + failed;
        stuck, clean := stuck + (if late then 1 else 0), clean + [failed == 0];
        begun, short := begun + seq(|ids|, k requires 0 <= k < |ids| => (order[i], ids[k])), short && all;
        assert order[..i + 1] == order[..i] + [order[i]];
      }
    }
  }
}

/** What every reachable state of the delivery protocol keeps. */
module DeliveryProof {
  import opened Prelude
  import opened Delivery

  // ----- The invariant -------------------------------------------------------

  /** A workflow name has no slash (apis/v1alpha1/meta.go), so run IDs are unambiguous. */
  ghost predicate WellFormed(c: Config) {
    c.batch >= 1 && forall wf :: wf in c.workflows ==> '/' !in wf
  }

  ghost predicate Started(s: State, workflow: string, event: string) { Ran(s.runs, workflow, event) }

  ghost predicate Ran(runs: map<string, seq<Run>>, workflow: string, event: string) {
    var id := RunId(workflow, event);
    id in runs && exists i :: 0 <= i < |runs[id]| && runs[id][i].workflow == workflow && runs[id][i].event == event
  }

  /** Which feed a cursor walks through. */
  ghost function FeedOf(c: Config, s: State, name: Cursor): seq<Event> {
    if name.InboxCursor? then s.inbox else Emitted(c, s)
  }

  /** The feed a cursor walks through has distinct positions in order: the inbox always, the source by contract or not. */
  ghost predicate Trusted(c: Config, name: Cursor) { name.InboxCursor? || Increasing(c.log) }

  /** What a cursor promises of the events at or below it. */
  ghost predicate Done(c: Config, s: State, name: Cursor, e: Event) {
    if name == DrainCursor(c, name.workflow) then Started(s, name.workflow, e.id) else Holds(s.inbox, e.id)
  }

  ghost predicate Reached(feed: seq<Event>, pos: int) {
    pos <= 0 || (feed != [] && pos <= feed[|feed| - 1].pos)
  }

  ghost predicate CursorOk(c: Config, s: State, name: Cursor, pos: int) {
    var feed := FeedOf(c, s, name);
    Trusted(c, name) ==>
    && Reached(feed, pos)
    && forall i :: 0 <= i < |feed| && feed[i].pos <= pos ==> Done(c, s, name, feed[i])
  }

  ghost predicate Slice(feed: seq<Event>, events: seq<Event>, at: nat) {
    at + |events| <= |feed| && events == feed[at..at + |events|]
  }

  /** The events are the next ones of the feed: everything before them is done. */
  ghost predicate Next(c: Config, s: State, name: Cursor, events: seq<Event>) {
    var feed := FeedOf(c, s, name);
    Trusted(c, name) ==> exists at: nat :: Slice(feed, events, at) && forall i :: 0 <= i < at ==> Done(c, s, name, feed[i])
  }

  ghost predicate Between(c: Config, s: State, from: Option<nat>, to: nat) {
    to <= |c.stream| &&
    (from.Some? ==> forall k :: from.value <= k < to ==> Holds(s.inbox, c.stream[k]))
  }

  ghost predicate PcOk(c: Config, s: State, pc: Pc) {
    match pc
    case Idle => true
    case DrainAt(wf, pos) => wf in c.workflows && CursorOk(c, s, DrainCursor(c, wf), pos)
    case Draining(wf, pending, begun) =>
      && wf in c.workflows
      && Next(c, s, DrainCursor(c, wf), pending)
      && (begun ==> pending != [] && Started(s, wf, pending[0].id))
    case ReconcileAt(wf, pos) => c.mode == Hooked && wf in c.workflows && CursorOk(c, s, PollCursor(wf), pos)
    case Fetched(wf, events) => c.mode == Hooked && wf in c.workflows && Next(c, s, PollCursor(wf), events)
    case Delivered(wf, events) =>
      && c.mode == Hooked && wf in c.workflows && Next(c, s, PollCursor(wf), events)
      && forall i :: 0 <= i < |events| ==> Holds(s.inbox, events[i].id)
    case Received(ids) => forall id :: id in ids ==> Holds(s.inbox, id)
    case Standing => true
    case Resuming(from) => from.Some? ==> s.origin.Some? && from.value <= s.streamed && Between(c, s, s.origin, from.value)
    case Subscribed(at, start) => at <= s.streamed && (start.None? ==> s.origin.Some?) && Between(c, s, Later(s.origin, start), at)
  }

  ghost predicate RunsOk(c: Config, runs: map<string, seq<Run>>) {
    forall id :: id in runs ==>
      && runs[id] != []
      && AllFailed(runs[id][..|runs[id]| - 1])
      && forall i :: 0 <= i < |runs[id]| ==>
           runs[id][i].workflow in c.workflows && RunId(runs[id][i].workflow, runs[id][i].event) == id
  }

  ghost predicate ResumesOk(c: Config, s: State, resumes: set<nat>) {
    forall r :: r in resumes ==> s.origin.Some? && r <= s.streamed && Between(c, s, s.origin, r)
  }

  ghost predicate CursorsOk(c: Config, s: State, cursors: map<Cursor, int>, stored: set<(Cursor, int)>) {
    && (forall name :: name in cursors ==> CursorOk(c, s, name, cursors[name]))
    && (forall p :: p in stored ==> CursorOk(c, s, p.0, p.1))
  }

  ghost predicate PcsOk(c: Config, s: State, workers: map<nat, Pc>) {
    forall w :: w in workers ==> PcOk(c, s, workers[w])
  }

  ghost predicate AckedOk(s: State, acked: set<string>) {
    forall id :: id in acked ==> Holds(s.inbox, id)
  }

  ghost predicate SizesOk(c: Config, s: State) {
    && s.emitted <= |c.log| && s.streamed <= |c.stream|
    && (s.resume.Some? ==> s.resume.value in s.resumes)
  }

  ghost predicate Inv(c: Config, s: State) {
    && SizesOk(c, s)
    && Increasing(s.inbox) && DistinctIds(s.inbox)
    && CursorsOk(c, s, s.cursors, s.stored)
    && RunsOk(c, s.runs)
    && ResumesOk(c, s, s.resumes)
    && AckedOk(s, s.acked)
    && PcsOk(c, s, s.workers)
  }

  // ----- Feeds and batches ---------------------------------------------------

  lemma {:induction false} PastIsSuffix(feed: seq<Event>, after: int) returns (k: nat)
    requires Nondecreasing(feed)
    ensures k <= |feed| && Past(feed, after) == feed[k..]
    ensures forall i :: 0 <= i < |feed| ==> (feed[i].pos <= after <==> i < k)
  {
    if feed == [] { return 0; }
    var j := PastIsSuffix(feed[1..], after);
    forall i | 1 <= i < |feed| ensures feed[i].pos <= after <==> i < j + 1 {
      assert feed[i] == feed[1..][i - 1];
    }
    if feed[0].pos > after {
      k := 0;
    } else {
      k := j + 1;
    }
  }

  /** A batch is the slice of the feed that begins right after the position. */
  lemma BatchIsNext(feed: seq<Event>, after: int, limit: nat) returns (at: nat)
    requires Nondecreasing(feed)
    ensures Slice(feed, Batch(feed, after, limit), at)
    ensures forall i :: 0 <= i < |feed| ==> (feed[i].pos <= after <==> i < at)
    ensures |Batch(feed, after, limit)| == Min(limit, |feed| - at)
  {
    at := PastIsSuffix(feed, after);
  }

  /** One insert. */
  lemma AppendKeeps(inbox: seq<Event>, id: string, gap: nat)
    requires Increasing(inbox) && DistinctIds(inbox) && !Holds(inbox, id)
    ensures var after := inbox + [Event(id, NextSeq(inbox, gap))];
      Increasing(after) && DistinctIds(after) && Holds(after, id)
  {
    var after := inbox + [Event(id, NextSeq(inbox, gap))];
    assert after[|inbox|].id == id;
    forall i | 0 <= i < |inbox| ensures inbox[i].pos < NextSeq(inbox, gap) && inbox[i].id != id {
      assert inbox[i].pos <= inbox[|inbox| - 1].pos;
    }
  }

  lemma {:induction false} InsertKeeps(inbox: seq<Event>, ids: seq<string>, gaps: seq<nat>)
    requires Increasing(inbox) && DistinctIds(inbox)
    ensures inbox <= Insert(inbox, ids, gaps)
    ensures Increasing(Insert(inbox, ids, gaps)) && DistinctIds(Insert(inbox, ids, gaps))
    ensures forall i :: 0 <= i < |ids| ==> Holds(Insert(inbox, ids, gaps), ids[i])
    decreases |ids|
  {
    if ids != [] {
      var gap := if gaps == [] then 0 else gaps[0];
      var more := if gaps == [] then [] else gaps[1..];
      var next := inbox;
      if !Holds(inbox, ids[0]) {
        AppendKeeps(inbox, ids[0], gap);
        next := inbox + [Event(ids[0], NextSeq(inbox, gap))];
      }
      InsertKeeps(next, ids[1..], more);
      HoldsMore(next, Insert(next, ids[1..], more));
      forall i | 0 <= i < |ids| ensures Holds(Insert(inbox, ids, gaps), ids[i]) {
        if i > 0 { assert ids[i] == ids[1..][i - 1]; }
      }
    }
  }

  lemma HoldsMore(inbox: seq<Event>, after: seq<Event>)
    requires inbox <= after
    ensures forall id :: Holds(inbox, id) ==> Holds(after, id)
  {
    forall id | Holds(inbox, id) ensures Holds(after, id) {
      var i :| 0 <= i < |inbox| && inbox[i].id == id;
      assert after[i].id == id;
    }
  }

  // ----- Steps only add ------------------------------------------------------

  /** What one state leaves to a later one. */
  ghost predicate Grows(c: Config, s: State, t: State) {
    && Emitted(c, s) <= Emitted(c, t) && (Increasing(c.log) ==> Increasing(Emitted(c, t)))
    && s.inbox <= t.inbox && Increasing(t.inbox)
    && s.streamed <= t.streamed
    && (s.origin.Some? ==> t.origin.Some? && s.origin.value <= t.origin.value)
    && forall wf, e :: Started(s, wf, e) ==> Started(t, wf, e)
  }

  lemma DoneGrows(c: Config, s: State, t: State, name: Cursor, e: Event)
    requires Grows(c, s, t) && Done(c, s, name, e)
    ensures Done(c, t, name, e)
  {
    HoldsMore(s.inbox, t.inbox);
  }

  lemma CursorOkGrows(c: Config, s: State, t: State, name: Cursor, pos: int)
    requires Grows(c, s, t) && CursorOk(c, s, name, pos)
    ensures CursorOk(c, t, name, pos)
  {
    hide Done, Started;
    if !Trusted(c, name) { return; }
    var f, g := FeedOf(c, s, name), FeedOf(c, t, name);
    if f != [] { assert g[|f| - 1] == f[|f| - 1]; }
    forall i | 0 <= i < |g| && g[i].pos <= pos ensures Done(c, t, name, g[i]) {
      if i < |f| { assert f[i] == g[i]; }
      DoneGrows(c, s, t, name, f[i]);
    }
  }

  lemma NextGrows(c: Config, s: State, t: State, name: Cursor, events: seq<Event>)
    requires Grows(c, s, t) && Next(c, s, name, events)
    ensures Next(c, t, name, events)
  {
    hide Done, Started;
    if !Trusted(c, name) { return; }
    var f, g := FeedOf(c, s, name), FeedOf(c, t, name);
    var at: nat :| Slice(f, events, at) && forall i :: 0 <= i < at ==> Done(c, s, name, f[i]);
    assert Slice(g, events, at);
    forall i | 0 <= i < at ensures Done(c, t, name, g[i]) {
      DoneGrows(c, s, t, name, f[i]);
    }
  }

  lemma PcOkGrows(c: Config, s: State, t: State, pc: Pc)
    requires Grows(c, s, t) && PcOk(c, s, pc)
    ensures PcOk(c, t, pc)
  {
    HoldsMore(s.inbox, t.inbox);
    match pc
    case DrainAt(wf, pos) => CursorOkGrows(c, s, t, DrainCursor(c, wf), pos);
    case ReconcileAt(wf, pos) => CursorOkGrows(c, s, t, PollCursor(wf), pos);
    case Draining(wf, pending, begun) => NextGrows(c, s, t, DrainCursor(c, wf), pending);
    case Fetched(wf, events) => NextGrows(c, s, t, PollCursor(wf), events);
    case Delivered(wf, events) => NextGrows(c, s, t, PollCursor(wf), events);
    case _ =>
  }

  /** What was promised before a step that only adds is still promised after it. */
  lemma Frame(c: Config, s: State, t: State)
    requires Inv(c, s) && Grows(c, s, t)
    ensures CursorsOk(c, t, s.cursors, s.stored) && PcsOk(c, t, s.workers) && AckedOk(t, s.acked) && ResumesOk(c, t, s.resumes)
  {
    HoldsMore(s.inbox, t.inbox);
    forall name | name in s.cursors ensures CursorOk(c, t, name, s.cursors[name]) {
      CursorOkGrows(c, s, t, name, s.cursors[name]);
    }
    forall p | p in s.stored ensures CursorOk(c, t, p.0, p.1) {
      CursorOkGrows(c, s, t, p.0, p.1);
    }
    forall w | w in s.workers ensures PcOk(c, t, s.workers[w]) {
      PcOkGrows(c, s, t, s.workers[w]);
    }
  }

  // ----- Every step keeps the invariant ---------------------------------------

  lemma SourceEmitsKeeps(c: Config, s: State)
    requires Inv(c, s) && Apply(c, s, SourceEmits).Some?
    ensures Inv(c, Apply(c, s, SourceEmits).value)
  {
    hide CursorsOk, PcsOk, AckedOk, ResumesOk;
    Frame(c, s, s.(emitted := s.emitted + 1));
  }

  lemma StreamEmitsKeeps(c: Config, s: State)
    requires Inv(c, s) && Apply(c, s, StreamEmits).Some?
    ensures Inv(c, Apply(c, s, StreamEmits).value)
  {
    hide CursorsOk, PcsOk, AckedOk, ResumesOk;
    var t := s.(streamed := s.streamed + 1);
    Frame(c, s, t);
  }

  /** A step that leaves the stores alone: the worker's new place must be justified. */
  lemma MoveKeeps(c: Config, s: State, w: nat, pc: Pc)
    requires Inv(c, s) && PcOk(c, s, pc)
    ensures Inv(c, Move(s, w, pc))
  {
    hide CursorsOk, AckedOk, ResumesOk;
    var t := Move(s, w, pc);
    Frame(c, s, t);
    PcOkGrows(c, s, t, pc);
  }

  lemma PcHolds(c: Config, s: State, w: nat)
    requires Inv(c, s)
    ensures PcOk(c, s, PcOf(s, w))
  {
  }

  lemma CursorValueOk(c: Config, s: State, name: Cursor)
    requires Inv(c, s)
    ensures CursorOk(c, s, name, CursorValue(s, name))
  {
  }

  lemma ReadNext(c: Config, s: State, name: Cursor, after: int)
    requires Inv(c, s) && CursorOk(c, s, name, after)
    ensures Next(c, s, name, Batch(FeedOf(c, s, name), after, c.batch))
  {
    if !Trusted(c, name) { return; }
    var feed := FeedOf(c, s, name);
    var at := BatchIsNext(feed, after, c.batch);
  }

  /** The cursor may move to any event whose predecessors, and which itself, are done. */
  lemma SetCursorKeeps(c: Config, s: State, name: Cursor, pos: int, forwardOnly: bool)
    requires Inv(c, s) && CursorOk(c, s, name, pos)
    ensures Inv(c, SetCursor(s, name, pos, forwardOnly))
  {
    hide PcsOk, AckedOk, ResumesOk, CursorOk;
    CursorValueOk(c, s, name);
    var t := SetCursor(s, name, pos, forwardOnly);
    var value := if forwardOnly then Max(CursorValue(s, name), pos) else pos;
    assert CursorOk(c, s, name, value);
    Frame(c, s, t);
    CursorOkGrows(c, s, t, name, value);
    forall p | p in t.stored ensures CursorOk(c, t, p.0, p.1) {
      assert p in s.stored || p == (name, value);
    }
  }

  lemma NextCursorOk(c: Config, s: State, name: Cursor, events: seq<Event>, k: nat)
    requires Trusted(c, name) ==> Increasing(FeedOf(c, s, name))
    requires Next(c, s, name, events) && k < |events|
    requires forall i :: 0 <= i <= k ==> Done(c, s, name, events[i])
    ensures CursorOk(c, s, name, events[k].pos)
    ensures Next(c, s, name, events[k + 1..])
  {
    hide Done;
    if !Trusted(c, name) { return; }
    var feed := FeedOf(c, s, name);
    var at: nat :| Slice(feed, events, at) && forall i :: 0 <= i < at ==> Done(c, s, name, feed[i]);
    hide FeedOf;
    forall i | 0 <= i <= at + k ensures Done(c, s, name, feed[i]) {
      if i >= at { assert feed[i] == events[i - at]; }
    }
    SliceAt(feed, events, at, k);
    hide Increasing, Slice;
  }

  lemma SliceAt(feed: seq<Event>, events: seq<Event>, at: nat, k: nat)
    requires Increasing(feed) && Slice(feed, events, at) && k < |events|
    ensures Slice(feed, events[k + 1..], at + k + 1) && Reached(feed, events[k].pos)
    ensures forall i :: 0 <= i < |feed| && feed[i].pos <= events[k].pos ==> i <= at + k
  {
    assert feed[at + k] == events[k];
    assert feed[at + k].pos <= feed[|feed| - 1].pos;
  }

  lemma RunIdInjective(wf: string, e: string, wf': string, e': string)
    requires '/' !in wf && '/' !in wf' && RunId(wf, e) == RunId(wf', e')
    ensures wf == wf' && e == e'
  {
    FirstSlash(wf, e);
    FirstSlash(wf', e');
    assert ("/" + e)[1..] == e && ("/" + e')[1..] == e';
  }

  /** The workflow is what stands before the first slash. */
  lemma {:induction false} FirstSlash(wf: string, e: string)
    requires '/' !in wf
    ensures BeforeSlash(RunId(wf, e)) == wf && RunId(wf, e)[|wf|..] == "/" + e
  {
    if wf != "" {
      FirstSlash(wf[1..], e);
      assert RunId(wf, e)[1..] == RunId(wf[1..], e);
    }
  }

  function BeforeSlash(id: string): string {
    if id == "" || id[0] == '/' then "" else [id[0]] + BeforeSlash(id[1..])
  }

  /** Runs are only ever added; the ones there keep their workflow and event. */
  ghost predicate RunsGrow(a: map<string, seq<Run>>, b: map<string, seq<Run>>) {
    forall id :: id in a ==>
      && id in b && |a[id]| <= |b[id]|
      && forall i :: 0 <= i < |a[id]| ==> a[id][i].workflow == b[id][i].workflow && a[id][i].event == b[id][i].event
  }

  lemma RanGrows(a: map<string, seq<Run>>, b: map<string, seq<Run>>)
    requires RunsGrow(a, b)
    ensures forall wf, e :: Ran(a, wf, e) ==> Ran(b, wf, e)
  {
    forall wf, e | Ran(a, wf, e) ensures Ran(b, wf, e) {
      var id := RunId(wf, e);
      var i :| 0 <= i < |a[id]| && a[id][i].workflow == wf && a[id][i].event == e;
      assert b[id][i].workflow == wf;
    }
  }

  /** Starting keeps at most one run alive per ID, and the event has a run afterwards. */
  lemma StartOk(c: Config, runs: map<string, seq<Run>>, workflow: string, event: string)
    requires WellFormed(c) && RunsOk(c, runs) && workflow in c.workflows
    ensures var after := Start(runs, workflow, event);
      RunsOk(c, after) && RunsGrow(runs, after) && Ran(after, workflow, event)
  {
    var id := RunId(workflow, event);
    var after: map<string, seq<Run>> := Start(runs, workflow, event);
    if id in runs {
      RunIdInjective(runs[id][0].workflow, runs[id][0].event, workflow, event);
    }
    assert after[id][0].workflow == workflow && after[id][0].event == event;
    if id !in runs || AllFailed(runs[id]) {
      assert after[id][..|after[id]| - 1] == if id in runs then runs[id] else [];
    }
  }

  /** A run starts, ends, or is retried. */
  lemma RunStepKeeps(c: Config, s: State, t: State)
    requires Inv(c, s) && t == s.(runs := t.runs) && RunsGrow(s.runs, t.runs) && RunsOk(c, t.runs)
    ensures Inv(c, t)
  {
    hide CursorsOk, PcsOk, AckedOk, ResumesOk, RunsOk, RunsGrow, Ran;
    RanGrows(s.runs, t.runs);
    Frame(c, s, t);
  }

  lemma InsertStepKeeps(c: Config, s: State, ids: seq<string>, gaps: seq<nat>)
    requires Inv(c, s)
    ensures var t := s.(inbox := Insert(s.inbox, ids, gaps));
      Inv(c, t) && Grows(c, s, t) && forall i :: 0 <= i < |ids| ==> Holds(t.inbox, ids[i])
  {
    hide CursorsOk, PcsOk, AckedOk, ResumesOk;
    InsertKeeps(s.inbox, ids, gaps);
    Frame(c, s, s.(inbox := Insert(s.inbox, ids, gaps)));
  }

  lemma AcknowledgeKeeps(c: Config, s: State, ids: seq<string>)
    requires Inv(c, s) && forall id :: id in ids ==> Holds(s.inbox, id)
    ensures Inv(c, s.(acked := s.acked + set id | id in ids))
  {
    hide CursorsOk, PcsOk, ResumesOk;
    Frame(c, s, s.(acked := s.acked + set id | id in ids));
  }

  lemma TakeLockKeeps(c: Config, s: State, w: nat)
    requires Inv(c, s) && Apply(c, s, TakeLock(w)).Some?
    ensures Inv(c, Apply(c, s, TakeLock(w)).value)
  {
    LockKeeps(c, s, Some(w));
    MoveKeeps(c, s.(holder := Some(w)), w, Standing);
  }

  /** Who has the lock takes no part in the invariant. */
  lemma LockKeeps(c: Config, s: State, holder: Option<nat>)
    requires Inv(c, s)
    ensures Inv(c, s.(holder := holder))
  {
    hide CursorsOk, PcsOk, AckedOk, ResumesOk;
    Frame(c, s, s.(holder := holder));
  }

  lemma ReadResumeKeeps(c: Config, s: State, w: nat)
    requires Inv(c, s) && Apply(c, s, ReadResume(w)).Some?
    ensures Inv(c, Apply(c, s, ReadResume(w)).value)
  {
    assert s.resume.Some? ==> s.resume.value in s.resumes;
    MoveKeeps(c, s, w, Resuming(s.resume));
  }

  lemma SubscribeKeeps(c: Config, s: State, w: nat)
    requires Inv(c, s) && Apply(c, s, Subscribe(w)).Some?
    ensures Inv(c, Apply(c, s, Subscribe(w)).value)
  {
    PcHolds(c, s, w);
    assert s.streamed <= |c.stream|;
    hide Inv, CursorOk;
    MoveKeeps(c, s, w, match PcOf(s, w).from case None => Subscribed(s.streamed, Some(s.streamed)) case Some(r) => Subscribed(r, None));
  }

  lemma DeliverStreamKeeps(c: Config, s: State, w: nat, n: nat, gaps: seq<nat>)
    requires Inv(c, s) && Apply(c, s, DeliverStream(w, n, gaps)).Some?
    ensures Inv(c, Apply(c, s, DeliverStream(w, n, gaps)).value)
  {
    hide Inv, CursorOk, Between, Insert, RunId, Next;
    PcHolds(c, s, w);
    var pc := PcOf(s, w);
    var next := pc.at + n;
    StoreStream(c, s, pc.at, pc.start, next, gaps);
    MoveKeeps(c, Stored(c, s, pc.at, pc.start, next, gaps), w, Subscribed(next, None));
  }

  ghost function Stored(c: Config, s: State, at: nat, start: Option<nat>, next: nat, gaps: seq<nat>): State
    requires at <= next <= |c.stream|
  {
    s.(inbox := Insert(s.inbox, c.stream[at..next], gaps),
       resume := Some(next), resumes := s.resumes + {next}, origin := Later(s.origin, start))
  }

  lemma StoreStream(c: Config, s: State, at: nat, start: Option<nat>, next: nat, gaps: seq<nat>)
    requires Inv(c, s) && PcOk(c, s, Subscribed(at, start)) && at <= next <= s.streamed
    ensures var u := Stored(c, s, at, start, next, gaps);
      Inv(c, u) && u.origin.Some? && Between(c, u, u.origin, next)
  {
    hide CursorsOk, PcsOk, AckedOk, RunsOk, CursorOk, Ran;
    var ids := c.stream[at..next];
    InsertStepKeeps(c, s, ids, gaps);
    var t := s.(inbox := Insert(s.inbox, ids, gaps));
    var u := Stored(c, s, at, start, next, gaps);
    HoldsMore(s.inbox, t.inbox);
    forall k | u.origin.value <= k < next ensures Holds(u.inbox, c.stream[k]) {
      if k >= at { assert c.stream[k] == ids[k - at]; }
    }
    Frame(c, t, u);
  }

  lemma ReadCursorKeeps(c: Config, s: State, w: nat, wf: string)
    requires WellFormed(c) && Inv(c, s) && Apply(c, s, ReadCursor(w, wf)).Some?
    ensures Inv(c, Apply(c, s, ReadCursor(w, wf)).value)
  {
    PcHolds(c, s, w);
    hide Inv, CursorOk;
    CursorValueOk(c, s, DrainCursor(c, wf));
    MoveKeeps(c, s, w, DrainAt(wf, CursorValue(s, DrainCursor(c, wf))));
  }

  lemma ReadFeedKeeps(c: Config, s: State, w: nat)
    requires WellFormed(c) && Inv(c, s) && Apply(c, s, ReadFeed(w)).Some?
    ensures Inv(c, Apply(c, s, ReadFeed(w)).value)
  {
    PcHolds(c, s, w);
    hide Inv, CursorOk;
    var pc := PcOf(s, w);
    ReadNext(c, s, DrainCursor(c, pc.workflow), pc.pos);
    MoveKeeps(c, s, w, Draining(pc.workflow, Batch(Feed(c, s), pc.pos, c.batch), false));
  }

  lemma StartRunKeeps(c: Config, s: State, w: nat)
    requires WellFormed(c) && Inv(c, s) && Apply(c, s, StartRun(w)).Some?
    ensures Inv(c, Apply(c, s, StartRun(w)).value)
  {
    PcHolds(c, s, w);
    var pc := PcOf(s, w);
    var t := s.(runs := Start(s.runs, pc.workflow, pc.pending[0].id));
    assert Apply(c, s, StartRun(w)).value == Move(t, w, Draining(pc.workflow, pc.pending, true));
    StartPending(c, s, pc.workflow, pc.pending);
    MoveKeeps(c, t, w, Draining(pc.workflow, pc.pending, true)) by { hide Inv; }
  }

  lemma StartPending(c: Config, s: State, wf: string, pending: seq<Event>)
    requires WellFormed(c) && Inv(c, s) && wf in c.workflows
    requires pending != [] && Next(c, s, DrainCursor(c, wf), pending)
    ensures var t := s.(runs := Start(s.runs, wf, pending[0].id));
      Inv(c, t) && PcOk(c, t, Draining(wf, pending, true))
  {
    hide CursorsOk, PcsOk, AckedOk, ResumesOk, RunsOk, RunsGrow, Ran, Next, Start;
    var t := s.(runs := Start(s.runs, wf, pending[0].id));
    StartOk(c, s.runs, wf, pending[0].id);
    RunStepKeeps(c, s, t);
    RanGrows(s.runs, t.runs);
    NextGrows(c, s, t, DrainCursor(c, wf), pending);
  }

  lemma AdvanceCursorKeeps(c: Config, s: State, w: nat, fwd: bool)
    requires WellFormed(c) && Inv(c, s) && Apply(c, s, AdvanceCursor(w, fwd)).Some?
    ensures Inv(c, Apply(c, s, AdvanceCursor(w, fwd)).value)
  {
    PcHolds(c, s, w);
    var pc := PcOf(s, w);
    var t := SetCursor(s, DrainCursor(c, pc.workflow), pc.pending[0].pos, fwd);
    AdvancePast(c, s, DrainCursor(c, pc.workflow), pc.pending, 0, fwd);
    MoveKeeps(c, t, w, Draining(pc.workflow, pc.pending[1..], false)) by { hide Inv, Next; }
  }

  /** Moving the cursor to the k-th of the next events, once it and those before it are done. */
  lemma AdvancePast(c: Config, s: State, name: Cursor, events: seq<Event>, k: nat, fwd: bool)
    requires Inv(c, s) && Next(c, s, name, events) && k < |events|
    requires forall i :: 0 <= i <= k ==> Done(c, s, name, events[i])
    ensures var t := SetCursor(s, name, events[k].pos, fwd);
      Inv(c, t) && Next(c, t, name, events[k + 1..])
  {
    hide CursorsOk, PcsOk, AckedOk, ResumesOk, RunsOk, CursorOk, Next, Done, Ran;
    var t := SetCursor(s, name, events[k].pos, fwd);
    NextCursorOk(c, s, name, events, k);
    SetCursorKeeps(c, s, name, events[k].pos, fwd);
    NextGrows(c, s, t, name, events[k + 1..]);
  }

  lemma ReadPollCursorKeeps(c: Config, s: State, w: nat, wf: string)
    requires WellFormed(c) && Inv(c, s) && Apply(c, s, ReadPollCursor(w, wf)).Some?
    ensures Inv(c, Apply(c, s, ReadPollCursor(w, wf)).value)
  {
    PcHolds(c, s, w);
    hide Inv, CursorOk;
    CursorValueOk(c, s, PollCursor(wf));
    MoveKeeps(c, s, w, ReconcileAt(wf, CursorValue(s, PollCursor(wf))));
  }

  lemma PollSourceKeeps(c: Config, s: State, w: nat)
    requires WellFormed(c) && Inv(c, s) && Apply(c, s, PollSource(w)).Some?
    ensures Inv(c, Apply(c, s, PollSource(w)).value)
  {
    PcHolds(c, s, w);
    hide Inv, CursorOk;
    var pc := PcOf(s, w);
    ReadNext(c, s, PollCursor(pc.workflow), pc.pos);
    MoveKeeps(c, s, w, Fetched(pc.workflow, Batch(Emitted(c, s), pc.pos, c.batch)));
  }

  lemma DeliverPolledKeeps(c: Config, s: State, w: nat, gaps: seq<nat>)
    requires WellFormed(c) && Inv(c, s) && Apply(c, s, DeliverPolled(w, gaps)).Some?
    ensures Inv(c, Apply(c, s, DeliverPolled(w, gaps)).value)
  {
    PcHolds(c, s, w);
    hide Inv, CursorOk;
    var pc := PcOf(s, w);
    var ids := Ids(pc.events);
    InsertStepKeeps(c, s, ids, gaps);
    var t := s.(inbox := Insert(s.inbox, ids, gaps));
    NextGrows(c, s, t, PollCursor(pc.workflow), pc.events);
    forall i | 0 <= i < |pc.events| ensures Holds(t.inbox, pc.events[i].id) {
      assert pc.events[i].id == ids[i];
    }
    MoveKeeps(c, t, w, Delivered(pc.workflow, pc.events));
  }

  lemma AdvancePollCursorKeeps(c: Config, s: State, w: nat, fwd: bool)
    requires WellFormed(c) && Inv(c, s) && Apply(c, s, AdvancePollCursor(w, fwd)).Some?
    ensures Inv(c, Apply(c, s, AdvancePollCursor(w, fwd)).value)
  {
    PcHolds(c, s, w);
    var pc := PcOf(s, w);
    var name, k := PollCursor(pc.workflow), |pc.events| - 1;
    AdvancePast(c, s, name, pc.events, k, fwd);
    MoveKeeps(c, SetCursor(s, name, pc.events[k].pos, fwd), w, Idle) by { hide Inv, Next; }
  }

  lemma ReceiveHookKeeps(c: Config, s: State, w: nat, ids: seq<string>, gaps: seq<nat>)
    requires WellFormed(c) && Inv(c, s) && Apply(c, s, ReceiveHook(w, ids, gaps)).Some?
    ensures Inv(c, Apply(c, s, ReceiveHook(w, ids, gaps)).value)
  {
    PcHolds(c, s, w);
    hide Inv, CursorOk;
    InsertStepKeeps(c, s, ids, gaps);
    MoveKeeps(c, s.(inbox := Insert(s.inbox, ids, gaps)), w, Received(ids));
  }

  lemma AcknowledgeStepKeeps(c: Config, s: State, w: nat)
    requires WellFormed(c) && Inv(c, s) && Apply(c, s, Acknowledge(w)).Some?
    ensures Inv(c, Apply(c, s, Acknowledge(w)).value)
  {
    PcHolds(c, s, w);
    hide Inv, CursorOk;
    var ids := PcOf(s, w).ids;
    AcknowledgeKeeps(c, s, ids);
    MoveKeeps(c, s.(acked := s.acked + set id | id in ids), w, Idle);
  }

  lemma EndOk(c: Config, runs: map<string, seq<Run>>, id: string, status: Status)
    requires RunsOk(c, runs) && id in runs
    ensures var n := |runs[id]| - 1;
      var after := runs[id := runs[id][n := runs[id][n].(status := status)]];
      RunsOk(c, after) && RunsGrow(runs, after)
  {
    var n := |runs[id]| - 1;
    var ended := runs[id][n := runs[id][n].(status := status)];
    assert ended[..n] == runs[id][..n];
  }

  lemma EndRunKeeps(c: Config, s: State, run: string, completed: bool)
    requires Inv(c, s) && Apply(c, s, EndRun(run, completed)).Some?
    ensures Inv(c, Apply(c, s, EndRun(run, completed)).value)
  {
    hide RunsOk, RunsGrow;
    EndOk(c, s.runs, run, if completed then Completed else Failed);
    RunStepKeeps(c, s, Apply(c, s, EndRun(run, completed)).value);
  }

  lemma RetryRunKeeps(c: Config, s: State, run: string)
    requires WellFormed(c) && Inv(c, s) && Apply(c, s, RetryRun(run)).Some?
    ensures Inv(c, Apply(c, s, RetryRun(run)).value)
  {
    hide CursorsOk, PcsOk, ResumesOk, AckedOk;
    var t := Apply(c, s, RetryRun(run)).value;
    assert t.runs[run][..|s.runs[run]|] == s.runs[run];
    RunStepKeeps(c, s, t);
  }

  lemma StopKeeps(c: Config, s: State, w: nat)
    requires Inv(c, s)
    ensures Inv(c, Apply(c, s, Stop(w)).value)
  {
    hide Inv;
    if s.holder == Some(w) { LockKeeps(c, s, None); }
    MoveKeeps(c, Release(s, w), w, Idle);
  }

  lemma StepKeeps(c: Config, s: State, a: Action)
    requires WellFormed(c) && Inv(c, s) && Apply(c, s, a).Some?
    ensures Inv(c, Apply(c, s, a).value)
  {
    hide *;
    match a
    case SourceEmits => SourceEmitsKeeps(c, s);
    case StreamEmits => StreamEmitsKeeps(c, s);
    case ReadCursor(w, wf) => ReadCursorKeeps(c, s, w, wf);
    case ReadFeed(w) => ReadFeedKeeps(c, s, w);
    case StartRun(w) => StartRunKeeps(c, s, w);
    case AdvanceCursor(w, fwd) => AdvanceCursorKeeps(c, s, w, fwd);
    case ReadPollCursor(w, wf) => ReadPollCursorKeeps(c, s, w, wf);
    case PollSource(w) => PollSourceKeeps(c, s, w);
    case DeliverPolled(w, gaps) => DeliverPolledKeeps(c, s, w, gaps);
    case AdvancePollCursor(w, fwd) => AdvancePollCursorKeeps(c, s, w, fwd);
    case ReceiveHook(w, ids, gaps) => ReceiveHookKeeps(c, s, w, ids, gaps);
    case Acknowledge(w) => AcknowledgeStepKeeps(c, s, w);
    case TakeLock(w) => TakeLockKeeps(c, s, w);
    case ReadResume(w) => ReadResumeKeeps(c, s, w);
    case Subscribe(w) => SubscribeKeeps(c, s, w);
    case DeliverStream(w, n, gaps) => DeliverStreamKeeps(c, s, w, n, gaps);
    case EndRun(run, completed) => EndRunKeeps(c, s, run, completed);
    case RetryRun(run) => RetryRunKeeps(c, s, run);
    case Stop(w) => StopKeeps(c, s, w);
  }

  lemma {:induction false} ExecKeeps(c: Config, s: State, acts: seq<Action>)
    requires WellFormed(c) && Inv(c, s) && Exec(c, s, acts).Some?
    ensures Inv(c, Exec(c, s, acts).value)
  {
    if acts != [] {
      ExecKeeps(c, s, acts[..|acts| - 1]);
      StepKeeps(c, Exec(c, s, acts[..|acts| - 1]).value, acts[|acts| - 1]);
    }
  }

  lemma ReachableInv(c: Config, s: State)
    requires WellFormed(c) && Reachable(c, s)
    ensures Inv(c, s)
  {
    var acts :| Exec(c, INIT, acts) == Some(s);
    ExecKeeps(c, INIT, acts);
  }

  lemma Reach(c: Config, s: State, a: Action) returns (t: State)
    requires Reachable(c, s) && Apply(c, s, a).Some?
    ensures Some(t) == Apply(c, s, a) && Reachable(c, t)
  {
    var acts :| Exec(c, INIT, acts) == Some(s);
    assert (acts + [a])[..|acts|] == acts;
    t := Apply(c, s, a).value;
    assert Exec(c, INIT, acts + [a]) == Some(t);
  }
}

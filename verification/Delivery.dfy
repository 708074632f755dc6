/**
 * Event delivery: dispatchers that share cursors, webhook handlers,
 * reconciling polls and subscriptions that share an inbox, and an idempotent
 * starter of runs.  The module is a step system for one trigger
 * (endpoint/event).  A step is one call to a store, a source or the starter,
 * so any interleaving of any number of workers is a sequence of steps, and a
 * worker may stop (crash, or give up on an error) between any two of them.
 */
module Delivery {
  import opened Prelude

  /** An event of a source, or a row of the inbox: there `pos` is its sequence number. */
  datatype Event = Event(id: string, pos: int)

  /** How the trigger's events reach the dispatcher; fixed by the runtime spec. */
  datatype Mode = Polled | Hooked | Streamed

  /**
   * `log` is everything the source will ever hold, in the order it appends
   * it; `stream` the event IDs a subscription carries, in order.  `exclusive`
   * says that a lock keeps the subscription to one worker at a time.
   */
  datatype Config = Config(mode: Mode, workflows: set<string>, batch: nat, log: seq<Event>, stream: seq<string>, exclusive: bool)

  datatype Status = Running | Completed | Failed

  datatype Run = Run(workflow: string, event: string, status: Status)

  /** `wf@endpoint/event`, and the same name with `#inbox`. */
  datatype Cursor = PollCursor(workflow: string) | InboxCursor(workflow: string)

  /** Where a worker stands. */
  datatype Pc =
    | Idle
    | DrainAt(workflow: string, pos: int)
    | Draining(workflow: string, pending: seq<Event>, begun: bool)
    | ReconcileAt(workflow: string, pos: int)
    | Fetched(workflow: string, events: seq<Event>)
    | Delivered(workflow: string, events: seq<Event>)
    | Received(ids: seq<string>)
    | Standing
    | Resuming(from: Option<nat>)
    | Subscribed(at: nat, start: Option<nat>)

  /**
   * `stored`, `resumes`, `origin` and `acked` are history: every cursor value
   * ever stored, every resume position ever stored, the latest place where a
   * subscription opened without a stored position went on to deliver, and the
   * IDs acknowledged to the webhook provider.  `holder` has the lock.
   */
  datatype State = State(
    emitted: nat,
    streamed: nat,
    inbox: seq<Event>,
    cursors: map<Cursor, int>,
    stored: set<(Cursor, int)>,
    runs: map<string, seq<Run>>,
    resume: Option<nat>,
    resumes: set<nat>,
    origin: Option<nat>,
    acked: set<string>,
    holder: Option<nat>,
    workers: map<nat, Pc>)

  datatype Action =
    | SourceEmits
    | StreamEmits
    | ReadCursor(w: nat, workflow: string)
    | ReadFeed(w: nat)
    | StartRun(w: nat)
    | AdvanceCursor(w: nat, forwardOnly: bool)
    | ReadPollCursor(w: nat, workflow: string)
    | PollSource(w: nat)
    | DeliverPolled(w: nat, gaps: seq<nat>)
    | AdvancePollCursor(w: nat, forwardOnly: bool)
    | ReceiveHook(w: nat, ids: seq<string>, gaps: seq<nat>)
    | Acknowledge(w: nat)
    | TakeLock(w: nat)
    | ReadResume(w: nat)
    | Subscribe(w: nat)
    | DeliverStream(w: nat, n: nat, gaps: seq<nat>)
    | EndRun(run: string, completed: bool)
    | RetryRun(run: string)
    | Stop(w: nat)

  // ----- The contracts of the source, the stores and the starter ------------

  /** What "Position orders events" leaves open: two events may share a position. */
  ghost predicate Nondecreasing(feed: seq<Event>) {
    forall i, j :: 0 <= i < j < |feed| ==> feed[i].pos <= feed[j].pos
  }

  /** Positions are distinct, in order, and past the cursor of a source never read. */
  ghost predicate Increasing(feed: seq<Event>) {
    && (forall i, j :: 0 <= i < j < |feed| ==> feed[i].pos < feed[j].pos)
    && (forall i :: 0 <= i < |feed| ==> feed[i].pos > 0)
  }

  ghost predicate DistinctIds(feed: seq<Event>) {
    forall i, j :: 0 <= i < j < |feed| ==> feed[i].id != feed[j].id
  }

  function Past(feed: seq<Event>, after: int): seq<Event> {
    if feed == [] then []
    else if feed[0].pos > after then [feed[0]] + Past(feed[1..], after)
    else Past(feed[1..], after)
  }

  /** Source.Poll and Inbox.Inbox: the first `limit` events past a position. */
  function Batch(feed: seq<Event>, after: int, limit: nat): seq<Event> {
    var past := Past(feed, after);
    if |past| <= limit then past else past[..limit]
  }

  function Ids(events: seq<Event>): (ids: seq<string>)
    ensures |ids| == |events| && forall i :: 0 <= i < |ids| ==> ids[i] == events[i].id
  {
    seq(|events|, i requires 0 <= i < |events| => events[i].id)
  }

  predicate Holds(inbox: seq<Event>, id: string) {
    exists i :: 0 <= i < |inbox| && inbox[i].id == id
  }

  /** The sequence number of a new row: past every earlier one, with gaps where inserts were dropped. */
  function NextSeq(inbox: seq<Event>, gap: nat): int {
    (if inbox == [] then 1 else Max(1, inbox[|inbox| - 1].pos + 1)) + gap
  }

  /** Inbox.Deliver: stores the IDs it does not hold yet. */
  function Insert(inbox: seq<Event>, ids: seq<string>, gaps: seq<nat>): seq<Event>
    decreases |ids|
  {
    if ids == [] then inbox
    else
      var gap := if gaps == [] then 0 else gaps[0];
      var more := if gaps == [] then [] else gaps[1..];
      if Holds(inbox, ids[0]) then Insert(inbox, ids[1..], more)
      else Insert(inbox + [Event(ids[0], NextSeq(inbox, gap))], ids[1..], more)
  }

  function RunId(workflow: string, event: string): string { workflow + "/" + event }

  predicate AllFailed(runs: seq<Run>) {
    forall i :: 0 <= i < |runs| ==> runs[i].status == Failed
  }

  /** Starter.Start: nothing happens when a run with this ID is running or completed. */
  function Start(runs: map<string, seq<Run>>, workflow: string, event: string): map<string, seq<Run>> {
    var id := RunId(workflow, event);
    var earlier := if id in runs then runs[id] else [];
    if AllFailed(earlier) then runs[id := earlier + [Run(workflow, event, Running)]] else runs
  }

  function CursorValue(s: State, name: Cursor): int {
    if name in s.cursors then s.cursors[name] else 0
  }

  /**
   * CursorStore.SetCursor.  The interface does not say whether a position may
   * move back; the Postgres store keeps the greater one.  Both are steps.
   */
  function SetCursor(s: State, name: Cursor, pos: int, forwardOnly: bool): State {
    var value := if forwardOnly then Max(CursorValue(s, name), pos) else pos;
    s.(cursors := s.cursors[name := value], stored := s.stored + {(name, value)})
  }

  // ----- The steps -----------------------------------------------------------

  function PcOf(s: State, w: nat): Pc {
    if w in s.workers then s.workers[w] else Idle
  }

  function Move(s: State, w: nat, pc: Pc): State { s.(workers := s.workers[w := pc]) }

  function Emitted(c: Config, s: State): seq<Event>
  {
    if s.emitted <= |c.log| then c.log[..s.emitted] else c.log
  }

  /** What the dispatcher drains: the source itself, or the inbox. */
  function Feed(c: Config, s: State): seq<Event> {
    if c.mode == Polled then Emitted(c, s) else s.inbox
  }

  function DrainCursor(c: Config, workflow: string): Cursor {
    if c.mode == Polled then PollCursor(workflow) else InboxCursor(workflow)
  }

  const INIT := State(0, 0, [], map[], {}, map[], None, {}, None, {}, None, map[])

  /** The state after a step, or None when the step cannot be taken. */
  function Apply(c: Config, s: State, a: Action): Option<State> {
    match a
    case SourceEmits => if s.emitted < |c.log| then Some(s.(emitted := s.emitted + 1)) else None
    case StreamEmits => if s.streamed < |c.stream| then Some(s.(streamed := s.streamed + 1)) else None
    case EndRun(run, completed) =>
      if run in s.runs && s.runs[run] != [] && s.runs[run][|s.runs[run]| - 1].status == Running then
        var n := |s.runs[run]| - 1;
        var ended := s.runs[run][n].(status := if completed then Completed else Failed);
        Some(s.(runs := s.runs[run := s.runs[run][n := ended]]))
      else None
    case RetryRun(run) =>
      if run in s.runs && s.runs[run] != [] && AllFailed(s.runs[run]) then
        Some(s.(runs := s.runs[run := s.runs[run] + [s.runs[run][0].(status := Running)]]))
      else None
    case Stop(w) => Some(Move(Release(s, w), w, Idle))
    case _ => ApplyWorker(c, s, a)
  }

  function ApplyWorker(c: Config, s: State, a: Action): Option<State>
    requires !a.SourceEmits? && !a.StreamEmits? && !a.EndRun? && !a.RetryRun? && !a.Stop?
  {
    var pc := PcOf(s, a.w);
    match a
    case ReadCursor(w, wf) =>
      if pc.Idle? && wf in c.workflows then Some(Move(s, w, DrainAt(wf, CursorValue(s, DrainCursor(c, wf))))) else None
    case ReadFeed(w) =>
      if pc.DrainAt? then Some(Move(s, w, Draining(pc.workflow, Batch(Feed(c, s), pc.pos, c.batch), false))) else None
    case StartRun(w) =>
      if pc.Draining? && pc.pending != [] && !pc.begun then
        Some(Move(s.(runs := Start(s.runs, pc.workflow, pc.pending[0].id)), w, pc.(begun := true)))
      else None
    case AdvanceCursor(w, fwd) =>
      if pc.Draining? && pc.pending != [] && pc.begun then
        Some(Move(SetCursor(s, DrainCursor(c, pc.workflow), pc.pending[0].pos, fwd), w, Draining(pc.workflow, pc.pending[1..], false)))
      else None
    case ReadPollCursor(w, wf) =>
      if c.mode == Hooked && pc.Idle? && wf in c.workflows then
        Some(Move(s, w, ReconcileAt(wf, CursorValue(s, PollCursor(wf)))))
      else None
    case PollSource(w) =>
      if pc.ReconcileAt? then Some(Move(s, w, Fetched(pc.workflow, Batch(Emitted(c, s), pc.pos, c.batch)))) else None
    case DeliverPolled(w, gaps) =>
      if pc.Fetched? && pc.events != [] then
        Some(Move(s.(inbox := Insert(s.inbox, Ids(pc.events), gaps)), w, Delivered(pc.workflow, pc.events)))
      else None
    case AdvancePollCursor(w, fwd) =>
      if pc.Delivered? && pc.events != [] then
        Some(Move(SetCursor(s, PollCursor(pc.workflow), pc.events[|pc.events| - 1].pos, fwd), w, Idle))
      else None
    case ReceiveHook(w, ids, gaps) =>
      if c.mode == Hooked && pc.Idle? then Some(Move(s.(inbox := Insert(s.inbox, ids, gaps)), w, Received(ids))) else None
    case Acknowledge(w) =>
      if pc.Received? then Some(Move(s.(acked := s.acked + set id | id in pc.ids), w, Idle)) else None
    case TakeLock(w) =>
      if c.mode == Streamed && pc.Idle? && (c.exclusive ==> s.holder == None) then Some(Move(s.(holder := Some(w)), w, Standing)) else None
    case ReadResume(w) =>
      if pc.Standing? then Some(Move(s, w, Resuming(s.resume))) else None
    case Subscribe(w) =>
      if pc.Resuming? then
        Some(Move(s, w, match pc.from case None => Subscribed(s.streamed, Some(s.streamed)) case Some(r) => Subscribed(r, None)))
      else None
    case DeliverStream(w, n, gaps) =>
      if pc.Subscribed? && pc.at + n <= s.streamed <= |c.stream| then
        var next := pc.at + n;
        Some(Move(s.(inbox := Insert(s.inbox, c.stream[pc.at..next], gaps),
                     resume := Some(next), resumes := s.resumes + {next}, origin := Later(s.origin, pc.start)),
                  w, Subscribed(next, None)))
      else None
  }

  /** A worker that stops gives up the lock. */
  function Release(s: State, w: nat): State {
    if s.holder == Some(w) then s.(holder := None) else s
  }

  function Later(a: Option<nat>, b: Option<nat>): Option<nat> {
    if a.None? then b else if b.None? then a else Some(Max(a.value, b.value))
  }

  /** The state after a run of steps. */
  function Exec(c: Config, s: State, acts: seq<Action>): Option<State> {
    if acts == [] then Some(s)
    else
      match Exec(c, s, acts[..|acts| - 1])
      case None => None
      case Some(t) => Apply(c, t, acts[|acts| - 1])
  }

  ghost predicate Reachable(c: Config, s: State) {
    exists acts :: Exec(c, INIT, acts) == Some(s)
  }
}

/**
 * The hot swap of the server that answers agents' requests: an atomic pointer
 * to the current generation, a read lock that each request holds while it is
 * served, and a retirement that takes the write lock before it closes.  The
 * module is a step system over any number of requests, swaps and closers.
 */
module Live {
  import opened Prelude

  /** One liveServer: the Server behind it, its lock and its flag. */
  datatype Generation = Generation(server: nat, closed: bool, readers: set<nat>, writer: Option<Actor>)

  /** Who holds a write lock: the goroutine of a swap, or a call of Close. */
  datatype Actor = Swapped(gen: nat) | Closer(id: nat)

  /** Where a request stands in ServeHTTP. */
  datatype Stage = Arrived | Loaded(gen: nat) | Locked(gen: nat) | Serving(gen: nat) | Unlocked(gen: nat) | Served(gen: nat) | ShuttingDown(gen: nat)

  /** `born` is how many generations there were when it arrived; `retries` how often it took a new one. */
  datatype Request = Request(stage: Stage, born: nat, retries: nat)

  /** Where a retirement stands; Swapping is before the swap has added its goroutine to the wait group. */
  datatype Retire = Swapping | Waiting | Holding | Closing | Finished

  datatype Retirement = Retirement(gen: nat, at: Retire)

  /** Where a call of Close stands; `quiet` tells whether no swap was under way when it stopped waiting, `since` how many generations there were. */
  datatype Close = Entered | Waited(since: nat, quiet: bool) | Retiring(since: nat, quiet: bool)

  /**
   * `gens` only grows; its last element is the current one.  `retirements`
   * has the goroutine of each swap and the retirement each Close has begun.
   * `calls` counts the Close calls each Server has received.
   */
  datatype State = State(
    gens: seq<Generation>,
    retirements: map<Actor, Retirement>,
    closers: map<nat, Close>,
    requests: map<nat, Request>,
    calls: map<nat, nat>)

  datatype Action =
    | Arrive(r: nat)
    | LoadCurrent(r: nat)
    | RLock(r: nat)
    | CheckClosed(r: nat)
    | RUnlockServed(r: nat)
    | LookAgain(r: nat)
    | Swap(server: nat)
    | RetireStep(actor: Actor)
    | EnterClose(c: nat)
    | WaitRetired(c: nat)
    | LoadForClose(c: nat)

  function Init(server: nat): State {
    State([Generation(server, false, {}, None)], map[], map[], map[], map[])
  }

  function Current(s: State): nat
    requires s.gens != []
  {
    |s.gens| - 1
  }

  function CallsOf(calls: map<nat, nat>, server: nat): nat { if server in calls then calls[server] else 0 }

  /** sync.WaitGroup.Wait: every goroutine added so far has finished. */
  predicate AllRetired(s: State) {
    forall a :: a in s.retirements && a.Swapped? ==> s.retirements[a].at == Finished || s.retirements[a].at == Swapping
  }

  predicate Quiet(s: State) {
    forall a :: a in s.retirements && a.Swapped? ==> s.retirements[a].at == Finished
  }

  /** retire(): take the write lock, set the flag and close the Server unless it is set, unlock. */
  function RetireOnce(s: State, actor: Actor, g: nat, at: Retire): Option<State> {
    if g >= |s.gens| then None
    else
      var gen := s.gens[g];
      match at
      case Swapping => Some(s.(retirements := s.retirements[actor := Retirement(g, Waiting)]))
      case Waiting =>
        if gen.readers == {} && gen.writer == None then
          Some(s.(gens := s.gens[g := gen.(writer := Some(actor))], retirements := s.retirements[actor := Retirement(g, Holding)]))
        else None
      case Holding =>
        var t := s.(retirements := s.retirements[actor := Retirement(g, Closing)]);
        if gen.closed then Some(t)
        else Some(t.(gens := s.gens[g := gen.(closed := true)], calls := s.calls[gen.server := CallsOf(s.calls, gen.server) + 1]))
      case Closing =>
        Some(s.(gens := s.gens[g := gen.(writer := None)], retirements := s.retirements[actor := Retirement(g, Finished)]))
      case Finished => None
  }

  function Apply(s: State, a: Action): Option<State> {
    match a
    case Arrive(r) => if r in s.requests then None else Some(s.(requests := s.requests[r := Request(Arrived, |s.gens|, 0)]))
    case Swap(server) =>
      if s.gens == [] then None
      else
        Some(s.(gens := s.gens + [Generation(server, false, {}, None)],
                retirements := s.retirements[Swapped(Current(s)) := Retirement(Current(s), Swapping)]))
    case RetireStep(actor) =>
      if actor in s.retirements then RetireOnce(s, actor, s.retirements[actor].gen, s.retirements[actor].at) else None
    case EnterClose(c) => if c in s.closers then None else Some(s.(closers := s.closers[c := Entered]))
    case WaitRetired(c) =>
      if c in s.closers && s.closers[c] == Entered && AllRetired(s) then
        Some(s.(closers := s.closers[c := Waited(|s.gens|, Quiet(s))]))
      else None
    case LoadForClose(c) =>
      if c in s.closers && s.closers[c].Waited? && s.gens != [] then
        Some(s.(closers := s.closers[c := Retiring(s.closers[c].since, s.closers[c].quiet)],
                retirements := s.retirements[Closer(c) := Retirement(Current(s), Waiting)]))
      else None
    case _ => if a.r in s.requests then ApplyRequest(s, a, s.requests[a.r]) else None
  }

  /** ServeHTTP. */
  function ApplyRequest(s: State, a: Action, q: Request): Option<State>
    requires a.LoadCurrent? || a.RLock? || a.CheckClosed? || a.RUnlockServed? || a.LookAgain?
  {
    var st := q.stage;
    match a
    case LoadCurrent(r) =>
      if st.Arrived? && s.gens != [] then Some(Stand(s, r, q, Loaded(Current(s)))) else None
    case RLock(r) =>
      if st.Loaded? && st.gen < |s.gens| && s.gens[st.gen].writer == None then
        var gen := s.gens[st.gen];
        Some(Stand(s.(gens := s.gens[st.gen := gen.(readers := gen.readers + {r})]), r, q, Locked(st.gen)))
      else None
    case CheckClosed(r) =>
      if st.Locked? && st.gen < |s.gens| then
        var gen := s.gens[st.gen];
        if gen.closed then Some(Stand(s.(gens := s.gens[st.gen := gen.(readers := gen.readers - {r})]), r, q, Unlocked(st.gen)))
        else Some(Stand(s, r, q, Serving(st.gen)))
      else None
    case RUnlockServed(r) =>
      if st.Serving? && st.gen < |s.gens| then
        var gen := s.gens[st.gen];
        Some(Stand(s.(gens := s.gens[st.gen := gen.(readers := gen.readers - {r})]), r, q, Served(st.gen)))
      else None
    case LookAgain(r) =>
      if st.Unlocked? && s.gens != [] then
        if Current(s) == st.gen then Some(Stand(s, r, q, ShuttingDown(st.gen)))
        else Some(Stand(s, r, q.(retries := q.retries + 1), Arrived))
      else None
  }

  function Stand(s: State, r: nat, q: Request, stage: Stage): State {
    s.(requests := s.requests[r := q.(stage := stage)])
  }

  function Exec(server: nat, acts: seq<Action>): Option<State> {
    if acts == [] then Some(Init(server))
    else
      match Exec(server, acts[..|acts| - 1])
      case None => None
      case Some(s) => Apply(s, acts[|acts| - 1])
  }

  ghost predicate Reachable(s: State) {
    exists server, acts :: Exec(server, acts) == Some(s)
  }

  // ----- The invariant -------------------------------------------------------

  type Gens = seq<Generation>
  type Retirements = map<Actor, Retirement>

  /** A retirement that holds the write lock. */
  predicate Holds(at: Retire) { at == Holding || at == Closing }

  /** A retirement past closing. */
  predicate Past(at: Retire) { at == Closing || at == Finished }

  /** The goroutines of swaps are those of the generations before the current one. */
  ghost predicate GensOk(gens: Gens, retirements: Retirements) {
    && gens != []
    && (forall a :: a in retirements ==> retirements[a].gen < |gens|)
    && (forall g: nat :: Swapped(g) in retirements <==> g < |gens| - 1)
    && (forall g :: Swapped(g) in retirements ==> retirements[Swapped(g)].gen == g)
  }

  /** A write lock is held by the retirement that says so, by no other, and by no reader. */
  ghost predicate LocksOk(gens: Gens, retirements: Retirements) {
    && (forall a :: a in retirements && retirements[a].gen < |gens| ==>
          (Holds(retirements[a].at) <==> gens[retirements[a].gen].writer == Some(a)))
    && (forall g :: 0 <= g < |gens| && gens[g].writer.Some? ==>
          gens[g].writer.value in retirements && retirements[gens[g].writer.value].gen == g)
    && (forall g :: 0 <= g < |gens| && gens[g].writer.Some? ==> gens[g].readers == {})
  }

  predicate Reads(q: Request, g: int) { (q.stage.Locked? || q.stage.Serving?) && q.stage.gen == g }

  ghost predicate ReadersOk(gens: Gens, requests: map<nat, Request>) {
    forall r, g :: 0 <= g < |gens| ==> (r in gens[g].readers <==> r in requests && Reads(requests[r], g))
  }

  /** The flag is set exactly by a retirement past closing. */
  ghost predicate ClosedOk(gens: Gens, retirements: Retirements) {
    forall g: nat :: g < |gens| ==> (gens[g].closed <==> ClosedBy(retirements, g))
  }

  ghost predicate ClosedBy(retirements: Retirements, g: nat) {
    exists a :: Retired(retirements, a, g)
  }

  ghost predicate Retired(retirements: Retirements, a: Actor, g: nat) {
    a in retirements && retirements[a].gen == g && Past(retirements[a].at)
  }

  ghost predicate ClosedByCloser(retirements: Retirements, g: nat) {
    exists c :: Retired(retirements, Closer(c), g)
  }

  ghost predicate RequestOk(gens: Gens, retirements: Retirements, q: Request) {
    && 1 <= q.born && q.retries + q.born <= |gens|
    && (!q.stage.Arrived? ==> q.stage.gen < |gens| && q.retries + q.born <= q.stage.gen + 1)
    && (q.stage.Serving? ==> !gens[q.stage.gen].closed)
    && (q.stage.Unlocked? ==> gens[q.stage.gen].closed)
    && (q.stage.ShuttingDown? ==> ClosedByCloser(retirements, q.stage.gen))
  }

  ghost predicate RequestsOk(gens: Gens, retirements: Retirements, requests: map<nat, Request>) {
    forall r :: r in requests ==> RequestOk(gens, retirements, requests[r])
  }

  /** A call of Close that met no swap has seen every earlier generation closed. */
  ghost predicate ClosersOk(gens: Gens, retirements: Retirements, closers: map<nat, Close>) {
    && (forall c :: c in closers && !closers[c].Entered? && closers[c].quiet ==> EarlierClosed(gens, closers[c].since))
    && (forall c :: Closer(c) in retirements <==> c in closers && closers[c].Retiring?)
  }

  ghost predicate EarlierClosed(gens: Gens, since: nat) {
    since <= |gens| && forall g :: 0 <= g < since - 1 ==> gens[g].closed
  }

  ghost predicate Distinct(gens: Gens) {
    forall i, j :: 0 <= i < j < |gens| ==> gens[i].server != gens[j].server
  }

  /** A Server has been closed as often as its generation says: once, or not at all. */
  ghost predicate CallsOk(gens: Gens, calls: map<nat, nat>) {
    && (forall g :: 0 <= g < |gens| ==> CallsOf(calls, gens[g].server) == if gens[g].closed then 1 else 0)
    && (forall server :: server in calls ==> exists g :: 0 <= g < |gens| && gens[g].server == server)
  }

  ghost predicate Inv(s: State) {
    && GensOk(s.gens, s.retirements)
    && LocksOk(s.gens, s.retirements)
    && ReadersOk(s.gens, s.requests)
    && ClosedOk(s.gens, s.retirements)
    && RequestsOk(s.gens, s.retirements, s.requests)
    && ClosersOk(s.gens, s.retirements, s.closers)
    && (Distinct(s.gens) ==> CallsOk(s.gens, s.calls))
  }

  // ----- Every step keeps it -------------------------------------------------

  lemma StandKeeps(s: State, r: nat, q: Request)
    requires Inv(s) && RequestOk(s.gens, s.retirements, q)
    requires if r in s.requests then forall g :: Reads(s.requests[r], g) <==> Reads(q, g) else q.stage.Arrived?
    ensures Inv(s.(requests := s.requests[r := q]))
  {
  }

  /** A request takes the read lock, or gives it back. */
  lemma ReaderKeeps(s: State, g: nat, readers: set<nat>)
    requires Inv(s) && g < |s.gens| && (s.gens[g].writer.Some? ==> readers == {})
    ensures var gens := s.gens[g := s.gens[g].(readers := readers)];
      && GensOk(gens, s.retirements) && LocksOk(gens, s.retirements) && ClosedOk(gens, s.retirements)
      && RequestsOk(gens, s.retirements, s.requests) && ClosersOk(gens, s.retirements, s.closers)
      && (Distinct(gens) ==> CallsOk(gens, s.calls))
  {
    hide ReadersOk, CallsOk, ClosedBy, ClosedByCloser, Distinct;
    var gens := s.gens[g := s.gens[g].(readers := readers)];
    CallsStep(s.gens, gens, s.calls, g);
  }

  /** A retirement begins or goes on: a generation becomes retired only when it passes closing. */
  lemma Advance(retirements: Retirements, actor: Actor, g: nat, at: Retire)
    requires actor in retirements ==> retirements[actor].gen == g && (Past(retirements[actor].at) ==> Past(at))
    ensures var after := retirements[actor := Retirement(g, at)];
      && (forall h: nat :: ClosedBy(after, h) <==> ClosedBy(retirements, h) || (h == g && Past(at)))
      && (forall h: nat :: ClosedByCloser(retirements, h) ==> ClosedByCloser(after, h))
  {
    var after := retirements[actor := Retirement(g, at)];
    forall h: nat, a ensures Retired(after, a, h) <==> Retired(retirements, a, h) || (a == actor && h == g && Past(at)) {
    }
    forall h: nat | ClosedBy(retirements, h) ensures ClosedBy(after, h) {
      var a :| Retired(retirements, a, h);
      assert Retired(after, a, h);
    }
    forall h: nat | ClosedByCloser(retirements, h) ensures ClosedByCloser(after, h) {
      var c :| Retired(retirements, Closer(c), h);
      assert Retired(after, Closer(c), h);
    }
    if Past(at) { assert Retired(after, actor, g); }
  }

  /** Only one generation changed, and not its Server. */
  ghost predicate Only(gens: Gens, after: Gens, g: nat) {
    && g < |gens| == |after| && after[g].server == gens[g].server
    && forall i :: 0 <= i < |gens| && i != g ==> after[i] == gens[i]
  }

  lemma LocksStep(gens: Gens, after: Gens, retirements: Retirements, actor: Actor, g: nat, at: Retire)
    requires LocksOk(gens, retirements) && Only(gens, after, g) && actor in retirements && retirements[actor].gen == g
    requires gens[g].writer.None? || gens[g].writer == Some(actor)
    requires after[g].writer == if Holds(at) then Some(actor) else None
    requires after[g].writer.Some? ==> after[g].readers == {}
    ensures LocksOk(after, retirements[actor := Retirement(g, at)])
  {
  }

  /** A retirement that neither has nor takes the lock. */
  lemma LocksQuiet(gens: Gens, retirements: Retirements, actor: Actor, g: nat, at: Retire)
    requires LocksOk(gens, retirements) && g < |gens| && !Holds(at)
    requires if actor in retirements then retirements[actor].gen == g && !Holds(retirements[actor].at)
             else gens[g].writer != Some(actor)
    ensures LocksOk(gens, retirements[actor := Retirement(g, at)])
  {
  }

  lemma ClosedStep(gens: Gens, after: Gens, retirements: Retirements, actor: Actor, g: nat, at: Retire)
    requires ClosedOk(gens, retirements) && Only(gens, after, g) && actor in retirements && retirements[actor].gen == g
    requires Past(retirements[actor].at) ==> Past(at)
    requires after[g].closed <==> gens[g].closed || Past(at)
    ensures ClosedOk(after, retirements[actor := Retirement(g, at)])
  {
    Advance(retirements, actor, g, at);
    hide ClosedBy;
  }

  lemma RequestsStep(s: State, after: Gens, actor: Actor, g: nat, at: Retire)
    requires RequestsOk(s.gens, s.retirements, s.requests) && ReadersOk(s.gens, s.requests) && Only(s.gens, after, g)
    requires actor in s.retirements && s.retirements[actor].gen == g && (Past(s.retirements[actor].at) ==> Past(at))
    requires after[g].readers == s.gens[g].readers
    requires s.gens[g].closed ==> after[g].closed
    requires after[g].closed && !s.gens[g].closed ==> s.gens[g].readers == {}
    ensures RequestsOk(after, s.retirements[actor := Retirement(g, at)], s.requests) && ReadersOk(after, s.requests)
  {
    Advance(s.retirements, actor, g, at);
    hide ClosedBy, ClosedByCloser;
    forall r | r in s.requests ensures RequestOk(after, s.retirements[actor := Retirement(g, at)], s.requests[r]) {
      var q := s.requests[r];
      if q.stage.Serving? && q.stage.gen == g {
        assert Reads(q, g);
        assert r in s.gens[g].readers;
      }
    }
  }

  lemma ClosersStep(gens: Gens, after: Gens, retirements: Retirements, closers: map<nat, Close>, actor: Actor, g: nat, at: Retire)
    requires ClosersOk(gens, retirements, closers) && Only(gens, after, g) && actor in retirements
    requires gens[g].closed ==> after[g].closed
    ensures ClosersOk(after, retirements[actor := Retirement(g, at)], closers)
  {
  }

  lemma CallsStep(gens: Gens, after: Gens, calls: map<nat, nat>, g: nat)
    requires Only(gens, after, g) && after[g].closed == gens[g].closed && (Distinct(gens) ==> CallsOk(gens, calls))
    ensures Distinct(after) ==> CallsOk(after, calls)
  {
    assert forall i :: 0 <= i < |gens| ==> after[i].server == gens[i].server && after[i].closed == gens[i].closed;
    if Distinct(after) {
      assert forall i, j :: 0 <= i < j < |gens| ==> after[i].server != after[j].server ==> gens[i].server != gens[j].server;
      forall server | server in calls ensures exists i :: 0 <= i < |after| && after[i].server == server {
        var i :| 0 <= i < |gens| && gens[i].server == server;
        assert after[i].server == server;
      }
    }
  }

  lemma CallsClosing(gens: Gens, after: Gens, calls: map<nat, nat>, g: nat)
    requires Only(gens, after, g) && !gens[g].closed && after[g].closed && (Distinct(gens) ==> CallsOk(gens, calls))
    ensures Distinct(after) ==> CallsOk(after, calls[gens[g].server := CallsOf(calls, gens[g].server) + 1])
  {
    assert forall i :: 0 <= i < |gens| ==> after[i].server == gens[i].server;
    if Distinct(after) {
      assert forall i, j :: 0 <= i < j < |gens| ==> after[i].server != after[j].server ==> gens[i].server != gens[j].server;
      var more := calls[gens[g].server := CallsOf(calls, gens[g].server) + 1];
      forall i | 0 <= i < |after| ensures CallsOf(more, after[i].server) == if after[i].closed then 1 else 0 {
        assert i != g ==> after[i].server != after[g].server;
      }
      forall server | server in more ensures exists i :: 0 <= i < |after| && after[i].server == server {
        if server == gens[g].server {
          assert after[g].server == server;
        } else {
          var i :| 0 <= i < |gens| && gens[i].server == server;
          assert after[i].server == server;
        }
      }
    }
  }

  /** A step of a retirement: what it may do to its generation. */
  lemma RetireTo(s: State, actor: Actor, g: nat, at: Retire, gen: Generation, calls: map<nat, nat>)
    requires Inv(s) && actor in s.retirements && s.retirements[actor].gen == g && g < |s.gens|
    requires Past(s.retirements[actor].at) ==> Past(at)
    requires gen == s.gens[g].(writer := gen.writer, closed := gen.closed) && (gen.closed <==> s.gens[g].closed || Past(at))
    requires gen.closed && !s.gens[g].closed ==> gen.readers == {}
    requires LocksOk(s.gens[g := gen], s.retirements[actor := Retirement(g, at)])
    requires Distinct(s.gens[g := gen]) ==> CallsOk(s.gens[g := gen], calls)
    ensures Inv(s.(gens := s.gens[g := gen], retirements := s.retirements[actor := Retirement(g, at)], calls := calls))
  {
    hide LocksOk, ClosedOk, RequestsOk, ReadersOk, ClosersOk, CallsOk, Distinct;
    var gens := s.gens[g := gen];
    ClosedStep(s.gens, gens, s.retirements, actor, g, at);
    RequestsStep(s, gens, actor, g, at);
    ClosersStep(s.gens, gens, s.retirements, s.closers, actor, g, at);
  }

  lemma RetireStepKeeps(s: State, actor: Actor)
    requires Inv(s) && Apply(s, RetireStep(actor)).Some?
    ensures Inv(Apply(s, RetireStep(actor)).value)
  {
    hide LocksOk, ClosedOk, RequestsOk, ReadersOk, ClosersOk, CallsOk, Distinct, GensOk;
    HoldsLock(s, actor);
    var g, at := s.retirements[actor].gen, s.retirements[actor].at;
    if Past(at) { ClosedBefore(s, actor); }
    var gen := s.gens[g];
    assert s.gens[g := gen] == s.gens;
    match at
    case Swapping =>
      LocksQuiet(s.gens, s.retirements, actor, g, Waiting);
      RetireTo(s, actor, g, Waiting, gen, s.calls);
    case Waiting =>
      var after := s.gens[g := gen.(writer := Some(actor))];
      LocksStep(s.gens, after, s.retirements, actor, g, Holding);
      CallsStep(s.gens, after, s.calls, g);
      RetireTo(s, actor, g, Holding, gen.(writer := Some(actor)), s.calls);
    case Holding =>
      var after := s.gens[g := gen.(closed := true)];
      LocksStep(s.gens, after, s.retirements, actor, g, Closing);
      if gen.closed {
        assert after == s.gens;
        RetireTo(s, actor, g, Closing, gen, s.calls);
      } else {
        CallsClosing(s.gens, after, s.calls, g);
        RetireTo(s, actor, g, Closing, gen.(closed := true), s.calls[gen.server := CallsOf(s.calls, gen.server) + 1]);
      }
    case Closing =>
      var after := s.gens[g := gen.(writer := None)];
      LocksStep(s.gens, after, s.retirements, actor, g, Finished);
      CallsStep(s.gens, after, s.calls, g);
      RetireTo(s, actor, g, Finished, gen.(writer := None), s.calls);
  }

  lemma HoldsLock(s: State, actor: Actor)
    requires Inv(s) && actor in s.retirements
    ensures var g := s.retirements[actor].gen;
      && g < |s.gens|
      && (Holds(s.retirements[actor].at) <==> s.gens[g].writer == Some(actor))
      && (s.gens[g].writer.Some? ==> s.gens[g].readers == {})
  {
  }

  lemma ClosedBefore(s: State, actor: Actor)
    requires Inv(s) && actor in s.retirements && Past(s.retirements[actor].at)
    ensures s.gens[s.retirements[actor].gen].closed
  {
    assert Retired(s.retirements, actor, s.retirements[actor].gen);
  }

  /** A new generation is open, unlocked and read by nobody. */
  lemma SwapKeeps(s: State, server: nat)
    requires Inv(s)
    ensures Inv(Apply(s, Swap(server)).value)
  {
    hide LocksOk, ClosedOk, RequestsOk, ReadersOk, ClosersOk, CallsOk, Distinct;
    var cur := Current(s);
    var t := Apply(s, Swap(server)).value;
    var mid := s.retirements[Swapped(cur) := Retirement(cur, Swapping)];
    assert t.retirements == mid;
    Advance(s.retirements, Swapped(cur), cur, Swapping);
    NotWriter(s, Swapped(cur));
    LocksQuiet(s.gens, s.retirements, Swapped(cur), cur, Swapping);
    ClosedSame(s.gens, s.retirements, mid);
    SwapClosed(s.gens, mid, t.gens);
    SwapLocks(s.gens, mid, t.gens);
    SwapRequests(s, mid, t.gens);
    SwapClosers(s, mid, t.gens);
    if Distinct(t.gens) { SwapCalls(s, server); }
  }

  lemma NotWriter(s: State, actor: Actor)
    requires Inv(s) && actor !in s.retirements
    ensures forall g :: 0 <= g < |s.gens| ==> s.gens[g].writer != Some(actor)
  {
  }

  lemma ClosedSame(gens: Gens, retirements: Retirements, after: Retirements)
    requires ClosedOk(gens, retirements) && forall h: nat :: ClosedBy(after, h) <==> ClosedBy(retirements, h)
    ensures ClosedOk(gens, after)
  {
    hide ClosedBy;
  }

  ghost predicate NewGeneration(gens: Gens, after: Gens) {
    && |after| == |gens| + 1 && after[..|gens|] == gens
    && !after[|gens|].closed && after[|gens|].readers == {} && after[|gens|].writer == None
  }

  lemma SwapClosed(gens: Gens, retirements: Retirements, after: Gens)
    requires NewGeneration(gens, after) && ClosedOk(gens, retirements)
    requires forall a :: a in retirements ==> retirements[a].gen < |gens|
    ensures ClosedOk(after, retirements)
  {
    assert !ClosedBy(retirements, |gens|);
    hide ClosedBy;
    assert forall g :: 0 <= g < |gens| ==> after[g] == gens[g];
  }

  lemma SwapLocks(gens: Gens, retirements: Retirements, after: Gens)
    requires NewGeneration(gens, after) && LocksOk(gens, retirements)
    requires forall a :: a in retirements ==> retirements[a].gen < |gens|
    ensures LocksOk(after, retirements)
  {
    assert forall g :: 0 <= g < |gens| ==> after[g] == gens[g];
  }

  lemma SwapRequests(s: State, retirements: Retirements, after: Gens)
    requires NewGeneration(s.gens, after) && ReadersOk(s.gens, s.requests) && RequestsOk(s.gens, s.retirements, s.requests)
    requires forall h: nat :: ClosedByCloser(s.retirements, h) ==> ClosedByCloser(retirements, h)
    ensures ReadersOk(after, s.requests) && RequestsOk(after, retirements, s.requests)
  {
    hide ClosedByCloser;
    assert forall g :: 0 <= g < |s.gens| ==> after[g] == s.gens[g];
    forall r | r in s.requests ensures RequestOk(after, retirements, s.requests[r]) && !Reads(s.requests[r], |s.gens|) {
    }
  }

  lemma SwapClosers(s: State, retirements: Retirements, after: Gens)
    requires NewGeneration(s.gens, after) && ClosersOk(s.gens, s.retirements, s.closers)
    requires forall c :: Closer(c) in retirements <==> Closer(c) in s.retirements
    ensures ClosersOk(after, retirements, s.closers)
  {
    assert forall g :: 0 <= g < |s.gens| ==> after[g] == s.gens[g];
  }

  lemma SwapCalls(s: State, server: nat)
    requires Inv(s) && Distinct(Apply(s, Swap(server)).value.gens)
    ensures CallsOk(Apply(s, Swap(server)).value.gens, s.calls)
  {
    var gens := Apply(s, Swap(server)).value.gens;
    assert forall g :: 0 <= g < |s.gens| ==> gens[g] == s.gens[g];
    assert forall i, j :: 0 <= i < j < |s.gens| ==> s.gens[i].server == gens[i].server && s.gens[j].server == gens[j].server;
    assert Distinct(s.gens);
    forall known | known in s.calls ensures known != server && exists g :: 0 <= g < |gens| && gens[g].server == known {
      var g :| 0 <= g < |s.gens| && s.gens[g].server == known;
      assert gens[g].server != gens[|s.gens|].server;
    }
  }

  // Calls of Close.

  lemma CloserKeeps(s: State, a: Action)
    requires Inv(s) && Apply(s, a).Some? && (a.EnterClose? || a.WaitRetired? || a.LoadForClose?)
    ensures Inv(Apply(s, a).value)
  {
    match a
    case EnterClose(c) => hide LocksOk, ClosedOk, RequestsOk, ReadersOk, CallsOk, Distinct;
    case WaitRetired(c) =>
      hide LocksOk, ClosedOk, RequestsOk, ReadersOk, CallsOk, Distinct;
      if Quiet(s) { QuietClosed(s); }
    case LoadForClose(c) => LoadForCloseKeeps(s, c);
  }

  lemma LoadForCloseKeeps(s: State, c: nat)
    requires Inv(s) && Apply(s, LoadForClose(c)).Some?
    ensures Inv(Apply(s, LoadForClose(c)).value)
  {
    hide LocksOk, ClosedOk, RequestsOk, ReadersOk, CallsOk, Distinct, ClosedBy, ClosedByCloser, EarlierClosed;
    assert Closer(c) !in s.retirements;
    var cur := Current(s);
    var after := s.retirements[Closer(c) := Retirement(cur, Waiting)];
    Advance(s.retirements, Closer(c), cur, Waiting);
    NotWriter(s, Closer(c));
    LocksQuiet(s.gens, s.retirements, Closer(c), cur, Waiting);
    ClosedSame(s.gens, s.retirements, after);
    LoadedRequests(s, after);
  }

  lemma QuietClosed(s: State)
    requires Inv(s) && Quiet(s)
    ensures EarlierClosed(s.gens, |s.gens|)
  {
    forall g: nat | g < |s.gens| - 1 ensures s.gens[g].closed {
      assert Retired(s.retirements, Swapped(g), g);
    }
  }

  lemma LoadedRequests(s: State, retirements: Retirements)
    requires RequestsOk(s.gens, s.retirements, s.requests)
    requires forall h: nat :: ClosedByCloser(s.retirements, h) ==> ClosedByCloser(retirements, h)
    ensures RequestsOk(s.gens, retirements, s.requests)
  {
    hide ClosedByCloser;
    forall r | r in s.requests ensures RequestOk(s.gens, retirements, s.requests[r]) {
    }
  }

  // Requests.

  /** "Shutting down" is answered only when the current generation is closed, which only Close does. */
  lemma CurrentClosedByCloser(s: State)
    requires Inv(s) && s.gens[Current(s)].closed
    ensures ClosedByCloser(s.retirements, Current(s))
  {
    var a :| Retired(s.retirements, a, Current(s));
    assert !a.Swapped?;
    assert Retired(s.retirements, Closer(a.id), Current(s));
  }

  lemma RequestKeeps(s: State, a: Action)
    requires Inv(s) && Apply(s, a).Some? && (a.Arrive? || a.LoadCurrent? || a.LookAgain?)
    ensures Inv(Apply(s, a).value)
  {
    match a
    case Arrive(r) => StandKeeps(s, r, Request(Arrived, |s.gens|, 0));
    case LoadCurrent(r) => StandKeeps(s, r, s.requests[r].(stage := Loaded(Current(s))));
    case LookAgain(r) =>
      var q := s.requests[r];
      if Current(s) == q.stage.gen {
        CurrentClosedByCloser(s);
        StandKeeps(s, r, q.(stage := ShuttingDown(q.stage.gen)));
      } else {
        StandKeeps(s, r, q.(retries := q.retries + 1, stage := Arrived));
      }
  }

  lemma RLockKeeps(s: State, r: nat)
    requires Inv(s) && Apply(s, RLock(r)).Some?
    ensures Inv(Apply(s, RLock(r)).value)
  {
    var q := s.requests[r];
    ReaderMoves(s, r, q.stage.gen, s.gens[q.stage.gen].readers + {r}, Locked(q.stage.gen));
  }

  lemma RUnlockKeeps(s: State, a: Action)
    requires Inv(s) && (a.CheckClosed? || a.RUnlockServed?) && Apply(s, a).Some?
    ensures Inv(Apply(s, a).value)
  {
    var q := s.requests[a.r];
    var g := q.stage.gen;
    assert a.r in s.gens[g].readers;
    match a
    case CheckClosed(r) =>
      if s.gens[g].closed {
        ReaderMoves(s, r, g, s.gens[g].readers - {r}, Unlocked(g));
      } else {
        StandKeeps(s, r, q.(stage := Serving(g)));
      }
    case RUnlockServed(r) => ReaderMoves(s, r, g, s.gens[g].readers - {r}, Served(g));
  }

  /** A request enters or leaves the readers of a generation as it moves on. */
  lemma ReaderMoves(s: State, r: nat, g: nat, readers: set<nat>, stage: Stage)
    requires Inv(s) && g < |s.gens| && r in s.requests && s.gens[g].writer.None?
    requires var q := s.requests[r].(stage := stage);
      && RequestOk(s.gens, s.retirements, q) && !stage.Serving?
      && (forall h :: h != g ==> !Reads(s.requests[r], h) && !Reads(q, h))
      && readers == if Reads(q, g) then s.gens[g].readers + {r} else s.gens[g].readers - {r}
    ensures Inv(Stand(s.(gens := s.gens[g := s.gens[g].(readers := readers)]), r, s.requests[r], stage))
  {
    hide LocksOk, ClosedOk, ClosersOk, CallsOk, Distinct, ClosedByCloser, RequestsOk;
    ReaderKeeps(s, g, readers);
    var gens := s.gens[g := s.gens[g].(readers := readers)];
    var t := Stand(s.(gens := gens), r, s.requests[r], stage);
    assert ReadersOk(gens, t.requests);
    assert RequestOk(gens, s.retirements, t.requests[r]);
    OneRequest(gens, s.retirements, s.requests, r, t.requests[r]);
  }

  lemma OneRequest(gens: Gens, retirements: Retirements, requests: map<nat, Request>, r: nat, q: Request)
    requires RequestsOk(gens, retirements, requests) && RequestOk(gens, retirements, q)
    ensures RequestsOk(gens, retirements, requests[r := q])
  {
    hide RequestOk;
  }

  lemma StepKeeps(s: State, a: Action)
    requires Inv(s) && Apply(s, a).Some?
    ensures Inv(Apply(s, a).value)
  {
    hide *;
    match a
    case Swap(server) => SwapKeeps(s, server);
    case RetireStep(actor) => RetireStepKeeps(s, actor);
    case RLock(r) => RLockKeeps(s, r);
    case CheckClosed(r) => RUnlockKeeps(s, a);
    case RUnlockServed(r) => RUnlockKeeps(s, a);
    case Arrive(_) => RequestKeeps(s, a);
    case LoadCurrent(_) => RequestKeeps(s, a);
    case LookAgain(_) => RequestKeeps(s, a);
    case _ => CloserKeeps(s, a);
  }

  lemma {:induction false} ExecKeeps(server: nat, acts: seq<Action>)
    requires Exec(server, acts).Some?
    ensures Inv(Exec(server, acts).value)
  {
    hide Inv, Apply;
    if acts == [] {
      InitInv(server);
    } else {
      ExecKeeps(server, acts[..|acts| - 1]);
      StepKeeps(Exec(server, acts[..|acts| - 1]).value, acts[|acts| - 1]);
    }
  }

  lemma InitInv(server: nat)
    ensures Inv(Init(server))
  {
  }

  lemma ReachableInv(s: State)
    requires Reachable(s)
    ensures Inv(s)
  {
    var server, acts :| Exec(server, acts) == Some(s);
    ExecKeeps(server, acts);
  }

  // ----- What requests and servers can rely on --------------------------------

  /** No request is being served by a Server that has been closed. */
  ghost predicate ServedOpen(s: State) {
    forall r :: r in s.requests && s.requests[r].stage.Serving? && s.requests[r].stage.gen < |s.gens| ==>
      CallsOf(s.calls, s.gens[s.requests[r].stage.gen].server) == 0
  }

  /** With a Server of its own for every swap, no request meets a closed one and each is closed at most once. */
  lemma NeverServedClosed(s: State)
    requires Reachable(s) && Distinct(s.gens)
    ensures ServedOpen(s)
    ensures forall server :: CallsOf(s.calls, server) <= 1
  {
    ReachableInv(s);
    forall server ensures CallsOf(s.calls, server) <= 1 {
      if server in s.calls { var g :| 0 <= g < |s.gens| && s.gens[g].server == server; }
    }
  }

  /** A request is answered "shutting down" only when a call of Close has retired that very generation. */
  lemma ShuttingDownAfterClose(s: State, r: nat)
    requires Reachable(s) && r in s.requests && s.requests[r].stage.ShuttingDown?
    ensures exists c :: Retired(s.retirements, Closer(c), s.requests[r].stage.gen)
  {
    ReachableInv(s);
  }

  /** A request retries at most once for each swap since it arrived. */
  lemma RetriesBounded(s: State, r: nat)
    requires Reachable(s) && r in s.requests
    ensures s.requests[r].retries <= |s.gens| - s.requests[r].born
  {
    ReachableInv(s);
  }

  /** The Servers handed to NewLive and Swap so far. */
  ghost predicate Given(s: State, servers: seq<nat>) {
    |s.gens| <= |servers| && forall g :: 0 <= g < |s.gens| ==> s.gens[g].server == servers[g]
  }

  /** Every interleaving is safe exactly when no Server is handed over twice. */
  lemma SafeExactlyWhenDistinct(servers: seq<nat>)
    requires servers != []
    ensures (forall s :: Reachable(s) && Given(s, servers) ==> ServedOpen(s)) <==>
            (forall i, j :: 0 <= i < j < |servers| ==> servers[i] != servers[j])
  {
    if i, j :| 0 <= i < j < |servers| && servers[i] == servers[j] {
      var s := ServesClosed(servers, i, j);
      assert Reachable(s) && Given(s, servers) && !ServedOpen(s);
    } else {
      forall s | Reachable(s) && Given(s, servers) ensures ServedOpen(s) {
        forall a, b | 0 <= a < b < |s.gens| ensures s.gens[a].server != s.gens[b].server {
          assert servers[a] != servers[b];
        }
        NeverServedClosed(s);
      }
    }
  }

  lemma Reach(s: State, a: Action) returns (t: State)
    requires Reachable(s) && Apply(s, a).Some?
    ensures Some(t) == Apply(s, a) && Reachable(t)
  {
    var server, acts :| Exec(server, acts) == Some(s);
    assert (acts + [a])[..|acts|] == acts;
    t := Apply(s, a).value;
    assert Exec(server, acts + [a]) == Some(t);
  }

  lemma {:induction false} SwapTo(servers: seq<nat>, n: nat) returns (s: State)
    requires n < |servers|
    ensures Reachable(s) && Given(s, servers) && |s.gens| == n + 1 && s.requests == map[]
    ensures forall g :: 0 <= g <= n ==> !s.gens[g].closed && s.gens[g].readers == {} && s.gens[g].writer == None
    ensures forall g: nat :: g < n ==> Swapped(g) in s.retirements && s.retirements[Swapped(g)] == Retirement(g, Swapping)
    ensures s.calls == map[]
  {
    if n == 0 {
      s := Init(servers[0]);
      assert Exec(servers[0], []) == Some(s);
    } else {
      var before := SwapTo(servers, n - 1);
      s := Reach(before, Swap(servers[n]));
    }
  }

  /** The earlier swap's goroutine closes the shared Server; the later generation then serves with it. */
  lemma ServesClosed(servers: seq<nat>, i: nat, j: nat) returns (s: State)
    requires i < j < |servers| && servers[i] == servers[j]
    ensures Reachable(s) && Given(s, servers) && !ServedOpen(s)
  {
    hide Reachable;
    s := SwapTo(servers, j);
    s := CloseEarlier(s, i);
    s := ServeCurrent(s);
    assert s.requests[0].stage == Serving(j);
  }

  lemma CloseEarlier(s: State, i: nat) returns (t: State)
    requires Reachable(s) && i + 1 < |s.gens| && Swapped(i) in s.retirements && s.retirements[Swapped(i)] == Retirement(i, Swapping)
    requires !s.gens[i].closed && s.gens[i].readers == {} && s.gens[i].writer == None && s.calls == map[]
    ensures Reachable(t) && t.requests == s.requests && |t.gens| == |s.gens| && CallsOf(t.calls, s.gens[i].server) == 1
    ensures forall g :: 0 <= g < |s.gens| ==> t.gens[g].server == s.gens[g].server && (g != i ==> t.gens[g] == s.gens[g])
  {
    hide Reachable;
    t := Reach(s, RetireStep(Swapped(i)));
    t := Reach(t, RetireStep(Swapped(i)));
    t := Reach(t, RetireStep(Swapped(i)));
  }

  lemma ServeCurrent(s: State) returns (t: State)
    requires Reachable(s) && s.gens != [] && s.requests == map[]
    requires !s.gens[Current(s)].closed && s.gens[Current(s)].writer == None
    ensures Reachable(t) && t.calls == s.calls && |t.gens| == |s.gens|
    ensures forall g :: 0 <= g < |s.gens| ==> t.gens[g].server == s.gens[g].server
    ensures 0 in t.requests && t.requests[0].stage == Serving(Current(s))
  {
    hide Reachable;
    t := Reach(s, Arrive(0));
    t := Reach(t, LoadCurrent(0));
    t := Reach(t, RLock(0));
    t := Reach(t, CheckClosed(0));
  }
}

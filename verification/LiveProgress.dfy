/** Every request is answered: which ones can still be served, and that no swap drops one. */
module LiveProgress {
  import opened Prelude
  import opened Live
  import opened LiveClose

  // ----- Continuations without a swap ----------------------------------------

  /** The run can go on to t with no further swap. */
  ghost predicate LeadsStill(s: State, t: State) {
    exists acts :: RunFrom(s, acts) == Some(t) && NoSwap(acts)
  }

  predicate NoSwap(acts: seq<Action>) { forall i :: 0 <= i < |acts| ==> !acts[i].Swap? }

  predicate Answered(q: Request) { q.stage.Served? || q.stage.ShuttingDown? }

  /** A generation that a request can still be served by. */
  predicate Free(s: State, g: nat) { g < |s.gens| && !s.gens[g].closed && s.gens[g].writer == None }

  /** The request has been served, is sure to be, or finds a generation that is free. */
  predicate Servable(s: State, q: Request)
    requires s.gens != []
  {
    match q.stage
    case Served(_) => true
    case Serving(_) => true
    case ShuttingDown(_) => false
    case Locked(g) => (g < |s.gens| && !s.gens[g].closed) || Free(s, Current(s))
    case Loaded(g) => Free(s, g) || Free(s, Current(s))
    case _ => Free(s, Current(s))
  }

  /** How many of its own steps the request is from its answer, if no swap comes between. */
  function Rank(s: State, q: Request): nat
    requires s.gens != []
  {
    match q.stage
    case Served(_) => 0
    case ShuttingDown(_) => 0
    case Serving(_) => 1
    case Unlocked(g) => if g == Current(s) then 1 else 5
    case Locked(g) => if g == Current(s) then 2 else 6
    case Loaded(g) => if g == Current(s) then 3 else 7
    case Arrived => 4
  }

  /** The next step of ServeHTTP. */
  function Next(r: nat, q: Request): Action {
    match q.stage
    case Arrived => LoadCurrent(r)
    case Loaded(_) => RLock(r)
    case Locked(_) => CheckClosed(r)
    case Serving(_) => RUnlockServed(r)
    case _ => LookAgain(r)
  }

  predicate OwnStep(a: Action) { a.LoadCurrent? || a.RLock? || a.CheckClosed? || a.RUnlockServed? || a.LookAgain? }

  lemma StillHere(s: State)
    ensures LeadsStill(s, s)
  {
    assert RunFrom(s, []) == Some(s);
  }

  lemma StillOn(s: State, t: State, a: Action) returns (u: State)
    requires LeadsStill(s, t) && Apply(t, a).Some? && !a.Swap?
    ensures Some(u) == Apply(t, a) && LeadsStill(s, u)
  {
    var acts :| RunFrom(s, acts) == Some(t) && NoSwap(acts);
    assert (acts + [a])[..|acts|] == acts;
    u := Apply(t, a).value;
    assert RunFrom(s, acts + [a]) == Some(u) && NoSwap(acts + [a]);
  }

  // ----- One step ------------------------------------------------------------

  /**
   * A request not yet answered is never stuck: its own next step can be taken,
   * or a retirement holds the write lock of its generation, and that can go on.
   */
  lemma NeverStuck(s: State, r: nat)
    requires Inv(s) && r in s.requests && !Answered(s.requests[r])
    ensures
      || Apply(s, Next(r, s.requests[r])).Some?
      || (&& s.requests[r].stage.Loaded? && s.gens[s.requests[r].stage.gen].writer.Some?
          && Apply(s, RetireStep(s.gens[s.requests[r].stage.gen].writer.value)).Some?)
  {
  }

  /** Where a request of a reachable state stands is a generation there is; one that found it closed found it so. */
  predicate Standing(s: State, q: Request) {
    && s.gens != []
    && (!q.stage.Arrived? ==> q.stage.gen < |s.gens|)
    && (q.stage.Unlocked? ==> s.gens[q.stage.gen].closed)
    && (q.stage.Serving? ==> !s.gens[q.stage.gen].closed)
  }

  lemma Stands(s: State, r: nat)
    requires Inv(s) && r in s.requests
    ensures Standing(s, s.requests[r])
  {
    assert RequestOk(s.gens, s.retirements, s.requests[r]);
  }

  /** Flags and write locks are as they were. */
  ghost predicate SameGens(s: State, t: State) {
    && |t.gens| == |s.gens|
    && (forall g :: 0 <= g < |s.gens| ==> t.gens[g].closed == s.gens[g].closed && t.gens[g].writer == s.gens[g].writer)
  }

  lemma SameFree(s: State, t: State, q: Request)
    requires SameGens(s, t) && s.gens != []
    ensures Servable(t, q) == Servable(s, q) && Rank(t, q) == Rank(s, q)
  {
  }

  /** A step of ServeHTTP: what it leaves. */
  lemma OwnStepLeaves(s: State, a: Action)
    requires OwnStep(a) && Apply(s, a).Some?
    ensures a.r in s.requests && Standing(s, s.requests[a.r]) ==> SameGens(s, Apply(s, a).value)
  {
  }

  lemma OwnStepTaken(s: State, a: Action)
    requires OwnStep(a) && Apply(s, a).Some?
    ensures var t := Apply(s, a).value;
      && a.r in s.requests && a == Next(a.r, s.requests[a.r]) && !Answered(s.requests[a.r])
      && a.r in t.requests && t.requests == s.requests[a.r := t.requests[a.r]]
      && t.retirements == s.retirements && t.closers == s.closers && t.calls == s.calls
  {
  }

  /** Where ServeHTTP goes from each place. */
  lemma OwnStepTo(s: State, a: Action)
    requires OwnStep(a) && Apply(s, a).Some? && s.gens != []
    ensures a.r in s.requests && a.r in Apply(s, a).value.requests
    ensures var (was, now) := (s.requests[a.r].stage, Apply(s, a).value.requests[a.r].stage);
      match was
      case Arrived => now == Loaded(Current(s))
      case Loaded(g) => g < |s.gens| && s.gens[g].writer == None && now == Locked(g)
      case Locked(g) => g < |s.gens| && now == if s.gens[g].closed then Unlocked(g) else Serving(g)
      case Serving(g) => now == Served(g)
      case Unlocked(g) => now == if g == Current(s) then ShuttingDown(g) else Arrived
      case _ => false
  {
  }

  /**
   * Its own step brings a request nearer its answer and does not change
   * whether it can be served; every other request stays where it is.
   */
  lemma OwnStepNearer(s: State, r: nat, a: Action)
    requires Inv(s) && OwnStep(a) && a.r == r && Apply(s, a).Some?
    ensures s.gens != [] && SameGens(s, Apply(s, a).value)
    ensures r in s.requests && r in Apply(s, a).value.requests
    ensures Apply(s, a).value.requests == s.requests[r := Apply(s, a).value.requests[r]]
    ensures Rank(s, Apply(s, a).value.requests[r]) < Rank(s, s.requests[r])
    ensures Servable(s, Apply(s, a).value.requests[r]) == Servable(s, s.requests[r])
  {
    hide Apply, Inv;
    OwnStepTaken(s, a);
    Stands(s, r);
    OwnStepLeaves(s, a);
    OwnStepTo(s, a);
  }

  /** A step of the retirement that holds a write lock: its generation is, or will be, closed. */
  lemma HolderStep(s: State, g: nat)
    requires Inv(s) && g < |s.gens| && s.gens[g].writer.Some?
    ensures var a := s.gens[g].writer.value;
      && a in s.retirements && Holds(s.retirements[a].at) && Apply(s, RetireStep(a)).Some?
      && var t := Apply(s, RetireStep(a)).value;
         && t.requests == s.requests && t.closers == s.closers && |t.gens| == |s.gens| && t.gens != []
         && (forall h :: 0 <= h < |s.gens| && h != g ==> t.gens[h] == s.gens[h]) && t.gens[g].readers == {}
         && !Free(t, g)
         && if s.retirements[a].at == Holding then t.gens[g].writer == Some(a) && a in t.retirements && t.retirements[a].at == Closing
            else t.gens[g].writer == None
  {
    var a := s.gens[g].writer.value;
    HoldsLock(s, a);
    if s.retirements[a].at == Closing { ClosedBefore(s, a); }
    hide Inv;
  }

  /** Which requests can be served is the same after it. */
  lemma HolderServable(s: State, t: State, g: nat, r: nat)
    requires Inv(s) && r in s.requests && g < |s.gens| && s.gens[g].writer.Some?
    requires |t.gens| == |s.gens| && t.gens != [] && (forall h :: 0 <= h < |s.gens| && h != g ==> t.gens[h] == s.gens[h]) && !Free(t, g)
    ensures Servable(t, s.requests[r]) == Servable(s, s.requests[r]) && Rank(t, s.requests[r]) == Rank(s, s.requests[r])
  {
    assert r !in s.gens[g].readers;
    assert !Reads(s.requests[r], g);
    hide Inv;
  }

  // ----- Every request is answered -------------------------------------------

  /** No request or generation came or went, and the same requests can be served. */
  ghost predicate SameChances(t: State, u: State) {
    && |u.gens| == |t.gens| && t.gens != [] && u.closers == t.closers
    && u.requests.Keys == t.requests.Keys
    && (forall r :: r in t.requests ==> Servable(u, u.requests[r]) == Servable(t, t.requests[r]))
  }

  ghost predicate OthersStand(t: State, u: State, r: nat) {
    forall q :: q in t.requests && q in u.requests && q != r ==> u.requests[q] == t.requests[q]
  }

  lemma HolderGoesOn(s: State, t: State, g: nat) returns (u: State)
    requires Reachable(t) && LeadsStill(s, t) && g < |t.gens| && t.gens[g].writer.Some?
    ensures Reachable(u) && LeadsStill(s, u) && SameChances(t, u) && u.requests == t.requests
    ensures var a := t.gens[g].writer.value;
      a in t.retirements && Holds(t.retirements[a].at)
      && if t.retirements[a].at == Holding then u.gens[g].writer == Some(a) && a in u.retirements && u.retirements[a].at == Closing
         else u.gens[g].writer == None
  {
    ReachableInv(t);
    HolderStep(t, g);
    hide Apply, Reachable, LeadsStill;
    var a := RetireStep(t.gens[g].writer.value);
    u := StillOn(s, t, a);
    var v := Reach(t, a);
    forall r | r in t.requests ensures Servable(u, u.requests[r]) == Servable(t, t.requests[r]) {
      HolderServable(t, u, g, r);
    }
  }

  /** Whoever holds the write lock closes the generation and gives it back. */
  lemma LockGivenBack(s: State, t: State, g: nat) returns (u: State)
    requires Reachable(t) && LeadsStill(s, t) && g < |t.gens|
    ensures Reachable(u) && LeadsStill(s, u) && SameChances(t, u) && u.requests == t.requests && u.gens[g].writer == None
  {
    ReachableInv(t);
    hide Inv, Reachable, LeadsStill;
    u := t;
    if u.gens[g].writer.Some? {
      u := HolderGoesOn(s, t, g);
      if u.gens[g].writer.Some? { u := HolderGoesOn(s, u, g); }
    }
  }

  lemma OwnStepOn(s: State, t: State, r: nat) returns (u: State)
    requires Reachable(t) && LeadsStill(s, t) && r in t.requests && !Answered(t.requests[r])
    requires t.gens != [] && (t.requests[r].stage.Loaded? ==> t.requests[r].stage.gen < |t.gens| && t.gens[t.requests[r].stage.gen].writer == None)
    ensures Reachable(u) && LeadsStill(s, u) && SameChances(t, u) && OthersStand(t, u, r)
    ensures Rank(u, u.requests[r]) < Rank(t, t.requests[r])
  {
    hide Apply, Reachable, LeadsStill, Inv;
    ReachableInv(t);
    NeverStuck(t, r);
    var a := Next(r, t.requests[r]);
    OwnStepNearer(t, r, a);
    OwnStepTaken(t, a);
    hide Rank, Servable;
    u := StillOn(s, t, a);
    var v := Reach(t, a);
    forall q | q in t.requests ensures Servable(u, u.requests[q]) == Servable(t, t.requests[q]) {
      SameFree(t, u, u.requests[q]);
    }
    SameFree(t, u, u.requests[r]);
  }

  /** One request goes on to its answer. */
  lemma {:induction false} GoesOn(s: State, t: State, r: nat) returns (u: State)
    requires Reachable(t) && LeadsStill(s, t) && r in t.requests && t.gens != []
    ensures Reachable(u) && LeadsStill(s, u) && SameChances(t, u) && OthersStand(t, u, r) && Answered(u.requests[r])
    decreases Rank(t, t.requests[r])
  {
    hide Reachable, LeadsStill;
    u := t;
    if !Answered(t.requests[r]) {
      ReachableInv(t);
      Stands(t, r);
      hide Inv;
      var v := t;
      if t.requests[r].stage.Loaded? { v := LockGivenBack(s, t, t.requests[r].stage.gen); }
      v := OwnStepOn(s, v, r);
      u := GoesOn(s, v, r);
    }
  }

  ghost predicate AllAnswered(s: State) { forall r :: r in s.requests ==> Answered(s.requests[r]) }

  lemma {:induction false} AllGoOn(s: State, t: State, left: set<nat>) returns (u: State)
    requires Reachable(t) && LeadsStill(s, t) && t.gens != []
    requires forall r :: r in t.requests && !Answered(t.requests[r]) ==> r in left
    ensures Reachable(u) && LeadsStill(s, u) && SameChances(t, u) && AllAnswered(u)
    decreases left
  {
    hide Reachable, LeadsStill;
    u := t;
    if r :| r in left {
      var v := t;
      if r in t.requests { v := GoesOn(s, t, r); }
      u := AllGoOn(s, v, left - {r});
    }
  }

  // ----- Which are served ----------------------------------------------------

  /** A request that finds no generation free is never served again without a swap. */
  lemma StaysUnservable(s: State, a: Action, r: nat)
    requires Inv(s) && Apply(s, a).Some? && !a.Swap? && r in s.requests && !Servable(s, s.requests[r])
    ensures var t := Apply(s, a).value; t.gens != [] && r in t.requests && !Servable(t, t.requests[r])
  {
    Stands(s, r);
    hide Inv;
    if OwnStep(a) {
      OwnUnservable(s, a, r);
    } else if a.RetireStep? {
      RetireUnservable(s, a.actor, r);
    } else {
      OtherUnservable(s, a, r);
    }
  }

  lemma OwnUnservable(s: State, a: Action, r: nat)
    requires Inv(s) && OwnStep(a) && Apply(s, a).Some? && r in s.requests && s.gens != [] && !Servable(s, s.requests[r])
    ensures var t := Apply(s, a).value; t.gens != [] && r in t.requests && !Servable(t, t.requests[r])
  {
    hide Inv, Apply;
    var t := Apply(s, a).value;
    OwnStepNearer(s, a.r, a);
    SameFree(s, t, t.requests[r]);
  }

  lemma OtherUnservable(s: State, a: Action, r: nat)
    requires a.Arrive? || a.EnterClose? || a.WaitRetired? || a.LoadForClose?
    requires Apply(s, a).Some? && r in s.requests && s.gens != [] && !Servable(s, s.requests[r])
    ensures var t := Apply(s, a).value; t.gens != [] && r in t.requests && !Servable(t, t.requests[r])
  {
    assert Apply(s, a).value.gens == s.gens;
  }

  lemma RetireUnservable(s: State, actor: Actor, r: nat)
    requires Inv(s) && Apply(s, RetireStep(actor)).Some? && r in s.requests && !Servable(s, s.requests[r])
    ensures var t := Apply(s, RetireStep(actor)).value; t.gens != [] && t.requests == s.requests && !Servable(t, t.requests[r])
  {
    Stands(s, r);
    RetireNotFree(s, actor);
    hide Inv;
    var q, g := s.requests[r], s.retirements[actor].gen;
    assert q.stage.Loaded? ==> !Free(s, q.stage.gen);
  }

  /** What is closed or about to be is never free again. */
  lemma RetireNotFree(s: State, actor: Actor)
    requires Inv(s) && Apply(s, RetireStep(actor)).Some?
    ensures var t := Apply(s, RetireStep(actor)).value;
      && t.requests == s.requests && |t.gens| == |s.gens| && t.gens != []
      && (forall g: nat :: !Free(s, g) ==> !Free(t, g))
      && (forall g :: 0 <= g < |s.gens| && s.gens[g].closed ==> t.gens[g].closed)
  {
    HoldsLock(s, actor);
    if s.retirements[actor].at == Closing { ClosedBefore(s, actor); }
    hide Inv;
  }

  lemma {:induction false} RunUnservable(s: State, acts: seq<Action>, r: nat)
    requires Reachable(s) && RunFrom(s, acts).Some? && NoSwap(acts) && r in s.requests
    requires s.gens != [] && !Servable(s, s.requests[r])
    ensures var t := RunFrom(s, acts).value; Reachable(t) && t.gens != [] && r in t.requests && !Servable(t, t.requests[r])
  {
    hide Reachable, Apply, Inv;
    if acts != [] {
      var before := acts[..|acts| - 1];
      RunUnservable(s, before, r);
      var t := RunFrom(s, before).value;
      ReachableInv(t);
      StaysUnservable(t, acts[|acts| - 1], r);
      var _ := Reach(t, acts[|acts| - 1]);
    }
  }

  /** The request is served in some continuation without another swap. */
  ghost predicate CanBeServed(s: State, r: nat) {
    exists t :: LeadsStill(s, t) && r in t.requests && t.requests[r].stage.Served?
  }

  ghost predicate CanBeRefused(s: State, r: nat) {
    exists t :: LeadsStill(s, t) && r in t.requests && t.requests[r].stage.ShuttingDown?
  }

  /**
   * No request is dropped: in every reachable state there is a continuation,
   * with no further swap, in which every request is answered, those that can
   * be served are served, and the others are told "shutting down".
   */
  lemma NoneDropped(s: State) returns (t: State)
    requires Reachable(s)
    ensures s.gens != [] && LeadsStill(s, t) && t.requests.Keys == s.requests.Keys
    ensures forall r :: r in s.requests ==>
      if Servable(s, s.requests[r]) then t.requests[r].stage.Served? else t.requests[r].stage.ShuttingDown?
  {
    ReachableInv(s);
    StillHere(s);
    hide Reachable, LeadsStill, Inv;
    t := AllGoOn(s, s, s.requests.Keys);
  }

  /** A request can be served without another swap exactly when it has been, is being, or finds a generation free. */
  lemma ServedExactly(s: State, r: nat)
    requires Reachable(s) && r in s.requests
    ensures s.gens != [] && (CanBeServed(s, r) <==> Servable(s, s.requests[r]))
  {
    var t := NoneDropped(s);
    if CanBeServed(s, r) && !Servable(s, s.requests[r]) {
      var u :| LeadsStill(s, u) && r in u.requests && u.requests[r].stage.Served?;
      var acts :| RunFrom(s, acts) == Some(u) && NoSwap(acts);
      RunUnservable(s, acts, r);
    }
  }

  /** Only a call of Close keeps the current generation from serving. */
  lemma FreeUnlessClosing(s: State)
    requires Reachable(s) && forall a :: a in s.retirements && a.Closer? ==> s.retirements[a].gen != |s.gens| - 1
    ensures s.gens != [] && Free(s, Current(s))
  {
    ReachableInv(s);
    if s.gens[Current(s)].closed { CurrentClosedByCloser(s); }
  }

  /** While no call of Close has come to the current generation, every request not yet answered can be served. */
  lemma ServedUnlessClosing(s: State, r: nat)
    requires Reachable(s) && r in s.requests && !s.requests[r].stage.ShuttingDown?
    requires forall a :: a in s.retirements && a.Closer? ==> s.retirements[a].gen != |s.gens| - 1
    ensures CanBeServed(s, r)
  {
    FreeUnlessClosing(s);
    ServedExactly(s, r);
  }

  /** The request has not yet settled on an older generation: it will take the current one. */
  predicate TakesCurrent(s: State, q: Request)
    requires s.gens != []
  {
    q.stage.Arrived? || q.stage.Unlocked? || q.stage.gen == Current(s)
  }

  lemma StepTakesCurrent(s: State, a: Action, r: nat)
    requires Inv(s) && Apply(s, a).Some? && !a.Swap? && r in s.requests && TakesCurrent(s, s.requests[r])
    ensures var t := Apply(s, a).value;
      |t.gens| == |s.gens| && t.gens != [] && r in t.requests && TakesCurrent(t, t.requests[r])
  {
    Stands(s, r);
    hide Inv;
    if OwnStep(a) {
      hide Apply;
      Stands(s, a.r);
      OwnStepTo(s, a);
      OwnStepTaken(s, a);
      OwnStepLeaves(s, a);
    } else {
      OtherStays(s, a, r);
    }
  }

  lemma OtherStays(s: State, a: Action, r: nat)
    requires !OwnStep(a) && !a.Swap? && Apply(s, a).Some? && r in s.requests
    ensures var t := Apply(s, a).value; |t.gens| == |s.gens| && r in t.requests && t.requests[r] == s.requests[r]
  {
  }

  lemma {:induction false} RunTakesCurrent(s: State, acts: seq<Action>, r: nat)
    requires Reachable(s) && RunFrom(s, acts).Some? && NoSwap(acts) && r in s.requests
    requires s.gens != [] && TakesCurrent(s, s.requests[r])
    ensures var t := RunFrom(s, acts).value;
      Reachable(t) && |t.gens| == |s.gens| && r in t.requests && TakesCurrent(t, t.requests[r])
  {
    hide Reachable, Apply, Inv;
    if acts != [] {
      var before := acts[..|acts| - 1];
      RunTakesCurrent(s, before, r);
      var t := RunFrom(s, before).value;
      ReachableInv(t);
      StepTakesCurrent(t, acts[|acts| - 1], r);
      var _ := Reach(t, acts[|acts| - 1]);
    }
  }

  /**
   * A request that found its generation closed, with a newer one open and
   * unlocked, can be served by the newer one, and by no other.
   */
  lemma NewerServes(s: State, r: nat, g: nat)
    requires Reachable(s) && r in s.requests && s.requests[r].stage == Unlocked(g)
    requires g + 1 < |s.gens| && Free(s, Current(s))
    ensures exists t :: LeadsStill(s, t) && r in t.requests && t.requests[r].stage == Served(Current(s))
    ensures forall t :: LeadsStill(s, t) && r in t.requests && t.requests[r].stage.Served? ==> t.requests[r].stage == Served(Current(s))
  {
    ServedExactly(s, r);
    forall t | LeadsStill(s, t) && r in t.requests && t.requests[r].stage.Served? ensures t.requests[r].stage == Served(Current(s)) {
      var acts :| RunFrom(s, acts) == Some(t) && NoSwap(acts);
      RunTakesCurrent(s, acts, r);
    }
  }

  /** A swap opens the way to every request that has not been told "shutting down". */
  lemma SwapServes(s: State, server: nat, r: nat)
    requires Reachable(s) && r in s.requests && !s.requests[r].stage.ShuttingDown?
    ensures Apply(s, Swap(server)).Some? && CanBeServed(Apply(s, Swap(server)).value, r)
  {
    ReachableInv(s);
    var t := Reach(s, Swap(server));
    ServedExactly(t, r);
  }
}

/** Which calls of Close return with every earlier generation closed. */
module LiveClose {
  import opened Prelude
  import opened Live

  // ----- Continuations -------------------------------------------------------

  /** The state after more steps. */
  function RunFrom(s: State, acts: seq<Action>): Option<State> {
    if acts == [] then Some(s)
    else
      match RunFrom(s, acts[..|acts| - 1])
      case None => None
      case Some(t) => Apply(t, acts[|acts| - 1])
  }

  ghost predicate Leads(s: State, t: State) {
    exists acts :: RunFrom(s, acts) == Some(t)
  }

  lemma LeadsNowhere(s: State)
    ensures Leads(s, s)
  {
    assert RunFrom(s, []) == Some(s);
  }

  lemma LeadsOn(s: State, t: State, a: Action) returns (u: State)
    requires Leads(s, t) && Apply(t, a).Some?
    ensures Some(u) == Apply(t, a) && Leads(s, u)
  {
    var acts :| RunFrom(s, acts) == Some(t);
    assert (acts + [a])[..|acts|] == acts;
    u := Apply(t, a).value;
    assert RunFrom(s, acts + [a]) == Some(u);
  }

  /** The retirement of a Close keeps its generation, and what is closed stays so. */
  ghost predicate Settles(s: State, c: nat, t: State) {
    && |s.gens| <= |t.gens| && (forall g :: 0 <= g < |s.gens| && s.gens[g].closed ==> t.gens[g].closed)
    && Closer(c) in t.retirements && Closer(c) in s.retirements && t.retirements[Closer(c)].gen == s.retirements[Closer(c)].gen
  }

  lemma StepSettles(s: State, c: nat, a: Action)
    requires Inv(s) && Closer(c) in s.retirements && Apply(s, a).Some?
    ensures Settles(s, c, Apply(s, a).value)
  {
    assert c in s.closers && s.closers[c].Retiring?;
    hide Inv;
    match a
    case Swap(_) => SwapSettles(s, c, a);
    case RetireStep(actor) => RetireSettles(s, c, actor);
    case LoadCurrent(_) => RequestSettles(s, c, a);
    case RLock(_) => RequestSettles(s, c, a);
    case CheckClosed(_) => RequestSettles(s, c, a);
    case RUnlockServed(_) => RequestSettles(s, c, a);
    case LookAgain(_) => RequestSettles(s, c, a);
    case _ =>
  }

  lemma SwapSettles(s: State, c: nat, a: Action)
    requires a.Swap? && Closer(c) in s.retirements && Apply(s, a).Some?
    ensures Settles(s, c, Apply(s, a).value)
  {
  }

  lemma RetireSettles(s: State, c: nat, actor: Actor)
    requires Closer(c) in s.retirements && Apply(s, RetireStep(actor)).Some?
    ensures Settles(s, c, Apply(s, RetireStep(actor)).value)
  {
  }

  lemma RequestSettles(s: State, c: nat, a: Action)
    requires a.LoadCurrent? || a.RLock? || a.CheckClosed? || a.RUnlockServed? || a.LookAgain?
    requires Closer(c) in s.retirements && Apply(s, a).Some?
    ensures Settles(s, c, Apply(s, a).value)
  {
  }

  lemma {:induction false} RunSettles(s: State, c: nat, acts: seq<Action>)
    requires Reachable(s) && Closer(c) in s.retirements && RunFrom(s, acts).Some?
    ensures Reachable(RunFrom(s, acts).value) && Settles(s, c, RunFrom(s, acts).value)
  {
    hide Reachable, Apply, Inv;
    if acts != [] {
      var before := acts[..|acts| - 1];
      RunSettles(s, c, before);
      var t := RunFrom(s, before).value;
      ReachableInv(t);
      StepSettles(t, c, acts[|acts| - 1]);
      var _ := Reach(t, acts[|acts| - 1]);
    }
  }

  // ----- Finishing a retirement ----------------------------------------------

  /** Nothing but this generation and what uses it changed. */
  ghost predicate OnlyAt(s: State, t: State, w: Actor, g: nat) {
    && |t.gens| == |s.gens| && (forall h :: 0 <= h < |s.gens| && h != g ==> t.gens[h] == s.gens[h])
    && w in s.retirements && w in t.retirements && s.retirements[w].gen == t.retirements[w].gen == g
    && t.closers == s.closers
  }

  /** The retirement waits for the lock of its generation. */
  ghost predicate WaitsAt(s: State, w: Actor, g: nat) {
    w in s.retirements && s.retirements[w] == Retirement(g, Waiting)
  }

  lemma WriterOf(s: State, w: Actor, g: nat)
    requires Inv(s) && WaitsAt(s, w, g)
    ensures g < |s.gens|
    ensures s.gens[g].writer.Some? ==>
      var a := s.gens[g].writer.value;
      a in s.retirements && s.retirements[a].gen == g && Holds(s.retirements[a].at) && a != w
  {
  }

  lemma ReaderOf(s: State, g: nat, r: nat)
    requires Inv(s) && g < |s.gens| && r in s.gens[g].readers
    ensures r in s.requests && Reads(s.requests[r], g)
  {
  }

  /** A step of the write lock's holder. */
  lemma WriterSteps(s: State, t: State, w: Actor, g: nat, a: Actor) returns (u: State)
    requires Reachable(t) && Leads(s, t) && WaitsAt(t, w, g) && g < |t.gens|
    requires a in t.retirements && t.retirements[a].gen == g && Holds(t.retirements[a].at) && a != w
    ensures Reachable(u) && Leads(s, u) && WaitsAt(u, w, g) && OnlyAt(t, u, w, g) && u.requests == t.requests
    ensures u.gens[g].readers == t.gens[g].readers
    ensures if t.retirements[a].at == Holding then a in u.retirements && u.retirements[a] == Retirement(g, Closing) else u.gens[g].writer == None
  {
    u := LeadsOn(s, t, RetireStep(a));
    u := Reach(t, RetireStep(a));
    hide Reachable, Leads;
  }

  /** The holder of the write lock gives it back. */
  lemma WriterLeaves(s: State, t: State, w: Actor, g: nat) returns (u: State)
    requires Reachable(t) && Leads(s, t) && WaitsAt(t, w, g)
    ensures Reachable(u) && Leads(s, u) && WaitsAt(u, w, g) && OnlyAt(t, u, w, g)
    ensures g < |u.gens| && u.gens[g].writer == None && u.gens[g].readers == t.gens[g].readers && u.requests == t.requests
  {
    u := t;
    ReachableInv(u);
    WriterOf(u, w, g);
    hide Reachable, Leads, Inv;
    if u.gens[g].writer.Some? {
      var a := u.gens[g].writer.value;
      u := WriterSteps(s, t, w, g, a);
      if t.retirements[a].at == Holding { u := WriterSteps(s, u, w, g, a); }
    }
  }

  /** A reader is served, or finds the generation closed. */
  lemma ReaderLeaves(s: State, t: State, w: Actor, g: nat, r: nat) returns (u: State)
    requires Reachable(t) && Leads(s, t) && WaitsAt(t, w, g) && g < |t.gens| && t.gens[g].writer == None && r in t.gens[g].readers
    ensures Reachable(u) && Leads(s, u) && WaitsAt(u, w, g) && OnlyAt(t, u, w, g)
    ensures u.gens[g].writer == None && u.gens[g].readers == t.gens[g].readers - {r}
  {
    ReachableInv(t);
    ReaderOf(t, g, r);
    hide Reachable, Leads, Inv;
    if t.requests[r].stage.Locked? {
      u := LockedChecks(s, t, w, g, r);
      if !t.gens[g].closed { u := ServingLeaves(s, u, w, g, r); }
    } else {
      u := ServingLeaves(s, t, w, g, r);
    }
  }

  lemma LockedChecks(s: State, t: State, w: Actor, g: nat, r: nat) returns (u: State)
    requires Reachable(t) && Leads(s, t) && WaitsAt(t, w, g) && g < |t.gens| && t.gens[g].writer == None
    requires r in t.requests && t.requests[r].stage == Locked(g)
    ensures Reachable(u) && Leads(s, u) && WaitsAt(u, w, g) && OnlyAt(t, u, w, g) && u.gens[g].writer == None
    ensures if t.gens[g].closed then u.gens[g].readers == t.gens[g].readers - {r}
            else u.gens[g].readers == t.gens[g].readers && r in u.requests && u.requests[r].stage == Serving(g)
  {
    u := LeadsOn(s, t, CheckClosed(r));
    u := Reach(t, CheckClosed(r));
    hide Reachable, Leads;
  }

  lemma ServingLeaves(s: State, t: State, w: Actor, g: nat, r: nat) returns (u: State)
    requires Reachable(t) && Leads(s, t) && WaitsAt(t, w, g) && g < |t.gens| && t.gens[g].writer == None
    requires r in t.requests && t.requests[r].stage == Serving(g)
    ensures Reachable(u) && Leads(s, u) && WaitsAt(u, w, g) && OnlyAt(t, u, w, g)
    ensures u.gens[g].writer == None && u.gens[g].readers == t.gens[g].readers - {r}
  {
    u := LeadsOn(s, t, RUnlockServed(r));
    u := Reach(t, RUnlockServed(r));
    hide Reachable, Leads;
  }

  lemma {:induction false} ReadersLeave(s: State, t: State, w: Actor, g: nat) returns (u: State)
    requires Reachable(t) && Leads(s, t) && WaitsAt(t, w, g) && g < |t.gens| && t.gens[g].writer == None
    ensures Reachable(u) && Leads(s, u) && WaitsAt(u, w, g) && OnlyAt(t, u, w, g)
    ensures u.gens[g].writer == None && u.gens[g].readers == {}
    decreases t.gens[g].readers
  {
    hide Reachable, Leads;
    u := t;
    if t.gens[g].readers != {} {
      var r :| r in t.gens[g].readers;
      var v := ReaderLeaves(s, t, w, g, r);
      u := ReadersLeave(s, v, w, g);
    }
  }

  /** A retirement that waits for its lock can finish with nothing changed but its generation. */
  lemma RetireCanFinish(s: State, w: Actor, g: nat) returns (t: State)
    requires Reachable(s) && WaitsAt(s, w, g)
    ensures Reachable(t) && Leads(s, t) && OnlyAt(s, t, w, g) && t.retirements[w].at == Finished
  {
    LeadsNowhere(s);
    hide Reachable, Leads;
    t := RetireFinishes(s, s, w, g);
  }

  lemma RetireFinishes(s: State, t: State, w: Actor, g: nat) returns (u: State)
    requires Reachable(t) && Leads(s, t) && WaitsAt(t, w, g)
    ensures Reachable(u) && Leads(s, u) && OnlyAt(t, u, w, g) && u.retirements[w].at == Finished
  {
    hide Reachable, Leads;
    u := WriterLeaves(s, t, w, g);
    u := ReadersLeave(s, u, w, g);
    u := FinishFree(s, u, w, g);
  }

  /** With the lock free it takes it, closes, and gives it back. */
  lemma FinishFree(s: State, t: State, w: Actor, g: nat) returns (u: State)
    requires Reachable(t) && Leads(s, t) && WaitsAt(t, w, g) && g < |t.gens| && t.gens[g].writer == None && t.gens[g].readers == {}
    ensures Reachable(u) && Leads(s, u) && OnlyAt(t, u, w, g) && u.retirements[w].at == Finished
  {
    hide Reachable, Leads;
    u := StepOn(s, t, RetireStep(w));
    u := StepOn(s, u, RetireStep(w));
    u := StepOn(s, u, RetireStep(w));
  }

  lemma StepOn(s: State, t: State, a: Action) returns (u: State)
    requires Reachable(t) && Leads(s, t) && Apply(t, a).Some?
    ensures Some(u) == Apply(t, a) && Reachable(u) && Leads(s, u)
  {
    u := LeadsOn(s, t, a);
    u := Reach(t, a);
  }

  /** The goroutine of a swap can close the generation that was current before it, with nothing else changed. */
  lemma PreviousCanClose(s: State, g: nat) returns (t: State)
    requires Reachable(s) && g + 1 < |s.gens|
    ensures Reachable(t) && Leads(s, t) && OnlyAt(s, t, Swapped(g), g)
    ensures t.gens[g].closed && t.retirements[Swapped(g)].at == Finished
  {
    LeadsNowhere(s);
    PreviousRetires(s, g);
    hide Reachable, Leads, Inv;
    t := BeforeWaiting(s, g);
    if t.retirements[Swapped(g)].at == Waiting { t := RetireFinishes(s, t, Swapped(g), g); } else { t := AfterWaiting(s, t, g); }
    ReachableInv(t);
    ClosedBefore(t, Swapped(g));
  }

  lemma BeforeWaiting(s: State, g: nat) returns (t: State)
    requires Reachable(s) && Leads(s, s) && OnlyAt(s, s, Swapped(g), g) && g < |s.gens|
    ensures Reachable(t) && Leads(s, t) && OnlyAt(s, t, Swapped(g), g) && t.retirements[Swapped(g)].at != Swapping
  {
    hide Reachable, Leads, Inv;
    t := s;
    if t.retirements[Swapped(g)].at == Swapping { t := StepOn(s, t, RetireStep(Swapped(g))); }
  }

  lemma AfterWaiting(s: State, t: State, g: nat) returns (u: State)
    requires Reachable(t) && Leads(s, t) && OnlyAt(s, t, Swapped(g), g) && g < |t.gens|
    requires t.retirements[Swapped(g)].at.Holding? || t.retirements[Swapped(g)].at.Closing? || t.retirements[Swapped(g)].at.Finished?
    ensures Reachable(u) && Leads(s, u) && OnlyAt(s, u, Swapped(g), g) && u.retirements[Swapped(g)].at == Finished
  {
    hide Reachable, Leads, Inv;
    u := t;
    if u.retirements[Swapped(g)].at == Holding { u := StepOn(s, u, RetireStep(Swapped(g))); }
    if u.retirements[Swapped(g)].at == Closing { u := StepOn(s, u, RetireStep(Swapped(g))); }
  }

  lemma PreviousRetires(s: State, g: nat)
    requires Reachable(s) && g + 1 < |s.gens|
    ensures OnlyAt(s, s, Swapped(g), g)
  {
    ReachableInv(s);
  }

  // ----- What Close promises -------------------------------------------------

  /** However the run goes on, the call returns with every generation up to the one it loaded closed. */
  ghost predicate WillCloseAll(s: State, c: nat, g: nat) {
    forall t :: Leads(s, t) && Closer(c) in t.retirements && t.retirements[Closer(c)].at == Finished ==> AllClosed(t, g + 1)
  }

  ghost predicate AllClosed(s: State, n: nat) {
    n <= |s.gens| && forall h :: 0 <= h < n ==> s.gens[h].closed
  }

  /**
   * A call of Close that has loaded generation g returns with all generations
   * up to it closed, whatever happens meanwhile, exactly when every one before
   * it is closed already.
   */
  lemma CloseClosesExactly(s: State, c: nat, g: nat)
    requires Reachable(s) && WaitsAt(s, Closer(c), g)
    ensures WillCloseAll(s, c, g) <==> AllClosed(s, g)
  {
    ReachableInv(s);
    if AllClosed(s, g) {
      forall t | Leads(s, t) && Closer(c) in t.retirements && t.retirements[Closer(c)].at == Finished ensures AllClosed(t, g + 1) {
        FinishedClosed(s, t, c, g);
      }
    } else {
      var t := RetireCanFinish(s, Closer(c), g);
      assert !AllClosed(t, g + 1);
    }
  }

  lemma FinishedClosed(s: State, t: State, c: nat, g: nat)
    requires Reachable(s) && WaitsAt(s, Closer(c), g) && AllClosed(s, g) && Leads(s, t)
    requires Closer(c) in t.retirements && t.retirements[Closer(c)].at == Finished
    ensures AllClosed(t, g + 1)
  {
    assert Closer(c) in s.retirements;
    var acts :| RunFrom(s, acts) == Some(t);
    hide Reachable, Inv, RunFrom, Apply, Settles, AllClosed, WaitsAt;
    RunSettles(s, c, acts);
    ReachableInv(t);
    SettledClosed(s, t, c, g);
  }

  lemma SettledClosed(s: State, t: State, c: nat, g: nat)
    requires WaitsAt(s, Closer(c), g) && AllClosed(s, g) && Settles(s, c, t) && Inv(t)
    requires Closer(c) in t.retirements && t.retirements[Closer(c)].at == Finished
    ensures AllClosed(t, g + 1)
  {
    hide Inv;
    ClosedBefore(t, Closer(c));
    HoldsLock(t, Closer(c));
  }

  /** So a call that no swap raced, neither when it stopped waiting nor before it loaded, closes them all. */
  lemma QuietCloseClosesAll(s: State, c: nat, g: nat)
    requires Reachable(s) && WaitsAt(s, Closer(c), g) && c in s.closers && s.closers[c].Retiring?
    requires s.closers[c].quiet && s.closers[c].since == g + 1
    ensures WillCloseAll(s, c, g)
  {
    ReachableInv(s);
    assert AllClosed(s, g);
    CloseClosesExactly(s, c, g);
  }

  /** A call of Close that no swap raced returns with every Server closed, the earlier ones included. */
  lemma CloseClosesAll(s: State, c: nat)
    requires Reachable(s) && c in s.closers && s.closers[c].Retiring? && s.closers[c].quiet
    requires Closer(c) in s.retirements && s.retirements[Closer(c)].at == Finished
    requires s.retirements[Closer(c)].gen == s.closers[c].since - 1
    ensures forall g :: 0 <= g < s.closers[c].since ==> g < |s.gens| && s.gens[g].closed
  {
    ReachableInv(s);
    assert Retired(s.retirements, Closer(c), s.closers[c].since - 1);
  }

  /** A call of Close that a swap raced may return first: the swap has stored its Server but not yet joined the wait group. */
  lemma RacedCloseLeavesOpen() returns (s: State)
    ensures Reachable(s) && Closer(0) in s.retirements && s.retirements[Closer(0)].at == Finished
    ensures 0 in s.closers && s.closers[0].Retiring? && !s.closers[0].quiet
    ensures |s.gens| == 2 && !s.gens[0].closed && s.gens[1].closed
  {
    hide Reachable;
    s := StartedSwap();
    assert Swapped(0) in s.retirements && s.retirements[Swapped(0)].at == Swapping;
    s := EnterAndWait(s);
    s := RetireCurrent(s);
  }

  lemma StartedSwap() returns (s: State)
    ensures Reachable(s) && s == Apply(Init(0), Swap(1)).value
  {
    s := Init(0);
    assert Exec(0, []) == Some(s);
    assert Reachable(s);
    hide Reachable;
    s := Reach(s, Swap(1));
  }

  lemma EnterAndWait(s: State) returns (t: State)
    requires Reachable(s) && s.closers == map[] && AllRetired(s) && !Quiet(s) && s.gens != []
    ensures Reachable(t) && t == s.(closers := map[0 := Waited(|s.gens|, false)])
  {
    hide Reachable;
    t := Reach(s, EnterClose(0));
    t := Reach(t, WaitRetired(0));
  }

  lemma RetireCurrent(s: State) returns (t: State)
    requires Reachable(s) && |s.gens| == 2 && !s.gens[0].closed && 0 in s.closers && s.closers[0] == Waited(2, false)
    requires s.gens[1].readers == {} && s.gens[1].writer == None
    ensures Reachable(t) && Closer(0) in t.retirements && t.retirements[Closer(0)].at == Finished
    ensures 0 in t.closers && t.closers[0] == Retiring(2, false)
    ensures |t.gens| == 2 && !t.gens[0].closed && t.gens[1].closed
  {
    t := Reach(s, LoadForClose(0));
    assert !AllClosed(t, 1);
    CloseClosesExactly(t, 0, 1);
    t := RetireCanFinish(t, Closer(0), 1);
    ReachableInv(t);
    ClosedBefore(t, Closer(0));
  }
}

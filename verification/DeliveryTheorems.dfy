/** What the delivery protocol promises in every reachable state. */
module DeliveryTheorems {
  import opened Prelude
  import opened Delivery
  import opened DeliveryProof

  // ----- Polled events -------------------------------------------------------

  /**
   * Every source event at or below any cursor value ever stored has had its
   * run started, whatever the workers did and wherever they stopped, even
   * when a slow one moved the cursor back.
   */
  lemma PolledEventsStarted(c: Config, s: State, workflow: string, pos: int, i: nat)
    requires WellFormed(c) && c.mode == Polled && Increasing(c.log) && Reachable(c, s)
    requires (PollCursor(workflow), pos) in s.stored && i < |c.log| && c.log[i].pos <= pos
    ensures i < s.emitted && Started(s, workflow, c.log[i].id)
  {
    ReachableInv(c, s);
    assert CursorOk(c, s, PollCursor(workflow), pos);
    assert Emitted(c, s)[s.emitted - 1] == c.log[s.emitted - 1];
    if i < s.emitted { assert Emitted(c, s)[i] == c.log[i]; }
  }

  /** The promise of PolledEventsStarted; 0 is what the store answers before the first write. */
  ghost predicate PollSafe(c: Config, s: State) {
    forall wf, pos, i :: PollSafeAt(c, s, wf, pos, i)
  }

  ghost predicate PollSafeAt(c: Config, s: State, wf: string, pos: int, i: int) {
    wf in c.workflows && (pos == 0 || (PollCursor(wf), pos) in s.stored) && 0 <= i < |Emitted(c, s)| && c.log[i].pos <= pos
    ==> Started(s, wf, c.log[i].id)
  }

  /**
   * The source contract lets two events share a position.  The promise holds
   * in every reachable state exactly for the sources where none do (and none
   * sits at or below 0).
   */
  lemma SafeExactlyWhenIncreasing(c: Config)
    requires WellFormed(c) && c.mode == Polled && c.workflows != {}
    requires Nondecreasing(c.log) && DistinctIds(c.log)
    ensures (forall s :: Reachable(c, s) ==> PollSafe(c, s)) <==> Increasing(c.log)
  {
    if Increasing(c.log) {
      forall s | Reachable(c, s) ensures PollSafe(c, s) {
        forall wf, pos, i ensures PollSafeAt(c, s, wf, pos, i) {
          if (PollCursor(wf), pos) in s.stored && 0 <= i < |Emitted(c, s)| && c.log[i].pos <= pos {
            PolledEventsStarted(c, s, wf, pos, i);
          }
        }
      }
    } else {
      var s := LosesEvent(c);
      assert Reachable(c, s) && !PollSafe(c, s);
    }
  }

  lemma LosesEvent(c: Config) returns (s: State)
    requires WellFormed(c) && c.mode == Polled && c.workflows != {}
    requires Nondecreasing(c.log) && DistinctIds(c.log) && !Increasing(c.log)
    ensures Reachable(c, s) && !PollSafe(c, s)
  {
    var wf :| wf in c.workflows;
    if i :| 0 <= i < |c.log| && c.log[i].pos <= 0 {
      s := EmitAll(c, |c.log|);
      assert !PollSafeAt(c, s, wf, 0, i);
    } else {
      var i := FirstTie(c.log);
      s := DrainPrefix(c, wf, i + 1);
      assert (PollCursor(wf), c.log[i + 1].pos) in s.stored;
      if Started(s, wf, c.log[i + 1].id) {
        var j :| 0 <= j < i + 1 && RunId(wf, c.log[i + 1].id) == RunId(wf, c.log[j].id);
        RunIdInjective(wf, c.log[i + 1].id, wf, c.log[j].id);
        assert false;
      }
      assert !PollSafeAt(c, s, wf, c.log[i].pos, i + 1);
    }
  }

  lemma FirstTie(log: seq<Event>) returns (i: nat)
    requires Nondecreasing(log) && !Increasing(log) && forall k :: 0 <= k < |log| ==> log[k].pos > 0
    ensures i + 1 < |log| && log[i].pos == log[i + 1].pos
    ensures forall a, b :: 0 <= a < b <= i ==> log[a].pos < log[b].pos
  {
    i := 0;
    while i + 1 < |log| && log[i].pos < log[i + 1].pos
      invariant i < |log|
      invariant forall a, b :: 0 <= a < b <= i ==> log[a].pos < log[b].pos
    {
      i := i + 1;
    }
  }

  lemma {:induction false} EmitAll(c: Config, n: nat) returns (s: State)
    requires n <= |c.log|
    ensures Reachable(c, s) && s == INIT.(emitted := n)
  {
    if n == 0 {
      s := INIT;
      assert Exec(c, INIT, []) == Some(s);
    } else {
      s := EmitAll(c, n - 1);
      s := Reach(c, s, SourceEmits);
    }
  }

  ghost predicate Drained(c: Config, wf: string, k: nat, s: State)
    requires k <= |c.log|
  {
    && Reachable(c, s) && s.emitted == |c.log| && PcOf(s, 0) == Idle
    && CursorValue(s, PollCursor(wf)) == (if k == 0 then 0 else c.log[k - 1].pos)
    && (k > 0 ==> (PollCursor(wf), c.log[k - 1].pos) in s.stored)
    && forall id :: id in s.runs ==> exists j :: 0 <= j < k && id == RunId(wf, c.log[j].id)
  }

  /** A worker that starts the next event's run, advances the cursor past it, and stops. */
  lemma DrainOne(c: Config, wf: string, k: nat, s: State) returns (t: State)
    requires WellFormed(c) && c.mode == Polled && wf in c.workflows && Nondecreasing(c.log)
    requires k < |c.log| && Drained(c, wf, k, s)
    requires c.log[k].pos > if k == 0 then 0 else c.log[k - 1].pos
    ensures Drained(c, wf, k + 1, t)
  {
    var pos := CursorValue(s, PollCursor(wf));
    var at := BatchIsNext(c.log, pos, c.batch);
    assert at == k && Emitted(c, s) == c.log;
    t := ReadBatch(c, s, wf);
    t := StartAndAdvance(c, t, wf, Batch(c.log, pos, c.batch));
    forall id | id in t.runs ensures exists j :: 0 <= j < k + 1 && id == RunId(wf, c.log[j].id) {
      if id !in s.runs { assert id == RunId(wf, c.log[k].id); }
    }
  }

  lemma ReadBatch(c: Config, s: State, wf: string) returns (t: State)
    requires Reachable(c, s) && PcOf(s, 0) == Idle && wf in c.workflows && c.mode == Polled
    ensures Reachable(c, t)
    ensures t == s.(workers := t.workers)
    ensures PcOf(t, 0) == Draining(wf, Batch(Emitted(c, s), CursorValue(s, PollCursor(wf)), c.batch), false)
  {
    hide Reachable, Batch;
    t := Reach(c, s, ReadCursor(0, wf));
    t := Reach(c, t, ReadFeed(0));
  }

  lemma StartAndAdvance(c: Config, s: State, wf: string, pending: seq<Event>) returns (t: State)
    requires Reachable(c, s) && PcOf(s, 0) == Draining(wf, pending, false) && pending != [] && c.mode == Polled
    ensures Reachable(c, t) && t.emitted == s.emitted && PcOf(t, 0) == Idle
    ensures t.runs == Start(s.runs, wf, pending[0].id)
    ensures t.cursors == s.cursors[PollCursor(wf) := pending[0].pos]
    ensures (PollCursor(wf), pending[0].pos) in t.stored
  {
    hide Reachable, Start;
    t := Reach(c, s, StartRun(0));
    t := Reach(c, t, AdvanceCursor(0, false));
    t := Reach(c, t, Stop(0));
  }

  lemma {:induction false} DrainPrefix(c: Config, wf: string, k: nat) returns (s: State)
    requires WellFormed(c) && c.mode == Polled && wf in c.workflows && Nondecreasing(c.log)
    requires k <= |c.log| && (forall a, b :: 0 <= a < b < k ==> c.log[a].pos < c.log[b].pos)
    requires forall i :: 0 <= i < |c.log| ==> c.log[i].pos > 0
    ensures Drained(c, wf, k, s)
  {
    if k == 0 {
      s := EmitAll(c, |c.log|);
    } else {
      s := DrainPrefix(c, wf, k - 1);
      s := DrainOne(c, wf, k - 1, s);
    }
  }

  // ----- The inbox -----------------------------------------------------------

  /** One row holds the event; for every workflow its run started, or no stored inbox cursor has passed the row. */
  ghost predicate NotLost(c: Config, s: State, id: string) {
    exists i :: 0 <= i < |s.inbox| && s.inbox[i].id == id && NotLostAt(c, s, id, i)
  }

  ghost predicate NotLostAt(c: Config, s: State, id: string, i: int)
    requires 0 <= i < |s.inbox|
  {
    && (forall j :: 0 <= j < |s.inbox| && s.inbox[j].id == id ==> j == i)
    && forall wf :: wf in c.workflows ==>
         || Started(s, wf, id)
         || (s.inbox[i].pos > CursorValue(s, InboxCursor(wf)) &&
             forall pos :: (InboxCursor(wf), pos) in s.stored ==> s.inbox[i].pos > pos)
  }

  lemma HeldIsKept(c: Config, s: State, id: string)
    requires Inv(c, s) && c.mode != Polled && Holds(s.inbox, id)
    ensures NotLost(c, s, id)
  {
    var i :| 0 <= i < |s.inbox| && s.inbox[i].id == id;
    forall wf, pos | (InboxCursor(wf), pos) in s.stored && s.inbox[i].pos <= pos ensures Started(s, wf, id) {
      assert CursorOk(c, s, InboxCursor(wf), pos);
    }
    forall wf | s.inbox[i].pos <= CursorValue(s, InboxCursor(wf)) ensures Started(s, wf, id) {
      assert CursorOk(c, s, InboxCursor(wf), CursorValue(s, InboxCursor(wf)));
    }
    assert NotLostAt(c, s, id, i);
  }

  /** An event acknowledged to a webhook provider is never lost. */
  lemma AcknowledgedEventsKept(c: Config, s: State, id: string)
    requires WellFormed(c) && c.mode == Hooked && Reachable(c, s) && id in s.acked
    ensures NotLost(c, s, id)
  {
    ReachableInv(c, s);
    HeldIsKept(c, s, id);
  }

  /** So is every source event at or below any reconcile cursor ever stored. */
  lemma ReconciledEventsKept(c: Config, s: State, wf: string, pos: int, i: nat)
    requires WellFormed(c) && Increasing(c.log) && c.mode == Hooked && Reachable(c, s)
    requires (PollCursor(wf), pos) in s.stored && i < |c.log| && c.log[i].pos <= pos
    ensures NotLost(c, s, c.log[i].id)
  {
    ReachableInv(c, s);
    assert CursorOk(c, s, PollCursor(wf), pos);
    assert Emitted(c, s)[s.emitted - 1] == c.log[s.emitted - 1];
    assert i < s.emitted && Emitted(c, s)[i] == c.log[i];
    HeldIsKept(c, s, c.log[i].id);
  }

  // ----- Reconciling ---------------------------------------------------------

  /** The promise of ReconciledEventsKept; 0 is what the store answers before the first write. */
  ghost predicate ReconcileSafe(c: Config, s: State) {
    forall wf, pos, i :: ReconcileSafeAt(c, s, wf, pos, i)
  }

  ghost predicate ReconcileSafeAt(c: Config, s: State, wf: string, pos: int, i: int) {
    wf in c.workflows && (pos == 0 || (PollCursor(wf), pos) in s.stored) && 0 <= i < |Emitted(c, s)| && c.log[i].pos <= pos
    ==> Holds(s.inbox, c.log[i].id)
  }

  /** Reconciling, too, keeps its promise in every reachable state exactly for the sources without ties (or positions at or below 0). */
  lemma ReconcileSafeExactlyWhenIncreasing(c: Config)
    requires WellFormed(c) && c.mode == Hooked && c.workflows != {}
    requires Nondecreasing(c.log) && DistinctIds(c.log)
    ensures (forall s :: Reachable(c, s) ==> ReconcileSafe(c, s)) <==> Increasing(c.log)
  {
    if Increasing(c.log) {
      forall s | Reachable(c, s) ensures ReconcileSafe(c, s) {
        forall wf, pos, i ensures ReconcileSafeAt(c, s, wf, pos, i) {
          if (PollCursor(wf), pos) in s.stored && 0 <= i < |Emitted(c, s)| && c.log[i].pos <= pos {
            ReconciledEventsKept(c, s, wf, pos, i);
          }
        }
      }
    } else {
      var s := MissesEvent(c);
      assert Reachable(c, s) && !ReconcileSafe(c, s);
    }
  }

  /** A tie that the source appends after a poll is passed over by the next one. */
  lemma MissesEvent(c: Config) returns (s: State)
    requires WellFormed(c) && c.mode == Hooked && c.workflows != {}
    requires Nondecreasing(c.log) && DistinctIds(c.log) && !Increasing(c.log)
    ensures Reachable(c, s) && !ReconcileSafe(c, s)
  {
    var wf :| wf in c.workflows;
    if i :| 0 <= i < |c.log| && c.log[i].pos <= 0 {
      s := EmitAll(c, |c.log|);
      assert !ReconcileSafeAt(c, s, wf, 0, i);
    } else {
      var i := FirstTie(c.log);
      s := ReconcilePrefix(c, wf, i + 1);
      var t := Reach(c, s, SourceEmits);
      assert Emitted(c, t)[i + 1] == c.log[i + 1] && t.inbox == s.inbox && t.stored == s.stored;
      assert (PollCursor(wf), c.log[i].pos) in t.stored;
      assert !Holds(t.inbox, c.log[i + 1].id);
      s := t;
      assert !ReconcileSafeAt(c, s, wf, c.log[i].pos, i + 1);
    }
  }

  /** The first k events were emitted and reconciled, one by one, and nothing else arrived. */
  ghost predicate Reconciled(c: Config, wf: string, k: nat, s: State)
    requires k <= |c.log|
  {
    && Reachable(c, s) && s.emitted == k && PcOf(s, 0) == Idle
    && CursorValue(s, PollCursor(wf)) == (if k == 0 then 0 else c.log[k - 1].pos)
    && (k > 0 ==> (PollCursor(wf), c.log[k - 1].pos) in s.stored)
    && forall i :: 0 <= i < |s.inbox| ==> exists j :: 0 <= j < k && s.inbox[i].id == c.log[j].id
  }

  lemma {:induction false} ReconcilePrefix(c: Config, wf: string, k: nat) returns (s: State)
    requires WellFormed(c) && c.mode == Hooked && wf in c.workflows && Nondecreasing(c.log)
    requires k <= |c.log| && (forall a, b :: 0 <= a < b < k ==> c.log[a].pos < c.log[b].pos)
    requires forall i :: 0 <= i < |c.log| ==> c.log[i].pos > 0
    ensures Reconciled(c, wf, k, s)
  {
    if k == 0 {
      s := EmitAll(c, 0);
    } else {
      s := ReconcilePrefix(c, wf, k - 1);
      s := ReconcileNext(c, wf, k - 1, s);
    }
  }

  lemma ReconcileNext(c: Config, wf: string, k: nat, s: State) returns (t: State)
    requires WellFormed(c) && c.mode == Hooked && wf in c.workflows && Nondecreasing(c.log)
    requires k < |c.log| && Reconciled(c, wf, k, s)
    requires c.log[k].pos > if k == 0 then 0 else c.log[k - 1].pos
    ensures Reconciled(c, wf, k + 1, t)
  {
    var pos := CursorValue(s, PollCursor(wf));
    var feed := c.log[..k + 1];
    var at := BatchIsNext(feed, pos, c.batch);
    assert at == k && Batch(feed, pos, c.batch) == [c.log[k]];
    t := EmitAndPoll(c, s, wf, c.log[k]);
    t := StoreOne(c, t, wf, c.log[k]);
  }

  lemma EmitAndPoll(c: Config, s: State, wf: string, e: Event) returns (t: State)
    requires Reachable(c, s) && PcOf(s, 0) == Idle && wf in c.workflows && c.mode == Hooked && s.emitted < |c.log|
    requires Batch(c.log[..s.emitted + 1], CursorValue(s, PollCursor(wf)), c.batch) == [e]
    ensures Reachable(c, t) && t == s.(emitted := s.emitted + 1, workers := t.workers) && PcOf(t, 0) == Fetched(wf, [e])
  {
    hide Reachable, Batch;
    t := Reach(c, s, SourceEmits);
    t := Reach(c, t, ReadPollCursor(0, wf));
    t := Reach(c, t, PollSource(0));
  }

  lemma InsertSingle(inbox: seq<Event>, id: string)
    ensures Insert(inbox, [id], []) == if Holds(inbox, id) then inbox else inbox + [Event(id, NextSeq(inbox, 0))]
  {
    assert [id][1..] == [];
  }

  lemma StoreOne(c: Config, s: State, wf: string, e: Event) returns (t: State)
    requires Reachable(c, s) && PcOf(s, 0) == Fetched(wf, [e]) && c.mode == Hooked
    ensures Reachable(c, t) && PcOf(t, 0) == Idle && t.emitted == s.emitted
    ensures t.cursors == s.cursors[PollCursor(wf) := e.pos] && (PollCursor(wf), e.pos) in t.stored
    ensures t.inbox == s.inbox || (exists pos :: t.inbox == s.inbox + [Event(e.id, pos)])
  {
    hide Reachable;
    var ids := Ids([e]);
    assert ids == [e.id];
    InsertSingle(s.inbox, e.id);
    t := Reach(c, s, DeliverPolled(0, []));
    assert t.inbox == if Holds(s.inbox, e.id) then s.inbox else s.inbox + [Event(e.id, NextSeq(s.inbox, 0))];
    t := Reach(c, t, AdvancePollCursor(0, false));
  }

  // ----- Runs ----------------------------------------------------------------

  /** However an event arrived, at most one of its runs is live or completed. */
  lemma OneRunPerEvent(c: Config, s: State, id: string, i: nat, id': string, i': nat)
    requires WellFormed(c) && Reachable(c, s)
    requires id in s.runs && i < |s.runs[id]| && s.runs[id][i].status != Failed
    requires id' in s.runs && i' < |s.runs[id']| && s.runs[id'][i'].status != Failed
    requires s.runs[id][i].workflow == s.runs[id'][i'].workflow && s.runs[id][i].event == s.runs[id'][i'].event
    ensures id == id' && i == i'
  {
    ReachableInv(c, s);
    assert id == id';
    assert forall k :: 0 <= k < |s.runs[id]| - 1 ==> s.runs[id][k] == s.runs[id][..|s.runs[id]| - 1][k];
  }
}

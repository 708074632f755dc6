/** When an event's run starts, starts again, or never again; and in which order the inbox stores events. */
module DeliveryRuns {
  import opened Prelude
  import opened Delivery
  import opened DeliveryProof

  // ----- Runs ----------------------------------------------------------------

  predicate Alive(run: Run) { run.status != Failed }

  /** All attempts at the event so far. */
  function Attempts(runs: map<string, seq<Run>>, workflow: string, event: string): seq<Run> {
    var id := RunId(workflow, event);
    if id in runs then runs[id] else []
  }

  /** The last attempt is running or has completed. */
  predicate LastAlive(attempts: seq<Run>) { attempts != [] && Alive(attempts[|attempts| - 1]) }

  /**
   * Starting an event adds an attempt exactly when no earlier one is running
   * or has completed; either way one is afterwards, and no other event's
   * attempts change.
   */
  lemma StartExactly(c: Config, s: State, workflow: string, event: string)
    requires WellFormed(c) && Reachable(c, s) && workflow in c.workflows
    ensures var before, after := Attempts(s.runs, workflow, event), Attempts(Start(s.runs, workflow, event), workflow, event);
      && (if LastAlive(before) then after == before else after == before + [Run(workflow, event, Running)])
      && LastAlive(after)
    ensures forall id :: id != RunId(workflow, event) ==>
      (id in s.runs <==> id in Start(s.runs, workflow, event)) && (id in s.runs ==> Start(s.runs, workflow, event)[id] == s.runs[id])
  {
    ReachableInv(c, s);
    hide Reachable, CursorsOk, PcsOk, AckedOk, ResumesOk;
    var id := RunId(workflow, event);
    if id in s.runs { LastDecides(c, s.runs, id); }
  }

  /** Of the attempts at an event only the last can be running or completed. */
  lemma LastDecides(c: Config, runs: map<string, seq<Run>>, id: string)
    requires RunsOk(c, runs) && id in runs
    ensures runs[id] != [] && (AllFailed(runs[id]) <==> !Alive(runs[id][|runs[id]| - 1]))
  {
    var n := |runs[id]| - 1;
    assert forall i :: 0 <= i < n ==> runs[id][i] == runs[id][..n][i];
  }

  /** A running attempt can fail or complete; an event whose attempts all failed can be tried again, and no other. */
  lemma RunsEnd(c: Config, s: State, id: string, completed: bool) returns (t: State)
    requires WellFormed(c) && Reachable(c, s) && id in s.runs && s.runs[id] != [] && s.runs[id][|s.runs[id]| - 1].status == Running
    ensures Reachable(c, t) && Apply(c, s, EndRun(id, completed)) == Some(t) && id in t.runs && |t.runs[id]| == |s.runs[id]|
    ensures if completed then t.runs[id][|t.runs[id]| - 1].status == Completed && Apply(c, t, RetryRun(id)) == None
            else Apply(c, t, RetryRun(id)).Some?
  {
    t := Reach(c, s, EndRun(id, completed));
    ReachableInv(c, t);
    hide Reachable, CursorsOk, PcsOk, AckedOk, ResumesOk;
    LastDecides(c, t.runs, id);
  }

  /** Once an attempt has completed, delivering the event again never starts another. */
  lemma CompletedStays(c: Config, s: State, workflow: string, event: string, completed: bool) returns (t: State)
    requires WellFormed(c) && Reachable(c, s) && workflow in c.workflows
    requires var before := Attempts(s.runs, workflow, event); before != [] && before[|before| - 1].status == Running
    ensures Apply(c, s, EndRun(RunId(workflow, event), completed)) == Some(t)
    ensures var before, after := Attempts(t.runs, workflow, event), Attempts(Start(t.runs, workflow, event), workflow, event);
      |before| == |Attempts(s.runs, workflow, event)| && |after| == |before| + if completed then 0 else 1
  {
    hide Reachable, Start;
    t := RunsEnd(c, s, RunId(workflow, event), completed);
    StartExactly(c, t, workflow, event);
    ReachableInv(c, t);
    LastDecides(c, t.runs, RunId(workflow, event));
    if !completed { FailedLast(c, t, RunId(workflow, event)); }
  }

  lemma FailedLast(c: Config, t: State, id: string)
    requires RunsOk(c, t.runs) && id in t.runs && Apply(c, t, RetryRun(id)).Some?
    ensures t.runs[id] != [] && !Alive(t.runs[id][|t.runs[id]| - 1])
  {
  }

  // ----- The inbox -----------------------------------------------------------

  /** Where an ID first stands in a delivery. */
  function FirstAt(ids: seq<string>, id: string): nat {
    if ids == [] || ids[0] == id then 0 else 1 + FirstAt(ids[1..], id)
  }

  /** The rows a delivery adds: IDs it brought that were not held, by where they first stood. */
  ghost predicate InOrder(inbox: seq<Event>, ids: seq<string>, rows: seq<Event>) {
    && (forall a :: 0 <= a < |rows| ==> rows[a].id in ids && !Holds(inbox, rows[a].id))
    && (forall a, b :: 0 <= a < b < |rows| ==> FirstAt(ids, rows[a].id) < FirstAt(ids, rows[b].id))
  }

  /** The inbox stores new events in the order in which they were delivered, after those it holds. */
  lemma {:induction false} StoredInOrder(inbox: seq<Event>, ids: seq<string>, gaps: seq<nat>)
    ensures inbox <= Insert(inbox, ids, gaps)
    ensures InOrder(inbox, ids, Insert(inbox, ids, gaps)[|inbox|..])
    decreases |ids|
  {
    if ids != [] {
      var gap := if gaps == [] then 0 else gaps[0];
      var more := if gaps == [] then [] else gaps[1..];
      if Holds(inbox, ids[0]) {
        StoredInOrder(inbox, ids[1..], more);
        OrderLater(inbox, ids, Insert(inbox, ids[1..], more)[|inbox|..]);
      } else {
        var e := Event(ids[0], NextSeq(inbox, gap));
        var grown := inbox + [e];
        StoredInOrder(grown, ids[1..], more);
        var rows := Insert(grown, ids[1..], more)[|grown|..];
        assert Insert(inbox, ids, gaps)[|inbox|..] == [e] + rows;
        HoldsGrown(inbox, e);
        OrderFirst(inbox, ids, e, rows);
      }
    }
  }

  lemma HoldsGrown(inbox: seq<Event>, e: Event)
    ensures forall id :: Holds(inbox + [e], id) <==> Holds(inbox, id) || id == e.id
  {
    forall id ensures Holds(inbox + [e], id) <==> Holds(inbox, id) || id == e.id {
      assert (inbox + [e])[|inbox|] == e;
      if Holds(inbox, id) {
        var i :| 0 <= i < |inbox| && inbox[i].id == id;
        assert (inbox + [e])[i].id == id;
      }
    }
  }

  lemma OrderLater(inbox: seq<Event>, ids: seq<string>, rows: seq<Event>)
    requires ids != [] && Holds(inbox, ids[0]) && InOrder(inbox, ids[1..], rows)
    ensures InOrder(inbox, ids, rows)
  {
    hide Holds;
  }

  lemma OrderFirst(inbox: seq<Event>, ids: seq<string>, e: Event, rows: seq<Event>)
    requires ids != [] && e.id == ids[0] && !Holds(inbox, e.id) && InOrder(inbox + [e], ids[1..], rows)
    requires forall id :: Holds(inbox + [e], id) <==> Holds(inbox, id) || id == e.id
    ensures InOrder(inbox, ids, [e] + rows)
  {
    hide Holds;
  }
}

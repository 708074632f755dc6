/** Which events a subscription keeps. */
module DeliveryStream {
  import opened Prelude
  import opened Delivery
  import opened DeliveryProof
  import opened DeliveryTheorems

  /**
   * However many workers subscribe, every stream event before any resume
   * position ever stored is kept, from the place where the last subscription
   * without a stored position began.
   */
  lemma StreamedEventsKept(c: Config, s: State, r: nat, k: nat)
    requires WellFormed(c) && c.mode == Streamed && Reachable(c, s)
    requires r in s.resumes && k < r && s.origin.Some? && s.origin.value <= k
    ensures r <= |c.stream| && NotLost(c, s, c.stream[k])
  {
    ReachableInv(c, s);
    assert Between(c, s, s.origin, r);
    HeldIsKept(c, s, c.stream[k]);
  }

  // ----- With the lock -------------------------------------------------------

  predicate Subscribing(pc: Pc) { pc.Standing? || pc.Resuming? || pc.Subscribed? }

  /** Only the worker that has the lock subscribes, from the stored position, or from now when there is none. */
  ghost predicate HolderOk(s: State) {
    && (forall w: nat :: Subscribing(PcOf(s, w)) ==> s.holder == Some(w))
    && (s.holder.Some? ==> HolderAt(s, PcOf(s, s.holder.value)))
  }

  ghost predicate HolderAt(s: State, pc: Pc) {
    match pc
    case Resuming(from) => from == s.resume
    case Subscribed(at, start) => at <= s.streamed && if start.None? then s.resume == Some(at) else start == Some(at) && s.resume == None
    case _ => true
  }

  ghost predicate Carried(c: Config, from: nat, to: nat, id: string) {
    exists k :: from <= k < to && k < |c.stream| && c.stream[k] == id
  }

  /** The inbox holds exactly what the stream carried from the origin to the stored position. */
  ghost predicate InboxExact(c: Config, s: State) {
    && s.streamed <= |c.stream|
    && match s.resume
       case None => s.inbox == [] && s.origin == None
       case Some(r) => s.origin.Some? && s.origin.value <= r <= s.streamed && forall id :: Holds(s.inbox, id) <==> Carried(c, s.origin.value, r, id)
  }

  ghost predicate Exact(c: Config, s: State) { HolderOk(s) && InboxExact(c, s) }

  lemma {:induction false} InsertHolds(inbox: seq<Event>, ids: seq<string>, gaps: seq<nat>, id: string)
    ensures Holds(Insert(inbox, ids, gaps), id) <==> Holds(inbox, id) || id in ids
    decreases |ids|
  {
    if ids != [] {
      var gap := if gaps == [] then 0 else gaps[0];
      var more := if gaps == [] then [] else gaps[1..];
      if Holds(inbox, ids[0]) {
        InsertHolds(inbox, ids[1..], more, id);
      } else {
        var next := inbox + [Event(ids[0], NextSeq(inbox, gap))];
        InsertHolds(next, ids[1..], more, id);
        AppendHolds(inbox, Event(ids[0], NextSeq(inbox, gap)), id);
      }
    }
  }

  lemma AppendHolds(inbox: seq<Event>, e: Event, id: string)
    ensures Holds(inbox + [e], id) <==> Holds(inbox, id) || id == e.id
  {
    var more := inbox + [e];
    assert more[|inbox|] == e;
    assert forall i :: 0 <= i < |inbox| ==> more[i] == inbox[i];
  }

  /** What one delivery adds. */
  lemma DeliveryExact(c: Config, s: State, w: nat, n: nat, gaps: seq<nat>)
    requires Exact(c, s) && Apply(c, s, DeliverStream(w, n, gaps)).Some?
    ensures Exact(c, Apply(c, s, DeliverStream(w, n, gaps)).value)
    ensures var t := Apply(c, s, DeliverStream(w, n, gaps)).value; s.origin.Some? ==> t.origin == s.origin
  {
    var pc, t := PcOf(s, w), Apply(c, s, DeliverStream(w, n, gaps)).value;
    assert Subscribing(pc);
    var next, ids := pc.at + n, c.stream[pc.at..pc.at + n];
    hide Insert;
    assert t.inbox == Insert(s.inbox, ids, gaps) && t.resume == Some(next);
    assert t.origin == if s.resume.None? then Some(pc.at) else s.origin;
    forall id ensures Holds(t.inbox, id) <==> Carried(c, t.origin.value, next, id) {
      InsertHolds(s.inbox, ids, gaps, id);
      CarriedOn(c, t.origin.value, pc.at, next, id);
      if s.resume.None? { assert !Holds(s.inbox, id) && !Carried(c, pc.at, pc.at, id); }
    }
    hide Holds, Carried;
  }

  lemma CarriedOn(c: Config, from: nat, at: nat, to: nat, id: string)
    requires from <= at <= to <= |c.stream|
    ensures Carried(c, from, to, id) <==> Carried(c, from, at, id) || id in c.stream[at..to]
  {
    if id in c.stream[at..to] {
      var k :| 0 <= k < to - at && c.stream[at..to][k] == id;
      assert c.stream[at + k] == id;
    }
    if Carried(c, from, to, id) {
      var k :| from <= k < to && c.stream[k] == id;
      if k >= at { assert c.stream[at..to][k - at] == id; }
    }
  }

  /** The other steps of a subscribing worker. */
  lemma SubscribingExact(c: Config, s: State, a: Action)
    requires c.exclusive && Exact(c, s) && (a.TakeLock? || a.ReadResume? || a.Subscribe?) && Apply(c, s, a).Some?
    ensures Exact(c, Apply(c, s, a).value) && Apply(c, s, a).value.origin == s.origin
  {
    assert Subscribing(PcOf(s, a.w)) || a.TakeLock?;
    hide Holds, Carried;
    var t := Apply(c, s, a).value;
    forall v: nat ensures PcOf(t, v) == if v == a.w then PcOf(t, a.w) else PcOf(s, v) {
    }
  }

  /** Steps that are not of a subscription leave it alone. */
  lemma OtherExact(c: Config, s: State, a: Action)
    requires c.mode == Streamed && Inv(c, s) && Exact(c, s) && Apply(c, s, a).Some?
    requires !a.TakeLock? && !a.ReadResume? && !a.Subscribe? && !a.DeliverStream?
    ensures Exact(c, Apply(c, s, a).value) && Apply(c, s, a).value.origin == s.origin
  {
    var t := Apply(c, s, a).value;
    QuietStep(c, s, a);
    hide Apply, Holds, Carried;
  }

  /** They change no stream state, and the place of one worker at most, which then does not subscribe. */
  lemma QuietStep(c: Config, s: State, a: Action)
    requires c.mode == Streamed && Inv(c, s) && Apply(c, s, a).Some?
    requires !a.TakeLock? && !a.ReadResume? && !a.Subscribe? && !a.DeliverStream?
    ensures var t := Apply(c, s, a).value;
      && t.inbox == s.inbox && t.resume == s.resume && t.origin == s.origin && s.streamed <= t.streamed <= |c.stream|
      && (forall w: nat :: PcOf(t, w) == PcOf(s, w) || !Subscribing(PcOf(t, w)))
      && (t.holder == s.holder || (t.holder == None && a.Stop? && s.holder == Some(a.w)))
      && (forall w: nat :: Subscribing(PcOf(t, w)) ==> Subscribing(PcOf(s, w)) && !(a.Stop? && a.w == w))
  {
    QuietStores(c, s, a);
    hide Inv, Apply;
  }

  /** A step of a worker that does not subscribe: where it then stands. */
  ghost predicate Stands(s: State, t: State, a: Action) {
    || t.workers == s.workers
    || (!a.SourceEmits? && !a.StreamEmits? && !a.EndRun? && !a.RetryRun? && exists pc :: !Subscribing(pc) && t.workers == s.workers[a.w := pc])
  }

  lemma QuietStores(c: Config, s: State, a: Action)
    requires c.mode == Streamed && Inv(c, s) && Apply(c, s, a).Some?
    requires !a.TakeLock? && !a.ReadResume? && !a.Subscribe? && !a.DeliverStream?
    ensures var t := Apply(c, s, a).value;
      && t.inbox == s.inbox && t.resume == s.resume && t.origin == s.origin && s.streamed <= t.streamed <= |c.stream|
      && (t.holder == s.holder || (t.holder == None && a.Stop? && s.holder == Some(a.w)))
      && Stands(s, t, a) && (a.Stop? ==> t.workers == s.workers[a.w := Idle])
  {
    assert s.streamed <= |c.stream|;
    var t := Apply(c, s, a).value;
    if !a.SourceEmits? && !a.StreamEmits? && !a.EndRun? && !a.RetryRun? {
      NoReconciling(c, s, a.w);
      hide Inv, Insert, RunId, Start, Batch, Holds, AllFailed, CursorValue, Emitted, Ids;
      assert t.workers == s.workers[a.w := PcOf(t, a.w)] && !Subscribing(PcOf(t, a.w));
    }
  }

  lemma NoReconciling(c: Config, s: State, w: nat)
    requires c.mode == Streamed && Inv(c, s)
    ensures var pc := PcOf(s, w); !pc.ReconcileAt? && !pc.Fetched? && !pc.Delivered?
  {
    PcHolds(c, s, w);
    hide Inv, CursorOk, Next, Between;
  }

  lemma StepExact(c: Config, s: State, a: Action)
    requires WellFormed(c) && c.mode == Streamed && c.exclusive && Inv(c, s) && Exact(c, s) && Apply(c, s, a).Some?
    ensures Exact(c, Apply(c, s, a).value)
    ensures s.origin.Some? ==> Apply(c, s, a).value.origin == s.origin
  {
    hide *;
    match a
    case TakeLock(_) => SubscribingExact(c, s, a);
    case ReadResume(_) => SubscribingExact(c, s, a);
    case Subscribe(_) => SubscribingExact(c, s, a);
    case DeliverStream(w, n, gaps) => DeliveryExact(c, s, w, n, gaps);
    case _ => OtherExact(c, s, a);
  }

  lemma {:induction false} ExecExact(c: Config, acts: seq<Action>)
    requires WellFormed(c) && c.mode == Streamed && c.exclusive && Exec(c, INIT, acts).Some?
    ensures Exact(c, Exec(c, INIT, acts).value)
  {
    hide Inv, Apply;
    if acts == [] {
      InitExact(c);
    } else {
      var before := acts[..|acts| - 1];
      ExecExact(c, before);
      var s := Exec(c, INIT, before).value;
      ReachableInv(c, s);
      StepExact(c, s, acts[|acts| - 1]);
    }
  }

  lemma InitExact(c: Config)
    ensures Exact(c, INIT)
  {
  }

  lemma ReachableExact(c: Config, s: State)
    requires WellFormed(c) && c.mode == Streamed && c.exclusive && Reachable(c, s)
    ensures Exact(c, s)
  {
    var acts :| Exec(c, INIT, acts) == Some(s);
    ExecExact(c, acts);
  }

  /** With the lock, one worker at a time subscribes. */
  lemma OneSubscriber(c: Config, s: State, w: nat, v: nat)
    requires WellFormed(c) && c.mode == Streamed && c.exclusive && Reachable(c, s)
    requires PcOf(s, w).Subscribed? && PcOf(s, v).Subscribed?
    ensures w == v
  {
    ReachableExact(c, s);
    assert Subscribing(PcOf(s, w)) && Subscribing(PcOf(s, v));
  }

  /** The place where the subscription that stored the first position began never changes. */
  lemma OriginFixed(c: Config, s: State, a: Action)
    requires WellFormed(c) && c.mode == Streamed && c.exclusive && Reachable(c, s) && Apply(c, s, a).Some?
    ensures s.origin.Some? ==> Apply(c, s, a).value.origin == s.origin
  {
    ReachableExact(c, s);
    ReachableInv(c, s);
    StepExact(c, s, a);
  }

  /**
   * With one subscriber at a time, a stream event is kept exactly when it came
   * at or after the place where the subscription that stored the first position
   * began, and before the stored position.
   */
  lemma StreamedEventsExactly(c: Config, s: State, k: nat)
    requires WellFormed(c) && c.mode == Streamed && c.exclusive && Reachable(c, s) && k < |c.stream|
    requires forall i, j :: 0 <= i < j < |c.stream| ==> c.stream[i] != c.stream[j]
    ensures NotLost(c, s, c.stream[k]) <==> s.resume.Some? && s.origin.Some? && s.origin.value <= k < s.resume.value
    ensures Holds(s.inbox, c.stream[k]) <==> s.resume.Some? && s.origin.Some? && s.origin.value <= k < s.resume.value
  {
    ReachableExact(c, s);
    ReachableInv(c, s);
    if Holds(s.inbox, c.stream[k]) { HeldIsKept(c, s, c.stream[k]); }
    hide Inv;
    if s.resume.Some? { assert Holds(s.inbox, c.stream[k]) <==> Carried(c, s.origin.value, s.resume.value, c.stream[k]); }
  }

  /**
   * An instance: a worker that stops before the first position is stored loses
   * what arrived meanwhile, because the next subscription starts from now.
   */
  lemma FirstSubscriptionLosesEvents() returns (c: Config, s: State)
    ensures WellFormed(c) && Increasing(c.log) && c.mode == Streamed && c.exclusive && Reachable(c, s)
    ensures c.stream == ["a", "b"] && 2 in s.resumes && !Holds(s.inbox, "a")
  {
    c := Config(Streamed, {"w"}, 100, [], ["a", "b"], true);
    s := EmitAll(c, 0);
    s := SubscribeAndStop(c, s);
    s := SubscribeAndDeliver(c, s);
    StreamedEventsExactly(c, s, 0);
  }

  lemma Open(c: Config, s: State, w: nat) returns (t: State)
    requires Reachable(c, s) && c.mode == Streamed && PcOf(s, w) == Idle && s.holder == None && s.resume == None
    ensures Reachable(c, t) && t == s.(holder := Some(w), workers := s.workers[w := Subscribed(s.streamed, Some(s.streamed))])
  {
    hide Reachable;
    t := Reach(c, s, TakeLock(w));
    t := Reach(c, t, ReadResume(w));
    t := Reach(c, t, Subscribe(w));
    assert s.workers[w := Standing][w := Resuming(None)][w := Subscribed(s.streamed, Some(s.streamed))] == s.workers[w := Subscribed(s.streamed, Some(s.streamed))];
  }

  lemma SubscribeAndStop(c: Config, s: State) returns (t: State)
    requires Reachable(c, s) && c.mode == Streamed && c.stream == ["a", "b"] && s == INIT
    ensures Reachable(c, t) && t == INIT.(streamed := 1, workers := map[0 := Idle])
  {
    hide Reachable;
    t := Open(c, s, 0);
    t := Reach(c, t, StreamEmits);
    t := Reach(c, t, Stop(0));
  }

  lemma SubscribeAndDeliver(c: Config, s: State) returns (t: State)
    requires Reachable(c, s) && c.mode == Streamed && c.stream == ["a", "b"]
    requires s == INIT.(streamed := 1, workers := map[0 := Idle])
    ensures Reachable(c, t) && t.origin == Some(1) && t.resume == Some(2) && 2 in t.resumes
  {
    hide Reachable, Insert;
    t := Open(c, s, 1);
    t := Reach(c, t, StreamEmits);
    t := Reach(c, t, DeliverStream(1, 1, []));
  }
}

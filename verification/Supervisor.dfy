/**
 * The appliance supervisor: one worker per valid spec file, a new version
 * started next to the old one and swapped in once it is ready, health ports,
 * and the immutable copies workers run from.
 */
module Appliance {
  import opened Prelude

  const INVALID_NAME := "not a valid name: lower-case letters, digits and -"

  /** One version of a spec's worker; processes are numbered in the order they start. */
  datatype Proc = Proc(spec: string, digest: string, path: string, port: int, started: int, stopped: bool)

  datatype Unit = Unit(current: Option<nat>, next: Option<nat>, failed: string, invalid: string, fileDigest: string)

  const NEW_UNIT := Unit(None, None, "", "", "")

  /** What checking a spec file says; a refused file may still name a digest. */
  datatype Verdict = Refused(digest: string, reason: string) | Verified(digest: string)

  type Units = map<string, Unit>
  type Procs = seq<Proc>

  /** What an observer sees between two changes. */
  datatype View = View(units: Units, procs: Procs)

  // ----- Names and paths -----------------------------------------------------

  predicate NameChar(c: char) { 'a' <= c <= 'z' || '0' <= c <= '9' }

  predicate ValidName(name: string) {
    && 1 <= |name| <= 63 && NameChar(name[0]) && NameChar(name[|name| - 1])
    && forall i :: 0 <= i < |name| ==> NameChar(name[i]) || name[i] == '-'
  }

  function Short(digest: string): string {
    var d := if "sha256:" <= digest then digest[7..] else digest;
    if |d| > 12 then d[..12] else d
  }

  function Path(name: string, digest: string): string { name + "-" + Short(digest) + ".json" }

  // ----- What the supervisor keeps true ---------------------------------------

  ghost predicate IdsOk(units: Units, procs: Procs) {
    forall name :: name in units ==> UnitIds(name, units[name], procs)
  }

  ghost predicate UnitIds(name: string, u: Unit, procs: Procs) {
    && (u.current.Some? ==> u.current.value < |procs| && procs[u.current.value].spec == name)
    && (u.next.Some? ==> u.next.value < |procs| && procs[u.next.value].spec == name)
    && (u.current.Some? ==> u.current != u.next)
  }

  /** A current worker runs, and it was ready once. */
  ghost predicate CurrentOk(units: Units, procs: Procs, answered: set<nat>) {
    forall name :: name in units ==> UnitCurrent(units[name], procs, answered)
  }

  ghost predicate UnitCurrent(u: Unit, procs: Procs, answered: set<nat>) {
    u.current.Some? ==> u.current.value in answered && Running(procs, u.current.value)
  }

  predicate Running(procs: Procs, id: int) { 0 <= id < |procs| && !procs[id].stopped }

  /** Every worker runs a version of its spec that verified, from the copy of that version. */
  ghost predicate VersionsOk(procs: Procs, verified: set<(string, string)>) {
    forall id :: 0 <= id < |procs| ==>
      (procs[id].spec, procs[id].digest) in verified && procs[id].path == Path(procs[id].spec, procs[id].digest)
  }

  ghost predicate CopiesOk(procs: Procs, copies: map<string, string>, verified: set<(string, string)>) {
    && (forall id :: Running(procs, id) ==> procs[id].path in copies)
    && (forall path :: path in copies ==> exists name :: (name, copies[path]) in verified && path == Path(name, copies[path]))
  }

  ghost predicate PortsOk(procs: Procs) {
    forall a, b :: Running(procs, a) && Running(procs, b) && procs[a].port == procs[b].port ==> a == b
  }

  predicate Refers(u: Unit, id: nat) { u.current == Some(id) || u.next == Some(id) }

  /** Every worker that runs is some unit's current or next one, but for those in `but`. */
  ghost predicate NoStray(units: Units, procs: Procs, but: set<nat>) {
    forall id :: Running(procs, id) && id !in but ==> procs[id].spec in units && Refers(units[procs[id].spec], id)
  }

  predicate Live(v: View, name: string) {
    name in v.units && v.units[name].current.Some? && Running(v.procs, v.units[name].current.value)
  }

  /** A spec served before a change is served after it, as long as its file is there. */
  ghost predicate Continues(v: View, w: View) {
    forall name :: name in w.units && Live(v, name) ==> Live(w, name)
  }

  /** A spec served in a state is served in the next one. */
  predicate ServedOn(views: seq<View>, k: nat, name: string)
    requires k + 1 < |views|
  {
    Live(views[k], name) ==> Live(views[k + 1], name)
  }

  ghost const EVERY: iset<string> := iset name: string | true

  /** States were only appended, and through all of them these specs stay served. */
  ghost predicate Serves(before: seq<View>, after: seq<View>, names: iset<string>) {
    && before != [] && before <= after
    && forall k, name :: |before| - 1 <= k < |after| - 1 && name in names ==> ServedOn(after, k, name)
  }

  lemma ServesSame(views: seq<View>, names: iset<string>)
    requires views != []
    ensures Serves(views, views, names)
  {
  }

  lemma ServesThen(a: seq<View>, b: seq<View>, c: seq<View>, names: iset<string>)
    requires Serves(a, b, names) && Serves(b, c, names)
    ensures Serves(a, c, names)
  {
    forall k, name | |a| - 1 <= k < |c| - 1 && name in names ensures ServedOn(c, k, name) {
      if k < |b| - 1 {
        assert ServedOn(b, k, name);
        assert b[k] == c[k] && b[k + 1] == c[k + 1];
      }
    }
  }

  lemma ServesFewer(a: seq<View>, b: seq<View>, names: iset<string>, fewer: iset<string>)
    requires Serves(a, b, names) && fewer <= names
    ensures Serves(a, b, fewer)
  {
  }

  /** One more state, in which these specs still have their unit. */
  lemma ServesNext(views: seq<View>, v: View, names: iset<string>)
    requires views != [] && Continues(views[|views| - 1], v)
    requires forall name :: name in names && name in views[|views| - 1].units ==> name in v.units
    ensures Serves(views, views + [v], names)
  {
  }

  /** What is served at first is served throughout. */
  lemma {:induction false} ServedThrough(before: seq<View>, after: seq<View>, names: iset<string>, name: string, k: nat)
    requires Serves(before, after, names) && name in names && Live(before[|before| - 1], name) && |before| - 1 <= k < |after|
    ensures Live(after[k], name)
  {
    if k >= |before| {
      ServedThrough(before, after, names, name, k - 1);
      assert ServedOn(after, k - 1, name);
    }
  }

  // ----- Runs ----------------------------------------------------------------

  /**
   * One pass over the directory: the spec files in it, None when it cannot be
   * read; the time; whether a spec's copy could be written; and which workers
   * answer as ready.
   */
  datatype Pass = Pass(files: Option<seq<(string, Verdict)>>, now: int, written: string -> bool, answers: nat -> bool)

  /** The specs whose files a pass finds. */
  ghost function Named(files: seq<(string, Verdict)>): iset<string> { iset k | 0 <= k < |files| :: files[k].0 }

  /**
   * The record of a run: the states of pass p are those after marks[p], up to
   * marks[p + 1], and through them the specs that it finds stay served.
   */
  ghost predicate Recorded(views: seq<View>, marks: seq<nat>, passes: seq<Pass>) {
    && |marks| == |passes| + 1 && marks[|passes|] < |views|
    && forall p :: 0 <= p < |passes| ==> PassRecorded(views, marks[p], marks[p + 1], passes[p].files)
  }

  ghost predicate PassRecorded(views: seq<View>, from: nat, to: nat, files: Option<seq<(string, Verdict)>>) {
    && from <= to < |views| && (files.None? ==> from == to)
    && (files.Some? ==> forall k, name :: from <= k < to && name in Named(files.value) ==> ServedOn(views, k, name))
  }

  /** The pass in which a state came about. */
  lemma {:induction false} PassOf(views: seq<View>, marks: seq<nat>, passes: seq<Pass>, k: nat, n: nat) returns (p: nat)
    requires Recorded(views, marks, passes) && n <= |passes| && marks[0] <= k < marks[n]
    ensures p < n && marks[p] <= k < marks[p + 1]
  {
    if k < marks[n - 1] { p := PassOf(views, marks, passes, k, n - 1); } else { p := n - 1; }
  }

  /**
   * Once a spec has a running current worker it has one in every later state
   * of the run, as long as every pass that could read the directory found its
   * file.
   */
  lemma {:induction false} ServiceContinues(views: seq<View>, marks: seq<nat>, passes: seq<Pass>, i: nat, j: nat, name: string)
    requires Recorded(views, marks, passes) && marks[0] <= i <= j <= marks[|passes|] && Live(views[i], name)
    requires forall p :: 0 <= p < |passes| && marks[p] < j && i < marks[p + 1] && passes[p].files.Some? ==> name in Named(passes[p].files.value)
    ensures j < |views| && Live(views[j], name)
    decreases j
  {
    if i < j {
      ServiceContinues(views, marks, passes, i, j - 1, name);
      var p := PassOf(views, marks, passes, j - 1, |passes|);
      assert PassRecorded(views, marks[p], marks[p + 1], passes[p].files);
      assert ServedOn(views, j - 1, name);
    }
  }

  // ----- Ports ---------------------------------------------------------------

  function Ports(units: Units, procs: Procs): set<int>
    requires IdsOk(units, procs)
  {
    (set name | name in units && units[name].current.Some? :: procs[units[name].current.value].port) +
    (set name | name in units && units[name].next.Some? :: procs[units[name].next.value].port)
  }

  lemma {:induction false} ImageSize(names: set<string>, port: string -> int, ports: set<int>)
    requires forall p :: p in ports ==> exists name :: name in names && port(name) == p
    ensures |ports| <= |names|
    decreases names
  {
    if names == {} {
      assert forall p :: p !in ports;
      assert ports == {};
    } else {
      var name :| name in names;
      ImageSize(names - {name}, port, ports - {port(name)});
      assert names == names - {name} + {name};
      assert ports <= ports - {port(name)} + {port(name)};
    }
  }

  /** Two workers per unit use at most two ports. */
  lemma PortsSize(units: Units, procs: Procs)
    requires IdsOk(units, procs)
    ensures |Ports(units, procs)| <= 2 * |units|
  {
    var a := set name | name in units && units[name].current.Some? :: procs[units[name].current.value].port;
    var b := set name | name in units && units[name].next.Some? :: procs[units[name].next.value].port;
    ImageSize(units.Keys, name => if name in units && units[name].current.Some? && units[name].current.value < |procs| then procs[units[name].current.value].port else 0, a);
    ImageSize(units.Keys, name => if name in units && units[name].next.Some? && units[name].next.value < |procs| then procs[units[name].next.value].port else 0, b);
    assert Ports(units, procs) == a + b;
  }

  /** n consecutive numbers in a set are n elements of it. */
  lemma {:induction false} Pigeonhole(base: int, n: nat, used: set<int>)
    requires forall q :: base <= q < base + n ==> q in used
    ensures n <= |used|
    decreases n
  {
    if n > 0 {
      var last := base + n - 1;
      Pigeonhole(base, n - 1, used - {last});
      assert used == used - {last} + {last};
    }
  }

  // ----- Changes -------------------------------------------------------------

  function Stopped(procs: Procs, id: nat): Procs
    requires id < |procs|
  {
    procs[id := procs[id].(stopped := true)]
  }

  lemma StopKeeps(units: Units, procs: Procs, id: nat, answered: set<nat>, copies: map<string, string>, verified: set<(string, string)>, but: set<nat>)
    requires IdsOk(units, procs) && CurrentOk(units, procs, answered) && VersionsOk(procs, verified)
    requires CopiesOk(procs, copies, verified) && PortsOk(procs) && NoStray(units, procs, but) && id < |procs|
    requires forall name :: name in units ==> units[name].current != Some(id)
    ensures var after := Stopped(procs, id);
      && IdsOk(units, after) && CurrentOk(units, after, answered) && VersionsOk(after, verified)
      && CopiesOk(after, copies, verified) && PortsOk(after) && NoStray(units, after, but - {id})
      && Continues(View(units, procs), View(units, after))
  {
    hide Path;
    var after := Stopped(procs, id);
    assert forall k :: Running(after, k) <==> Running(procs, k) && k != id;
    assert forall k :: Running(after, k) ==> after[k] == procs[k];
    assert IdsOk(units, after) && CurrentOk(units, after, answered) by { hide NoStray, VersionsOk, CopiesOk, PortsOk; }
    assert NoStray(units, after, but - {id}) by { hide VersionsOk, CopiesOk, PortsOk, IdsOk, CurrentOk; }
    assert VersionsOk(after, verified) && CopiesOk(after, copies, verified) by { hide PortsOk, NoStray, IdsOk, CurrentOk; }
    hide VersionsOk, CopiesOk, NoStray, IdsOk;
  }

  lemma StartKeeps(units: Units, procs: Procs, p: Proc, answered: set<nat>, copies: map<string, string>, verified: set<(string, string)>)
    requires IdsOk(units, procs) && CurrentOk(units, procs, answered) && VersionsOk(procs, verified)
    requires CopiesOk(procs, copies, verified) && PortsOk(procs) && NoStray(units, procs, {})
    requires (p.spec, p.digest) in verified && p.path == Path(p.spec, p.digest) && p.path in copies && p.port !in Ports(units, procs)
    ensures var after := procs + [p];
      && IdsOk(units, after) && CurrentOk(units, after, answered) && VersionsOk(after, verified)
      && CopiesOk(after, copies, verified) && PortsOk(after) && NoStray(units, after, {|procs|})
      && Continues(View(units, procs), View(units, after))
  {
    hide Path;
    var after := procs + [p];
    assert forall k :: 0 <= k < |procs| ==> after[k] == procs[k];
    assert forall k :: Running(after, k) <==> Running(procs, k) || (k == |procs| && !p.stopped);
    StartPorts(units, procs, p);
    assert IdsOk(units, after) && CurrentOk(units, after, answered) by { hide Ports, NoStray, VersionsOk, CopiesOk, PortsOk; }
    assert NoStray(units, after, {|procs|}) by { hide Ports, VersionsOk, CopiesOk, PortsOk, IdsOk, CurrentOk; }
    hide Ports, NoStray, PortsOk, IdsOk, CurrentOk;
  }

  lemma StartPorts(units: Units, procs: Procs, p: Proc)
    requires IdsOk(units, procs) && PortsOk(procs) && NoStray(units, procs, {}) && p.port !in Ports(units, procs)
    ensures PortsOk(procs + [p])
  {
    var after := procs + [p];
    forall k | Running(procs, k) ensures procs[k].port != p.port {
      UsedPort(units, procs, k);
    }
    hide Ports, NoStray, IdsOk;
    assert forall k :: Running(after, k) ==> (Running(procs, k) && after[k] == procs[k]) || (k == |procs| && after[k] == p);
  }

  /** A running worker's port is taken. */
  lemma UsedPort(units: Units, procs: Procs, id: nat)
    requires IdsOk(units, procs) && NoStray(units, procs, {}) && Running(procs, id)
    ensures procs[id].port in Ports(units, procs)
  {
    var name := procs[id].spec;
    assert name in units && Refers(units[name], id);
  }

  lemma UnitKeeps(units: Units, procs: Procs, name: string, u: Unit, answered: set<nat>)
    requires IdsOk(units, procs) && CurrentOk(units, procs, answered)
    requires UnitIds(name, u, procs) && UnitCurrent(u, procs, answered)
    requires name in units && units[name].current.Some? ==> u.current.Some?
    ensures IdsOk(units[name := u], procs) && CurrentOk(units[name := u], procs, answered)
    ensures Continues(View(units, procs), View(units[name := u], procs))
  {
  }

  /** Which workers a change of a unit leaves to look after. */
  ghost predicate Leaves(units: Units, procs: Procs, name: string, u: Unit, but: set<nat>, left: set<nat>) {
    forall id: nat ::
      Running(procs, id) && (id in but || (name in units && Refers(units[name], id))) ==>
        id in left || (Refers(u, id) && procs[id].spec == name)
  }

  lemma UnitStray(units: Units, procs: Procs, name: string, u: Unit, but: set<nat>, left: set<nat>)
    requires NoStray(units, procs, but) && Leaves(units, procs, name, u, but, left)
    ensures NoStray(units[name := u], procs, left)
  {
  }

  lemma CopyAdded(procs: Procs, copies: map<string, string>, verified: set<(string, string)>, name: string, digest: string)
    requires CopiesOk(procs, copies, verified) && (name, digest) in verified
    ensures CopiesOk(procs, copies[Path(name, digest) := digest], verified)
  {
    hide Path;
  }

  lemma UnitFacts(units: Units, procs: Procs, answered: set<nat>, name: string)
    requires IdsOk(units, procs) && CurrentOk(units, procs, answered) && name in units
    ensures UnitIds(name, units[name], procs) && UnitCurrent(units[name], procs, answered)
  {
  }

  /** A worker of a spec is no other spec's current one. */
  lemma CurrentElsewhere(units: Units, procs: Procs, id: nat, name: string)
    requires IdsOk(units, procs) && id < |procs| && procs[id].spec == name
    requires name in units ==> units[name].current != Some(id)
    ensures forall n :: n in units ==> units[n].current != Some(id)
  {
  }

  lemma GrownSame(procs: Procs)
    ensures Grown(procs, procs)
  {
  }

  /** A spec's unit, or a new one. */
  function Before(units: Units, name: string): Unit { if name in units then units[name] else NEW_UNIT }

  /** The file's version is the current one, the one being tried, or one that was given up. */
  ghost predicate Settled(units: Units, procs: Procs, name: string, digest: string) {
    name in units && units[name].fileDigest == digest &&
    (units[name].failed == digest || Runs(procs, units[name].current, digest) || Runs(procs, units[name].next, digest))
  }

  predicate Runs(procs: Procs, id: Option<nat>, digest: string) {
    id.Some? && id.value < |procs| && procs[id.value].digest == digest
  }

  /** Workers are added and stopped, nothing else. */
  ghost predicate Grown(before: Procs, after: Procs) {
    |before| <= |after| && forall id :: 0 <= id < |before| ==>
      after[id] == before[id] || after[id] == before[id].(stopped := true)
  }

  /** A unit's current worker is the same, or the ready worker of the file's version that was its next one. */
  ghost predicate Switched(u: Unit, v: Unit, procs: Procs, answered: set<nat>, digest: string) {
    || v.current == u.current
    || (v.current == u.next && v.next == None && v.current.Some? && v.current.value in answered && Runs(procs, v.current, digest))
  }

  /** A unit once its file's version verified: a changed file is tried again. */
  function Noted(u: Unit, digest: string): Unit {
    u.(failed := if u.fileDigest != digest then "" else u.failed, invalid := "", fileDigest := digest)
  }

  function StoppedAt(procs: Procs, id: Option<nat>): Procs {
    if id.Some? && id.value < |procs| then Stopped(procs, id.value) else procs
  }

  /** The version is running, being tried, or given up for this file. */
  predicate Known(u: Unit, procs: Procs, digest: string) {
    Runs(procs, u.current, digest) || Noted(u, digest).failed == digest || Runs(procs, u.next, digest)
  }

  /** What one look at a spec's valid file makes of its unit and the workers. */
  ghost predicate Reconciled(
    u: Unit, procs: Procs, v: Unit, procs': Procs, name: string, digest: string,
    now: int, timeout: int, answers: nat -> bool, copied: bool)
  {
    var n := Noted(u, digest);
    if Runs(procs, u.current, digest) then v == n.(next := None) && procs' == StoppedAt(procs, u.next)
    else if n.failed == digest then v == n && procs' == procs
    else if Runs(procs, u.next, digest) then
      var next := u.next.value;
      if answers(next) && !procs[next].stopped then v == n.(current := u.next, next := None) && procs' == StoppedAt(procs, u.current)
      else if now - procs[next].started < timeout then v == n && procs' == procs
      else v == n.(next := None, failed := digest) && procs' == Stopped(procs, next)
    else if copied then
      v == n.(next := Some(|procs|)) && Tried(StoppedAt(procs, u.next), procs', name, digest, now)
    else
      procs' == StoppedAt(procs, u.next) && exists reason :: reason != "" && v == n.(invalid := reason)
  }

  /** One more worker runs. */
  ghost predicate Tried(procs: Procs, procs': Procs, name: string, digest: string, now: int) {
    && |procs'| == |procs| + 1 && procs'[..|procs|] == procs
    && var p := procs'[|procs|]; p.spec == name && p.digest == digest && p.started == now && !p.stopped && p.path == Path(name, digest)
  }

  /** A worker that became current answered as ready. */
  ghost predicate Answered(units: Units, units': Units, answers: nat -> bool) {
    && (forall name :: name in units ==> name in units')
    && forall name :: name in units' && units'[name].current != Before(units, name).current ==>
         units'[name].current.Some? && answers(units'[name].current.value)
  }

  lemma AnsweredThen(u0: Units, u1: Units, u2: Units, answers: nat -> bool)
    requires Answered(u0, u1, answers) && Answered(u1, u2, answers)
    ensures Answered(u0, u2, answers)
  {
    forall name | name in u2 && u2[name].current != Before(u0, name).current ensures u2[name].current.Some? && answers(u2[name].current.value) {
      if u2[name].current == Before(u1, name).current { assert name in u1; }
    }
  }

  /**
   * When no copy of a new version could be kept, the unit's next worker is one
   * that was stopped.  If the file goes back to that worker's version, it is
   * never promoted, and given up once its time is over.
   */
  lemma StrandedVersion(
    u0: Unit, p0: Procs, u1: Unit, p1: Procs, u2: Unit, p2: Procs, name: string, digest: string, back: string,
    now: int, later: int, timeout: int, answers: nat -> bool, answers': nat -> bool, copied: bool)
    requires Reconciled(u0, p0, u1, p1, name, digest, now, timeout, answers, false) && !Known(u0, p0, digest)
    requires Runs(p0, u0.next, back) && !Runs(p0, u0.current, back) && back != "" && u0.current != u0.next
    requires Reconciled(u1, p1, u2, p2, name, back, later, timeout, answers', copied)
    ensures u1.next == u0.next && p1[u1.next.value].stopped && u2.current == u0.current
    ensures if later - p0[u0.next.value].started < timeout then u2.next == u0.next && p2 == p1 else u2.next == None && u2.failed == back
  {
  }

  lemma VerifiedMore(procs: Procs, copies: map<string, string>, verified: set<(string, string)>, name: string, digest: string)
    requires VersionsOk(procs, verified) && CopiesOk(procs, copies, verified)
    ensures VersionsOk(procs, verified + {(name, digest)}) && CopiesOk(procs, copies, verified + {(name, digest)})
  {
    hide Path;
  }

  /** A worker of the spec started since. */
  predicate StartedSince(before: Procs, after: Procs, name: string, id: int) {
    |before| <= id < |after| && after[id].spec == name
  }

  /**
   * What watching a version of a spec's file does: at most one worker of the
   * spec starts, none if the version was settled, and it is settled if one did.
   */
  ghost predicate Watched(units: Units, procs: Procs, units': Units, procs': Procs, name: string, digest: string) {
    && (forall a, b :: StartedSince(procs, procs', name, a) && StartedSince(procs, procs', name, b) ==> a == b)
    && (Settled(units, procs, name, digest) ==> forall a :: !StartedSince(procs, procs', name, a))
    && ((exists a :: StartedSince(procs, procs', name, a)) ==> Settled(units', procs', name, digest))
    && (Settled(units, procs, name, digest) ==> Settled(units', procs', name, digest))
  }

  lemma WatchedNothing(units: Units, procs: Procs, name: string, digest: string)
    ensures Watched(units, procs, units, procs, name, digest)
  {
  }

  lemma WatchedThen(u0: Units, p0: Procs, u1: Units, p1: Procs, u2: Units, p2: Procs, name: string, digest: string)
    requires Watched(u0, p0, u1, p1, name, digest) && Watched(u1, p1, u2, p2, name, digest) && Grown(p0, p1) && Grown(p1, p2)
    ensures Watched(u0, p0, u2, p2, name, digest)
  {
    hide Settled;
    forall a ensures StartedSince(p0, p2, name, a) <==> StartedSince(p0, p1, name, a) || StartedSince(p1, p2, name, a) {
    }
    hide StartedSince, Grown;
  }

  /** A pass over another spec's file, or none at all. */
  lemma WatchedElsewhere(units: Units, procs: Procs, units': Units, procs': Procs, name: string, digest: string)
    requires Grown(procs, procs') && |procs'| <= |procs| + 1
    requires name in units ==> name in units' && units'[name] == units[name]
    requires |procs'| > |procs| ==> procs'[|procs'| - 1].spec != name
    ensures Watched(units, procs, units', procs', name, digest)
  {
  }

  /** A pass over the spec's own file. */
  lemma WatchedHere(units: Units, procs: Procs, units': Units, procs': Procs, name: string, digest: string)
    requires |procs| <= |procs'| <= |procs| + 1
    requires |procs'| > |procs| ==> Settled(units', procs', name, digest)
    requires Settled(units, procs, name, digest) ==> |procs'| == |procs| && Settled(units', procs', name, digest)
    ensures Watched(units, procs, units', procs', name, digest)
  {
    hide Settled;
  }

  /** The file's entries of a name all verified with this digest. */
  ghost predicate OnlyOffers(files: seq<(string, Verdict)>, name: string, digest: string) {
    forall k :: 0 <= k < |files| && files[k].0 == name ==> files[k].1 == Verified(digest)
  }

  /** The directory holds the spec's file with this version. */
  ghost predicate Offers(files: seq<(string, Verdict)>, name: string, digest: string) {
    ValidName(name) && OnlyOffers(files, name, digest) && exists k :: 0 <= k < |files| && files[k].0 == name
  }

  lemma GrownTransitive(a: Procs, b: Procs, c: Procs)
    requires Grown(a, b) && Grown(b, c)
    ensures Grown(a, c)
  {
  }

  /** The workers a unit refers to. */
  ghost function Ids(u: Unit): set<nat> {
    (if u.current.Some? then {u.current.value} else {}) + (if u.next.Some? then {u.next.value} else {})
  }

  ghost function Referred(units: Units): set<nat> { set name, id | name in units && id in Ids(units[name]) :: id }

  function Restrict(units: Units, seen: set<string>): Units { map name | name in units && name in seen :: units[name] }

  /** Units that were taken out, and whose workers are still numbered as before. */
  ghost predicate Outside(units: Units, gone: Units, procs: Procs) {
    forall name :: name in gone ==> name !in units && UnitIds(name, gone[name], procs)
  }

  lemma RemovedKeeps(units: Units, procs: Procs, answered: set<nat>, seen: set<string>, gone: Units)
    requires IdsOk(units, procs) && CurrentOk(units, procs, answered) && NoStray(units, procs, {})
    requires gone == map name | name in units && name !in seen :: units[name]
    ensures var after := Restrict(units, seen);
      && IdsOk(after, procs) && CurrentOk(after, procs, answered) && NoStray(after, procs, Referred(gone))
      && Continues(View(units, procs), View(after, procs)) && Outside(after, gone, procs)
  {
    var after := Restrict(units, seen);
    forall n, id: nat | n in units && n !in seen && Refers(units[n], id) ensures id in Referred(gone) {
      assert n in gone && id in Ids(gone[n]);
    }
    forall id | Running(procs, id) && id !in Referred(gone) ensures procs[id].spec in after && Refers(after[procs[id].spec], id) {
      var name := procs[id].spec;
      assert name in units && Refers(units[name], id);
    }
  }

  lemma OneFewer(units: Units, gone: Units, name: string, before: Procs, procs: Procs)
    requires name in gone && Outside(units, gone, before) && Grown(before, procs) && |procs| == |before|
    ensures Outside(units, gone - {name}, procs)
    ensures forall u: Units :: NoStray(u, procs, Referred(gone) - Ids(gone[name])) ==> NoStray(u, procs, Referred(gone - {name}))
  {
    var rest := gone - {name};
    forall id | id in Referred(gone) - Ids(gone[name]) ensures id in Referred(rest) {
      var n :| n in gone && id in Ids(gone[n]);
      assert n in rest && id in Ids(rest[n]);
    }
  }

  lemma NoneReferred()
    ensures Referred(map[]) == {}
  {
  }

  /** Some unit's worker runs from the copy. */
  ghost predicate Wanted(units: Units, procs: Procs, path: string) {
    exists name, id :: name in units && id in Ids(units[name]) && id < |procs| && procs[id].path == path
  }

  /** The copies that current and next workers run from. */
  function WorkerPaths(units: Units, procs: Procs): set<string>
    requires IdsOk(units, procs)
  {
    (set name | name in units && units[name].current.Some? :: procs[units[name].current.value].path) +
    (set name | name in units && units[name].next.Some? :: procs[units[name].next.value].path)
  }

  lemma KeptPaths(units: Units, procs: Procs, keep: set<string>)
    requires IdsOk(units, procs)
    requires keep == WorkerPaths(units, procs)
    ensures forall path :: path in keep <==> Wanted(units, procs, path)
  {
    forall path | path in keep ensures Wanted(units, procs, path) {
      var name :| name in units &&
        ((units[name].current.Some? && procs[units[name].current.value].path == path) ||
         (units[name].next.Some? && procs[units[name].next.value].path == path));
      var id := if units[name].current.Some? && procs[units[name].current.value].path == path then units[name].current.value else units[name].next.value;
      assert id in Ids(units[name]);
    }
  }

  lemma PrunedKeeps(units: Units, procs: Procs, copies: map<string, string>, verified: set<(string, string)>, after: map<string, string>)
    requires CopiesOk(procs, copies, verified) && NoStray(units, procs, {}) && IdsOk(units, procs)
    requires forall path :: path in after <==> path in copies && Wanted(units, procs, path)
    requires forall path :: path in after ==> after[path] == copies[path]
    ensures CopiesOk(procs, after, verified)
  {
    forall id | Running(procs, id) ensures procs[id].path in after {
      var name := procs[id].spec;
      assert name in units && id in Ids(units[name]);
    }
    hide Path, Wanted;
  }

  // ----- What a pass makes of each spec ----------------------------------------

  /** Of a spec's workers there were before, at most this one was stopped since. */
  ghost predicate Stops(p0: Procs, p1: Procs, name: string, id: Option<nat>) {
    forall k :: 0 <= k < |p0| && p0[k].spec == name ==>
      k < |p1| && p1[k] == if id == Some(k) then p0[k].(stopped := true) else p0[k]
  }

  ghost predicate NoneStarted(p0: Procs, p1: Procs, name: string) {
    forall id :: !StartedSince(p0, p1, name, id)
  }

  /** One worker of a spec was started since, of this version. */
  ghost predicate OneStarted(p0: Procs, p1: Procs, name: string, digest: string, now: int, id: Option<nat>) {
    && id.Some? && StartedSince(p0, p1, name, id.value) && (forall k :: StartedSince(p0, p1, name, k) ==> k == id.value)
    && var p := p1[id.value]; p.digest == digest && p.started == now && !p.stopped && p.path == Path(name, digest)
  }

  /** What one look at a spec's valid file makes of its unit and its workers, whatever happens to those of other specs. */
  ghost predicate Outcome(
    u: Unit, p0: Procs, v: Unit, p1: Procs, name: string, digest: string,
    now: int, timeout: int, answers: nat -> bool, copied: bool)
  {
    var n := Noted(u, digest);
    if Runs(p0, u.current, digest) then v == n.(next := None) && Stops(p0, p1, name, u.next) && NoneStarted(p0, p1, name)
    else if n.failed == digest then v == n && Stops(p0, p1, name, None) && NoneStarted(p0, p1, name)
    else if Runs(p0, u.next, digest) then
      var next := u.next.value;
      && NoneStarted(p0, p1, name)
      && if answers(next) && !p0[next].stopped then v == n.(current := u.next, next := None) && Stops(p0, p1, name, u.current)
         else if now - p0[next].started < timeout then v == n && Stops(p0, p1, name, None)
         else v == n.(next := None, failed := digest) && Stops(p0, p1, name, u.next)
    else if copied then
      v == n.(next := v.next) && OneStarted(p0, p1, name, digest, now, v.next) && Stops(p0, p1, name, u.next)
    else
      (exists reason :: reason != "" && v == n.(invalid := reason)) && Stops(p0, p1, name, u.next) && NoneStarted(p0, p1, name)
  }

  /** A worker is started exactly for a version not known yet whose copy can be kept. */
  lemma StartsExactly(u: Unit, p0: Procs, v: Unit, p1: Procs, name: string, digest: string, now: int, timeout: int, answers: nat -> bool, copied: bool)
    requires Outcome(u, p0, v, p1, name, digest, now, timeout, answers, copied)
    ensures (exists id :: StartedSince(p0, p1, name, id)) <==> !Known(u, p0, digest) && copied
  {
  }

  /** Nothing of a spec changed. */
  ghost predicate Untouched(p0: Procs, p1: Procs, name: string) {
    Grown(p0, p1) && Stops(p0, p1, name, None) && NoneStarted(p0, p1, name)
  }

  ghost predicate Elsewhere(u0: Units, p0: Procs, u1: Units, p1: Procs, name: string) {
    && (name in u0 <==> name in u1) && (name in u0 ==> u1[name] == u0[name])
    && Untouched(p0, p1, name)
  }

  lemma ElsewhereThen(u0: Units, p0: Procs, u1: Units, p1: Procs, u2: Units, p2: Procs, name: string)
    requires Elsewhere(u0, p0, u1, p1, name) && Elsewhere(u1, p1, u2, p2, name)
    ensures Elsewhere(u0, p0, u2, p2, name)
  {
    GrownTransitive(p0, p1, p2);
    forall id ensures !StartedSince(p0, p2, name, id) {
      assert !StartedSince(p0, p1, name, id) && !StartedSince(p1, p2, name, id);
    }
  }

  /** The look at a spec's file, from its own state before to its own after. */
  lemma ReconciledOutcome(
    u: Unit, p0: Procs, v: Unit, p1: Procs, name: string, digest: string, now: int, timeout: int, answers: nat -> bool, copied: bool)
    requires Reconciled(u, p0, v, p1, name, digest, now, timeout, answers, copied) && UnitIds(name, u, p0)
    ensures Outcome(u, p0, v, p1, name, digest, now, timeout, answers, copied)
  {
    hide Path;
  }

  /** It touches no other spec. */
  lemma ReconciledElsewhere(
    u: Unit, p0: Procs, v: Unit, p1: Procs, name: string, digest: string, now: int, timeout: int, answers: nat -> bool, copied: bool, other: string)
    requires Reconciled(u, p0, v, p1, name, digest, now, timeout, answers, copied) && UnitIds(name, u, p0) && other != name
    ensures Untouched(p0, p1, other)
  {
    hide Path;
  }

  /** Two entries whose versions share a copy's path. */
  ghost predicate SharesPath(files: seq<(string, Verdict)>, k: nat)
    requires k < |files|
  {
    exists j :: 0 <= j < |files| && files[j].0 != files[k].0 && files[j].1.Verified? && files[k].1.Verified? &&
      Path(files[j].0, files[j].1.digest) == Path(files[k].0, files[k].1.digest)
  }

  /** A directory has one file of each name. */
  ghost predicate OnlyOnce(files: seq<(string, Verdict)>, k: nat)
    requires k < |files|
  {
    forall j :: 0 <= j < |files| && j != k ==> files[j].0 != files[k].0
  }

  /** What a pass makes of the spec of one file. */
  ghost predicate Looked(u0: Units, p0: Procs, c0: map<string, string>, u1: Units, p1: Procs, files: seq<(string, Verdict)>, k: nat, pass: Pass, timeout: int)
    requires k < |files|
  {
    var (name, verdict) := files[k];
    var u := Before(u0, name);
    && name in u1
    && if !ValidName(name) then u1[name] == u.(invalid := INVALID_NAME, fileDigest := "") && Untouched(p0, p1, name)
       else match verdict
         case Refused(digest, reason) => u1[name] == u.(invalid := reason, fileDigest := digest) && Untouched(p0, p1, name)
         case Verified(digest) => exists copied ::
           && Copyable(c0, files, k, pass, copied)
           && Outcome(u, p0, u1[name], p1, name, digest, pass.now, timeout, pass.answers, copied)
  }

  /** Whether a version's copy can be kept: it was there or can be written; another spec's file with the same path may also have made it. */
  ghost predicate Copyable(c0: map<string, string>, files: seq<(string, Verdict)>, k: nat, pass: Pass, copied: bool)
    requires k < |files| && files[k].1.Verified?
  {
    var path := Path(files[k].0, files[k].1.digest);
    && (pass.written(files[k].0) || path in c0 ==> copied)
    && (copied ==> pass.written(files[k].0) || path in c0 || SharesPath(files, k))
  }

  /** Nothing of the spec changed before its look, nor after. */
  lemma LookedAround(
    ua: Units, pa: Procs, ca: map<string, string>, u0: Units, p0: Procs, c0: map<string, string>, u1: Units, p1: Procs, uz: Units, pz: Procs,
    files: seq<(string, Verdict)>, k: nat, pass: Pass, timeout: int)
    requires k < |files| && var name := files[k].0; Elsewhere(ua, pa, u0, p0, name) && Elsewhere(u1, p1, uz, pz, name) && Grown(p0, p1)
    requires Looked(u0, p0, c0, u1, p1, files, k, pass, timeout) && (files[k].0 in ua ==> UnitIds(files[k].0, ua[files[k].0], pa))
    requires files[k].1.Verified? ==> forall copied :: Copyable(c0, files, k, pass, copied) ==> Copyable(ca, files, k, pass, copied)
    ensures Looked(ua, pa, ca, uz, pz, files, k, pass, timeout)
  {
    var (name, verdict) := files[k];
    var u := Before(u0, name);
    if ValidName(name) && verdict.Verified? {
      var copied :| Copyable(c0, files, k, pass, copied) &&
        Outcome(u, p0, u1[name], p1, name, verdict.digest, pass.now, timeout, pass.answers, copied);
      hide Copyable, ValidName;
      OutcomeAround(u, pa, p0, u1[name], p1, pz, name, verdict.digest, pass.now, timeout, pass.answers, copied);
    } else {
      hide ValidName;
      UntouchedThen(pa, p0, p1, name);
      UntouchedThen(pa, p1, pz, name);
    }
  }

  lemma RemovedElsewhere(u0: Units, p0: Procs, u1: Units, p1: Procs, seen: set<string>, name: string)
    requires u1 == Restrict(u0, seen) && name in seen && Grown(p0, p1) && |p1| == |p0|
    requires forall id :: 0 <= id < |p1| && p1[id].spec in seen ==> p1[id] == p0[id]
    ensures Elsewhere(u0, p0, u1, p1, name)
  {
  }

  lemma LookedLater(
    ua: Units, pa: Procs, ca: map<string, string>, u1: Units, p1: Procs, uz: Units, pz: Procs, files: seq<(string, Verdict)>, k: nat, pass: Pass, timeout: int)
    requires k < |files| && Looked(ua, pa, ca, u1, p1, files, k, pass, timeout) && Grown(pa, p1)
    requires Elsewhere(u1, p1, uz, pz, files[k].0) && IdsOk(ua, pa)
    ensures Looked(ua, pa, ca, uz, pz, files, k, pass, timeout)
  {
    hide Looked, Copyable, UnitIds;
    UntouchedSelf(pa, files[k].0);
    LookedAround(ua, pa, ca, ua, pa, ca, u1, p1, uz, pz, files, k, pass, timeout);
  }

  /** The copies made while looking at the first n files. */
  ghost predicate CopiesFrom(c0: map<string, string>, c1: map<string, string>, files: seq<(string, Verdict)>, n: nat)
    requires n <= |files|
  {
    && (forall path :: path in c0 ==> path in c1)
    && forall path :: path in c1 && path !in c0 ==>
         exists j :: 0 <= j < n && files[j].1.Verified? && path == Path(files[j].0, files[j].1.digest)
  }

  lemma NothingLooked(units: Units, procs: Procs, copies: map<string, string>, files: seq<(string, Verdict)>)
    ensures CopiesFrom(copies, copies, files, 0) && forall name :: Elsewhere(units, procs, units, procs, name)
  {
  }

  /** One more look: it is the only one at its file's spec, and leaves the others as they were. */
  lemma LookedMore(
    ua: Units, pa: Procs, ca: map<string, string>, u0: Units, p0: Procs, c0: map<string, string>, u1: Units, p1: Procs, c1: map<string, string>,
    files: seq<(string, Verdict)>, i: nat, pass: Pass, timeout: int)
    requires i < |files| && IdsOk(ua, pa) && Grown(pa, p0) && Grown(p0, p1) && CopiesFrom(ca, c0, files, i)
    requires forall path :: path in c0 ==> path in c1
    requires forall path :: path in c1 && path !in c0 ==> files[i].1.Verified? && path == Path(files[i].0, files[i].1.digest)
    requires forall name :: (forall k :: 0 <= k < i ==> files[k].0 != name) ==> Elsewhere(ua, pa, u0, p0, name)
    requires forall k :: 0 <= k < i && OnlyOnce(files, k) ==> Looked(ua, pa, ca, u0, p0, files, k, pass, timeout)
    requires Looked(u0, p0, c0, u1, p1, files, i, pass, timeout)
    requires forall name :: name != files[i].0 ==> Elsewhere(u0, p0, u1, p1, name)
    ensures CopiesFrom(ca, c1, files, i + 1)
    ensures forall name :: (forall k :: 0 <= k < i + 1 ==> files[k].0 != name) ==> Elsewhere(ua, pa, u1, p1, name)
    ensures forall k :: 0 <= k < i + 1 && OnlyOnce(files, k) ==> Looked(ua, pa, ca, u1, p1, files, k, pass, timeout)
  {
    hide Looked, Elsewhere, Path;
    forall name | forall k :: 0 <= k < i + 1 ==> files[k].0 != name ensures Elsewhere(ua, pa, u1, p1, name) {
      assert files[i].0 != name;
      assert forall k :: 0 <= k < i ==> files[k].0 != name;
      ElsewhereThen(ua, pa, u0, p0, u1, p1, name);
    }
    forall k | 0 <= k < i + 1 && OnlyOnce(files, k) ensures Looked(ua, pa, ca, u1, p1, files, k, pass, timeout) {
      if k < i {
        assert files[k].0 != files[i].0;
        LookedLater(ua, pa, ca, u0, p0, u1, p1, files, k, pass, timeout);
      } else {
        assert Elsewhere(ua, pa, u0, p0, files[i].0);
        CopyableBefore(ca, c0, files, i, pass);
        LookedFirst(ua, pa, ca, u0, p0, c0, u1, p1, files, i, pass, timeout);
      }
    }
  }

  lemma CopyableBefore(ca: map<string, string>, c0: map<string, string>, files: seq<(string, Verdict)>, i: nat, pass: Pass)
    requires i < |files| && CopiesFrom(ca, c0, files, i) && OnlyOnce(files, i)
    ensures files[i].1.Verified? ==> forall copied :: Copyable(c0, files, i, pass, copied) ==> Copyable(ca, files, i, pass, copied)
  {
    hide Path;
  }

  lemma LookedFirst(
    ua: Units, pa: Procs, ca: map<string, string>, u0: Units, p0: Procs, c0: map<string, string>, u1: Units, p1: Procs,
    files: seq<(string, Verdict)>, i: nat, pass: Pass, timeout: int)
    requires i < |files| && Elsewhere(ua, pa, u0, p0, files[i].0) && Grown(p0, p1) && IdsOk(ua, pa)
    requires Looked(u0, p0, c0, u1, p1, files, i, pass, timeout)
    requires files[i].1.Verified? ==> forall copied :: Copyable(c0, files, i, pass, copied) ==> Copyable(ca, files, i, pass, copied)
    ensures Looked(ua, pa, ca, u1, p1, files, i, pass, timeout)
  {
    UntouchedSelf(p1, files[i].0);
    hide Looked, Copyable, Untouched;
    assert Elsewhere(u1, p1, u1, p1, files[i].0);
    LookedAround(ua, pa, ca, u0, p0, c0, u1, p1, u1, p1, files, i, pass, timeout);
  }

  /** A single look. */
  lemma LookedHere(
    u0: Units, p0: Procs, c0: map<string, string>, u1: Units, p1: Procs, files: seq<(string, Verdict)>, i: nat, pass: Pass, timeout: int)
    requires i < |files| && IdsOk(u0, p0) && Grown(p0, p1) && files[i].0 in u1 && u1 == u0[files[i].0 := u1[files[i].0]]
    requires var (name, verdict) := files[i];
      if !ValidName(name) || verdict.Refused? then
        && p1 == p0
        && u1[name] == Before(u0, name).(invalid := if ValidName(name) then verdict.reason else INVALID_NAME, fileDigest := if ValidName(name) then verdict.digest else "")
      else
        Reconciled(Before(u0, name), p0, u1[name], p1, name, verdict.digest, pass.now, timeout, pass.answers, pass.written(name) || Path(name, verdict.digest) in c0)
    ensures Looked(u0, p0, c0, u1, p1, files, i, pass, timeout)
    ensures forall name :: name != files[i].0 ==> Elsewhere(u0, p0, u1, p1, name)
  {
    hide ValidName, Path, Reconciled, Outcome, Untouched, Grown;
    var (name, verdict) := files[i];
    var u := Before(u0, name);
    if !ValidName(name) || verdict.Refused? {
      forall other ensures Untouched(p0, p1, other) { UntouchedSelf(p0, other); }
    } else {
      var copied := pass.written(name) || Path(name, verdict.digest) in c0;
      ReconciledOutcome(u, p0, u1[name], p1, name, verdict.digest, pass.now, timeout, pass.answers, copied);
      assert Copyable(c0, files, i, pass, copied);
      forall other | other != name ensures Untouched(p0, p1, other) {
        ReconciledElsewhere(u, p0, u1[name], p1, name, verdict.digest, pass.now, timeout, pass.answers, copied, other);
      }
    }
  }

  lemma UntouchedSelf(procs: Procs, name: string)
    ensures Untouched(procs, procs, name)
  {
  }

  lemma UntouchedThen(p0: Procs, p1: Procs, p2: Procs, name: string)
    requires Untouched(p0, p1, name) && Untouched(p1, p2, name)
    ensures Untouched(p0, p2, name)
  {
    ElsewhereThen(map[], p0, map[], p1, map[], p2, name);
  }

  lemma OutcomeAround(
    u: Unit, pa: Procs, p0: Procs, v: Unit, p1: Procs, pz: Procs, name: string, digest: string, now: int, timeout: int, answers: nat -> bool, copied: bool)
    requires Untouched(pa, p0, name) && Grown(p0, p1) && Untouched(p1, pz, name) && UnitIds(name, u, pa)
    requires Outcome(u, p0, v, p1, name, digest, now, timeout, answers, copied)
    ensures Outcome(u, pa, v, pz, name, digest, now, timeout, answers, copied)
  {
    hide Path;
    assert u.current.Some? ==> p0[u.current.value] == pa[u.current.value];
    assert u.next.Some? ==> p0[u.next.value] == pa[u.next.value];
    StartedAround(pa, p0, p1, pz, name);
    var n := Noted(u, digest);
    if !Runs(p0, u.current, digest) && n.failed != digest && !Runs(p0, u.next, digest) && copied {
      assert pz[v.next.value] == p1[v.next.value];
    }
    hide StartedSince, Untouched, Runs;
  }

  /** The workers started and stopped are those of the look. */
  lemma StartedAround(pa: Procs, p0: Procs, p1: Procs, pz: Procs, name: string)
    requires Untouched(pa, p0, name) && Grown(p0, p1) && Untouched(p1, pz, name)
    ensures forall id :: StartedSince(pa, pz, name, id) <==> StartedSince(p0, p1, name, id)
    ensures forall id: Option<nat> :: Stops(p0, p1, name, id) && (id.Some? ==> id.value < |pa|) ==> Stops(pa, pz, name, id)
  {
    forall id ensures StartedSince(pa, pz, name, id) <==> StartedSince(p0, p1, name, id) {
      assert !StartedSince(pa, p0, name, id) && !StartedSince(p1, pz, name, id);
    }
  }

  /** What there is between two passes. */
  datatype Snapshot = Snapshot(units: Units, procs: Procs, copies: map<string, string>)

  /** One pass: nothing when the directory cannot be read; else a unit for every file and no other, each spec as its look makes it. */
  ghost predicate PassDone(s: Snapshot, t: Snapshot, pass: Pass, timeout: int) {
    match pass.files
    case None => t == s
    case Some(files) =>
      && t.units.Keys == (set i | 0 <= i < |files| :: files[i].0)
      && forall k :: 0 <= k < |files| && OnlyOnce(files, k) ==> Looked(s.units, s.procs, s.copies, t.units, t.procs, files, k, pass, timeout)
  }

  ghost predicate PassesDone(states: seq<Snapshot>, passes: seq<Pass>, timeout: int) {
    |states| == |passes| + 1 && forall k :: 0 <= k < |passes| ==> PassDone(states[k], states[k + 1], passes[k], timeout)
  }

  lemma NoneDone(s: Snapshot, timeout: int)
    ensures PassesDone([s], [], timeout)
  {
  }

  lemma OneMorePass(states: seq<Snapshot>, passes: seq<Pass>, timeout: int, t: Snapshot, pass: Pass)
    requires PassesDone(states, passes, timeout) && PassDone(states[|passes|], t, pass, timeout)
    ensures PassesDone(states + [t], passes + [pass], timeout)
  {
    var all, more := states + [t], passes + [pass];
    forall k | 0 <= k < |more| ensures PassDone(all[k], all[k + 1], more[k], timeout) {
      if k < |passes| { assert PassDone(states[k], states[k + 1], passes[k], timeout); }
    }
    hide PassDone;
  }

  /** A spec whose file every pass finds that can read the directory. */
  ghost predicate InEvery(passes: seq<Pass>, name: string) {
    forall p :: 0 <= p < |passes| && passes[p].files.Some? ==> name in Named(passes[p].files.value)
  }

  lemma NoPasses(views: seq<View>)
    requires views != []
    ensures Recorded(views, [|views| - 1], [])
  {
  }

  lemma RecordedLater(before: seq<View>, after: seq<View>, marks: seq<nat>, passes: seq<Pass>)
    requires Recorded(before, marks, passes) && before <= after
    ensures Recorded(after, marks, passes)
  {
    MarksOrdered(before, marks, passes, |passes|);
    forall p | 0 <= p < |passes| ensures PassRecorded(after, marks[p], marks[p + 1], passes[p].files) {
      assert PassRecorded(before, marks[p], marks[p + 1], passes[p].files);
      PassLater(before, after, marks[p], marks[p + 1], passes[p].files);
    }
  }

  lemma {:induction false} MarksOrdered(views: seq<View>, marks: seq<nat>, passes: seq<Pass>, n: nat)
    requires Recorded(views, marks, passes) && n <= |passes|
    ensures forall p :: 0 <= p <= n ==> marks[p] <= marks[n]
  {
    if n > 0 {
      MarksOrdered(views, marks, passes, n - 1);
      assert PassRecorded(views, marks[n - 1], marks[n - 1 + 1], passes[n - 1].files);
    }
  }

  lemma PassLater(before: seq<View>, after: seq<View>, from: nat, to: nat, files: Option<seq<(string, Verdict)>>)
    requires PassRecorded(before, from, to, files) && before <= after
    ensures PassRecorded(after, from, to, files)
  {
    if files.Some? {
      forall k, name | from <= k < to && name in Named(files.value) ensures ServedOn(after, k, name) {
        assert ServedOn(before, k, name);
        assert before[k] == after[k] && before[k + 1] == after[k + 1];
      }
    }
  }

  /** One more pass. */
  lemma RecordedMore(before: seq<View>, after: seq<View>, marks: seq<nat>, passes: seq<Pass>, pass: Pass)
    requires before != [] && Recorded(before, marks, passes) && marks[|passes|] == |before| - 1
    requires if pass.files.None? then after == before else Serves(before, after, Named(pass.files.value))
    ensures Recorded(after, marks + [|after| - 1], passes + [pass])
  {
    RecordedLater(before, after, marks, passes);
    var more, all := marks + [|after| - 1], passes + [pass];
    forall p | 0 <= p < |all| ensures PassRecorded(after, more[p], more[p + 1], all[p].files) {
      if p < |passes| { assert PassRecorded(after, marks[p], marks[p + 1], passes[p].files); }
    }
  }

  lemma NobodyAnswered(units: Units, answers: nat -> bool)
    ensures Answered(units, units, answers)
  {
  }

  /** A worker that a look at a valid file promoted. */
  ghost predicate Promoted(u: Unit, procs: Procs, v: Unit, digest: string, answers: nat -> bool, id: nat) {
    && u.next == Some(id) && v.current == Some(id) && Runs(procs, u.next, digest) && !Runs(procs, u.current, digest)
    && Noted(u, digest).failed != digest && answers(id) && !procs[id].stopped
  }

  /** What a look at a valid file means for the spec's version. */
  lemma ReconciledMeans(
    units: Units, u: Unit, p0: Procs, units': Units, v: Unit, p1: Procs, name: string, digest: string,
    now: int, timeout: int, answers: nat -> bool, copied: bool)
    requires Reconciled(u, p0, v, p1, name, digest, now, timeout, answers, copied) && UnitIds(name, u, p0)
    requires u == Before(units, name) && name in units' && units'[name] == v
    ensures |p0| <= |p1| <= |p0| + 1
    ensures |p1| > |p0| <==> !Known(u, p0, digest) && copied
    ensures |p1| > |p0| ==> p1[|p1| - 1].digest == digest && p1[|p1| - 1].spec == name && Settled(units', p1, name, digest)
    ensures Settled(units, p0, name, digest) ==> |p1| == |p0| && Settled(units', p1, name, digest)
    ensures v.current != u.current ==>
      && v.current == u.next && v.next == None && v.current.Some? && Runs(p1, v.current, digest)
      && Promoted(u, p0, v, digest, answers, v.current.value)
  {
    hide Path;
  }

  class Supervisor {
    const healthBase: int
    const readyTimeout: int
    var units: Units
    var procs: Procs
    /** The spec copies in the state directory, by path: the digest each holds. */
    var copies: map<string, string>
    /** The workers that ever answered ready, the versions that ever verified, and every state so far. */
    ghost var answered: set<nat>
    ghost var verified: set<(string, string)>
    ghost var views: seq<View>

    /** What holds between any two changes; the workers in `but` are about to be stopped or referred to. */
    ghost predicate Base(but: set<nat>)
      reads this
    {
      && IdsOk(units, procs) && CurrentOk(units, procs, answered) && VersionsOk(procs, verified)
      && CopiesOk(procs, copies, verified) && PortsOk(procs) && NoStray(units, procs, but)
      && views != [] && views[|views| - 1] == View(units, procs)
    }

    ghost predicate Valid()
      reads this
    {
      Base({})
    }

    constructor (healthBase: int, readyTimeout: int, copies: map<string, string>, ghost verified: set<(string, string)>)
      requires CopiesOk([], copies, verified)
      ensures Valid() && units == map[] && procs == [] && this.copies == copies && this.verified == verified
    {
      this.healthBase, this.readyTimeout := healthBase, readyTimeout;
      units, procs, this.copies := map[], [], copies;
      answered, this.verified, views := {}, verified, [View(map[], [])];
    }

    lemma Appended(but: set<nat>)
      requires Base(but)
      ensures Serves(views, views, EVERY) && views != [] && views[|views| - 1] == View(units, procs)
    {
    }

    lemma OldIds()
      requires Valid()
      ensures IdsOk(units, procs)
    {
    }

    lemma Facts(name: string)
      requires Valid() && name in units
      ensures UnitIds(name, units[name], procs)
    {
    }

    // ----- Single changes ----------------------------------------------------

    method Put(name: string, u: Unit, ghost but: set<nat>, ghost left: set<nat>)
      requires Base(but) && UnitIds(name, u, procs) && UnitCurrent(u, procs, answered)
      requires name in units && units[name].current.Some? ==> u.current.Some?
      requires Leaves(units, procs, name, u, but, left)
      modifies this`units, this`views
      ensures Base(left) && units == old(units)[name := u]
      ensures Serves(old(views), views, EVERY)
    {
      hide IdsOk, CurrentOk, VersionsOk, CopiesOk, PortsOk, NoStray, Continues, Leaves;
      UnitKeeps(units, procs, name, u, answered);
      UnitStray(units, procs, name, u, but, left);
      units := units[name := u];
      ServesNext(views, View(units, procs), EVERY);
      views := views + [View(units, procs)];
    }

    /** proc.stop: the worker ends and never answers again. */
    method Stop(id: nat, ghost but: set<nat>)
      requires Base(but) && id < |procs| && forall name :: name in units ==> units[name].current != Some(id)
      modifies this`procs, this`views
      ensures Base(but - {id}) && procs == Stopped(old(procs), id)
      ensures Serves(old(views), views, EVERY)
    {
      hide IdsOk, CurrentOk, VersionsOk, CopiesOk, PortsOk, NoStray, Continues;
      StopKeeps(units, procs, id, answered, copies, verified, but);
      procs := Stopped(procs, id);
      ServesNext(views, View(units, procs), EVERY);
      views := views + [View(units, procs)];
    }

    /** proc.ready: a stopped worker never answers. */
    method Ready(id: nat, answers: bool) returns (ready: bool)
      requires Valid() && id < |procs|
      modifies this`answered
      ensures Valid() && ready == (answers && !procs[id].stopped)
      ensures answered == old(answered) + if ready then {id} else {}
    {
      ready := answers && !procs[id].stopped;
      if ready { answered := answered + {id}; }
    }

    /** The lowest health port no unit's worker uses. */
    method Port() returns (p: int)
      requires IdsOk(units, procs)
      ensures p !in Ports(units, procs)
      ensures forall q :: healthBase <= q < p ==> q in Ports(units, procs)
      ensures healthBase <= p <= healthBase + 2 * |units|
    {
      var used := Ports(units, procs);
      PortsSize(units, procs);
      hide Ports, IdsOk;
      p := healthBase;
      while p in used
        invariant healthBase <= p && forall q :: healthBase <= q < p ==> q in used
        invariant p - healthBase <= |used|
        decreases |used| - (p - healthBase)
      {
        Pigeonhole(healthBase, p - healthBase + 1, used);
        p := p + 1;
      }
    }

    /** Supervisor.start. */
    method Launch(name: string, digest: string, now: int) returns (id: nat)
      requires Valid() && (name, digest) in verified && Path(name, digest) in copies
      modifies this`procs, this`views
      ensures Base({id}) && id == |old(procs)| && |procs| == id + 1 && procs[..id] == old(procs)
      ensures procs[id].spec == name && procs[id].digest == digest && !procs[id].stopped
      ensures procs[id].started == now && procs[id].path == Path(name, digest)
      ensures Serves(old(views), views, EVERY)
    {
      hide IdsOk, CurrentOk, VersionsOk, CopiesOk, PortsOk, NoStray, Continues, Ports, Path;
      var port := Port();
      var p := Proc(name, digest, Path(name, digest), port, now, false);
      StartKeeps(units, procs, p, answered, copies, verified);
      id := |procs|;
      procs := procs + [p];
      ServesNext(views, View(units, procs), EVERY);
      views := views + [View(units, procs)];
    }

    /** Supervisor.writeCopy: an existing copy is taken as it is; a write may fail. */
    method WriteCopy(name: string, digest: string, written: bool) returns (ok: bool)
      requires Valid() && (name, digest) in verified
      modifies this`copies
      ensures Valid() && (ok ==> Path(name, digest) in copies)
      ensures forall path :: path in old(copies) ==> path in copies && copies[path] == old(copies)[path]
      ensures ok == (written || Path(name, digest) in old(copies))
      ensures copies == if ok && Path(name, digest) !in old(copies) then old(copies)[Path(name, digest) := digest] else old(copies)
    {
      var path := Path(name, digest);
      if path in copies { return true; }
      if !written { return false; }
      copies := copies[path := digest];
      CopyAdded(procs, old(copies), verified, name, digest);
      ok := true;
    }

    // ----- One spec file -----------------------------------------------------

    method SetInvalid(name: string, digest: string, reason: string)
      requires Valid() && name in units
      modifies this`units, this`views
      ensures Valid() && units == old(units)[name := old(units)[name].(invalid := reason, fileDigest := digest)]
      ensures Serves(old(views), views, EVERY)
    {
      Put(name, units[name].(invalid := reason, fileDigest := digest), {}, {});
    }

    /** Swaps a ready new version in, or gives it up after the timeout. */
    method Promote(name: string, now: int, answers: bool)
      requires Valid() && name in units && units[name].next.Some? && units[name].next.value < |procs|
      modifies this`units, this`procs, this`views, this`answered
      ensures Valid() && Grown(old(procs), procs) && |procs| == |old(procs)|
      ensures name in units && units == old(units)[name := units[name]]
      ensures var nxt := old(units)[name].next.value; answered == old(answered) + if answers && !old(procs)[nxt].stopped then {nxt} else {}
      ensures var u, v := old(units)[name], units[name]; var nxt := u.next.value;
        if answers && !old(procs)[nxt].stopped then v == u.(current := Some(nxt), next := None) && procs == StoppedAt(old(procs), u.current)
        else if now - old(procs)[nxt].started < readyTimeout then v == u && procs == old(procs)
        else v == u.(next := None, failed := old(procs)[nxt].digest) && procs == Stopped(old(procs), nxt)
      ensures Serves(old(views), views, EVERY)
    {
      hide Base, Grown, Serves;
      var nxt := units[name].next.value;
      Appended({});
      var ready := Ready(nxt, answers);
      GrownSame(procs);
      if ready {
        SwapIn(name);
        return;
      }
      if now - procs[nxt].started < readyTimeout { return; }
      GiveUp(name);
    }

    method SwapIn(name: string)
      requires Valid() && name in units && units[name].next.Some?
      requires units[name].next.value in answered && Running(procs, units[name].next.value)
      modifies this`units, this`procs, this`views
      ensures Valid() && Grown(old(procs), procs) && |procs| == |old(procs)|
      ensures var u := old(units)[name]; units == old(units)[name := u.(current := u.next, next := None)] && procs == StoppedAt(old(procs), u.current)
      ensures Serves(old(views), views, EVERY)
    {
      hide VersionsOk, CopiesOk, PortsOk, Continues, NoStray;
      UnitFacts(units, procs, answered, name);
      var u := units[name];
      if u.current.Some? {
        Put(name, u.(current := u.next, next := None), {}, {u.current.value});
        ghost var put := views;
        CurrentElsewhere(units, procs, u.current.value, name);
        Stop(u.current.value, {u.current.value});
        ServesThen(old(views), put, views, EVERY);
        assert {u.current.value} - {u.current.value} == {};
      } else {
        Put(name, u.(current := u.next, next := None), {}, {});
      }
    }

    method GiveUp(name: string)
      requires Valid() && name in units && units[name].next.Some? && units[name].next.value < |procs|
      modifies this`units, this`procs, this`views
      ensures Valid() && Grown(old(procs), procs) && |procs| == |old(procs)|
      ensures var u := old(units)[name]; var nxt := u.next.value;
        && units == old(units)[name := u.(next := None, failed := old(procs)[nxt].digest)]
        && procs == Stopped(old(procs), nxt)
      ensures Serves(old(views), views, EVERY)
    {
      hide VersionsOk, CopiesOk, PortsOk, Continues, NoStray;
      UnitFacts(units, procs, answered, name);
      var u := units[name];
      var nxt := u.next.value;
      Put(name, u.(next := None, failed := procs[nxt].digest), {}, {nxt});
      ghost var put := views;
      CurrentElsewhere(units, procs, nxt, name);
      Stop(nxt, {nxt});
      ServesThen(old(views), put, views, EVERY);
      assert {nxt} - {nxt} == {};
    }

    /** Stops a version that is no longer wanted; the unit still refers to it. */
    method StopNext(name: string)
      requires Valid() && name in units && units[name].next.Some?
      modifies this`procs, this`views
      ensures Valid() && units[name].next.value < |procs| && procs == Stopped(old(procs), units[name].next.value)
      ensures Serves(old(views), views, EVERY)
    {
      hide VersionsOk, CopiesOk, PortsOk, Continues, NoStray;
      UnitFacts(units, procs, answered, name);
      CurrentElsewhere(units, procs, units[name].next.value, name);
      Stop(units[name].next.value, {});
      assert {} - {units[name].next.value} == {};
    }

    method DropNext(name: string)
      requires Valid() && name in units && units[name].next.Some?
      modifies this`units, this`procs, this`views
      ensures Valid() && Grown(old(procs), procs) && |procs| == |old(procs)|
      ensures units == old(units)[name := old(units)[name].(next := None)] && procs == StoppedAt(old(procs), old(units)[name].next)
      ensures Serves(old(views), views, EVERY)
    {
      StopNext(name);
      ghost var stopped := views;
      hide VersionsOk, CopiesOk, PortsOk, Continues, NoStray;
      UnitFacts(units, procs, answered, name);
      Put(name, units[name].(next := None), {}, {});
      ServesThen(old(views), stopped, views, EVERY);
    }

    /** Runs a new version next to the current one. */
    method Try(name: string, digest: string, now: int)
      requires Valid() && name in units && (name, digest) in verified && Path(name, digest) in copies
      requires units[name].next.Some? ==> !Running(procs, units[name].next.value)
      modifies this`units, this`procs, this`views
      ensures Valid() && Grown(old(procs), procs) && |procs| == |old(procs)| + 1
      ensures Tried(old(procs), procs, name, digest, now)
      ensures units == old(units)[name := old(units)[name].(next := Some(|procs| - 1))]
      ensures Serves(old(views), views, EVERY)
    {
      hide VersionsOk, CopiesOk, PortsOk, Continues, NoStray;
      UnitFacts(units, procs, answered, name);
      var id := Launch(name, digest, now);
      UnitFacts(units, procs, answered, name);
      assert forall k :: 0 <= k < id ==> procs[k] == procs[..id][k];
      ghost var launched := views;
      Put(name, units[name].(next := Some(id)), {id}, {});
      ServesThen(old(views), launched, views, EVERY);
    }

    /** The unit of a spec, made if there is none. */
    method Ensure(name: string)
      requires Valid()
      modifies this`units, this`views
      ensures Valid() && units == old(units)[name := Before(old(units), name)]
      ensures Serves(old(views), views, EVERY)
    {
      Appended({});
      if name !in units { Put(name, NEW_UNIT, {}, {}); } else { assert units[name := units[name]] == units; }
    }

    /** Notes that the file's version verified: a changed file is tried again. */
    method NoteVersion(name: string, digest: string)
      requires Valid() && name in units
      modifies this`units, this`views, this`verified
      ensures Valid() && verified == old(verified) + {(name, digest)}
      ensures units == old(units)[name := Noted(old(units)[name], digest)]
      ensures Serves(old(views), views, EVERY)
    {
      VerifiedMore(procs, copies, verified, name, digest);
      verified := verified + {(name, digest)};
      hide VersionsOk, CopiesOk, PortsOk, Continues, NoStray;
      UnitFacts(units, procs, answered, name);
      Put(name, Noted(units[name], digest), {}, {});
    }

    method ReconcileValid(name: string, digest: string, now: int, written: bool, answers: nat -> bool)
      requires Valid() && name in units
      modifies this
      ensures Valid() && Grown(old(procs), procs) && name in units && units == (old(units)[name := units[name]])
      ensures Serves(old(views), views, EVERY)
      ensures Reconciled(old(units)[name], old(procs), units[name], procs, name, digest, now, readyTimeout, answers,
                         written || Path(name, digest) in old(copies))
      ensures verified == old(verified) + {(name, digest)}
      ensures forall id :: id in answered <==> id in old(answered) || Promoted(old(units)[name], old(procs), units[name], digest, answers, id)
      ensures copies == if |procs| > |old(procs)| && Path(name, digest) !in old(copies) then old(copies)[Path(name, digest) := digest] else old(copies)
    {
      hide Base, Serves, Path, Grown;
      NoteVersion(name, digest);
      ghost var noted := views;
      var u := units[name];
      Facts(name);
      GrownSame(procs);
      if u.current.Some? && procs[u.current.value].digest == digest {
        if u.next.Some? {
          DropNext(name);
          ServesThen(old(views), noted, views, EVERY);
        }
        return;
      }
      if digest == u.failed { return; }
      if u.next.Some? && procs[u.next.value].digest == digest {
        Promote(name, now, answers(u.next.value));
        ServesThen(old(views), noted, views, EVERY);
        return;
      }
      TryVersion(name, digest, now, written);
      ServesThen(old(views), noted, views, EVERY);
    }

    /** A version neither running, tried nor given up: it is started, unless no copy can be kept. */
    method TryVersion(name: string, digest: string, now: int, written: bool)
      requires Valid() && name in units && (name, digest) in verified && units[name].fileDigest == digest
      modifies this`units, this`procs, this`views, this`copies
      ensures Valid() && Grown(old(procs), procs)
      ensures Serves(old(views), views, EVERY)
      ensures var u := old(units)[name]; var stopped := StoppedAt(old(procs), u.next);
        if written || Path(name, digest) in old(copies) then
          && units == old(units)[name := u.(next := Some(|old(procs)|))] && Tried(stopped, procs, name, digest, now)
          && copies == if Path(name, digest) in old(copies) then old(copies) else old(copies)[Path(name, digest) := digest]
        else
          procs == stopped && copies == old(copies) && exists reason :: reason != "" && units == old(units)[name := u.(invalid := reason)]
    {
      hide CurrentOk, VersionsOk, CopiesOk, PortsOk, Continues, NoStray, Path, Serves;
      GrownSame(procs);
      Appended({});
      if units[name].next.Some? { StopNext(name); }
      assert Grown(old(procs), procs);
      ghost var stopped, before := views, procs;
      var ok := WriteCopy(name, digest, written);
      if !ok {
        SetInvalid(name, digest, "cannot keep a copy to run");
        assert units == old(units)[name := old(units)[name].(invalid := "cannot keep a copy to run")];
      } else {
        Try(name, digest, now);
        GrownTransitive(old(procs), before, procs);
      }
      ServesThen(old(views), stopped, views, EVERY);
    }

    /**
     * One look at one spec file.  `written` says whether a copy could be
     * written and `answers` which workers answer as ready.
     */
    method ReconcileOne(name: string, verdict: Verdict, now: int, written: bool, answers: nat -> bool)
      requires Valid()
      modifies this
      ensures Valid() && Grown(old(procs), procs)
      ensures Serves(old(views), views, EVERY)
      ensures name in units && units == (old(units)[name := units[name]])
      // A refused file changes no worker, and is noted.
      ensures verdict.Refused? || !ValidName(name) ==>
                && procs == old(procs) && units[name].current == Before(old(units), name).current && units[name].next == Before(old(units), name).next
                && units[name] == Before(old(units), name).(
                     invalid := if ValidName(name) then verdict.reason else INVALID_NAME, fileDigest := if ValidName(name) then verdict.digest else "")
                && answered == old(answered) && verified == old(verified) && copies == old(copies)
      // A valid one, case by case.
      ensures verdict.Verified? && ValidName(name) ==>
                && Reconciled(Before(old(units), name), old(procs), units[name], procs, name, verdict.digest, now, readyTimeout, answers,
                              written || Path(name, verdict.digest) in old(copies))
                && verified == old(verified) + {(name, verdict.digest)}
                && copies == if |procs| > |old(procs)| && Path(name, verdict.digest) !in old(copies) then old(copies)[Path(name, verdict.digest) := verdict.digest] else old(copies)
      // The current worker changes only to the file's verified version, which was being tried, ran, and answered as ready.
      ensures units[name].current != Before(old(units), name).current ==>
                && verdict.Verified? && Switched(Before(old(units), name), units[name], procs, answered, verdict.digest)
                && answers(units[name].current.value) && !old(procs)[units[name].current.value].stopped
      ensures forall id :: id in answered && id !in old(answered) ==> units[name].current == Some(id) && answers(id)
      // A worker starts exactly for a version that is not known yet and whose copy is there or can be written; then it is settled.
      ensures |procs| <= |old(procs)| + 1
      ensures |procs| > |old(procs)| <==>
                && verdict.Verified? && ValidName(name) && !Known(Before(old(units), name), old(procs), verdict.digest)
                && (written || Path(name, verdict.digest) in old(copies))
      ensures |procs| > |old(procs)| ==>
                procs[|procs| - 1].digest == verdict.digest && procs[|procs| - 1].spec == name && Settled(units, procs, name, verdict.digest)
      ensures verdict.Verified? && ValidName(name) && old(Settled(units, procs, name, verdict.digest)) ==>
                |procs| == |old(procs)| && Settled(units, procs, name, verdict.digest)
    {
      hide CurrentOk, VersionsOk, CopiesOk, PortsOk, Continues, NoStray, UnitIds, Serves, Path, Reconciled, Settled;
      Ensure(name);
      ghost var made := views;
      GrownSame(procs);
      if !ValidName(name) {
        SetInvalid(name, "", INVALID_NAME);
        ServesThen(old(views), made, views, EVERY);
        return;
      }
      match verdict
      case Refused(digest, reason) =>
        SetInvalid(name, digest, reason);
        ServesThen(old(views), made, views, EVERY);
      case Verified(digest) =>
        ghost var u, had := units[name], copies;
        Facts(name);
        ReconcileValid(name, digest, now, written, answers);
        ServesThen(old(views), made, views, EVERY);
        ReconciledMeans(old(units), u, old(procs), units, units[name], procs, name, digest, now, readyTimeout, answers, written || Path(name, digest) in had);
    }

    // ----- The whole directory -----------------------------------------------

    /**
     * One pass over the directory.  Workers of removed specs stop, and copies
     * no worker runs from are deleted; the specs whose files are there stay
     * served through every state of the pass.
     */
    method Reconcile(pass: Pass)
      requires Valid()
      modifies this
      ensures Valid() && Grown(old(procs), procs)
      ensures pass.files.None? ==> units == old(units) && procs == old(procs) && copies == old(copies) && views == old(views)
      ensures PassDone(Snapshot(old(units), old(procs), old(copies)), Snapshot(units, procs, copies), pass, readyTimeout)
      ensures pass.files.Some? ==> forall path :: path in copies ==> Wanted(units, procs, path)
      ensures pass.files.Some? ==> Serves(old(views), views, Named(pass.files.value))
      ensures pass.files.Some? ==> forall name :: name in Named(pass.files.value) && Live(View(old(units), old(procs)), name) ==> Live(View(units, procs), name)
      ensures pass.files.Some? ==> forall name :: name in units && units[name].current != Before(old(units), name).current ==>
                units[name].current.Some? && pass.answers(units[name].current.value)
      ensures pass.files.Some? ==> forall name, digest :: Offers(pass.files.value, name, digest) ==>
                Watched(old(units), old(procs), units, procs, name, digest)
    {
      hide Base, Grown, Watched, OnlyOffers, ValidName, Serves, Wanted, Live, Looked, Elsewhere, OnlyOnce, IdsOk;
      GrownSame(procs);
      Appended({});
      OldIds();
      if pass.files.None? { return; }
      var files := pass.files.value;
      ReconcileFiles(files, pass);
      ghost var had, before, looked := units, procs, views;
      var seen := set i | 0 <= i < |files| :: files[i].0;
      Remove(seen);
      ghost var left := iset name | name in seen;
      assert Named(files) == left;
      ServesFewer(old(views), looked, EVERY, left);
      ServesThen(old(views), looked, views, left);
      ServedEnds(left, old(views));
      GrownTransitive(old(procs), before, procs);
      forall name, digest | Offers(files, name, digest) ensures Watched(old(units), old(procs), units, procs, name, digest) {
        assert name in seen;
        WatchedElsewhere(had, before, units, procs, name, digest);
        WatchedThen(old(units), old(procs), had, before, units, procs, name, digest);
      }
      forall k | 0 <= k < |files| && OnlyOnce(files, k)
        ensures Looked(old(units), old(procs), old(copies), units, procs, files, k, pass, readyTimeout)
      {
        RemovedElsewhere(had, before, units, procs, seen, files[k].0);
        LookedLater(old(units), old(procs), old(copies), had, before, units, procs, files, k, pass, readyTimeout);
      }
      PruneCopies();
    }

    /** What a record says of its two ends. */
    lemma ServedEnds(names: iset<string>, before: seq<View>)
      requires Valid() && Serves(before, views, names)
      ensures forall name :: name in names && Live(before[|before| - 1], name) ==> Live(View(units, procs), name)
    {
      forall name | name in names && Live(before[|before| - 1], name) ensures Live(View(units, procs), name) {
        ServedThrough(before, views, names, name, |views| - 1);
      }
      hide Base, Serves;
    }

    /** Looks at every spec file in the directory. */
    method ReconcileFiles(files: seq<(string, Verdict)>, pass: Pass)
      requires Valid()
      modifies this
      ensures Valid() && Grown(old(procs), procs)
      ensures Serves(old(views), views, EVERY)
      ensures Answered(old(units), units, pass.answers)
      ensures forall k :: 0 <= k < |files| ==> files[k].0 in units
      ensures forall k :: 0 <= k < |files| && OnlyOnce(files, k) ==>
                Looked(old(units), old(procs), old(copies), units, procs, files, k, pass, readyTimeout)
      ensures forall name, digest :: ValidName(name) && OnlyOffers(files, name, digest) ==>
                Watched(old(units), old(procs), units, procs, name, digest)
    {
      hide Base, Grown, Watched, ValidName, Settled, Serves, Answered, Looked, Untouched, OnlyOnce, Elsewhere, CopiesFrom, IdsOk;
      GrownSame(procs);
      Appended({});
      NobodyAnswered(units, pass.answers);
      OldIds();
      NothingLooked(units, procs, copies, files);
      forall name, digest ensures Watched(units, procs, units, procs, name, digest) { WatchedNothing(units, procs, name, digest); }
      for i := 0 to |files|
        invariant Valid() && Grown(old(procs), procs) && Serves(old(views), views, EVERY)
        invariant Answered(old(units), units, pass.answers)
        invariant forall k :: 0 <= k < i ==> files[k].0 in units
        invariant CopiesFrom(old(copies), copies, files, i)
        invariant forall name :: (forall k :: 0 <= k < i ==> files[k].0 != name) ==> Elsewhere(old(units), old(procs), units, procs, name)
        invariant forall k :: 0 <= k < i && OnlyOnce(files, k) ==>
                    Looked(old(units), old(procs), old(copies), units, procs, files, k, pass, readyTimeout)
        invariant forall name, digest :: ValidName(name) && OnlyOffers(files, name, digest) ==>
                    Watched(old(units), old(procs), units, procs, name, digest)
      {
        ghost var had, before, seen, kept := units, procs, views, copies;
        LookAt(files, i, pass);
        LookedMore(old(units), old(procs), old(copies), had, before, kept, units, procs, copies, files, i, pass, readyTimeout);
        ServesThen(old(views), seen, views, EVERY);
        AnsweredThen(old(units), had, units, pass.answers);
        forall name, digest | ValidName(name) && OnlyOffers(files, name, digest)
          ensures Watched(old(units), old(procs), units, procs, name, digest)
        {
          WatchedThen(old(units), old(procs), had, before, units, procs, name, digest);
        }
        GrownTransitive(old(procs), before, procs);
      }
    }

    method LookAt(files: seq<(string, Verdict)>, i: nat, pass: Pass)
      requires Valid() && i < |files|
      modifies this
      ensures Valid() && Grown(old(procs), procs)
      ensures Serves(old(views), views, EVERY)
      ensures Answered(old(units), units, pass.answers)
      ensures files[i].0 in units && forall name :: name in old(units) ==> name in units
      ensures Looked(old(units), old(procs), old(copies), units, procs, files, i, pass, readyTimeout)
      ensures forall name :: name != files[i].0 ==> Elsewhere(old(units), old(procs), units, procs, name)
      ensures forall path :: path in old(copies) ==> path in copies
      ensures forall path :: path in copies && path !in old(copies) ==> files[i].1.Verified? && path == Path(files[i].0, files[i].1.digest)
      ensures forall name, digest :: ValidName(name) && OnlyOffers(files, name, digest) ==>
                Watched(old(units), old(procs), units, procs, name, digest)
    {
      hide Base, Watched, ValidName, Settled, Serves, Reconciled, Known, Path, Looked, Elsewhere;
      OldIds();
      ReconcileOne(files[i].0, files[i].1, pass.now, pass.written(files[i].0), pass.answers);
      LookedHere(old(units), old(procs), old(copies), units, procs, files, i, pass, readyTimeout);
      forall name, digest | ValidName(name) && OnlyOffers(files, name, digest)
        ensures Watched(old(units), old(procs), units, procs, name, digest)
      {
        if name == files[i].0 {
          assert files[i].1 == Verified(digest);
          WatchedHere(old(units), old(procs), units, procs, name, digest);
        } else {
          WatchedElsewhere(old(units), old(procs), units, procs, name, digest);
        }
      }
    }

    /**
     * Any number of passes.  However often a directory is looked at that keeps
     * the same valid file of a spec, whatever else is in it, at most one worker
     * of that spec is started, and none if its version was settled.  `marks`
     * record the run: see ServiceContinues.  `states` are what the passes make
     * of each other's results.
     */
    method Watch(passes: seq<Pass>) returns (ghost marks: seq<nat>, ghost states: seq<Snapshot>)
      requires Valid()
      modifies this
      ensures Valid() && Grown(old(procs), procs) && old(views) <= views
      ensures PassesDone(states, passes, readyTimeout)
      ensures states[0] == Snapshot(old(units), old(procs), old(copies)) && states[|passes|] == Snapshot(units, procs, copies)
      ensures Recorded(views, marks, passes) && marks[0] == |old(views)| - 1 && marks[|passes|] == |views| - 1
      ensures forall name :: InEvery(passes, name) && Live(View(old(units), old(procs)), name) ==>
                Live(View(units, procs), name) && forall k :: |old(views)| <= k < |views| ==> Live(views[k], name)
      ensures forall name, digest :: (forall k :: 0 <= k < |passes| && passes[k].files.Some? ==> Offers(passes[k].files.value, name, digest)) ==>
                Watched(old(units), old(procs), units, procs, name, digest)
    {
      hide Base, Grown, Watched, Offers, Wanted, Recorded, ServedOn, Live, InEvery, PassDone, PassesDone;
      GrownSame(procs);
      Appended({});
      marks := [|views| - 1];
      states := [Snapshot(units, procs, copies)];
      assert PassesDone(states, [], readyTimeout) by { NoneDone(states[0], readyTimeout); }
      NoPasses(views);
      forall name, digest ensures Watched(units, procs, units, procs, name, digest) { WatchedNothing(units, procs, name, digest); }
      for i := 0 to |passes|
        invariant Valid() && Grown(old(procs), procs) && old(views) <= views
        invariant |marks| == i + 1 && marks[0] == |old(views)| - 1 && marks[i] == |views| - 1 && Recorded(views, marks, passes[..i])
        invariant |states| == i + 1 && PassesDone(states, passes[..i], readyTimeout)
        invariant states[0] == Snapshot(old(units), old(procs), old(copies)) && states[i] == Snapshot(units, procs, copies)
        invariant forall name, digest :: (forall k :: 0 <= k < i && passes[k].files.Some? ==> Offers(passes[k].files.value, name, digest)) ==>
                    Watched(old(units), old(procs), units, procs, name, digest)
      {
        ghost var had, before, seen := units, procs, views;
        Reconcile(passes[i]);
        RecordedMore(seen, views, marks, passes[..i], passes[i]);
        OneMorePass(states, passes[..i], readyTimeout, Snapshot(units, procs, copies), passes[i]);
        marks, states := marks + [|views| - 1], states + [Snapshot(units, procs, copies)];
        assert passes[..i + 1] == passes[..i] + [passes[i]];
        forall name, digest | forall k :: 0 <= k < i + 1 && passes[k].files.Some? ==> Offers(passes[k].files.value, name, digest)
          ensures Watched(old(units), old(procs), units, procs, name, digest)
        {
          if passes[i].files.None? { WatchedNothing(units, procs, name, digest); }
          WatchedThen(old(units), old(procs), had, before, units, procs, name, digest);
        }
        GrownTransitive(old(procs), before, procs);
      }
      assert passes[..|passes|] == passes;
      RunServes(old(views), marks, passes);
    }

    lemma RunServes(before: seq<View>, marks: seq<nat>, passes: seq<Pass>)
      requires Valid() && before != [] && before <= views && Recorded(views, marks, passes)
      requires marks[0] == |before| - 1 && marks[|passes|] == |views| - 1
      ensures forall name :: InEvery(passes, name) && Live(before[|before| - 1], name) ==>
        Live(View(units, procs), name) && forall k :: |before| <= k < |views| ==> Live(views[k], name)
    {
      hide Live;
      forall name, k | InEvery(passes, name) && Live(before[|before| - 1], name) && |before| - 1 <= k < |views| ensures Live(views[k], name) {
        ServiceContinues(views, marks, passes, |before| - 1, k, name);
      }
      assert views[|views| - 1] == View(units, procs);
      hide Base, Recorded, InEvery;
    }

    /** Passes until the supervisor is told to stop; then every worker stops. */
    method Run(passes: seq<Pass>) returns (ghost marks: seq<nat>, ghost states: seq<Snapshot>)
      requires Valid()
      modifies this
      ensures Valid() && units == map[] && forall id :: 0 <= id < |procs| ==> procs[id].stopped
      ensures PassesDone(states, passes, readyTimeout) && states[0] == Snapshot(old(units), old(procs), old(copies))
      ensures |procs| == |states[|passes|].procs|
      ensures old(views) <= views && Recorded(views, marks, passes) && marks[0] == |old(views)| - 1
    {
      hide Base, Grown, Recorded, Serves;
      marks, states := Watch(passes);
      ghost var served := views;
      StopAll();
      RecordedLater(served, views, marks, passes);
    }

    /** Forgets the units that are not in `seen`, then stops their workers. */
    method Remove(seen: set<string>)
      requires Valid()
      modifies this`units, this`procs, this`views
      ensures Valid() && Grown(old(procs), procs) && |procs| == |old(procs)|
      ensures units == Restrict(old(units), seen)
      ensures forall id :: 0 <= id < |procs| && procs[id].spec in seen ==> procs[id] == old(procs)[id]
      ensures Serves(old(views), views, iset name | name in seen)
    {
      hide VersionsOk, CopiesOk, PortsOk, Continues, NoStray, IdsOk, CurrentOk, Grown, Referred;
      var gone := map name | name in units && name !in seen :: units[name];
      RemovedKeeps(units, procs, answered, seen, gone);
      GrownSame(procs);
      units := map name | name in units && name in seen :: units[name];
      assert units == Restrict(old(units), seen);
      ghost var named := iset name | name in seen;
      ServesNext(views, View(units, procs), named);
      views := views + [View(units, procs)];
      while gone.Keys != {}
        invariant Base(Referred(gone)) && units == Restrict(old(units), seen) && Serves(old(views), views, named)
        invariant Grown(old(procs), procs) && |procs| == |old(procs)|
        invariant Outside(units, gone, procs) && (forall name :: name in gone ==> name !in seen)
        invariant forall id :: 0 <= id < |procs| && procs[id].spec in seen ==> procs[id] == old(procs)[id]
        decreases gone.Keys
      {
        var name :| name in gone.Keys;
        ghost var before, reached := procs, views;
        StopUnit(name, gone[name], Referred(gone));
        ServesFewer(reached, views, EVERY, named);
        ServesThen(old(views), reached, views, named);
        OneFewer(units, gone, name, before, procs);
        GrownTransitive(old(procs), before, procs);
        gone := gone - {name};
      }
      assert gone == map[];
      NoneReferred();
    }

    method StopUnit(name: string, u: Unit, ghost but: set<nat>)
      requires Base(but) && UnitIds(name, u, procs) && name !in units
      modifies this`procs, this`views
      ensures Base(but - Ids(u)) && Grown(old(procs), procs) && |procs| == |old(procs)|
      ensures forall id :: 0 <= id < |procs| ==> procs[id].spec == old(procs)[id].spec && (procs[id].spec != name ==> procs[id] == old(procs)[id])
      ensures Serves(old(views), views, EVERY)
    {
      hide VersionsOk, CopiesOk, PortsOk, Continues, NoStray, CurrentOk;
      ghost var left := but;
      Appended(but);
      if u.current.Some? {
        CurrentElsewhere(units, procs, u.current.value, name);
        Stop(u.current.value, left);
        left := left - {u.current.value};
      }
      ghost var stopped := views;
      if u.next.Some? {
        CurrentElsewhere(units, procs, u.next.value, name);
        Stop(u.next.value, left);
        left := left - {u.next.value};
        ServesThen(old(views), stopped, views, EVERY);
      }
      assert left == but - Ids(u);
    }

    /** At shutdown every worker stops. */
    method StopAll()
      requires Valid()
      modifies this`units, this`procs, this`views
      ensures Valid() && units == map[] && |procs| == |old(procs)| && forall id :: 0 <= id < |procs| ==> procs[id].stopped
      ensures old(views) <= views
    {
      Remove({});
      assert units == map[];
      assert forall id :: 0 <= id < |procs| && !procs[id].stopped ==> Running(procs, id);
    }

    /** Deletes the spec copies no unit's worker runs from. */
    method PruneCopies()
      requires Valid()
      modifies this`copies
      ensures Valid()
      ensures forall path :: path in copies <==> path in old(copies) && Wanted(units, procs, path)
      ensures forall path :: path in copies ==> copies[path] == old(copies)[path]
    {
      hide CurrentOk, VersionsOk, CopiesOk, PortsOk, Continues, NoStray, WorkerPaths, Wanted;
      var keep := WorkerPaths(units, procs);
      copies := map path | path in copies && path in keep :: copies[path];
      KeptPaths(units, procs, keep);
      PrunedKeeps(units, procs, old(copies), verified, copies);
    }
  }

  // ----- Copies --------------------------------------------------------------

  /** No two verified versions with different digests share a copy's path: their shortened digests differ. */
  ghost predicate NoCollision(verified: set<(string, string)>) {
    forall v, w :: v in verified && w in verified && Path(v.0, v.1) == Path(w.0, w.1) ==> v.1 == w.1
  }

  /** A running worker's copy is there, and holds its own version as long as no two verified versions collide ... */
  lemma RunsOwnCopy(procs: Procs, copies: map<string, string>, verified: set<(string, string)>, id: nat)
    requires VersionsOk(procs, verified) && CopiesOk(procs, copies, verified) && Running(procs, id)
    ensures procs[id].path in copies
    ensures NoCollision(verified) ==> copies[procs[id].path] == procs[id].digest
  {
    hide Path;
    var path := procs[id].path;
    var name :| (name, copies[path]) in verified && path == Path(name, copies[path]);
  }

  /**
   * ... and for any two versions that do, there is a run in which the second
   * one's worker runs from the copy of the first: an existing copy is taken as
   * it is.  So every worker of every run has its own copy exactly when no two
   * versions collide.
   */
  method SharedCopy(v: (string, string), w: (string, string)) returns (s: Supervisor, id: nat)
    requires ValidName(v.0) && ValidName(w.0) && v.1 != "" && w.1 != ""
    requires Path(v.0, v.1) == Path(w.0, w.1) && v.1 != w.1
    ensures fresh(s) && s.Valid() && s.verified == {v, w}
    ensures Running(s.procs, id) && s.procs[id].spec == w.0 && s.procs[id].digest == w.1
    ensures s.procs[id].path in s.copies && s.copies[s.procs[id].path] == v.1
  {
    hide Path, ValidName, Serves, Switched, Settled;
    s := new Supervisor(0, 0, map[], {});
    s.ReconcileOne(v.0, Verified(v.1), 0, true, _ => false);
    assert s.copies == map[Path(v.0, v.1) := v.1];
    s.ReconcileOne(w.0, Verified(w.1), 0, true, _ => false);
    id := |s.procs| - 1;
  }
}

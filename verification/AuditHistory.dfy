/** What a log promises over its life: records, writes that fail on the way, and reopenings. */
module AuditHistory {
  import opened Prelude
  import opened Audit

  // ----- Histories -----------------------------------------------------------

  /** A failed write leaves the first `bytes` of its line and line break. */
  datatype Op =
    | Recorded(now: int, actor: string, action: string, data: string)
    | Failed(now: int, actor: string, action: string, data: string, bytes: nat)
    | Reopened

  function Entered(c: Codec, s: State, op: Op): Entry
    requires !op.Reopened?
  {
    Next(c, s.number, s.last, op.now, op.actor, op.action, op.data)
  }

  /** The log after a history, or None once a reopening was refused. */
  ghost function After(c: Codec, ops: seq<Op>): Option<State> {
    if ops == [] then Some(EMPTY)
    else
      match After(c, ops[..|ops| - 1])
      case None => None
      case Some(s) => Step(c, s, ops[|ops| - 1])
  }

  ghost function Step(c: Codec, s: State, op: Op): Option<State> {
    match op
    case Recorded(_, _, _, _) => Some(Appended(c, s, Entered(c, s, op)))
    case Failed(_, _, _, _, bytes) => Some(Interrupted(c, s, Entered(c, s, op), bytes))
    case Reopened => if Verifies(c, Scanned(s.file)) then Some(Opened(c, s.file)) else None
  }

  /**
   * What the writes of a history left at the end of the file: whole lines the
   * log knows; one more whole line; a whole entry without its line break, that
   * the log knows since a reopening or does not; or something else, for good.
   */
  datatype Trail = Clean | ExtraLine | OpenLine(known: bool) | Broken

  /** The trail after a write of some bytes of a line; `counted` when the write succeeded. */
  function Written(trail: Trail, line: string, bytes: nat, counted: bool): Trail {
    if bytes == 0 then trail
    else if trail != Clean || bytes < |line| then Broken
    else if bytes == |line| then OpenLine(false)
    else if counted then Clean
    else ExtraLine
  }

  /** The trail after the log was read again from the file. */
  function Reread(trail: Trail): Trail {
    match trail case ExtraLine => Clean case OpenLine(_) => OpenLine(true) case _ => trail
  }

  ghost function TrailStep(c: Codec, s: State, trail: Trail, op: Op): Trail {
    match op
    case Recorded(_, _, _, _) => Written(trail, c.marshal(Entered(c, s, op)), |c.marshal(Entered(c, s, op))| + 1, true)
    case Failed(_, _, _, _, bytes) => Written(trail, c.marshal(Entered(c, s, op)), bytes, false)
    case Reopened => Reread(trail)
  }

  ghost function TrailOf(c: Codec, ops: seq<Op>): Trail
    requires After(c, ops).Some?
  {
    if ops == [] then Clean
    else TrailStep(c, After(c, ops[..|ops| - 1]).value, TrailOf(c, ops[..|ops| - 1]), ops[|ops| - 1])
  }

  function Records(ops: seq<Op>): nat {
    if ops == [] then 0 else Records(ops[..|ops| - 1]) + if ops[|ops| - 1].Recorded? then 1 else 0
  }

  /** How many entries a reopening found that the log had counted as failed. */
  ghost function Adopted(c: Codec, ops: seq<Op>): nat
    requires After(c, ops).Some?
  {
    if ops == [] then 0
    else
      var n := |ops| - 1;
      var trail := TrailOf(c, ops[..n]);
      Adopted(c, ops[..n]) + if ops[n].Reopened? && (trail == ExtraLine || trail == OpenLine(false)) then 1 else 0
  }

  // ----- Reading -------------------------------------------------------------

  /** The lines decode to a chain, whatever their length. */
  ghost predicate Readable(c: Codec, lines: seq<string>) {
    Decode(c, lines).Some? && Chain(c, Decode(c, lines).value)
  }

  /** A chain whose head the log continues from. */
  ghost predicate Heads(c: Codec, lines: seq<string>, s: State) {
    Readable(c, lines) && s.number == |Decode(c, lines).value| && s.last == Head(Decode(c, lines).value)
  }

  /** What one more line does. */
  lemma ReadMore(c: Codec, lines: seq<string>, line: string)
    ensures Readable(c, lines + [line]) <==>
      && Readable(c, lines)
      && (line == "" ||
          (c.unmarshal(line).Some? && Link(c, |Decode(c, lines).value|, Head(Decode(c, lines).value), c.unmarshal(line).value) == None))
    ensures Readable(c, lines + [line]) && line != "" ==>
      Decode(c, lines + [line]) == Some(Decode(c, lines).value + [c.unmarshal(line).value])
  {
    assert (lines + [line])[..|lines|] == lines;
    if Decode(c, lines).Some? {
      var entries := Decode(c, lines).value;
      if line != "" && c.unmarshal(line).Some? {
        var e := c.unmarshal(line).value;
        assert (entries + [e])[..|entries|] == entries;
        if Chain(c, entries + [e]) { ChainPrefix(c, entries + [e], |entries|); }
        if Chain(c, entries) { ChainAppend(c, entries, e); }
      }
    }
    hide Chain;
  }

  ghost predicate Pieces(c: Codec, t: string) {
    exists ps :: AllPieces(c, ps) && t == Joined(ps)
  }

  /** More bytes of an encoding on a line: an entry only when they are all of it, alone. */
  lemma LineGrows(c: Codec, t: string, e: Entry, bytes: nat)
    requires Lawful(c) && Pieces(c, t) && 0 < bytes <= |c.marshal(e)|
    ensures var more := t + c.marshal(e)[..bytes];
      && Pieces(c, more) && more != ""
      && c.unmarshal(more) == if t == "" && bytes == |c.marshal(e)| then Some(e) else None
  {
    var ps :| AllPieces(c, ps) && t == Joined(ps);
    var p := c.marshal(e)[..bytes];
    PartIsPiece(c, e, bytes);
    PieceAdded(c, ps, p);
    hide Lawful, AllPieces, Joined, IsPiece;
    if t == "" { assert t + p == p; } else { NotEmpty(ps); }
  }

  /** The first bytes of an encoding: an entry only when they are all of it. */
  lemma PartIsPiece(c: Codec, e: Entry, bytes: nat)
    requires Lawful(c) && 0 < bytes <= |c.marshal(e)|
    ensures var p := c.marshal(e)[..bytes]; IsPiece(c, p) && p != "" && c.unmarshal(p) == if bytes == |c.marshal(e)| then Some(e) else None
  {
    var p := c.marshal(e)[..bytes];
    assert p <= c.marshal(e);
    if bytes == |c.marshal(e)| { assert p == c.marshal(e); } else { assert p < c.marshal(e); }
  }

  lemma NotEmpty(ps: seq<string>)
    ensures Joined(ps) != "" ==> ps != []
  {
  }

  lemma PieceAdded(c: Codec, ps: seq<string>, p: string)
    requires Lawful(c) && AllPieces(c, ps) && IsPiece(c, p)
    ensures AllPieces(c, ps + [p]) && Joined(ps + [p]) == Joined(ps) + p
    ensures ps != [] ==> c.unmarshal(Joined(ps) + p) == None
  {
    hide IsPiece;
    assert (ps + [p])[..|ps|] == ps;
  }

  // ----- The invariant -------------------------------------------------------

  ghost predicate Sound(c: Codec, s: State, trail: Trail) {
    var lines, tail := s.file.lines, s.file.tail;
    && Pieces(c, tail)
    && match trail
       case Clean => tail == "" && Heads(c, lines, s)
       case ExtraLine => tail == "" && lines != [] && lines[|lines| - 1] != "" && Heads(c, lines[..|lines| - 1], s) && Readable(c, lines)
       case OpenLine(known) => tail != "" && if known then Heads(c, lines + [tail], s) else Heads(c, lines, s) && Readable(c, lines + [tail])
       case Broken => !Readable(c, Scanned(s.file))
  }

  /** A sound state verifies exactly when its lines are short and its trail is not broken. */
  lemma SoundVerifies(c: Codec, s: State, trail: Trail)
    requires Sound(c, s, trail)
    ensures Verifies(c, Scanned(s.file)) <==> Short(Scanned(s.file)) && trail != Broken
  {
  }

  lemma NextLinks(c: Codec, s: State, op: Op, number: nat, prev: string)
    requires !op.Reopened?
    ensures Link(c, number, prev, Entered(c, s, op)) == None <==> number == s.number && prev == s.last
  {
  }

  lemma NoPieces(c: Codec)
    ensures Pieces(c, "")
  {
    assert AllPieces(c, []) && Joined([]) == "";
  }

  /** Bytes after anything but whole lines the log knows spoil the file for good. */
  lemma WriteBreaks(c: Codec, s: State, trail: Trail, op: Op, bytes: nat)
    requires Lawful(c) && Sound(c, s, trail) && !op.Reopened? && bytes > 0
    requires trail != Clean || bytes < |c.marshal(Entered(c, s, op))|
    ensures var f := Write(s.file, c.marshal(Entered(c, s, op)), bytes); Pieces(c, f.tail) && !Readable(c, Scanned(f))
  {
    var e := Entered(c, s, op);
    var line := c.marshal(e);
    var lines, tail := s.file.lines, s.file.tail;
    var more := tail + if bytes > |line| then line else line[..bytes];
    assert line[..|line|] == line;
    LineGrows(c, tail, e, if bytes > |line| then |line| else bytes);
    NoPieces(c);
    ReadMore(c, lines, more);
    assert Scanned(Write(s.file, line, bytes)) == lines + [more];
    if tail == "" && trail == ExtraLine {
      ExtraCounts(c, s);
      NextLinks(c, s, op, |Decode(c, lines).value|, Head(Decode(c, lines).value));
    }
    hide Readable, Lawful, Pieces, Link;
  }

  lemma ExtraCounts(c: Codec, s: State)
    requires Sound(c, s, ExtraLine)
    ensures |Decode(c, s.file.lines).value| == s.number + 1
  {
    var n := |s.file.lines| - 1;
    assert s.file.lines == s.file.lines[..n] + [s.file.lines[n]];
    ReadMore(c, s.file.lines[..n], s.file.lines[n]);
    hide Readable;
  }

  /** After whole lines the log knows, a whole entry is one more. */
  lemma WholeEntry(c: Codec, s: State, op: Op)
    requires Lawful(c) && Sound(c, s, Clean) && !op.Reopened?
    ensures var e := Entered(c, s, op);
      && c.marshal(e) != "" && Readable(c, s.file.lines + [c.marshal(e)])
      && Decode(c, s.file.lines + [c.marshal(e)]) == Some(Decode(c, s.file.lines).value + [e])
  {
    var e := Entered(c, s, op);
    ReadMore(c, s.file.lines, c.marshal(e));
    NextLinks(c, s, op, s.number, s.last);
    assert c.marshal(e) != "" && c.unmarshal(c.marshal(e)) == Some(e);
    hide Lawful, Readable, Link;
  }

  lemma RecordSound(c: Codec, s: State, trail: Trail, op: Op)
    requires Lawful(c) && Sound(c, s, trail) && op.Recorded?
    ensures Sound(c, Step(c, s, op).value, TrailStep(c, s, trail, op))
  {
    hide Readable, Lawful, Pieces, Link, Decode, Chain;
    if trail == Clean {
      WholeEntry(c, s, op);
      NoPieces(c);
      assert "" + c.marshal(Entered(c, s, op)) == c.marshal(Entered(c, s, op));
      hide Next;
    } else {
      hide Next;
      WriteBreaks(c, s, trail, op, |c.marshal(Entered(c, s, op))| + 1);
    }
  }

  lemma FailureSound(c: Codec, s: State, trail: Trail, op: Op)
    requires Lawful(c) && Sound(c, s, trail) && op.Failed?
    ensures Sound(c, Step(c, s, op).value, TrailStep(c, s, trail, op))
  {
    hide Readable, Lawful, Pieces, Link, Decode, Chain, Next;
    if op.bytes == 0 {
      NothingWritten(c, s, op);
    } else if trail != Clean || op.bytes < |c.marshal(Entered(c, s, op))| {
      WriteBreaks(c, s, trail, op, op.bytes);
    } else {
      WholeSound(c, s, op);
    }
  }

  lemma NothingWritten(c: Codec, s: State, op: Op)
    requires Lawful(c) && op.Failed? && op.bytes == 0
    ensures Interrupted(c, s, Entered(c, s, op), 0) == s
  {
    assert c.marshal(Entered(c, s, op)) != "";
    assert s.file.tail + c.marshal(Entered(c, s, op))[..0] == s.file.tail;
  }

  lemma WholeSound(c: Codec, s: State, op: Op)
    requires Lawful(c) && Sound(c, s, Clean) && op.Failed? && 0 < op.bytes && op.bytes >= |c.marshal(Entered(c, s, op))|
    ensures Sound(c, Step(c, s, op).value, TrailStep(c, s, Clean, op))
  {
    hide Readable, Lawful, Link, Decode, Chain, Next;
    var e := Entered(c, s, op);
    var line := c.marshal(e);
    WholeEntry(c, s, op);
    NoPieces(c);
    LineGrows(c, "", e, |line|);
    assert "" + line[..|line|] == line;
    WholeLeft(c, s, op);
    hide Pieces;
  }

  lemma WholeLeft(c: Codec, s: State, op: Op)
    requires Sound(c, s, Clean) && op.Failed? && op.bytes >= |c.marshal(Entered(c, s, op))|
    ensures var line, f := c.marshal(Entered(c, s, op)), Interrupted(c, s, Entered(c, s, op), op.bytes).file;
      if op.bytes == |line| then f == File(s.file.lines, line)
      else f == File(s.file.lines + [line], "") && f.lines[..|f.lines| - 1] == s.file.lines && f.lines[|f.lines| - 1] == line
  {
    var line := c.marshal(Entered(c, s, op));
    assert "" + line == line && line[..|line|] == line;
  }

  lemma RereadSound(c: Codec, s: State, trail: Trail)
    requires Sound(c, s, trail) && Verifies(c, Scanned(s.file))
    ensures Sound(c, Opened(c, s.file), Reread(trail))
  {
    hide Pieces, Chain;
  }

  lemma {:induction false} HistorySound(c: Codec, ops: seq<Op>)
    requires Lawful(c) && After(c, ops).Some?
    ensures Sound(c, After(c, ops).value, TrailOf(c, ops))
  {
    hide Sound, Lawful, Verifies;
    if ops == [] {
      EmptySound(c);
    } else {
      var before, op := ops[..|ops| - 1], ops[|ops| - 1];
      HistorySound(c, before);
      var s, trail := After(c, before).value, TrailOf(c, before);
      match op
      case Recorded(_, _, _, _) => RecordSound(c, s, trail, op);
      case Failed(_, _, _, _, _) => FailureSound(c, s, trail, op);
      case Reopened => RereadSound(c, s, trail);
    }
  }

  lemma EmptySound(c: Codec)
    ensures Sound(c, EMPTY, Clean)
  {
    NoPieces(c);
  }

  // ----- What a history promises ---------------------------------------------

  /**
   * After any records, failed writes and reopenings, the file verifies, and
   * the log can be reopened, exactly when every line fits the reader and the
   * trail is not broken: no bytes followed bytes that a failed write left
   * (unless those were a whole line that a reopening read first), and the last
   * failed write did not leave only part of an entry.
   */
  lemma HistoryVerifies(c: Codec, ops: seq<Op>)
    requires Lawful(c) && After(c, ops).Some?
    ensures var lines := Scanned(After(c, ops).value.file);
      && (Verifies(c, lines) <==> Short(lines) && TrailOf(c, ops) != Broken)
      && (After(c, ops + [Reopened]).Some? <==> Short(lines) && TrailOf(c, ops) != Broken)
  {
    hide Sound, Verifies, Lawful, Short, TrailOf, Step;
    HistorySound(c, ops);
    SoundVerifies(c, After(c, ops).value, TrailOf(c, ops));
    Reopens(c, ops);
    hide After;
  }

  /** A reopening is refused exactly when the file does not verify. */
  lemma Reopens(c: Codec, ops: seq<Op>)
    requires After(c, ops).Some?
    ensures After(c, ops + [Reopened]).Some? <==> Verifies(c, Scanned(After(c, ops).value.file))
  {
    hide Verifies, Opened;
    assert (ops + [Reopened])[..|ops|] == ops;
  }

  /** The log's number counts the records, and the entries of failed writes that a reopening found whole. */
  lemma {:induction false} HistoryCounts(c: Codec, ops: seq<Op>)
    requires Lawful(c) && After(c, ops).Some?
    ensures After(c, ops).value.number == Records(ops) + Adopted(c, ops)
  {
    hide Sound, Lawful, Verifies;
    if ops != [] {
      var before, op := ops[..|ops| - 1], ops[|ops| - 1];
      HistoryCounts(c, before);
      HistorySound(c, before);
      if op.Reopened? { RereadCounts(c, After(c, before).value, TrailOf(c, before)); }
    }
  }

  lemma RereadCounts(c: Codec, s: State, trail: Trail)
    requires Sound(c, s, trail) && Verifies(c, Scanned(s.file))
    ensures Opened(c, s.file).number == s.number + if trail == ExtraLine || trail == OpenLine(false) then 1 else 0
  {
    if trail == ExtraLine { ExtraCounts(c, s); }
    if trail == OpenLine(false) { ReadMore(c, s.file.lines, s.file.tail); }
    hide Pieces, Chain;
  }

  /** As long as no failed write left bytes, the trail is clean, so only a line's length can stop the log. */
  lemma {:induction false} CleanHistory(c: Codec, ops: seq<Op>)
    requires Lawful(c) && After(c, ops).Some? && forall i :: 0 <= i < |ops| && ops[i].Failed? ==> ops[i].bytes == 0
    ensures TrailOf(c, ops) == Clean && After(c, ops).value.number == Records(ops)
  {
    hide Lawful, Step, Verifies, Entered;
    if ops != [] {
      var before, op := ops[..|ops| - 1], ops[|ops| - 1];
      assert forall i :: 0 <= i < |before| ==> before[i] == ops[i];
      CleanHistory(c, before);
      HistoryCounts(c, before);
      NothingAdopted(c, ops);
      StaysClean(c, After(c, before).value, op);
    }
    HistoryCounts(c, ops);
  }

  lemma StaysClean(c: Codec, s: State, op: Op)
    requires op.Failed? ==> op.bytes == 0
    ensures TrailStep(c, s, Clean, op) == Clean
  {
  }

  lemma NothingAdopted(c: Codec, ops: seq<Op>)
    requires ops != [] && After(c, ops).Some? && TrailOf(c, ops[..|ops| - 1]) == Clean
    ensures Adopted(c, ops) == Adopted(c, ops[..|ops| - 1])
  {
  }
}

/**
 * The append-only, hash-chained audit log.  The hash and the JSON encoding are
 * parameters with the laws the log relies on: the hash is injective, a line
 * decodes to the entry it encodes, and neither a part of an encoding nor
 * several parts on one line decode to anything.
 */
module Audit {
  import opened Prelude

  const GENESIS := "0000000000000000000000000000000000000000000000000000000000000000"

  /** The longest line the reader's buffer takes, with its line break. */
  const MAX_LINE := 16 * 1024 * 1024

  /** Every field of an entry but its hash; times in nanoseconds. */
  datatype Body = Body(number: nat, time: int, actor: string, action: string, data: string, prev: string)

  datatype Entry = Entry(body: Body, hash: string)

  datatype Codec = Codec(hash: Body -> string, marshal: Entry -> string, unmarshal: string -> Option<Entry>)

  datatype Fault = WrongNumber | WrongPrev | WrongHash | NotAnEntry | LineTooLong

  ghost predicate Lawful(c: Codec) {
    && (forall a, b :: c.hash(a) == c.hash(b) ==> a == b)
    && (forall e :: c.marshal(e) != "" && c.unmarshal(c.marshal(e)) == Some(e))
    && (forall e, p :: p != "" && p < c.marshal(e) ==> c.unmarshal(p) == None)
    && (forall ps :: |ps| >= 2 && AllPieces(c, ps) ==> c.unmarshal(Joined(ps)) == None)
  }

  /** What a write, whole or cut short, puts on a line. */
  ghost predicate IsPiece(c: Codec, p: string) {
    p != "" && exists e :: p <= c.marshal(e)
  }

  ghost predicate AllPieces(c: Codec, ps: seq<string>) {
    forall i :: 0 <= i < |ps| ==> IsPiece(c, ps[i])
  }

  function Joined(ps: seq<string>): string {
    if ps == [] then "" else Joined(ps[..|ps| - 1]) + ps[|ps| - 1]
  }

  /** Seals the entry that follows; times are kept to the microsecond. */
  function Next(c: Codec, number: nat, prev: string, now: int, actor: string, action: string, data: string): Entry {
    var body := Body(number + 1, now - now % 1000, actor, action, data, prev);
    Entry(body, c.hash(body))
  }

  /** The entry says who did what and when, to the microsecond; it has the next number and commits to the hash before it. */
  ghost predicate Seals(c: Codec, e: Entry, number: nat, prev: string, now: int, actor: string, action: string, data: string) {
    && e.body.actor == actor && e.body.action == action && e.body.data == data
    && e.body.time % 1000 == 0 && 0 <= now - e.body.time < 1000
    && Link(c, number, prev, e) == None
  }

  /** No other entry says so: every record written is the one sealed here. */
  lemma NextSeals(c: Codec, number: nat, prev: string, now: int, actor: string, action: string, data: string)
    ensures forall e :: Seals(c, e, number, prev, now, actor, action, data) <==> e == Next(c, number, prev, now, actor, action, data)
  {
  }

  /** What is wrong with an entry that should follow (number, prev), if anything. */
  function Link(c: Codec, number: nat, prev: string, e: Entry): Option<Fault> {
    if e.body.number != number + 1 then Some(WrongNumber)
    else if e.body.prev != prev then Some(WrongPrev)
    else if c.hash(e.body) != e.hash then Some(WrongHash)
    else None
  }

  // ----- Chains --------------------------------------------------------------

  /** The hash an entry at position i has to link to. */
  function Prev(entries: seq<Entry>, i: nat): string
    requires i <= |entries|
  {
    if i == 0 then GENESIS else entries[i - 1].hash
  }

  function Head(entries: seq<Entry>): string { Prev(entries, |entries|) }

  /** Each entry is numbered, commits to the one before it, and carries its own hash. */
  ghost predicate Chain(c: Codec, entries: seq<Entry>) {
    forall i :: 0 <= i < |entries| ==> Linked(c, entries, i)
  }

  predicate Linked(c: Codec, entries: seq<Entry>, i: nat)
    requires i < |entries|
  {
    Link(c, i, Prev(entries, i), entries[i]) == None
  }

  lemma ChainPrefix(c: Codec, entries: seq<Entry>, n: nat)
    requires Chain(c, entries) && n <= |entries|
    ensures Chain(c, entries[..n])
  {
    forall i | 0 <= i < n ensures Linked(c, entries[..n], i) {
      assert Linked(c, entries, i);
    }
  }

  lemma ChainAppend(c: Codec, entries: seq<Entry>, e: Entry)
    requires Chain(c, entries)
    ensures Chain(c, entries + [e]) <==> Link(c, |entries|, Head(entries), e) == None
  {
    var more := entries + [e];
    forall i | 0 <= i < |entries| ensures Linked(c, more, i) {
      assert Linked(c, entries, i);
    }
    assert Linked(c, more, |entries|) <==> Link(c, |entries|, Head(entries), e) == None;
  }

  /** The entries of a file's lines; blank lines are skipped. */
  function Decode(c: Codec, lines: seq<string>): Option<seq<Entry>> {
    if lines == [] then Some([])
    else
      var n := |lines| - 1;
      match Decode(c, lines[..n])
      case None => None
      case Some(entries) =>
        if lines[n] == "" then Some(entries)
        else match c.unmarshal(lines[n])
          case None => None
          case Some(e) => Some(entries + [e])
  }

  ghost predicate Short(lines: seq<string>) {
    forall i :: 0 <= i < |lines| ==> |lines[i]| < MAX_LINE
  }

  /** The file is a chain, and the reader can read all of it. */
  ghost predicate Verifies(c: Codec, lines: seq<string>) {
    Short(lines) && Decode(c, lines).Some? && Chain(c, Decode(c, lines).value)
  }

  lemma {:induction false} VerifiesPrefix(c: Codec, lines: seq<string>, n: nat)
    requires n <= |lines| && Verifies(c, lines)
    ensures Verifies(c, lines[..n])
    decreases |lines|
  {
    if n == |lines| {
      assert lines[..n] == lines;
    } else {
      var last := |lines| - 1;
      var entries := Decode(c, lines[..last]).value;
      var all := Decode(c, lines).value;
      if lines[last] != "" {
        assert all[..|entries|] == entries;
        ChainPrefix(c, all, |entries|);
      }
      VerifiesPrefix(c, lines[..last], n);
      assert lines[..last][..n] == lines[..n];
    }
  }

  /** Reads a log and checks every link: the last entry, and what is wrong, if anything. */
  method Verify(c: Codec, lines: seq<string>) returns (last: Option<Entry>, fault: Option<Fault>)
    ensures fault.None? <==> Verifies(c, lines)
    ensures fault.None? ==> last == var entries := Decode(c, lines).value; if entries == [] then None else Some(entries[|entries| - 1])
  {
    hide Chain, Decode, Verifies;
    last, fault := None, None;
    var prev, number := GENESIS, 0;
    ghost var entries: seq<Entry> := [];
    NothingRead(c, lines);
    for i := 0 to |lines|
      invariant Verifies(c, lines[..i]) && Decode(c, lines[..i]) == Some(entries)
      invariant number == |entries| && prev == Head(entries)
      invariant last == if entries == [] then None else Some(entries[|entries| - 1])
      invariant fault == None
    {
      ReadLine(c, lines, i, entries);
      if |lines[i]| >= MAX_LINE {
        return last, Some(LineTooLong);
      }
      if lines[i] != "" {
        var e := c.unmarshal(lines[i]);
        if e.None? {
          return last, Some(NotAnEntry);
        }
        fault := Link(c, number, prev, e.value);
        if fault.Some? {
          return;
        }
        entries := entries + [e.value];
        prev, number, last := e.value.hash, e.value.body.number, Some(e.value);
      }
    }
    assert lines[..|lines|] == lines;
  }

  lemma NothingRead(c: Codec, lines: seq<string>)
    ensures Verifies(c, lines[..0]) && Decode(c, lines[..0]) == Some([])
  {
  }

  /** What one more line does to what was read so far. */
  lemma ReadLine(c: Codec, lines: seq<string>, i: nat, entries: seq<Entry>)
    requires i < |lines| && Verifies(c, lines[..i]) && Decode(c, lines[..i]) == Some(entries)
    ensures |lines[i]| >= MAX_LINE ==> !Verifies(c, lines)
    ensures |lines[i]| < MAX_LINE && lines[i] == "" ==> Verifies(c, lines[..i + 1]) && Decode(c, lines[..i + 1]) == Some(entries)
    ensures lines[i] != "" && c.unmarshal(lines[i]).None? ==> !Verifies(c, lines)
    ensures |lines[i]| < MAX_LINE && lines[i] != "" && c.unmarshal(lines[i]).Some? ==>
              var e := c.unmarshal(lines[i]).value;
              if Link(c, |entries|, Head(entries), e) == None
              then Verifies(c, lines[..i + 1]) && Decode(c, lines[..i + 1]) == Some(entries + [e])
              else !Verifies(c, lines)
  {
    assert lines[..i + 1][..i] == lines[..i];
    if lines[i] != "" && c.unmarshal(lines[i]).Some? { ChainAppend(c, entries, c.unmarshal(lines[i]).value); }
    if !Verifies(c, lines[..i + 1]) { Refused(c, lines, i); }
  }

  /** A prefix that does not verify is enough to refuse the file. */
  lemma Refused(c: Codec, lines: seq<string>, i: nat)
    requires i < |lines| && !Verifies(c, lines[..i + 1])
    ensures !Verifies(c, lines)
  {
    if Verifies(c, lines) { VerifiesPrefix(c, lines, i + 1); }
  }

  // ----- The log -------------------------------------------------------------

  /** A file: its lines, and what follows the last line break. */
  datatype File = File(lines: seq<string>, tail: string)

  /** The lines a reader sees: an unfinished last line is one too. */
  function Scanned(f: File): seq<string> { if f.tail == "" then f.lines else f.lines + [f.tail] }

  /** A file after the first bytes of a line and its line break were appended. */
  function Write(f: File, line: string, bytes: nat): File {
    if bytes > |line| then File(f.lines + [f.tail + line], "") else File(f.lines, f.tail + line[..bytes])
  }

  /** A log on a file: what it holds, and the head the log continues from. */
  datatype State = State(file: File, number: nat, last: string)

  const EMPTY := State(File([], ""), 0, GENESIS)

  function Appended(c: Codec, s: State, e: Entry): State {
    State(Write(s.file, c.marshal(e), |c.marshal(e)| + 1), e.body.number, e.hash)
  }

  /** A write that failed after some bytes: the log does not count the entry. */
  function Interrupted(c: Codec, s: State, e: Entry, bytes: nat): State {
    s.(file := Write(s.file, c.marshal(e), bytes))
  }

  class Log {
    const c: Codec
    var file: File
    var number: nat
    var last: string

    function Value(): State
      reads this
    {
      State(file, number, last)
    }

    constructor (c: Codec)
      ensures this.c == c && Value() == EMPTY
    {
      this.c, file, number, last := c, File([], ""), 0, GENESIS;
    }

    /** Continues the chain of a file from its last entry. */
    constructor Continue(c: Codec, file: File, head: Option<Entry>)
      ensures this.c == c
      ensures Value() == if head.None? then State(file, 0, GENESIS) else State(file, head.value.body.number, head.value.hash)
    {
      this.c, this.file := c, file;
      number, last := 0, GENESIS;
      if head.Some? { number, last := head.value.body.number, head.value.hash; }
    }

    /** Appends an entry.  A write may fail after any number of bytes (`failed`). */
    method Record(now: int, actor: string, action: string, data: string, failed: Option<nat>) returns (e: Option<Entry>)
      modifies this
      ensures var next := Next(c, old(number), old(last), now, actor, action, data);
        match failed
        case None => e == Some(next) && Value() == Appended(c, old(Value()), next)
        case Some(bytes) => e == None && Value() == Interrupted(c, old(Value()), next, bytes)
      ensures e.Some? ==> Seals(c, e.value, old(number), old(last), now, actor, action, data)
    {
      NextSeals(c, number, last, now, actor, action, data);
      var next := Next(c, number, last, now, actor, action, data);
      var line := c.marshal(next);
      file := Write(file, line, if failed.Some? then failed.value else |line| + 1);
      if failed.Some? { return None; }
      number, last := next.body.number, next.hash;
      return Some(next);
    }
  }

  /** Verifies a file and continues its chain; a tampered log is refused. */
  method OpenFile(c: Codec, file: File) returns (log: Option<Log>)
    ensures log.Some? <==> Verifies(c, Scanned(file))
    ensures log.Some? ==> fresh(log.value) && log.value.c == c && log.value.Value() == Opened(c, file)
  {
    var head, fault := Verify(c, Scanned(file));
    if fault.Some? { return None; }
    var l := new Log.Continue(c, file, head);
    HeadNumber(c, Decode(c, Scanned(file)).value);
    return Some(l);
  }

  /** What opening a file that verifies gives. */
  function Opened(c: Codec, file: File): State
    requires Decode(c, Scanned(file)).Some?
  {
    var entries := Decode(c, Scanned(file)).value;
    State(file, |entries|, Head(entries))
  }

  lemma HeadNumber(c: Codec, entries: seq<Entry>)
    requires Chain(c, entries)
    ensures entries != [] ==> entries[|entries| - 1].body.number == |entries|
  {
    if entries != [] { assert Linked(c, entries, |entries| - 1); }
  }

  // ----- Tampering -----------------------------------------------------------

  lemma ChainLast(c: Codec, entries: seq<Entry>)
    requires Chain(c, entries) && entries != []
    ensures var n := |entries| - 1; Chain(c, entries[..n]) && Link(c, n, Head(entries[..n]), entries[n]) == None
    ensures entries == entries[..|entries| - 1] + [entries[|entries| - 1]]
  {
    ChainPrefix(c, entries, |entries| - 1);
    assert Linked(c, entries, |entries| - 1);
  }

  /** Two non-empty chains with the same head hash hold the same entries. */
  lemma {:induction false} SameHeadSameLog(c: Codec, a: seq<Entry>, b: seq<Entry>)
    requires Lawful(c) && Chain(c, a) && Chain(c, b) && a != [] && b != [] && Head(a) == Head(b)
    ensures a == b
    decreases |a|
  {
    hide Chain;
    ChainLast(c, a);
    ChainLast(c, b);
    assert c.hash(a[|a| - 1].body) == c.hash(b[|b| - 1].body);
    assert |a| == |b|;
    if |a| > 1 { SameHeadSameLog(c, a[..|a| - 1], b[..|b| - 1]); } else { assert a[..0] == b[..0]; }
  }

  /** Deleting an entry breaks the chain, unless it is the last one. */
  lemma DeletionDetected(c: Codec, entries: seq<Entry>, i: nat)
    requires Chain(c, entries) && i < |entries|
    ensures Chain(c, entries[..i] + entries[i + 1..]) <==> i == |entries| - 1
  {
    var fewer := entries[..i] + entries[i + 1..];
    if i < |entries| - 1 {
      assert fewer[i] == entries[i + 1];
      assert Linked(c, entries, i + 1);
      assert !Linked(c, fewer, i);
    } else {
      assert fewer == entries[..i];
      ChainPrefix(c, entries, i);
    }
  }

  /** Replacing an entry breaks the chain, unless it is the last one and the new one is sealed in its place. */
  lemma EditDetected(c: Codec, entries: seq<Entry>, i: nat, e: Entry)
    requires Lawful(c) && Chain(c, entries) && i < |entries| && e != entries[i]
    ensures Chain(c, entries[i := e]) <==> i == |entries| - 1 && Link(c, i, Prev(entries, i), e) == None
  {
    var edited := entries[i := e];
    assert Linked(c, entries, i);
    assert Prev(edited, i) == Prev(entries, i);
    if i < |entries| - 1 {
      assert Linked(c, entries, i + 1);
      assert c.hash(e.body) == c.hash(entries[i].body) ==> e.body == entries[i].body;
      assert !Linked(c, edited, i) || !Linked(c, edited, i + 1);
    } else {
      assert Linked(c, edited, i) <==> Link(c, i, Prev(entries, i), e) == None;
      forall k | 0 <= k < i ensures Linked(c, edited, k) {
        assert Linked(c, entries, k);
      }
    }
  }
}

/** A hash and an encoding that meet the laws the audit log relies on. */
module AuditCodec {
  import opened Prelude
  import opened Audit

  // ----- An encoding whose brace stands at its start alone ---------------------

  /** A number, and what ends it. */
  function Number(n: nat): string { if n == 0 then "x" else "o" + Number(n - 1) }

  function Chars(s: string): string { if s == "" then "" else Number(s[0] as int) + Chars(s[1..]) }

  function Text(s: string): string { Number(|s|) + Chars(s) }

  function Time(t: int): string { if t >= 0 then Number(2 * t) else Number(-2 * t - 1) }

  function BodyText(b: Body): string {
    Number(b.number) + (Time(b.time) + (Text(b.actor) + (Text(b.action) + (Text(b.data) + Text(b.prev)))))
  }

  function EntryText(e: Entry): string { "{" + (BodyText(e.body) + Text(e.hash)) }

  /** What follows an encoding does not blur it. */
  lemma {:induction false} NumberUnique(m: nat, n: nat, r: string, t: string)
    requires Number(m) + r == Number(n) + t
    ensures m == n && r == t
  {
    if m == 0 || n == 0 {
      assert (Number(m) + r)[0] == (Number(n) + t)[0];
      assert r == (Number(m) + r)[1..] && t == (Number(n) + t)[1..];
    } else {
      assert (Number(m) + r)[1..] == Number(m - 1) + r && (Number(n) + t)[1..] == Number(n - 1) + t;
      NumberUnique(m - 1, n - 1, r, t);
    }
  }

  lemma {:induction false} CharsUnique(a: string, b: string, r: string, t: string)
    requires |a| == |b| && Chars(a) + r == Chars(b) + t
    ensures a == b && r == t
  {
    if a != "" {
      Associates(Number(a[0] as int), Chars(a[1..]), r);
      Associates(Number(b[0] as int), Chars(b[1..]), t);
      NumberUnique(a[0] as int, b[0] as int, Chars(a[1..]) + r, Chars(b[1..]) + t);
      CharsUnique(a[1..], b[1..], r, t);
      assert a == [a[0]] + a[1..] && b == [b[0]] + b[1..];
    } else {
      assert Chars(a) + r == r && Chars(b) + t == t;
    }
  }

  lemma Associates(a: string, b: string, c: string)
    ensures (a + b) + c == a + (b + c)
  {
  }

  lemma TextUnique(a: string, b: string, r: string, t: string)
    requires Text(a) + r == Text(b) + t
    ensures a == b && r == t
  {
    Associates(Number(|a|), Chars(a), r);
    Associates(Number(|b|), Chars(b), t);
    NumberUnique(|a|, |b|, Chars(a) + r, Chars(b) + t);
    CharsUnique(a, b, r, t);
  }

  lemma TimeUnique(a: int, b: int, r: string, t: string)
    requires Time(a) + r == Time(b) + t
    ensures a == b && r == t
  {
    NumberUnique(if a >= 0 then 2 * a else -2 * a - 1, if b >= 0 then 2 * b else -2 * b - 1, r, t);
  }

  lemma BodyUnique(a: Body, b: Body, r: string, t: string)
    requires BodyText(a) + r == BodyText(b) + t
    ensures a == b && r == t
  {
    hide Number, Time, Text;
    BodyTail(a, r);
    BodyTail(b, t);
    NumberUnique(a.number, b.number, Time(a.time) + Texts(a, r), Time(b.time) + Texts(b, t));
    TimeUnique(a.time, b.time, Texts(a, r), Texts(b, t));
    TextUnique(a.actor, b.actor, Text(a.action) + (Text(a.data) + (Text(a.prev) + r)), Text(b.action) + (Text(b.data) + (Text(b.prev) + t)));
    TextUnique(a.action, b.action, Text(a.data) + (Text(a.prev) + r), Text(b.data) + (Text(b.prev) + t));
    TextUnique(a.data, b.data, Text(a.prev) + r, Text(b.prev) + t);
    TextUnique(a.prev, b.prev, r, t);
  }

  function Texts(b: Body, r: string): string { Text(b.actor) + (Text(b.action) + (Text(b.data) + (Text(b.prev) + r))) }

  lemma BodyTail(b: Body, r: string)
    ensures BodyText(b) + r == Number(b.number) + (Time(b.time) + Texts(b, r))
  {
    hide Number, Time, Text;
    Associates(Text(b.data), Text(b.prev), r);
    Associates(Text(b.action), Text(b.data) + Text(b.prev), r);
    Associates(Text(b.actor), Text(b.action) + (Text(b.data) + Text(b.prev)), r);
    Associates(Time(b.time), Text(b.actor) + (Text(b.action) + (Text(b.data) + Text(b.prev))), r);
    Associates(Number(b.number), Time(b.time) + (Text(b.actor) + (Text(b.action) + (Text(b.data) + Text(b.prev)))), r);
  }

  lemma EntryUnique(a: Entry, b: Entry, r: string, t: string)
    requires EntryText(a) + r == EntryText(b) + t
    ensures a == b && r == t
  {
    hide BodyText, Text;
    var x, y := BodyText(a.body) + (Text(a.hash) + r), BodyText(b.body) + (Text(b.hash) + t);
    assert (EntryText(a) + r)[1..] == x && (EntryText(b) + t)[1..] == y;
    BodyUnique(a.body, b.body, Text(a.hash) + r, Text(b.hash) + t);
    TextUnique(a.hash, b.hash, r, t);
  }

  // ----- One brace -----------------------------------------------------------

  ghost predicate NoBrace(s: string) { '{' !in s }

  lemma {:induction false} NumberNoBrace(n: nat)
    ensures NoBrace(Number(n))
  {
    if n > 0 { NumberNoBrace(n - 1); }
  }

  lemma {:induction false} CharsNoBrace(s: string)
    ensures NoBrace(Chars(s))
  {
    if s != "" {
      NumberNoBrace(s[0] as int);
      CharsNoBrace(s[1..]);
    }
  }

  lemma TextNoBrace(s: string)
    ensures NoBrace(Text(s))
  {
    NumberNoBrace(|s|);
    CharsNoBrace(s);
    hide Number, Chars;
  }

  lemma EntryOneBrace(e: Entry)
    ensures EntryText(e)[0] == '{' && forall i :: 0 < i < |EntryText(e)| ==> EntryText(e)[i] != '{'
  {
    NumberNoBrace(e.body.number);
    NumberNoBrace(if e.body.time >= 0 then 2 * e.body.time else -2 * e.body.time - 1);
    TextNoBrace(e.body.actor);
    TextNoBrace(e.body.action);
    TextNoBrace(e.body.data);
    TextNoBrace(e.body.prev);
    TextNoBrace(e.hash);
    hide Number, Text;
    var rest := BodyText(e.body) + Text(e.hash);
    assert NoBrace(rest);
    assert EntryText(e) == "{" + rest;
    assert forall i :: 0 < i < |EntryText(e)| ==> EntryText(e)[i] == rest[i - 1] && rest[i - 1] in rest;
  }

  // ----- The codec -----------------------------------------------------------

  ghost function EntryOf(line: string): Option<Entry> {
    if exists e :: EntryText(e) == line then var e :| EntryText(e) == line; Some(e) else None
  }

  ghost function Plain(): Codec { Codec((b: Body) => BodyText(b), (e: Entry) => EntryText(e), EntryOf) }

  lemma EntryRead(e: Entry)
    ensures EntryOf(EntryText(e)) == Some(e)
  {
    forall x | EntryText(x) == EntryText(e) ensures x == e { EntryUnique(x, e, "", ""); }
    hide EntryText;
  }

  lemma PartUnread(e: Entry, p: string)
    requires p != "" && p < EntryText(e)
    ensures EntryOf(p) == None
  {
    var rest := EntryText(e)[|p|..];
    forall x ensures EntryText(x) != p {
      if EntryText(x) == p {
        assert EntryText(x) + rest == EntryText(e) + "";
        EntryUnique(x, e, rest, "");
      }
    }
    hide EntryText;
  }

  lemma PieceStarts(p: string)
    requires IsPiece(Plain(), p)
    ensures p[0] == '{'
  {
    var e :| p <= Plain().marshal(e);
    EntryOneBrace(e);
    assert p[0] == EntryText(e)[0];
  }

  lemma SeveralUnread(ps: seq<string>)
    requires |ps| >= 2 && AllPieces(Plain(), ps)
    ensures EntryOf(Joined(ps)) == None
  {
    var before, last := ps[..|ps| - 1], ps[|ps| - 1];
    var at := |Joined(before)|;
    assert IsPiece(Plain(), last) && IsPiece(Plain(), before[|before| - 1]);
    PieceStarts(last);
    assert at > 0 && Joined(ps)[at] == '{';
    forall e ensures EntryText(e) != Joined(ps) { EntryOneBrace(e); }
    hide EntryText;
  }

  /** The laws can be met: some hash is injective, and some encoding is never mistaken for another, whole, in part or joined. */
  lemma PlainIsLawful()
    ensures Lawful(Plain())
  {
    forall a, b | Plain().hash(a) == Plain().hash(b) ensures a == b { BodyUnique(a, b, "", ""); }
    forall e ensures Plain().marshal(e) != "" && Plain().unmarshal(Plain().marshal(e)) == Some(e) { EntryRead(e); }
    forall e, p | p != "" && p < Plain().marshal(e) ensures Plain().unmarshal(p) == None { PartUnread(e, p); }
    forall ps | |ps| >= 2 && AllPieces(Plain(), ps) ensures Plain().unmarshal(Joined(ps)) == None { SeveralUnread(ps); }
    hide EntryText, BodyText, AllPieces, Joined;
  }
}

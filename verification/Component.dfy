/**
 * The container parser that finds the core modules of a plugin: a module
 * itself, or the sections with ID 1 of a component (WebAssembly Core
 * Specification, sections 5.2.2 and 5.5.2: LEB128 integers and sections).
 */
module Component {
  import opened Prelude

  type Bytes = seq<byte>

  const CORE_HEADER: Bytes := [0, 0x61, 0x73, 0x6d, 1, 0, 0, 0]
  const MAGIC: Bytes := [0, 0x61, 0x73, 0x6d]
  const LAYER_1: Bytes := [1, 0]
  const MAX_VARINT_LEN := 10
  const TWO_64 := 0x1_0000_0000_0000_0000

  datatype Fault = NotWasm | Malformed | NestedComponent | NoModule

  /** One section: its ID, the bytes of its size, its body. */
  datatype Section = Section(id: byte, size: Bytes, body: Bytes)

  // ----- LEB128 --------------------------------------------------------------

  /** The unsigned LEB128 integer a byte string begins with, and its length. */
  function Leb(b: Bytes): Option<(nat, nat)> {
    if b == [] then None
    else if b[0] < 128 then Some((b[0] as nat, 1))
    else
      match Leb(b[1..])
      case None => None
      case Some((v, n)) => Some((b[0] as nat - 128 + 128 * v, n + 1))
  }

  /** Fits the host's 64-bit reader. */
  predicate Fits(r: Option<(nat, nat)>) {
    r.Some? && r.value.0 < TWO_64 && r.value.1 <= MAX_VARINT_LEN
  }

  function Pow128(n: nat): nat { if n == 0 then 1 else 128 * Pow128(n - 1) }

  function Plus(x: nat, scale: nat, c: nat): nat { x + scale * c }

  /** What the value of a longer string is in terms of its tail. */
  function Join(x: nat, scale: nat, i: nat, tail: Option<(nat, nat)>): Option<(nat, nat)> {
    if tail.None? then None else Some((Plus(x, scale, tail.value.0), i + tail.value.1))
  }

  /** binary.Uvarint: the value and how many bytes it takes; n <= 0 when there is none or it is too large. */
  method Uvarint(b: Bytes) returns (value: nat, n: int)
    ensures n > 0 <==> Fits(Leb(b))
    ensures n > 0 ==> Leb(b) == Some((value, n as nat)) && n <= |b|
  {
    hide Leb, Join, Fits, Plus, Pow128;
    var x: nat, scale: nat := 0, 1;
    JoinStart(b);
    assert Pow128(0) == 1 by { PowersOf128(0); }
    for i := 0 to |b|
      invariant 0 <= i <= MAX_VARINT_LEN
      invariant x < scale == Pow128(i)
      invariant Leb(b) == Join(x, scale, i, Leb(b[i..]))
    {
      LebStep(b, i);
      if i == MAX_VARINT_LEN {
        TooLong(x, scale, b[i..]);
        return 0, -(i + 1);
      }
      var c := b[i] as nat;
      if c < 128 {
        LastByte(x, scale, i, c);
        if i == MAX_VARINT_LEN - 1 && c > 1 {
          return 0, -(i + 1);
        }
        return Plus(x, scale, c), i + 1;
      }
      PowersOf128(i);
      ScaleTail(x, scale, c, Leb(b[i + 1..]), i);
      x, scale := Plus(x, scale, c - 128), 128 * scale;
    }
    LebStep(b, |b|);
    NothingFits(x, scale, |b|);
    return 0, 0;
  }

  lemma JoinStart(b: Bytes)
    ensures Leb(b) == Join(0, 1, 0, Leb(b[0..]))
  {
    assert b[0..] == b;
  }

  lemma TooLong(x: nat, scale: nat, b: Bytes)
    ensures !Fits(Join(x, scale, MAX_VARINT_LEN, Leb(b)))
  {
    LebBounds(b);
  }

  lemma NothingFits(x: nat, scale: nat, i: nat)
    ensures !Fits(Join(x, scale, i, None))
  {
  }

  lemma LebStep(b: Bytes, i: nat)
    requires i <= |b|
    ensures i == |b| ==> Leb(b[i..]) == None
    ensures i < |b| ==>
      Leb(b[i..]) == if b[i] < 128 then Some((b[i] as nat, 1)) else Join(b[i] as nat - 128, 128, 1, Leb(b[i + 1..]))
  {
    if i < |b| { assert b[i..][1..] == b[i + 1..]; }
  }

  /** Which last byte keeps the value below 2^64: any before the tenth, 0 or 1 there. */
  lemma LastByte(x: nat, scale: nat, i: nat, c: nat)
    requires i < MAX_VARINT_LEN && x < scale == Pow128(i) && c < 128
    ensures Join(x, scale, i, Some((c, 1))) == Some((Plus(x, scale, c), i + 1))
    ensures Fits(Join(x, scale, i, Some((c, 1)))) <==> i < MAX_VARINT_LEN - 1 || c <= 1
  {
    ScaleAt(i);
    if i < MAX_VARINT_LEN - 1 {
      Times(scale, c, 127);
    } else if c > 1 {
      Times(scale, 2, c);
    }
  }

  lemma Times(scale: nat, a: nat, b: nat)
    requires a <= b
    ensures scale * a <= scale * b
  {
  }

  lemma ScaleTail(x: nat, scale: nat, c: nat, tail: Option<(nat, nat)>, i: nat)
    requires 128 <= c < 256 && x < scale
    ensures Plus(x, scale, c - 128) < 128 * scale
    ensures Join(x, scale, i, Join(c - 128, 128, 1, tail)) == Join(Plus(x, scale, c - 128), 128 * scale, i + 1, tail)
  {
    Times(scale, c - 128, 127);
    if tail.Some? {
      assert scale * (c - 128 + 128 * tail.value.0) == scale * (c - 128) + scale * 128 * tail.value.0;
    }
  }

  lemma PowersOf128(i: nat)
    ensures Pow128(0) == 1 && Pow128(i + 1) == 128 * Pow128(i)
  {
  }

  lemma ScaleAt(i: nat)
    requires i < MAX_VARINT_LEN
    ensures i == MAX_VARINT_LEN - 1 ==> Pow128(i) == 0x8000_0000_0000_0000
    ensures i < MAX_VARINT_LEN - 1 ==> Pow128(i) * 128 <= 0x8000_0000_0000_0000
  {
    assert Pow128(3) == 0x20_0000;
    assert Pow128(6) == 0x400_0000_0000;
    assert Pow128(9) == 0x8000_0000_0000_0000;
    if i == 7 || i == 8 { assert Pow128(7) == 128 * Pow128(6); }
    if i == 4 || i == 5 { assert Pow128(4) == 128 * Pow128(3); }
  }

  lemma {:induction false} LebBounds(b: Bytes)
    ensures Leb(b).Some? ==> 1 <= Leb(b).value.1 <= |b|
  {
    if b != [] && b[0] >= 128 { LebBounds(b[1..]); }
  }

  /** The integer depends only on its own bytes. */
  lemma {:induction false} LebPrefix(b: Bytes, more: Bytes)
    requires Leb(b).Some?
    ensures Leb(b).value.1 <= |b| && Leb(b[..Leb(b).value.1] + more) == Leb(b)
  {
    LebBounds(b);
    var n := Leb(b).value.1;
    if b[0] < 128 {
      assert (b[..1] + more)[0] == b[0];
    } else {
      LebPrefix(b[1..], more);
      assert (b[..n] + more)[1..] == b[1..][..n - 1] + more;
    }
  }

  /** The shortest encoding. */
  function Encode(v: nat): Bytes {
    if v < 128 then [v as byte] else [(v % 128 + 128) as byte] + Encode(v / 128)
  }

  lemma {:induction false} DecodeEncode(v: nat, more: Bytes)
    ensures Leb(Encode(v) + more) == Some((v, |Encode(v)|))
  {
    if v < 128 {
      assert (Encode(v) + more)[0] == v as byte;
    } else {
      DecodeEncode(v / 128, more);
      assert (Encode(v) + more)[1..] == Encode(v / 128) + more;
    }
  }

  lemma {:induction false} EncodeShort(v: nat, n: nat)
    requires n > 0 && v < Pow128(n)
    ensures |Encode(v)| <= n
    decreases n
  {
    if v >= 128 {
      assert n > 1;
      EncodeShort(v / 128, n - 1);
    }
  }

  lemma EncodeFits(v: nat)
    requires v < TWO_64
    ensures |Encode(v)| <= MAX_VARINT_LEN
  {
    ScaleAt(9);
    assert Pow128(10) == 128 * Pow128(9);
    EncodeShort(v, 10);
  }

  // ----- Sections ------------------------------------------------------------

  /** The size bytes are one LEB128 integer, the length of the body. */
  ghost predicate WellSized(sec: Section) {
    Leb(sec.size) == Some((|sec.body|, |sec.size|)) && Fits(Leb(sec.size))
  }

  function BytesOf(sec: Section): Bytes { [sec.id] + sec.size + sec.body }

  function Flatten(secs: seq<Section>): Bytes {
    if secs == [] then [] else BytesOf(secs[0]) + Flatten(secs[1..])
  }

  ghost predicate AllWellSized(secs: seq<Section>) {
    forall i :: 0 <= i < |secs| ==> WellSized(secs[i])
  }

  function ModuleOf(sec: Section): seq<Bytes> { if sec.id == 1 then [sec.body] else [] }

  /** The bodies of the sections with ID 1, in order. */
  function Modules(secs: seq<Section>): seq<Bytes> {
    if secs == [] then [] else ModuleOf(secs[0]) + Modules(secs[1..])
  }

  lemma {:induction false} FlattenAppend(secs: seq<Section>, sec: Section)
    ensures Flatten(secs + [sec]) == Flatten(secs) + BytesOf(sec)
  {
    hide BytesOf;
    if secs == [] {
      assert secs + [sec] == [sec] && [sec][1..] == [];
      assert Flatten([sec]) == BytesOf(sec) + Flatten([]);
    } else {
      FlattenAppend(secs[1..], sec);
      var more := secs + [sec];
      assert more[0] == secs[0] && more[1..] == secs[1..] + [sec];
      assert Flatten(more) == BytesOf(secs[0]) + (Flatten(secs[1..]) + BytesOf(sec));
    }
  }

  lemma {:induction false} ModulesAppend(secs: seq<Section>, sec: Section)
    ensures Modules(secs + [sec]) == Modules(secs) + ModuleOf(sec)
  {
    hide ModuleOf;
    if secs == [] {
      assert secs + [sec] == [sec] && [sec][1..] == [];
      assert Modules([sec]) == ModuleOf(sec) + Modules([]);
    } else {
      ModulesAppend(secs[1..], sec);
      var more := secs + [sec];
      assert more[0] == secs[0] && more[1..] == secs[1..] + [sec];
      assert Modules(more) == ModuleOf(secs[0]) + (Modules(secs[1..]) + ModuleOf(sec));
    }
  }

  /** The section a byte string begins with. */
  ghost predicate Begins(rest: Bytes, sec: Section, more: Bytes) {
    WellSized(sec) && rest == BytesOf(sec) + more
  }

  lemma BeginsLeb(rest: Bytes, sec: Section, more: Bytes)
    requires Begins(rest, sec, more)
    ensures rest[0] == sec.id && Leb(rest[1..]) == Leb(sec.size)
    ensures sec.size == rest[1..1 + |sec.size|] && sec.body == rest[1 + |sec.size|..1 + |sec.size| + |sec.body|]
    ensures more == rest[1 + |sec.size| + |sec.body|..]
  {
    LebPrefix(sec.size, sec.body + more);
    assert sec.size[..|sec.size|] == sec.size;
    assert rest[1..] == sec.size + (sec.body + more);
  }

  lemma BeginsUnique(rest: Bytes, a: Section, x: Bytes, b: Section, y: Bytes)
    requires Begins(rest, a, x) && Begins(rest, b, y)
    ensures a == b && x == y
  {
    BeginsLeb(rest, a, x);
    BeginsLeb(rest, b, y);
  }

  // ----- The parser ----------------------------------------------------------

  predicate IsModule(b: Bytes) { CORE_HEADER <= b }

  predicate IsComponent(b: Bytes) { !IsModule(b) && |b| >= 8 && b[..4] == MAGIC && b[6..8] == LAYER_1 }

  /** Sections without a nested component that tile the bytes. */
  ghost predicate Tiles(rest: Bytes, secs: seq<Section>) {
    AllWellSized(secs) && Flatten(secs) == rest && forall i :: 0 <= i < |secs| ==> secs[i].id != 4
  }

  /** Sections that lead up to a nested component. */
  ghost predicate Nests(rest: Bytes, secs: seq<Section>, nested: Section, more: Bytes) {
    && AllWellSized(secs) && (forall i :: 0 <= i < |secs| ==> secs[i].id != 4)
    && nested.id == 4 && WellSized(nested) && rest == Flatten(secs) + BytesOf(nested) + more
  }

  ghost predicate Nested(rest: Bytes) {
    exists secs, nested, more :: Nests(rest, secs, nested, more)
  }

  /** What a list of sections amounts to. */
  function Outcome(secs: seq<Section>): Result<seq<Bytes>, Fault> { Checked(Modules(secs)) }

  function Checked(ms: seq<Bytes>): Result<seq<Bytes>, Fault> {
    if exists i :: 0 <= i < |ms| && !IsModule(ms[i]) then Err(Malformed)
    else if ms == [] then Err(NoModule)
    else Ok(ms)
  }

  /** What the parser answers on every byte string. */
  ghost predicate Parsed(b: Bytes, r: Result<seq<Bytes>, Fault>) {
    if IsModule(b) then r == Ok([b])
    else if !IsComponent(b) then r == Err(NotWasm)
    else if exists secs :: Tiles(b[8..], secs) then
      exists secs :: Tiles(b[8..], secs) && r == Outcome(secs)
    else if Nested(b[8..]) then r == Err(NestedComponent)
    else r == Err(Malformed)
  }

  method CoreModules(b: Bytes) returns (r: Result<seq<Bytes>, Fault>)
    ensures Parsed(b, r)
  {
    if CORE_HEADER <= b { return Ok([b]); }
    if |b| < 8 || b[..4] != MAGIC || b[6..8] != LAYER_1 { return Err(NotWasm); }
    hide Parsed, Flatten, Leb, Modules, BytesOf, Nested, WellSized, Tiles, Checked, Begins, Fits;
    var modules: seq<Bytes> := [];
    var rest := b[8..];
    ghost var secs: seq<Section> := [];
    NoSections(rest);
    while |rest| > 0
      invariant AllWellSized(secs) && (forall i :: 0 <= i < |secs| ==> secs[i].id != 4)
      invariant b[8..] == Flatten(secs) + rest
      invariant modules == Modules(secs)
      decreases |rest|
    {
      var id := rest[0];
      var size, n := Uvarint(rest[1..]);
      if n <= 0 || |rest| - 1 - n < size {
        NoSection(rest);
        StuckTiles(b, secs, rest);
        return Err(Malformed);
      }
      var body := rest[1 + n..1 + n + size];
      ghost var sec, before := Section(id, rest[1..1 + n], body), rest;
      SectionHere(rest, sec);
      rest := rest[1 + n + size..];
      if id == 1 { modules := modules + [body]; } else { assert modules + [] == modules; }
      if id == 4 {
        NestsHere(b, secs, sec, rest, before);
        return Err(NestedComponent);
      }
      OneMore(b[8..], secs, before, sec, rest);
      secs := secs + [sec];
    }
    Whole(b, secs, rest);
    r := CheckModules(modules);
  }

  method CheckModules(modules: seq<Bytes>) returns (r: Result<seq<Bytes>, Fault>)
    ensures r == Checked(modules)
  {
    for i := 0 to |modules|
      invariant forall k :: 0 <= k < i ==> IsModule(modules[k])
    {
      if !(CORE_HEADER <= modules[i]) { return Err(Malformed); }
    }
    if |modules| == 0 { return Err(NoModule); }
    return Ok(modules);
  }

  lemma NoSections(rest: Bytes)
    ensures rest == Flatten([]) + rest && Modules([]) == []
  {
  }

  lemma OneMore(whole: Bytes, secs: seq<Section>, before: Bytes, sec: Section, rest: Bytes)
    requires AllWellSized(secs) && whole == Flatten(secs) + before && Begins(before, sec, rest)
    ensures AllWellSized(secs + [sec]) && whole == Flatten(secs + [sec]) + rest
    ensures Modules(secs + [sec]) == Modules(secs) + ModuleOf(sec)
  {
    FlattenAppend(secs, sec);
    ModulesAppend(secs, sec);
    hide Flatten, BytesOf, Leb, Modules;
    assert Flatten(secs) + (BytesOf(sec) + rest) == (Flatten(secs) + BytesOf(sec)) + rest;
  }

  lemma Whole(b: Bytes, secs: seq<Section>, rest: Bytes)
    requires IsComponent(b) && AllWellSized(secs) && (forall i :: 0 <= i < |secs| ==> secs[i].id != 4)
    requires b[8..] == Flatten(secs) + rest && rest == []
    ensures Parsed(b, Outcome(secs))
  {
    assert Flatten(secs) + [] == Flatten(secs);
    assert Tiles(b[8..], secs);
  }

  /** Where the size is missing, too large or longer than what is left, no section begins. */
  lemma NoSection(rest: Bytes)
    requires rest != []
    requires !Fits(Leb(rest[1..])) || |rest| - 1 - Leb(rest[1..]).value.1 < Leb(rest[1..]).value.0
    ensures forall sec, more :: !Begins(rest, sec, more)
  {
    forall sec, more | Begins(rest, sec, more) ensures false {
      BeginsLeb(rest, sec, more);
    }
  }

  lemma SectionHere(rest: Bytes, sec: Section)
    requires rest != [] && Fits(Leb(rest[1..]))
    requires var (v, n) := Leb(rest[1..]).value; 1 + n + v <= |rest| && sec == Section(rest[0], rest[1..1 + n], rest[1 + n..1 + n + v])
    ensures Begins(rest, sec, rest[1 + |sec.size| + |sec.body|..])
  {
    LebPrefix(rest[1..], []);
    var (v, n) := Leb(rest[1..]).value;
    assert rest[1..][..n] + [] == sec.size;
  }

  /** All ways to read the bytes agree: a tiling of the whole goes through every section read so far. */
  lemma {:induction false} TilesThrough(whole: Bytes, tiling: seq<Section>, secs: seq<Section>, rest: Bytes)
    requires AllWellSized(tiling) && Flatten(tiling) == whole
    requires AllWellSized(secs) && whole == Flatten(secs) + rest
    ensures |secs| <= |tiling| && tiling[..|secs|] == secs && Flatten(tiling[|secs|..]) == rest
    decreases |secs|
  {
    if secs == [] {
      assert Flatten(secs) + rest == rest && tiling[0..] == tiling;
    } else {
      var more := Flatten(secs[1..]) + rest;
      FlattenBegins(whole, secs, rest);
      assert tiling != [];
      BeginsUnique(whole, secs[0], more, tiling[0], Flatten(tiling[1..]));
      TilesThrough(more, tiling[1..], secs[1..], rest);
      assert tiling == [tiling[0]] + tiling[1..] && secs == [secs[0]] + secs[1..];
      assert tiling[1..][|secs| - 1..] == tiling[|secs|..];
    }
  }

  lemma TilingBegins(whole: Bytes, tiling: seq<Section>, secs: seq<Section>, rest: Bytes)
    requires Tiles(whole, tiling) && AllWellSized(secs) && whole == Flatten(secs) + rest && rest != []
    ensures exists sec, more :: Begins(rest, sec, more) && sec.id != 4
  {
    TilesThrough(whole, tiling, secs, rest);
    var left := tiling[|secs|..];
    assert left[0] == tiling[|secs|];
    assert Begins(rest, left[0], Flatten(left[1..]));
  }

  lemma StuckTiles(b: Bytes, secs: seq<Section>, rest: Bytes)
    requires IsComponent(b)
    requires AllWellSized(secs) && b[8..] == Flatten(secs) + rest && rest != []
    requires forall i :: 0 <= i < |secs| ==> secs[i].id != 4
    requires forall sec, more :: !Begins(rest, sec, more)
    ensures Parsed(b, Err(Malformed))
  {
    hide Tiles, Nests, Begins;
    forall tiling ensures !Tiles(b[8..], tiling) {
      if Tiles(b[8..], tiling) { TilingBegins(b[8..], tiling, secs, rest); }
    }
    forall ss, nested, more ensures !Nests(b[8..], ss, nested, more) {
      if Nests(b[8..], ss, nested, more) { NestsThrough(b[8..], ss, nested, more, secs, rest); }
    }
  }

  /** A nested component seen from sections read so far: either still ahead, or already read. */
  lemma {:induction false} NestsThrough(whole: Bytes, ss: seq<Section>, nested: Section, more: Bytes, secs: seq<Section>, rest: Bytes)
    requires Nests(whole, ss, nested, more) && AllWellSized(secs) && whole == Flatten(secs) + rest
    requires forall i :: 0 <= i < |secs| ==> secs[i].id != 4
    ensures exists sec, y :: Begins(rest, sec, y)
    decreases |secs|
  {
    NestsBegin(whole, ss, nested, more);
    var head := if ss == [] then nested else ss[0];
    var tail := if ss == [] then more else Flatten(ss[1..]) + BytesOf(nested) + more;
    if secs == [] {
      assert Flatten(secs) + rest == rest;
      hide Begins, Nests;
    } else {
      FlattenBegins(whole, secs, rest);
      hide Begins, Nests, Flatten, BytesOf, Leb, WellSized;
      BeginsUnique(whole, secs[0], Flatten(secs[1..]) + rest, head, tail);
      assert ss != [];
      NestsThrough(tail, ss[1..], nested, more, secs[1..], rest);
    }
  }

  /** The first section, and what follows it. */
  lemma NestsBegin(whole: Bytes, ss: seq<Section>, nested: Section, more: Bytes)
    requires Nests(whole, ss, nested, more)
    ensures ss == [] ==> Begins(whole, nested, more)
    ensures ss != [] ==>
      var tail := Flatten(ss[1..]) + BytesOf(nested) + more;
      Begins(whole, ss[0], tail) && Nests(tail, ss[1..], nested, more) && ss[0].id != 4
  {
    hide BytesOf, Leb;
    if ss == [] {
      assert Flatten(ss) + BytesOf(nested) + more == BytesOf(nested) + more;
    } else {
      Associates(BytesOf(ss[0]), Flatten(ss[1..]), BytesOf(nested));
      Associates(BytesOf(ss[0]), Flatten(ss[1..]) + BytesOf(nested), more);
    }
  }

  lemma FlattenBegins(whole: Bytes, secs: seq<Section>, rest: Bytes)
    requires AllWellSized(secs) && secs != [] && whole == Flatten(secs) + rest
    ensures Begins(whole, secs[0], Flatten(secs[1..]) + rest) && AllWellSized(secs[1..])
  {
    hide BytesOf, Leb;
    Associates(BytesOf(secs[0]), Flatten(secs[1..]), rest);
  }

  lemma Associates(a: Bytes, b: Bytes, c: Bytes)
    ensures (a + b) + c == a + (b + c)
  {
  }

  lemma NestsHere(b: Bytes, secs: seq<Section>, nested: Section, more: Bytes, rest: Bytes)
    requires IsComponent(b)
    requires AllWellSized(secs) && (forall i :: 0 <= i < |secs| ==> secs[i].id != 4) && nested.id == 4
    requires b[8..] == Flatten(secs) + rest && Begins(rest, nested, more)
    ensures Parsed(b, Err(NestedComponent))
  {
    NestedFound(b[8..], secs, nested, more, rest);
    hide Flatten, Begins, AllWellSized, Tiles, Nested;
    forall tiling ensures !Tiles(b[8..], tiling) {
      NeverTiles(b[8..], tiling, secs, nested, more, rest);
    }
  }

  lemma NestedFound(whole: Bytes, secs: seq<Section>, nested: Section, more: Bytes, rest: Bytes)
    requires AllWellSized(secs) && (forall i :: 0 <= i < |secs| ==> secs[i].id != 4) && nested.id == 4
    requires whole == Flatten(secs) + rest && Begins(rest, nested, more)
    ensures Nested(whole)
  {
    hide Flatten, BytesOf, Leb, AllWellSized;
    assert whole == Flatten(secs) + BytesOf(nested) + more;
    assert Nests(whole, secs, nested, more);
  }

  /** No sections without a nested component tile bytes in which one was found. */
  lemma NeverTiles(whole: Bytes, tiling: seq<Section>, secs: seq<Section>, nested: Section, more: Bytes, rest: Bytes)
    requires AllWellSized(secs) && nested.id == 4
    requires whole == Flatten(secs) + rest && Begins(rest, nested, more)
    ensures !Tiles(whole, tiling)
  {
    assert rest != [];
    hide Flatten, Begins, AllWellSized, Tiles;
    if Tiles(whole, tiling) {
      TilingBegins(whole, tiling, secs, rest);
      var sec, y :| Begins(rest, sec, y) && sec.id != 4;
      BeginsUnique(rest, nested, more, sec, y);
    }
  }

  // ----- What the parser promises --------------------------------------------

  /** The sections of a component are determined by its bytes. */
  lemma TilingUnique(rest: Bytes, a: seq<Section>, b: seq<Section>)
    requires Tiles(rest, a) && Tiles(rest, b)
    ensures a == b
  {
    assert rest == Flatten(b) + [] && rest == Flatten(a) + [];
    TilesThrough(rest, a, b, []);
    TilesThrough(rest, b, a, []);
  }

  /** A section as an encoder writes it. */
  function Encoded(id: byte, body: Bytes): Section { Section(id, Encode(|body|), body) }

  function EncodeAll(parts: seq<(byte, Bytes)>): seq<Section> {
    seq(|parts|, i requires 0 <= i < |parts| => Encoded(parts[i].0, parts[i].1))
  }

  /** How many of the first n parts have ID 1. */
  ghost function Ones(parts: seq<(byte, Bytes)>, n: nat): nat
    requires n <= |parts|
  {
    if n == 0 then 0 else Ones(parts, n - 1) + if parts[n - 1].0 == 1 then 1 else 0
  }

  /** The body of a part with ID 1 stands where the ones before it leave it. */
  lemma {:induction false} ModulesUpTo(parts: seq<(byte, Bytes)>, n: nat)
    requires n <= |parts|
    ensures |Modules(EncodeAll(parts[..n]))| == Ones(parts, n)
    ensures forall i :: 0 <= i < n && parts[i].0 == 1 ==>
      Ones(parts, i) < Ones(parts, n) && Modules(EncodeAll(parts[..n]))[Ones(parts, i)] == parts[i].1
  {
    if n > 0 {
      ModulesUpTo(parts, n - 1);
      NextModules(parts, n);
      hide Modules, Encoded, EncodeAll;
    }
  }

  lemma NextModules(parts: seq<(byte, Bytes)>, n: nat)
    requires 0 < n <= |parts|
    ensures Modules(EncodeAll(parts[..n])) == Modules(EncodeAll(parts[..n - 1])) + if parts[n - 1].0 == 1 then [parts[n - 1].1] else []
  {
    var last := Encoded(parts[n - 1].0, parts[n - 1].1);
    assert EncodeAll(parts[..n]) == EncodeAll(parts[..n - 1]) + [last];
    hide EncodeAll, Modules;
    ModulesAppend(EncodeAll(parts[..n - 1]), last);
  }

  /** Every module found is the body of a part. */
  lemma {:induction false} FromPart(parts: seq<(byte, Bytes)>, n: nat, k: nat) returns (i: nat)
    requires n <= |parts| && k < Ones(parts, n)
    ensures i < n && parts[i].0 == 1 && Ones(parts, i) == k
  {
    if k < Ones(parts, n - 1) { i := FromPart(parts, n - 1, k); } else { i := n - 1; }
  }

  ghost predicate IsPart(parts: seq<(byte, Bytes)>, body: Bytes) {
    exists i :: 0 <= i < |parts| && parts[i].0 == 1 && parts[i].1 == body
  }

  /** These are the bodies of the parts with ID 1, in order. */
  ghost predicate BodiesOf(parts: seq<(byte, Bytes)>, ms: seq<Bytes>) {
    && |ms| == Ones(parts, |parts|)
    && (forall i :: 0 <= i < |parts| && parts[i].0 == 1 ==> Ones(parts, i) < |ms| && ms[Ones(parts, i)] == parts[i].1)
  }

  /**
   * Encoding any sections and parsing the result gives back, in order, the
   * bodies of those with ID 1, when there is one and all of them are modules.
   */
  lemma RoundTrip(head: Bytes, parts: seq<(byte, Bytes)>, r: Result<seq<Bytes>, Fault>)
    requires |head| == 8 && IsComponent(head)
    requires forall i :: 0 <= i < |parts| ==> |parts[i].1| < TWO_64 && parts[i].0 != 4
    requires Parsed(head + Flatten(EncodeAll(parts)), r)
    ensures if exists m :: IsPart(parts, m) && !IsModule(m) then r == Err(Malformed)
            else if Ones(parts, |parts|) == 0 then r == Err(NoModule)
            else r.Ok? && BodiesOf(parts, r.value)
  {
    ParsedTiling(head, parts, r);
    BodiesFound(parts);
    hide Parsed, Flatten, Modules, EncodeAll, IsComponent, BodiesOf, Ones, Checked, IsPart;
    CheckedBodies(parts, Modules(EncodeAll(parts)));
  }

  lemma BodiesFound(parts: seq<(byte, Bytes)>)
    ensures BodiesOf(parts, Modules(EncodeAll(parts)))
  {
    ModulesUpTo(parts, |parts|);
    assert parts[..|parts|] == parts;
    hide Modules, EncodeAll;
  }

  /** The verdict on the bodies of the parts with ID 1. */
  lemma CheckedBodies(parts: seq<(byte, Bytes)>, ms: seq<Bytes>)
    requires BodiesOf(parts, ms)
    ensures Checked(ms) ==
      if exists m :: IsPart(parts, m) && !IsModule(m) then Err(Malformed)
      else if Ones(parts, |parts|) == 0 then Err(NoModule)
      else Ok(ms)
  {
    forall m ensures IsPart(parts, m) <==> m in ms {
      if IsPart(parts, m) {
        var i :| 0 <= i < |parts| && parts[i].0 == 1 && parts[i].1 == m;
        assert ms[Ones(parts, i)] == m;
      }
      if m in ms {
        var k :| 0 <= k < |ms| && ms[k] == m;
        var i := FromPart(parts, |parts|, k);
        assert ms[Ones(parts, i)] == parts[i].1;
      }
    }
    hide IsPart, BodiesOf, Ones, IsModule;
    assert forall k :: 0 <= k < |ms| ==> ms[k] in ms;
  }

  lemma ParsedTiling(head: Bytes, parts: seq<(byte, Bytes)>, r: Result<seq<Bytes>, Fault>)
    requires |head| == 8 && IsComponent(head)
    requires forall i :: 0 <= i < |parts| ==> |parts[i].1| < TWO_64 && parts[i].0 != 4
    requires Parsed(head + Flatten(EncodeAll(parts)), r)
    ensures r == Outcome(EncodeAll(parts))
  {
    var secs := EncodeAll(parts);
    var b := head + Flatten(secs);
    assert b[..8] == head && b[8..] == Flatten(secs);
    assert b[..4] == head[..4] && b[6..8] == head[6..8];
    assert CORE_HEADER <= b <==> CORE_HEADER <= b[..8];
    forall i | 0 <= i < |secs| ensures WellSized(secs[i]) {
      EncodeFits(|parts[i].1|);
      DecodeEncode(|parts[i].1|, []);
      assert Encode(|parts[i].1|) + [] == secs[i].size;
    }
    assert Tiles(b[8..], secs);
    forall other | Tiles(b[8..], other) ensures other == secs {
      TilingUnique(b[8..], other, secs);
    }
  }

  /** On every byte string there is one answer. */
  lemma ParsedUnique(b: Bytes, r: Result<seq<Bytes>, Fault>, r': Result<seq<Bytes>, Fault>)
    requires Parsed(b, r) && Parsed(b, r')
    ensures r == r'
  {
    if IsComponent(b) {
      forall s, t | Tiles(b[8..], s) && Tiles(b[8..], t) ensures s == t {
        TilingUnique(b[8..], s, t);
      }
    }
  }
}

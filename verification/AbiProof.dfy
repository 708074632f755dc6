/** What passes through guest memory arrives, for a guest whose allocator is honest. */
module AbiProof {
  import opened Prelude
  import opened Abi

  const LIMIT := 0x1_0000_0000

  /** Which addresses of a guest are in use. */
  type Owned<!G> = (Guest<G>, int) -> bool

  /** An allocation gives memory that was not in use, and leaves what was. */
  ghost predicate Allocated<G>(owned: Owned<G>, g: Guest<G>, n: nat, h: Guest<G>, p: nat) {
    && p + n <= |h.mem| < LIMIT && |g.mem| <= |h.mem|
    && (forall x :: p <= x < p + n ==> !owned(g, x) && owned(h, x))
    && (forall x :: owned(g, x) ==> owned(h, x) && 0 <= x < |g.mem| && h.mem[x] == g.mem[x])
  }

  /** Memory that differs only in what is in use. */
  ghost predicate SameElsewhere<G>(owned: Owned<G>, g: Guest<G>, m: Bytes) {
    |m| == |g.mem| && forall x :: 0 <= x < |m| && !owned(g, x) ==> m[x] == g.mem[x]
  }

  /** The allocator is fresh, and what is in use does not depend on the bytes in it. */
  ghost predicate Honest<G(!new)>(realloc: Realloc<G>, owned: Owned<G>) {
    && (forall g: Guest<G>, align: nat, n: nat :: realloc(g, align, n).Some? ==> Allocated(owned, g, n, realloc(g, align, n).value.0, realloc(g, align, n).value.1))
    && (forall g: Guest<G>, x: int :: owned(g, x) ==> 0 <= x < |g.mem|)
    && (forall g: Guest<G>, m: Bytes :: SameElsewhere(owned, g, m) ==> forall x: int :: owned(Guest(m, g.rest), x) == owned(g, x))
  }

  /** An allocator that hands out ever higher addresses is honest. */
  function Bump(g: Guest<nat>, align: nat, n: nat): Option<(Guest<nat>, nat)> {
    if g.rest > |g.mem| || g.rest + n >= LIMIT || |g.mem| >= LIMIT then None
    else Some((Guest(if g.rest + n > |g.mem| then g.mem + Zeros(g.rest + n - |g.mem|) else g.mem, g.rest + n), g.rest))
  }

  predicate BumpOwned(g: Guest<nat>, x: int) { 0 <= x < g.rest && x < |g.mem| }

  lemma BumpIsHonest()
    ensures Honest(Bump, BumpOwned)
  {
  }

  // ----- Frames --------------------------------------------------------------

  /** All that was in use is, with the same bytes outside a region. */
  ghost predicate Keeps<G>(owned: Owned<G>, g: Guest<G>, h: Guest<G>, lo: int, hi: int) {
    && |g.mem| <= |h.mem|
    && (forall x :: owned(g, x) ==> owned(h, x) && 0 <= x < |g.mem| && (lo <= x < hi || h.mem[x] == g.mem[x]))
  }

  lemma KeepsTrans<G>(owned: Owned<G>, a: Guest<G>, b: Guest<G>, c: Guest<G>, lo: int, hi: int, lo1: int, hi1: int)
    requires Keeps(owned, a, b, lo, hi) && Keeps(owned, b, c, lo1, hi1)
    requires forall x :: lo1 <= x < hi1 && owned(a, x) ==> lo <= x < hi
    ensures Keeps(owned, a, c, lo, hi)
  {
  }

  lemma KeepsSelf<G(!new)>(realloc: Realloc<G>, owned: Owned<G>, g: Guest<G>, lo: int, hi: int)
    requires Honest(realloc, owned)
    ensures Keeps(owned, g, g, lo, hi)
  {
  }

  lemma KeepsWiden<G>(owned: Owned<G>, a: Guest<G>, b: Guest<G>, lo: int, hi: int, lo1: int, hi1: int)
    requires Keeps(owned, a, b, lo, hi) && lo1 <= lo && hi <= hi1
    ensures Keeps(owned, a, b, lo1, hi1)
  {
  }

  ghost predicate AllOwned<G>(owned: Owned<G>, g: Guest<G>, lo: int, hi: int) {
    forall x :: lo <= x < hi ==> owned(g, x)
  }

  /** Bytes at an address, in use now and not in use by an earlier guest. */
  ghost predicate Holds<G>(owned: Owned<G>, base: Guest<G>, g: Guest<G>, at: nat, b: Bytes) {
    && at < LIMIT && |b| < LIMIT && Read(g.mem, at, |b|) == Some(b)
    && forall x :: at <= x < at + |b| ==> owned(g, x) && !owned(base, x)
  }

  lemma HoldsKept<G>(owned: Owned<G>, base: Guest<G>, g: Guest<G>, h: Guest<G>, lo: int, hi: int, at: nat, b: Bytes)
    requires Holds(owned, base, g, at, b) && Keeps(owned, g, h, lo, hi)
    requires forall x :: at <= x < at + |b| && lo <= x < hi ==> !owned(g, x)
    ensures Holds(owned, base, h, at, b)
  {
    forall x | at <= x < at + |b| ensures owned(h, x) && x < |h.mem| && h.mem[x] == g.mem[x] {
      assert owned(g, x);
    }
    assert h.mem[at..at + |b|] == g.mem[at..at + |b|];
  }

  lemma HoldsAcross<G>(owned: Owned<G>, base: Guest<G>, g: Guest<G>, h: Guest<G>, lo: int, hi: int, at: nat, b: Bytes)
    requires Holds(owned, base, g, at, b) && Keeps(owned, g, h, lo, hi) && AllOwned(owned, base, lo, hi)
    ensures Holds(owned, base, h, at, b)
  {
    HoldsKept(owned, base, g, h, lo, hi, at, b);
  }

  lemma HoldsFrom<G>(owned: Owned<G>, first: Guest<G>, base: Guest<G>, g: Guest<G>, lo: int, hi: int, at: nat, b: Bytes)
    requires Holds(owned, base, g, at, b) && Keeps(owned, first, base, lo, hi)
    ensures Holds(owned, first, g, at, b)
  {
  }

  // ----- Writing -------------------------------------------------------------

  lemma StoreAt(mem: Bytes, at: nat, b: Bytes)
    requires at + |b| <= |mem|
    ensures |Store(mem, at, b)| == |mem|
    ensures Read(Store(mem, at, b), at, |b|) == Some(b)
    ensures forall x :: 0 <= x < |mem| && !(at <= x < at + |b|) ==> Store(mem, at, b)[x] == mem[x]
  {
  }

  lemma WriteWithin<G(!new)>(realloc: Realloc<G>, owned: Owned<G>, g: Guest<G>, at: nat, b: Bytes)
    requires Honest(realloc, owned) && AllOwned(owned, g, at, at + |b|) && at + |b| <= |g.mem|
    ensures var h := Guest(Store(g.mem, at, b), g.rest); Keeps(owned, g, h, at, at + |b|) && Read(h.mem, at, |b|) == Some(b)
  {
    StoreAt(g.mem, at, b);
    hide Store;
    assert SameElsewhere(owned, g, Store(g.mem, at, b));
  }

  lemma AllocationFound<G(!new)>(realloc: Realloc<G>, owned: Owned<G>, g: Guest<G>, align: nat, n: nat)
    requires Honest(realloc, owned) && realloc(g, align, n).Some?
    ensures var (h, p) := realloc(g, align, n).value;
      Allocated(owned, g, n, h, p) && U32(p) == p && Keeps(owned, g, h, 0, 0) && AllOwned(owned, h, p, p + n)
  {
  }

  /** Bytes put in a guest are there; the pointer to none at all is readable unless the guest has no memory. */
  lemma PutHolds<G(!new)>(realloc: Realloc<G>, owned: Owned<G>, g: Guest<G>, b: Bytes)
    requires Honest(realloc, owned)
    ensures match Put(realloc, g, b)
      case Ok(p) =>
        && Keeps(owned, g, p.guest, 0, 0)
        && if b == [] && g.mem == [] then Read(p.guest.mem, p.at, 0) == None else Holds(owned, g, p.guest, p.at, b)
      case Err(f) => f == Trapped
  {
    if b == [] {
      if g.mem != [] { assert g.mem[1..1] == []; }
      assert Keeps(owned, g, g, 0, 0);
    } else if realloc(g, 1, |b|).Some? {
      var (h, p) := realloc(g, 1, |b|).value;
      AllocationFound(realloc, owned, g, 1, |b|);
      WriteWithin(realloc, owned, h, p, b);
      hide Honest, Store, Read;
    }
  }

  // ----- Headers -------------------------------------------------------------

  /** A header record and its strings: the record is new since base, the strings since mid. */
  ghost predicate RecordHolds<G>(owned: Owned<G>, base: Guest<G>, mid: Guest<G>, g: Guest<G>, at: nat, h: Header) {
    exists np, vp :: RecordAt(owned, base, mid, g, at, h, np, vp)
  }

  ghost predicate RecordAt<G>(owned: Owned<G>, base: Guest<G>, mid: Guest<G>, g: Guest<G>, at: nat, h: Header, np: nat, vp: nat) {
    && Holds(owned, base, g, at, Record(np, |h.name|, vp, |h.value|))
    && Holds(owned, mid, g, np, h.name) && Holds(owned, mid, g, vp, h.value)
  }

  lemma RecordLength(np: nat, nn: nat, vp: nat, vn: nat)
    ensures |Record(np, nn, vp, vn)| == 16
  {
  }

  lemma RecordKept<G>(owned: Owned<G>, base: Guest<G>, mid: Guest<G>, g: Guest<G>, k: Guest<G>, lo: int, hi: int, at: nat, h: Header)
    requires RecordHolds(owned, base, mid, g, at, h) && Keeps(owned, g, k, lo, hi) && AllOwned(owned, mid, lo, hi)
    requires at + 16 <= lo || hi <= at
    ensures RecordHolds(owned, base, mid, k, at, h)
  {
    var np, vp :| RecordAt(owned, base, mid, g, at, h, np, vp);
    RecordLength(np, |h.name|, vp, |h.value|);
    hide Record, Holds, Keeps, AllOwned;
    HoldsKept(owned, base, g, k, lo, hi, at, Record(np, |h.name|, vp, |h.value|));
    HoldsAcross(owned, mid, g, k, lo, hi, np, h.name);
    HoldsAcross(owned, mid, g, k, lo, hi, vp, h.value);
    assert RecordAt(owned, base, mid, k, at, h, np, vp);
  }

  /** Writing one header fills its record and changes nothing else in use. */
  lemma HeaderWritten<G(!new)>(realloc: Realloc<G>, owned: Owned<G>, base: Guest<G>, mid: Guest<G>, g: Guest<G>, at: nat, h: Header)
    requires Honest(realloc, owned) && Keeps(owned, mid, g, 0, LIMIT) && at + 16 <= |mid.mem| < LIMIT
    requires AllOwned(owned, mid, at, at + 16) && forall x :: at <= x < at + 16 ==> !owned(base, x)
    ensures match WriteHeader(realloc, g, at, h)
      case Ok(p) => Keeps(owned, g, p.guest, at, at + 16) && RecordHolds(owned, base, mid, p.guest, at, h)
      case Err(f) => f == Trapped
  {
    PutHolds(realloc, owned, g, h.name);
    if Put(realloc, g, h.name).Ok? {
      var name := Put(realloc, g, h.name).value;
      PutHolds(realloc, owned, name.guest, h.value);
      if Put(realloc, name.guest, h.value).Ok? {
        var value := Put(realloc, name.guest, h.value).value;
        hide Put, Record;
        RecordLength(name.at, |h.name|, value.at, |h.value|);
        RecordWritten(realloc, owned, base, mid, g, name, value, at, h);
      }
    }
  }

  lemma RecordWritten<G(!new)>(realloc: Realloc<G>, owned: Owned<G>, base: Guest<G>, mid: Guest<G>, g: Guest<G>, name: Placed<G>, value: Placed<G>, at: nat, h: Header)
    requires Honest(realloc, owned) && Keeps(owned, mid, g, 0, LIMIT) && at + 16 <= |mid.mem| < LIMIT
    requires AllOwned(owned, mid, at, at + 16) && forall x :: at <= x < at + 16 ==> !owned(base, x)
    requires Keeps(owned, g, name.guest, 0, 0) && Holds(owned, g, name.guest, name.at, h.name)
    requires Keeps(owned, name.guest, value.guest, 0, 0) && Holds(owned, name.guest, value.guest, value.at, h.value)
    ensures match Write(value.guest, at, Record(name.at, |h.name|, value.at, |h.value|))
      case Ok(p) => Keeps(owned, g, p.guest, at, at + 16) && RecordHolds(owned, base, mid, p.guest, at, h)
      case Err(_) => false
  {
    var record := Record(name.at, |h.name|, value.at, |h.value|);
    RecordLength(name.at, |h.name|, value.at, |h.value|);
    hide Record;
    assert AllOwned(owned, value.guest, at, at + 16);
    WriteWithin(realloc, owned, value.guest, at, record);
    var after := Guest(Store(value.guest.mem, at, record), value.guest.rest);
    hide Store, Honest, Read;
    KeepsTrans(owned, g, name.guest, value.guest, 0, 0, 0, 0);
    assert Keeps(owned, g, after, at, at + 16);
    HoldsFrom(owned, mid, g, name.guest, 0, LIMIT, name.at, h.name);
    KeepsTrans(owned, mid, g, name.guest, 0, LIMIT, 0, 0);
    HoldsFrom(owned, mid, name.guest, value.guest, 0, LIMIT, value.at, h.value);
    HoldsAcross(owned, mid, name.guest, value.guest, 0, 0, name.at, h.name);
    HoldsAcross(owned, mid, value.guest, after, at, at + 16, name.at, h.name);
    HoldsAcross(owned, mid, value.guest, after, at, at + 16, value.at, h.value);
    assert RecordAt(owned, base, mid, after, at, h, name.at, value.at);
  }

  /** The records written so far hold their headers; memory in use outside the list is as it was. */
  ghost predicate RecordsHold<G>(owned: Owned<G>, base: Guest<G>, mid: Guest<G>, g: Guest<G>, list: nat, hs: seq<Header>, k: nat)
    requires k <= |hs|
  {
    forall i :: 0 <= i < k ==> RecordHolds(owned, base, mid, g, list + 16 * i, hs[i])
  }

  /** A list allocated in mid, all of it new since base. */
  ghost predicate ListAllocated<G>(owned: Owned<G>, base: Guest<G>, mid: Guest<G>, list: nat, n: nat) {
    && list + 16 * n <= |mid.mem| < LIMIT && AllOwned(owned, mid, list, list + 16 * n)
    && forall x :: list <= x < list + 16 * n ==> !owned(base, x)
  }

  lemma {:induction false} RecordsWritten<G(!new)>(realloc: Realloc<G>, owned: Owned<G>, base: Guest<G>, mid: Guest<G>, list: nat, hs: seq<Header>, k: nat)
    requires Honest(realloc, owned) && ListAllocated(owned, base, mid, list, |hs|) && k <= |hs|
    ensures match RecordsUpTo(realloc, mid, list, hs, k)
      case Ok(g) => Keeps(owned, mid, g, list, list + 16 * k) && RecordsHold(owned, base, mid, g, list, hs, k)
      case Err(f) => f == Trapped
  {
    hide Honest, Keeps, ListAllocated, U32, RecordHolds, WriteHeader;
    if k == 0 {
      KeepsSelf(realloc, owned, mid, list, list);
    } else {
      hide RecordsHold;
      RecordsWritten(realloc, owned, base, mid, list, hs, k - 1);
      if RecordsUpTo(realloc, mid, list, hs, k - 1).Ok? {
        var g := RecordsUpTo(realloc, mid, list, hs, k - 1).value;
        NextRecord(realloc, owned, base, mid, g, list, hs, k);
      }
    }
  }

  lemma NextRecord<G(!new)>(realloc: Realloc<G>, owned: Owned<G>, base: Guest<G>, mid: Guest<G>, g: Guest<G>, list: nat, hs: seq<Header>, k: nat)
    requires Honest(realloc, owned) && ListAllocated(owned, base, mid, list, |hs|) && 0 < k <= |hs|
    requires Keeps(owned, mid, g, list, list + 16 * (k - 1)) && RecordsHold(owned, base, mid, g, list, hs, k - 1)
    ensures U32(list + 16 * (k - 1)) == list + 16 * (k - 1)
    ensures match WriteHeader(realloc, g, list + 16 * (k - 1), hs[k - 1])
      case Ok(p) => Keeps(owned, mid, p.guest, list, list + 16 * k) && RecordsHold(owned, base, mid, p.guest, list, hs, k)
      case Err(f) => f == Trapped
  {
    hide U32, RecordHolds, RecordsHold, WriteHeader, Honest, Keeps, AllOwned, ListAllocated;
    var at, h := list + 16 * (k - 1), hs[k - 1];
    SlotOwned(owned, base, mid, list, |hs|, k);
    KeepsWiden(owned, mid, g, list, at, 0, LIMIT);
    HeaderWritten(realloc, owned, base, mid, g, at, h);
    if WriteHeader(realloc, g, at, h).Ok? {
      var after := WriteHeader(realloc, g, at, h).value.guest;
      KeepsWiden(owned, mid, g, list, at, list, at + 16);
      KeepsTrans(owned, mid, g, after, list, at + 16, at, at + 16);
      RecordsKept(owned, base, mid, g, after, list, hs, k);
    }
  }

  lemma SlotOwned<G>(owned: Owned<G>, base: Guest<G>, mid: Guest<G>, list: nat, n: nat, k: nat)
    requires ListAllocated(owned, base, mid, list, n) && 0 < k <= n
    ensures var at := list + 16 * (k - 1);
      && U32(at) == at && at + 16 <= |mid.mem| < LIMIT && AllOwned(owned, mid, at, at + 16)
      && forall x :: at <= x < at + 16 ==> !owned(base, x)
  {
    Small(list + 16 * (k - 1));
    hide U32;
  }

  lemma RecordsKept<G>(owned: Owned<G>, base: Guest<G>, mid: Guest<G>, g: Guest<G>, after: Guest<G>, list: nat, hs: seq<Header>, k: nat)
    requires 0 < k <= |hs| && RecordsHold(owned, base, mid, g, list, hs, k - 1)
    requires var at := list + 16 * (k - 1);
      Keeps(owned, g, after, at, at + 16) && AllOwned(owned, mid, at, at + 16) && RecordHolds(owned, base, mid, after, at, hs[k - 1])
    ensures RecordsHold(owned, base, mid, after, list, hs, k)
  {
    hide RecordHolds, Keeps, AllOwned;
    var at := list + 16 * (k - 1);
    forall i | 0 <= i < k ensures RecordHolds(owned, base, mid, after, list + 16 * i, hs[i]) {
      if i < k - 1 { RecordKept(owned, base, mid, g, after, at, at + 16, list + 16 * i, hs[i]); }
    }
  }

  // ----- Reading -------------------------------------------------------------

  lemma Value32Of(n: nat)
    requires n < LIMIT
    ensures var b := Bytes32(n); |b| == 4 && Value32(b[0], b[1], b[2], b[3]) == n
  {
    var high := n / 256;
    var higher := high / 256;
    var highest := higher / 256;
    assert n / 65536 == higher && n / 16777216 == highest && highest < 256;
  }

  /** Loading within bytes that were read. */
  lemma LoadWithin(mem: Bytes, at: nat, b: Bytes, k: nat)
    requires Read(mem, at, |b|) == Some(b) && k + 4 <= |b|
    ensures Load32(mem, at + k) == Load32(b, k)
  {
    assert forall i :: 0 <= i < |b| ==> mem[at + i] == b[i];
  }

  lemma LoadRecord(np: nat, nn: nat, vp: nat, vn: nat)
    requires np < LIMIT && nn < LIMIT && vp < LIMIT && vn < LIMIT
    ensures var r := Record(np, nn, vp, vn);
      Load32(r, 0) == Some(np) && Load32(r, 4) == Some(nn) && Load32(r, 8) == Some(vp) && Load32(r, 12) == Some(vn)
  {
    Value32Of(np);
    Value32Of(nn);
    Value32Of(vp);
    Value32Of(vn);
    hide Bytes32, Value32;
  }

  /** A header the host takes: valid strings within the limit. */
  predicate Passable(h: Header) {
    |h.name| <= MAX_STRING && ValidUtf8(h.name) && |h.value| <= MAX_STRING && ValidUtf8(h.value)
  }

  lemma RecordRead<G>(owned: Owned<G>, base: Guest<G>, mid: Guest<G>, g: Guest<G>, at: nat, h: Header)
    requires RecordHolds(owned, base, mid, g, at, h) && at + 16 < LIMIT
    ensures ReadHeader(g.mem, at) == if Passable(h) then Ok(h) else Err(BadString)
    ensures LoadHeader(g.mem, at) == Some(h)
  {
    var np, vp :| RecordAt(owned, base, mid, g, at, h, np, vp);
    hide Record, ValidUtf8, RecordHolds, Read;
    FourLoaded(g.mem, at, np, |h.name|, vp, |h.value|);
    hide Load32;
  }

  lemma Small(n: nat)
    requires n < LIMIT
    ensures U32(n) == n
  {
  }

  lemma FourLoaded(mem: Bytes, at: nat, np: nat, nn: nat, vp: nat, vn: nat)
    requires np < LIMIT && nn < LIMIT && vp < LIMIT && vn < LIMIT && at + 16 < LIMIT
    requires var r := Record(np, nn, vp, vn); Read(mem, at, |r|) == Some(r)
    ensures Load32(mem, at) == Some(np) && Load32(mem, at + 4) == Some(nn) && Load32(mem, at + 8) == Some(vp) && Load32(mem, at + 12) == Some(vn)
    ensures U32(at + 4) == at + 4 && U32(at + 8) == at + 8 && U32(at + 12) == at + 12
  {
    var r := Record(np, nn, vp, vn);
    hide Record, Load32, Read, U32;
    RecordLength(np, nn, vp, vn);
    LoadRecord(np, nn, vp, vn);
    Small(at + 4);
    Small(at + 8);
    Small(at + 12);
    LoadWithin(mem, at, r, 0);
    LoadWithin(mem, at, r, 4);
    LoadWithin(mem, at, r, 8);
    LoadWithin(mem, at, r, 12);
  }

  lemma {:induction false} RecordsRead<G>(owned: Owned<G>, base: Guest<G>, mid: Guest<G>, g: Guest<G>, list: nat, hs: seq<Header>, k: nat)
    requires k <= |hs| && list + 16 * |hs| < LIMIT && RecordsHold(owned, base, mid, g, list, hs, |hs|)
    ensures HeadersUpTo(g.mem, list, k) == if forall i :: 0 <= i < k ==> Passable(hs[i]) then Ok(hs[..k]) else Err(BadString)
  {
    hide RecordHolds, Passable, ReadHeader, LoadHeader, U32;
    if k > 0 {
      var at := list + 16 * (k - 1);
      Small(at);
      assert RecordHolds(owned, base, mid, g, list + 16 * (k - 1), hs[k - 1]);
      RecordRead(owned, base, mid, g, at, hs[k - 1]);
      RecordsRead(owned, base, mid, g, list, hs, k - 1);
      hide RecordsHold;
      assert hs[..k] == hs[..k - 1] + [hs[k - 1]];
    }
  }

  lemma {:induction false} RecordsLoaded<G>(owned: Owned<G>, base: Guest<G>, mid: Guest<G>, g: Guest<G>, list: nat, hs: seq<Header>, k: nat)
    requires k <= |hs| && list + 16 * |hs| < LIMIT && RecordsHold(owned, base, mid, g, list, hs, |hs|)
    ensures LoadHeaders(g.mem, list + 16 * k, |hs| - k) == Some(hs[k..])
    decreases |hs| - k
  {
    hide RecordHolds, LoadHeader, ReadHeader, Passable;
    if k == |hs| {
      assert hs[k..] == [];
    } else {
      RecordsLoaded(owned, base, mid, g, list, hs, k + 1);
      RecordRead(owned, base, mid, g, list + 16 * k, hs[k]);
      assert list + 16 * k + 16 == list + 16 * (k + 1);
      assert hs[k..] == [hs[k]] + hs[k + 1..];
    }
  }

  // ----- The header list -----------------------------------------------------

  /** The list as a whole, new since base. */
  ghost predicate ListHolds<G>(owned: Owned<G>, base: Guest<G>, g: Guest<G>, list: nat, hs: seq<Header>) {
    list + 16 * |hs| < LIMIT && RecordsHold(owned, base, base, g, list, hs, |hs|)
  }

  lemma RecordFrom<G>(owned: Owned<G>, base: Guest<G>, mid: Guest<G>, g: Guest<G>, at: nat, h: Header)
    requires RecordHolds(owned, base, mid, g, at, h) && Keeps(owned, base, mid, 0, 0)
    ensures RecordHolds(owned, base, base, g, at, h)
  {
    var np, vp :| RecordAt(owned, base, mid, g, at, h, np, vp);
    HoldsFrom(owned, base, mid, g, 0, 0, np, h.name);
    HoldsFrom(owned, base, mid, g, 0, 0, vp, h.value);
    assert RecordAt(owned, base, base, g, at, h, np, vp);
  }

  lemma HeadersWritten<G(!new)>(realloc: Realloc<G>, owned: Owned<G>, g: Guest<G>, hs: seq<Header>)
    requires Honest(realloc, owned)
    ensures match WriteHeaders(realloc, g, hs)
      case Ok(p) => Keeps(owned, g, p.guest, 0, 0) && ListHolds(owned, g, p.guest, p.at, First(hs))
      case Err(f) => f == Trapped
  {
    var kept := First(hs);
    hide First, U32;
    if kept == [] {
      KeepsSelf(realloc, owned, g, 0, 0);
    } else if realloc(g, 4, 16 * |kept|).Some? {
      var (mid, list) := realloc(g, 4, 16 * |kept|).value;
      AllocationFound(realloc, owned, g, 4, 16 * |kept|);
      RecordsWritten(realloc, owned, g, mid, list, kept, |kept|);
      hide Honest, RecordHolds;
      if RecordsUpTo(realloc, mid, list, kept, |kept|).Ok? {
        var after := RecordsUpTo(realloc, mid, list, kept, |kept|).value;
        assert Keeps(owned, g, after, 0, 0);
        forall i | 0 <= i < |kept| ensures RecordHolds(owned, g, g, after, list + 16 * i, kept[i]) {
          RecordFrom(owned, g, mid, after, list + 16 * i, kept[i]);
        }
      }
    }
  }

  /**
   * Reading the headers that were written gives back the first 64, exactly when
   * their strings are valid and within the limit; what was in use is untouched.
   */
  lemma HeadersRoundTrip<G(!new)>(realloc: Realloc<G>, owned: Owned<G>, g: Guest<G>, hs: seq<Header>)
    requires Honest(realloc, owned)
    ensures match WriteHeaders(realloc, g, hs)
      case Ok(p) =>
        && Keeps(owned, g, p.guest, 0, 0)
        && ReadHeaders(p.guest.mem, p.at, |First(hs)|) ==
             if forall i :: 0 <= i < |First(hs)| ==> Passable(First(hs)[i]) then Ok(First(hs)) else Err(BadString)
      case Err(f) => f == Trapped
  {
    HeadersWritten(realloc, owned, g, hs);
    hide WriteHeaders, Honest;
    if WriteHeaders(realloc, g, hs).Ok? {
      var p, kept := WriteHeaders(realloc, g, hs).value, First(hs);
      RecordsRead(owned, g, g, p.guest, p.at, kept, |kept|);
      assert kept[..|kept|] == kept;
    }
  }
}

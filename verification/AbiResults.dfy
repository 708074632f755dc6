/** What the host answers is what the plugin loads. */
module AbiResults {
  import opened Prelude
  import opened Abi
  import opened AbiProof

  /** A (pointer, length) pair in the result bytes, for bytes new since base. */
  ghost predicate PairHolds<G>(owned: Owned<G>, base: Guest<G>, e: Encoded<G>, offset: nat, b: Bytes) {
    offset + 8 <= |e.buf| && exists p :: PairAt(owned, base, e, offset, b, p)
  }

  ghost predicate PairAt<G>(owned: Owned<G>, base: Guest<G>, e: Encoded<G>, offset: nat, b: Bytes, p: nat) {
    Load32(e.buf, offset) == Some(p) && Load32(e.buf, offset + 4) == Some(|b|) && Holds(owned, base, e.guest, p, b)
  }

  /** Result bytes, and where loads of them are not affected by a store. */
  lemma StoreLoads(buf: Bytes, offset: nat, n: nat)
    requires offset + 4 <= |buf| && n < LIMIT
    ensures var r := Store(buf, offset, Bytes32(n));
      |r| == |buf| && Load32(r, offset) == Some(n) && forall k: nat :: k + 4 <= offset || offset + 4 <= k ==> Load32(r, k) == Load32(buf, k)
  {
    Value32Of(n);
    hide Bytes32, Value32;
    StoreAt(buf, offset, Bytes32(n));
    var r := Store(buf, offset, Bytes32(n));
    hide Store;
    assert r[offset..offset + 4] == Bytes32(n);
    assert r[offset] == Bytes32(n)[0] && r[offset + 1] == Bytes32(n)[1] && r[offset + 2] == Bytes32(n)[2] && r[offset + 3] == Bytes32(n)[3];
  }

  lemma StoreBytes(buf: Bytes, offset: nat, n: int)
    requires offset + 4 <= |buf|
    ensures var r := Store(buf, offset, Bytes32(n));
      |r| == |buf| && forall k :: 0 <= k < |buf| && !(offset <= k < offset + 4) ==> r[k] == buf[k]
  {
    StoreAt(buf, offset, Bytes32(n));
  }

  lemma PairWritten<G(!new)>(realloc: Realloc<G>, owned: Owned<G>, base: Guest<G>, e: Encoded<G>, offset: nat, b: Bytes)
    requires Honest(realloc, owned) && |e.guest.mem| > 0 && offset + 8 <= |e.buf| && Keeps(owned, base, e.guest, 0, 0)
    ensures match PutAt(realloc, e, offset, b)
      case Ok(f) =>
        && Keeps(owned, e.guest, f.guest, 0, 0) && Keeps(owned, base, f.guest, 0, 0) && PairHolds(owned, base, f, offset, b)
        && |f.buf| == |e.buf| && (forall k :: 0 <= k < offset ==> f.buf[k] == e.buf[k])
        && (forall k: nat :: k + 4 <= offset ==> Load32(f.buf, k) == Load32(e.buf, k))
      case Err(f) => f == Trapped
  {
    PutHolds(realloc, owned, e.guest, b);
    if Put(realloc, e.guest, b).Ok? {
      var p := Put(realloc, e.guest, b).value;
      hide Put, Honest;
      HoldsFrom(owned, base, e.guest, p.guest, 0, 0, p.at, b);
      KeepsTrans(owned, base, e.guest, p.guest, 0, 0, 0, 0);
      var once := Store(e.buf, offset, Bytes32(p.at));
      StoreLoads(e.buf, offset, p.at);
      StoreLoads(once, offset + 4, |b|);
      StoreBytes(e.buf, offset, p.at);
      StoreBytes(once, offset + 4, |b|);
      hide Store, Load32, Bytes32, Keeps;
      assert PairAt(owned, base, Encoded(p.guest, Store(once, offset + 4, Bytes32(|b|))), offset, b, p.at);
    }
  }

  /** The result bytes have been written over an area the plugin had in use. */
  ghost predicate Landed<G>(owned: Owned<G>, base: Guest<G>, e: Encoded<G>, after: Guest<G>, ret: nat) {
    && Keeps(owned, e.guest, after, ret, ret + |e.buf|) && AllOwned(owned, base, ret, ret + |e.buf|)
    && Read(after.mem, ret, |e.buf|) == Some(e.buf)
  }

  lemma PairLoaded<G>(owned: Owned<G>, base: Guest<G>, e: Encoded<G>, after: Guest<G>, ret: nat, offset: nat, b: Bytes)
    requires PairHolds(owned, base, e, offset, b) && Landed(owned, base, e, after, ret)
    ensures LoadBytes(after.mem, ret + offset) == Some(b)
  {
    var p :| PairAt(owned, base, e, offset, b, p);
    HoldsAcross(owned, base, e.guest, after, ret, ret + |e.buf|, p, b);
    LoadWithin(after.mem, ret, e.buf, offset);
    LoadWithin(after.mem, ret, e.buf, offset + 4);
    hide Keeps, AllOwned, Read, Load32;
  }

  lemma ByteLoaded<G>(owned: Owned<G>, base: Guest<G>, e: Encoded<G>, after: Guest<G>, ret: nat)
    requires Landed(owned, base, e, after, ret)
    ensures ret + |e.buf| <= |after.mem| && forall k :: 0 <= k < |e.buf| ==> after.mem[ret + k] == e.buf[k]
  {
    hide Keeps, AllOwned;
    forall k | 0 <= k < |e.buf| ensures after.mem[ret + k] == e.buf[k] {
      assert after.mem[ret..ret + |e.buf|][k] == e.buf[k];
    }
  }

  lemma LandedLoads<G>(owned: Owned<G>, base: Guest<G>, e: Encoded<G>, after: Guest<G>, ret: nat, k: nat)
    requires Landed(owned, base, e, after, ret) && k + 4 <= |e.buf|
    ensures Load32(after.mem, ret + k) == Load32(e.buf, k)
  {
    hide Keeps, AllOwned, Load32;
    LoadWithin(after.mem, ret, e.buf, k);
  }

  lemma ListLoaded<G>(owned: Owned<G>, base: Guest<G>, e: Encoded<G>, after: Guest<G>, ret: nat, list: nat, hs: seq<Header>)
    requires ListHolds(owned, base, e.guest, list, hs) && Landed(owned, base, e, after, ret)
    ensures LoadHeaders(after.mem, list, |hs|) == Some(hs)
  {
    hide RecordHolds;
    forall i | 0 <= i < |hs| ensures RecordHolds(owned, base, base, after, list + 16 * i, hs[i]) {
      RecordAcross(owned, base, e.guest, after, ret, ret + |e.buf|, list + 16 * i, hs[i]);
    }
    hide Landed;
    RecordsLoaded(owned, base, base, after, list, hs, 0);
    assert hs[0..] == hs;
  }

  lemma RecordAcross<G>(owned: Owned<G>, base: Guest<G>, g: Guest<G>, k: Guest<G>, lo: int, hi: int, at: nat, h: Header)
    requires RecordHolds(owned, base, base, g, at, h) && Keeps(owned, g, k, lo, hi) && AllOwned(owned, base, lo, hi)
    ensures RecordHolds(owned, base, base, k, at, h)
  {
    var np, vp :| RecordAt(owned, base, base, g, at, h, np, vp);
    hide Record, Holds, Keeps, AllOwned;
    HoldsAcross(owned, base, g, k, lo, hi, at, Record(np, |h.name|, vp, |h.value|));
    HoldsAcross(owned, base, g, k, lo, hi, np, h.name);
    HoldsAcross(owned, base, g, k, lo, hi, vp, h.value);
    assert RecordAt(owned, base, base, k, at, h, np, vp);
  }

  lemma ListKept<G>(owned: Owned<G>, base: Guest<G>, g: Guest<G>, h: Guest<G>, list: nat, hs: seq<Header>)
    requires ListHolds(owned, base, g, list, hs) && Keeps(owned, g, h, 0, 0)
    ensures ListHolds(owned, base, h, list, hs)
  {
    hide RecordHolds;
    assert AllOwned(owned, base, 0, 0);
    forall i | 0 <= i < |hs| ensures RecordHolds(owned, base, base, h, list + 16 * i, hs[i]) {
      RecordAcross(owned, base, g, h, 0, 0, list + 16 * i, hs[i]);
    }
  }

  // ----- Each kind of answer -------------------------------------------------

  /** Whatever the encoding, the plugin loads this once it has landed. */
  ghost predicate Arrives<G(!new)>(owned: Owned<G>, base: Guest<G>, e: Encoded<G>, v1: bool, kind: Kind, seen: Answer) {
    Keeps(owned, base, e.guest, 0, 0) &&
    forall after, ret: nat :: Landed(owned, base, e, after, ret) ==> LoadResult(after.mem, ret, v1, kind) == Some(seen)
  }

  lemma NothingArrives<G(!new)>(realloc: Realloc<G>, owned: Owned<G>, g: Guest<G>, v1: bool)
    requires Honest(realloc, owned)
    ensures Arrives(owned, g, Encoded(g, Zeros(SMALL_RESULT)), v1, OfNothing, Success(Nothing))
  {
    KeepsSelf(realloc, owned, g, 0, 0);
    var e := Encoded(g, Zeros(SMALL_RESULT));
    hide Landed, Honest, Keeps;
    forall after, ret: nat | Landed(owned, g, e, after, ret) ensures LoadResult(after.mem, ret, v1, OfNothing) == Some(Success(Nothing)) {
      ByteLoaded(owned, g, e, after, ret);
      assert after.mem[ret + 0] == e.buf[0];
    }
  }

  lemma TextWritten<G(!new)>(realloc: Realloc<G>, owned: Owned<G>, g: Guest<G>, t: Bytes)
    requires Honest(realloc, owned) && |g.mem| > 0
    ensures match EncodePayload(realloc, g, SMALL_RESULT, Text(t))
      case Ok(e) => |e.buf| == SMALL_RESULT && e.buf[0] == 0 && PairHolds(owned, g, e, 4, t) && Keeps(owned, g, e.guest, 0, 0)
      case Err(f) => f == Trapped
  {
    KeepsSelf(realloc, owned, g, 0, 0);
    hide PutAt, Honest, Keeps, PairHolds, Load32;
    PairWritten(realloc, owned, g, Encoded(g, Zeros(SMALL_RESULT)), 4, t);
  }

  lemma TextArrives<G(!new)>(realloc: Realloc<G>, owned: Owned<G>, g: Guest<G>, v1: bool, t: Bytes)
    requires Honest(realloc, owned) && |g.mem| > 0
    ensures match EncodePayload(realloc, g, SMALL_RESULT, Text(t))
      case Ok(e) => |e.buf| == SMALL_RESULT && Arrives(owned, g, e, v1, OfText, Success(Text(t)))
      case Err(f) => f == Trapped
  {
    TextWritten(realloc, owned, g, t);
    if EncodePayload(realloc, g, SMALL_RESULT, Text(t)).Ok? {
      var e := EncodePayload(realloc, g, SMALL_RESULT, Text(t)).value;
      hide EncodePayload, Landed, LoadResult, PairHolds, Honest;
      forall after, ret: nat | Landed(owned, g, e, after, ret) ensures LoadResult(after.mem, ret, v1, OfText) == Some(Success(Text(t))) {
        TextLoaded(owned, g, e, after, ret, v1, t);
      }
    }
  }

  lemma TextLoaded<G>(owned: Owned<G>, base: Guest<G>, e: Encoded<G>, after: Guest<G>, ret: nat, v1: bool, t: Bytes)
    requires Landed(owned, base, e, after, ret) && PairHolds(owned, base, e, 4, t) && |e.buf| >= SMALL_RESULT && e.buf[0] == 0
    ensures LoadResult(after.mem, ret, v1, OfText) == Some(Success(Text(t)))
  {
    hide Landed, PairHolds, LoadBytes;
    PairLoaded(owned, base, e, after, ret, 4, t);
    ByteLoaded(owned, base, e, after, ret);
    assert after.mem[ret + 0] == e.buf[0];
  }

  predicate Worded(code: ErrorCode) { code.Invalid? || code.Unavailable? }

  /** Result bytes that stand for an error. */
  ghost predicate ErrorHolds<G>(owned: Owned<G>, base: Guest<G>, e: Encoded<G>, code: ErrorCode) {
    |e.buf| >= SMALL_RESULT && e.buf[0] == 1 && e.buf[4] == Discriminant(code) && (Worded(code) ==> PairHolds(owned, base, e, 8, code.message))
  }

  lemma ErrorLoaded<G>(owned: Owned<G>, base: Guest<G>, e: Encoded<G>, after: Guest<G>, ret: nat, v1: bool, kind: Kind, code: ErrorCode)
    requires ErrorHolds(owned, base, e, code) && Landed(owned, base, e, after, ret) && !(v1 && code.Unavailable?)
    ensures LoadResult(after.mem, ret, v1, kind) == Some(Failure(code))
  {
    hide Landed, PairHolds, LoadBytes;
    ByteLoaded(owned, base, e, after, ret);
    assert after.mem[ret + 0] == e.buf[0] && after.mem[ret + 4] == e.buf[4];
    if Worded(code) { PairLoaded(owned, base, e, after, ret, 8, code.message); }
  }

  lemma ErrorWritten<G(!new)>(realloc: Realloc<G>, owned: Owned<G>, g: Guest<G>, size: nat, code: ErrorCode)
    requires Honest(realloc, owned) && |g.mem| > 0 && size >= SMALL_RESULT
    ensures match EncodeError(realloc, g, size, code)
      case Ok(e) => |e.buf| == size && ErrorHolds(owned, g, e, code) && Keeps(owned, g, e.guest, 0, 0)
      case Err(f) => f == Trapped
  {
    KeepsSelf(realloc, owned, g, 0, 0);
    hide Honest, Keeps, PutAt, PairHolds;
    var start := Encoded(g, Zeros(size)[0 := 1][4 := Discriminant(code)]);
    if Worded(code) { PairWritten(realloc, owned, g, start, 8, code.message); }
  }

  lemma ErrorArrives<G(!new)>(realloc: Realloc<G>, owned: Owned<G>, g: Guest<G>, v1: bool, kind: Kind, code: ErrorCode)
    requires Honest(realloc, owned) && |g.mem| > 0 && !(v1 && code.Unavailable?)
    ensures match EncodeError(realloc, g, Size(kind), code)
      case Ok(e) => |e.buf| == Size(kind) && Arrives(owned, g, e, v1, kind, Failure(code))
      case Err(f) => f == Trapped
  {
    ErrorWritten(realloc, owned, g, Size(kind), code);
    if EncodeError(realloc, g, Size(kind), code).Ok? {
      var e := EncodeError(realloc, g, Size(kind), code).value;
      hide EncodeError, Landed, LoadResult, ErrorHolds;
      forall after, ret: nat | Landed(owned, g, e, after, ret) ensures LoadResult(after.mem, ret, v1, kind) == Some(Failure(code)) {
        ErrorLoaded(owned, g, e, after, ret, v1, kind, code);
      }
    }
  }

  // ----- Responses -----------------------------------------------------------

  /** Result bytes that stand for a response. */
  ghost predicate ResponseHolds<G>(owned: Owned<G>, base: Guest<G>, e: Encoded<G>, status: Status, list: nat, headers: seq<Header>, body: Bytes) {
    && |e.buf| == RESPONSE_RESULT && e.buf[0] == 0 && e.buf[4] as nat + 256 * e.buf[5] as nat == status
    && Load32(e.buf, 8) == Some(list) && Load32(e.buf, 12) == Some(|headers|)
    && ListHolds(owned, base, e.guest, list, headers) && PairHolds(owned, base, e, 16, body)
  }

  lemma ResponseLoaded<G>(owned: Owned<G>, base: Guest<G>, e: Encoded<G>, after: Guest<G>, ret: nat, v1: bool, status: Status, list: nat, headers: seq<Header>, body: Bytes)
    requires ResponseHolds(owned, base, e, status, list, headers, body) && Landed(owned, base, e, after, ret)
    ensures LoadResult(after.mem, ret, v1, OfResponse) == Some(Success(Response(status, headers, body)))
  {
    hide Landed, PairHolds, ListHolds, LoadBytes, LoadHeaders, Load32;
    LandedLoads(owned, base, e, after, ret, 8);
    LandedLoads(owned, base, e, after, ret, 12);
    PairLoaded(owned, base, e, after, ret, 16, body);
    ListLoaded(owned, base, e, after, ret, list, headers);
    ByteLoaded(owned, base, e, after, ret);
    assert after.mem[ret + 0] == e.buf[0];
    assert after.mem[ret + 4] == e.buf[4] && after.mem[ret + 5] == e.buf[5];
  }

  function ResponseStart(status: Status, list: nat, n: nat): (r: Bytes)
    ensures |r| == RESPONSE_RESULT
  {
    Store(Store(Store(Zeros(RESPONSE_RESULT), 4, Bytes16(status)), 8, Bytes32(list)), 12, Bytes32(n))
  }

  lemma StatusStored(status: Status)
    ensures var b := Store(Zeros(RESPONSE_RESULT), 4, Bytes16(status));
      |b| == RESPONSE_RESULT && b[0] == 0 && b[4] as nat + 256 * b[5] as nat == status
  {
    assert status == 256 * (status / 256) + status % 256 && status / 256 < 256;
    var b := Store(Zeros(RESPONSE_RESULT), 4, Bytes16(status));
    assert b[4] == Bytes16(status)[0] && b[5] == Bytes16(status)[1];
  }

  lemma ResponseStarted(status: Status, list: nat, n: nat)
    requires list < LIMIT && n < LIMIT
    ensures var b := ResponseStart(status, list, n);
      b[0] == 0 && b[4] as nat + 256 * b[5] as nat == status && Load32(b, 8) == Some(list) && Load32(b, 12) == Some(n)
  {
    var b := Store(Zeros(RESPONSE_RESULT), 4, Bytes16(status));
    StatusStored(status);
    hide Bytes16, Bytes32, Load32;
    StoreLoads(b, 8, list);
    StoreBytes(b, 8, list);
    var c := Store(b, 8, Bytes32(list));
    StoreLoads(c, 12, n);
    StoreBytes(c, 12, n);
    hide Store;
  }

  lemma ResponseArrives<G(!new)>(realloc: Realloc<G>, owned: Owned<G>, g: Guest<G>, v1: bool, status: Status, headers: seq<Header>, body: Bytes)
    requires Honest(realloc, owned) && |g.mem| > 0
    ensures match EncodePayload(realloc, g, RESPONSE_RESULT, Response(status, headers, body))
      case Ok(e) => |e.buf| == RESPONSE_RESULT && Arrives(owned, g, e, v1, OfResponse, Success(Response(status, First(headers), body)))
      case Err(f) => f == Trapped
  {
    hide WriteHeaders, First, Honest, ListHolds, Arrives, Keeps, PairHolds, PutAt;
    HeadersWritten(realloc, owned, g, headers);
    if WriteHeaders(realloc, g, headers).Ok? {
      var list, kept := WriteHeaders(realloc, g, headers).value, First(headers);
      ListBounds(owned, g, list.guest, list.at, kept);
      KeepsSize(owned, g, list.guest);
      var start := Encoded(list.guest, ResponseStart(status, list.at, |kept|));
      PairWritten(realloc, owned, g, start, 16, body);
      if PutAt(realloc, start, 16, body).Ok? {
        ResponseEncoded(realloc, owned, g, v1, status, list, kept, body);
      }
    }
  }

  lemma KeepsSize<G>(owned: Owned<G>, g: Guest<G>, h: Guest<G>)
    requires Keeps(owned, g, h, 0, 0)
    ensures |g.mem| <= |h.mem|
  {
  }

  lemma ListBounds<G>(owned: Owned<G>, base: Guest<G>, g: Guest<G>, list: nat, hs: seq<Header>)
    requires ListHolds(owned, base, g, list, hs)
    ensures list < LIMIT && |hs| < LIMIT
  {
  }

  lemma ResponseEncoded<G(!new)>(realloc: Realloc<G>, owned: Owned<G>, g: Guest<G>, v1: bool, status: Status, list: Placed<G>, kept: seq<Header>, body: Bytes)
    requires Honest(realloc, owned) && |g.mem| > 0 && Keeps(owned, g, list.guest, 0, 0) && ListHolds(owned, g, list.guest, list.at, kept)
    requires PutAt(realloc, Encoded(list.guest, ResponseStart(status, list.at, |kept|)), 16, body).Ok?
    ensures var e := PutAt(realloc, Encoded(list.guest, ResponseStart(status, list.at, |kept|)), 16, body).value;
      |e.buf| == RESPONSE_RESULT && Arrives(owned, g, e, v1, OfResponse, Success(Response(status, kept, body)))
  {
    var start := Encoded(list.guest, ResponseStart(status, list.at, |kept|));
    var e := PutAt(realloc, start, 16, body).value;
    ListBounds(owned, g, list.guest, list.at, kept);
    ResponseStarted(status, list.at, |kept|);
    PairWritten(realloc, owned, g, start, 16, body);
    ListKept(owned, g, list.guest, e.guest, list.at, kept);
    hide PutAt, Honest, ListHolds, PairHolds, Landed, LoadResult, Keeps, ResponseStart, Load32;
    assert ResponseHolds(owned, g, e, status, list.at, kept, body);
    hide ResponseHolds;
    forall after, ret: nat | Landed(owned, g, e, after, ret)
      ensures LoadResult(after.mem, ret, v1, OfResponse) == Some(Success(Response(status, kept, body)))
    {
      ResponseLoaded(owned, g, e, after, ret, v1, status, list.at, kept, body);
    }
  }

  // ----- Any answer ----------------------------------------------------------

  lemma AnswerArrives<G(!new)>(realloc: Realloc<G>, owned: Owned<G>, g: Guest<G>, v1: bool, kind: Kind, answer: Answer)
    requires Honest(realloc, owned) && |g.mem| > 0 && OfKind(answer, kind)
    ensures match Encode(realloc, g, v1, Size(kind), answer)
      case Ok(e) => |e.buf| == Size(kind) && Arrives(owned, g, e, v1, kind, Seen(v1, answer)) && !answer.Broken?
      case Err(f) => f == if answer.Broken? then HostFailed else Trapped
  {
    match answer
    case Success(Nothing) => NothingArrives(realloc, owned, g, v1);
    case Success(Text(t)) => TextArrives(realloc, owned, g, v1, t);
    case Success(Response(status, headers, body)) => ResponseArrives(realloc, owned, g, v1, status, headers, body);
    case Failure(code) => ErrorArrives(realloc, owned, g, v1, kind, Shown(v1, code));
    case Broken =>
  }

  /**
   * The plugin loads exactly what the host answered, in the words of its
   * version of the world, and nothing else in use is changed.  The write fails
   * only when the allocator traps or the host failed.
   */
  lemma ResultRoundTrip<G(!new)>(realloc: Realloc<G>, owned: Owned<G>, g: Guest<G>, ret: nat, v1: bool, kind: Kind, answer: Answer)
    requires Honest(realloc, owned) && OfKind(answer, kind) && AllOwned(owned, g, ret, ret + Size(kind))
    ensures match WriteResult(realloc, g, ret, v1, Size(kind), answer)
      case Ok(after) => LoadResult(after.mem, ret, v1, kind) == Some(Seen(v1, answer)) && Keeps(owned, g, after, ret, ret + Size(kind))
      case Err(f) => f == if answer.Broken? then HostFailed else Trapped
  {
    assert owned(g, ret);
    assert |g.mem| > 0;
    AnswerArrives(realloc, owned, g, v1, kind, answer);
    if Encode(realloc, g, v1, Size(kind), answer).Ok? {
      var e := Encode(realloc, g, v1, Size(kind), answer).value;
      hide Encode, LoadResult, Seen;
      ResultLands(realloc, owned, g, e, ret);
    }
  }

  lemma ResultLands<G(!new)>(realloc: Realloc<G>, owned: Owned<G>, g: Guest<G>, e: Encoded<G>, ret: nat)
    requires Honest(realloc, owned) && Keeps(owned, g, e.guest, 0, 0) && AllOwned(owned, g, ret, ret + |e.buf|) && |e.buf| > 0
    ensures ret + |e.buf| <= |e.guest.mem|
    ensures var after := Guest(Store(e.guest.mem, ret, e.buf), e.guest.rest);
      Landed(owned, g, e, after, ret) && Keeps(owned, g, after, ret, ret + |e.buf|)
  {
    assert owned(g, ret + |e.buf| - 1);
    assert AllOwned(owned, e.guest, ret, ret + |e.buf|);
    WriteWithin(realloc, owned, e.guest, ret, e.buf);
    hide Store, Read;
  }

  /** A plugin built for 0.1.0 is never shown an unavailable service: it reads the same words as an invalid call. */
  lemma OldPluginsSeeInvalid<G(!new)>(realloc: Realloc<G>, owned: Owned<G>, g: Guest<G>, ret: nat, kind: Kind, message: Bytes)
    requires Honest(realloc, owned) && AllOwned(owned, g, ret, ret + Size(kind))
    ensures match WriteResult(realloc, g, ret, true, Size(kind), Failure(Unavailable(message)))
      case Ok(after) =>
        LoadResult(after.mem, ret, true, kind) == LoadResult(after.mem, ret, false, kind) == Some(Failure(Invalid(UNAVAILABLE + message)))
      case Err(f) => f == Trapped
  {
    ResultRoundTrip(realloc, owned, g, ret, true, kind, Failure(Unavailable(message)));
    hide WriteResult, Honest, LoadResult;
    var r := WriteResult(realloc, g, ret, true, Size(kind), Failure(Unavailable(message)));
    if r.Ok? { NewerLoadsSame(r.value.mem, ret, kind); }
  }

  lemma NewerLoadsSame(mem: Bytes, ret: nat, kind: Kind)
    requires LoadResult(mem, ret, true, kind).Some?
    ensures LoadResult(mem, ret, false, kind) == LoadResult(mem, ret, true, kind)
  {
  }
}

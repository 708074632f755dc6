/**
 * What the host reads and a plugin loads, said of the bytes in memory alone:
 * which bytes stand for a request, and which for a result.
 */
module AbiLayout {
  import opened Prelude
  import opened Abi
  import opened AbiProof

  // ----- Bytes in memory -----------------------------------------------------

  /** The four bytes at an address, least significant first, are the number. */
  predicate Word(mem: Bytes, at: nat, n: nat) {
    && at + 4 <= |mem|
    && n == mem[at] as int + 0x100 * mem[at + 1] as int + 0x1_0000 * mem[at + 2] as int + 0x100_0000 * mem[at + 3] as int
  }

  /** The n bytes from an address on. */
  predicate BytesAt(mem: Bytes, at: nat, b: Bytes) {
    at + |b| <= |mem| && forall i :: 0 <= i < |b| ==> mem[at + i] == b[i]
  }

  /** A string or a list of bytes passed as an address and a length. */
  predicate Passed(mem: Bytes, s: Span, b: Bytes) { s.n == |b| && BytesAt(mem, s.ptr, b) }

  predicate ShortText(b: Bytes) { |b| <= MAX_STRING && ValidUtf8(b) }

  /** A header whose four words are at these addresses. */
  ghost predicate HeaderOver(mem: Bytes, a: nat, b: nat, c: nat, d: nat, h: Header) {
    Word(mem, b, |h.name|) && Word(mem, d, |h.value|) && Pointed(mem, a, h.name) && Pointed(mem, c, h.value)
  }

  /** The word at an address is the address of the bytes. */
  ghost predicate Pointed(mem: Bytes, at: nat, b: Bytes) {
    exists p :: Word(mem, at, p) && BytesAt(mem, p, b)
  }

  /** A header record at an address of 32 bits. */
  ghost predicate HeaderAt(mem: Bytes, at: nat, h: Header) {
    HeaderOver(mem, at, (at + 4) % LIMIT, (at + 8) % LIMIT, (at + 12) % LIMIT, h)
  }

  predicate RecordWithin(mem: Bytes, at: nat) {
    at + 4 <= |mem| && (at + 4) % LIMIT + 4 <= |mem| && (at + 8) % LIMIT + 4 <= |mem| && (at + 12) % LIMIT + 4 <= |mem|
  }

  /** Where the i-th record of a list is. */
  function Slot(list: nat, i: nat): nat { (list + 16 * i) % LIMIT }

  ghost predicate ListAt(mem: Bytes, list: nat, hs: seq<Header>) {
    forall i :: 0 <= i < |hs| ==> HeaderAt(mem, Slot(list, i), hs[i])
  }

  lemma WordLoaded(mem: Bytes, at: nat, n: nat)
    ensures Load32(mem, at) == Some(n) <==> Word(mem, at, n)
    ensures Load32(mem, at).Some? <==> at + 4 <= |mem|
  {
  }

  lemma SpanRead(mem: Bytes, at: nat, b: Bytes)
    ensures Read(mem, at, |b|) == Some(b) <==> BytesAt(mem, at, b)
  {
    if at + |b| <= |mem| {
      var part := mem[at..at + |b|];
      assert forall i :: 0 <= i < |b| ==> part[i] == mem[at + i];
      if BytesAt(mem, at, b) { assert part == b; }
    }
  }

  /** What a string argument yields. */
  lemma StrExactly(mem: Bytes, at: nat, n: nat)
    ensures forall b :: Str(mem, at, n) == Ok(b) <==> |b| == n && BytesAt(mem, at, b) && ShortText(b)
    ensures Str(mem, at, n).Err? ==> Str(mem, at, n) == Err(BadString)
  {
    forall b ensures Str(mem, at, n) == Ok(b) <==> |b| == n && BytesAt(mem, at, b) && ShortText(b) {
      SpanRead(mem, at, b);
    }
  }

  lemma BytesExactly(mem: Bytes, at: nat, n: nat)
    ensures forall b :: ReadBytes(mem, at, n) == Ok(b) <==> |b| == n && BytesAt(mem, at, b) && n <= MAX_STRING
    ensures ReadBytes(mem, at, n).Err? ==> ReadBytes(mem, at, n) == Err(BadBytes)
  {
    forall b ensures ReadBytes(mem, at, n) == Ok(b) <==> |b| == n && BytesAt(mem, at, b) && n <= MAX_STRING {
      SpanRead(mem, at, b);
    }
  }

  lemma HeaderExactly(mem: Bytes, at: nat)
    ensures forall h :: ReadHeader(mem, at) == Ok(h) <==> HeaderAt(mem, at, h) && ShortText(h.name) && ShortText(h.value)
    ensures ReadHeader(mem, at).Err? ==> ReadHeader(mem, at) == Err(if RecordWithin(mem, at) then BadString else HeaderOutOfBounds)
  {
    var b, c, d := (at + 4) % LIMIT, (at + 8) % LIMIT, (at + 12) % LIMIT;
    forall n: nat ensures (Load32(mem, at) == Some(n) <==> Word(mem, at, n)) && (Load32(mem, b) == Some(n) <==> Word(mem, b, n))
      && (Load32(mem, c) == Some(n) <==> Word(mem, c, n)) && (Load32(mem, d) == Some(n) <==> Word(mem, d, n)) {
      WordLoaded(mem, at, n);
      WordLoaded(mem, b, n);
      WordLoaded(mem, c, n);
      WordLoaded(mem, d, n);
    }
    WordLoaded(mem, at, 0);
    WordLoaded(mem, b, 0);
    WordLoaded(mem, c, 0);
    WordLoaded(mem, d, 0);
    hide Load32, Word, Str, ShortText, BytesAt;
    if RecordWithin(mem, at) {
      StrExactly(mem, Load32(mem, at).value, Load32(mem, b).value);
      StrExactly(mem, Load32(mem, c).value, Load32(mem, d).value);
    }
  }

  /** A header the host takes. */
  ghost predicate Taken(mem: Bytes, at: nat, h: Header) { HeaderAt(mem, at, h) && ShortText(h.name) && ShortText(h.value) }

  ghost predicate Takes(mem: Bytes, at: nat) { exists h :: Taken(mem, at, h) }

  /** The fault of the first record that is not taken. */
  ghost predicate FirstBad(mem: Bytes, list: nat, n: nat, f: Fault) {
    exists i: nat :: BadRecord(mem, list, n, i, f)
  }

  ghost predicate BadRecord(mem: Bytes, list: nat, n: nat, i: nat, f: Fault) {
    && i < n && !Takes(mem, Slot(list, i)) && (forall j :: 0 <= j < i ==> Takes(mem, Slot(list, j)))
    && f == if RecordWithin(mem, Slot(list, i)) then BadString else HeaderOutOfBounds
  }

  ghost predicate ListTaken(mem: Bytes, list: nat, hs: seq<Header>) {
    forall i :: 0 <= i < |hs| ==> Taken(mem, Slot(list, i), hs[i])
  }

  lemma {:induction false} ListExactly(mem: Bytes, list: nat, k: nat)
    ensures forall hs :: HeadersUpTo(mem, list, k) == Ok(hs) <==> |hs| == k && ListTaken(mem, list, hs)
    ensures forall f :: HeadersUpTo(mem, list, k) == Err(f) <==> FirstBad(mem, list, k, f)
  {
    hide ReadHeader, Taken, RecordWithin, Slot;
    if k == 0 {
      forall hs ensures HeadersUpTo(mem, list, k) == Ok(hs) <==> |hs| == k && ListTaken(mem, list, hs) {
      }
    } else {
      ListExactly(mem, list, k - 1);
      ListGrows(mem, list, k);
      FaultGrows(mem, list, k);
    }
  }

  lemma SlotAt(mem: Bytes, list: nat, i: nat)
    ensures ReadHeader(mem, U32(list + 16 * i)) == ReadHeader(mem, Slot(list, i))
    ensures forall h :: ReadHeader(mem, Slot(list, i)) == Ok(h) <==> Taken(mem, Slot(list, i), h)
    ensures ReadHeader(mem, Slot(list, i)).Ok? <==> Takes(mem, Slot(list, i))
    ensures ReadHeader(mem, Slot(list, i)).Err? ==>
      ReadHeader(mem, Slot(list, i)) == Err(if RecordWithin(mem, Slot(list, i)) then BadString else HeaderOutOfBounds)
  {
    HeaderExactly(mem, Slot(list, i));
    hide ReadHeader, HeaderAt, RecordWithin, ShortText;
  }

  lemma ListGrows(mem: Bytes, list: nat, k: nat)
    requires k > 0
    requires forall hs :: HeadersUpTo(mem, list, k - 1) == Ok(hs) <==> |hs| == k - 1 && ListTaken(mem, list, hs)
    ensures forall hs :: HeadersUpTo(mem, list, k) == Ok(hs) <==> |hs| == k && ListTaken(mem, list, hs)
  {
    hide ReadHeader, Taken, RecordWithin, Slot, U32;
    SlotAt(mem, list, k - 1);
    forall hs ensures HeadersUpTo(mem, list, k) == Ok(hs) <==> |hs| == k && ListTaken(mem, list, hs) {
      if |hs| == k {
        assert hs == hs[..k - 1] + [hs[k - 1]];
        assert ListTaken(mem, list, hs) <==> ListTaken(mem, list, hs[..k - 1]) && Taken(mem, Slot(list, k - 1), hs[k - 1]);
      }
    }
  }

  lemma FaultGrows(mem: Bytes, list: nat, k: nat)
    requires k > 0
    requires forall hs :: HeadersUpTo(mem, list, k - 1) == Ok(hs) <==> |hs| == k - 1 && ListTaken(mem, list, hs)
    requires forall f :: HeadersUpTo(mem, list, k - 1) == Err(f) <==> FirstBad(mem, list, k - 1, f)
    ensures forall f :: HeadersUpTo(mem, list, k) == Err(f) <==> FirstBad(mem, list, k, f)
  {
    hide ReadHeader, Taken, RecordWithin, Slot, U32, Takes;
    SlotAt(mem, list, k - 1);
    if HeadersUpTo(mem, list, k - 1).Ok? {
      var hs := HeadersUpTo(mem, list, k - 1).value;
      AllTaken(mem, list, hs);
      forall f ensures HeadersUpTo(mem, list, k) == Err(f) <==> FirstBad(mem, list, k, f) {
        if HeadersUpTo(mem, list, k) == Err(f) { assert BadRecord(mem, list, k, k - 1, f); }
      }
    } else {
      var g := HeadersUpTo(mem, list, k - 1).error;
      assert FirstBad(mem, list, k - 1, g);
      var i: nat :| BadRecord(mem, list, k - 1, i, g);
      assert BadRecord(mem, list, k, i, g);
    }
  }

  lemma AllTaken(mem: Bytes, list: nat, hs: seq<Header>)
    requires ListTaken(mem, list, hs)
    ensures forall i :: 0 <= i < |hs| ==> Takes(mem, Slot(list, i))
  {
    hide Taken, Slot;
    forall i | 0 <= i < |hs| ensures Takes(mem, Slot(list, i)) {
      assert Taken(mem, Slot(list, i), hs[i]);
    }
  }

  // ----- Requests ------------------------------------------------------------

  /** The arguments of a call stand for this request, and it is one the host takes. */
  ghost predicate Asks(mem: Bytes, verb: Span, url: Span, headers: Span, body: Span, q: Request) {
    && Passed(mem, verb, q.verb) && ShortText(q.verb)
    && Passed(mem, url, q.url) && ShortText(q.url)
    && headers.n == |q.headers| <= MAX_HEADERS && ListTaken(mem, headers.ptr, q.headers)
    && Passed(mem, body, q.body) && |q.body| <= MAX_STRING
  }

  ghost predicate TextPassed(mem: Bytes, s: Span) { exists b :: Passed(mem, s, b) && ShortText(b) }

  /** What is wrong first, in the order verb, URL, headers, body. */
  ghost predicate Wrong(mem: Bytes, verb: Span, url: Span, headers: Span, body: Span, f: Fault) {
    if !TextPassed(mem, verb) || !TextPassed(mem, url) then f == BadString
    else if headers.n > MAX_HEADERS then f == TooManyHeaders
    else if forall i :: 0 <= i < headers.n ==> Takes(mem, Slot(headers.ptr, i)) then
      f == BadBytes && (body.n > MAX_STRING || body.ptr + body.n > |mem|)
    else FirstBad(mem, headers.ptr, headers.n, f)
  }

  lemma TextExactly(mem: Bytes, s: Span)
    ensures forall b :: Str(mem, s.ptr, s.n) == Ok(b) <==> Passed(mem, s, b) && ShortText(b)
    ensures Str(mem, s.ptr, s.n) == Err(BadString) || TextPassed(mem, s)
    ensures TextPassed(mem, s) <==> Str(mem, s.ptr, s.n).Ok?
    ensures Str(mem, s.ptr, s.n).Err? ==> Str(mem, s.ptr, s.n) == Err(BadString)
  {
    StrExactly(mem, s.ptr, s.n);
    hide Str, ShortText, BytesAt;
  }

  /** The request the host is asked is the one whose bytes the plugin passed, and there is none exactly when one is refused. */
  lemma RequestExactly(mem: Bytes, verb: Span, url: Span, headers: Span, body: Span)
    ensures forall q :: ReadRequest(mem, verb, url, headers, body) == Ok(q) <==> Asks(mem, verb, url, headers, body, q)
  {
    TextExactly(mem, verb);
    TextExactly(mem, url);
    ListExactly(mem, headers.ptr, headers.n);
    BytesExactly(mem, body.ptr, body.n);
    hide Str, ShortText, BytesAt, HeadersUpTo, ReadBytes, ListTaken, FirstBad, TextPassed;
  }

  lemma FaultExactly(mem: Bytes, verb: Span, url: Span, headers: Span, body: Span)
    ensures forall f :: ReadRequest(mem, verb, url, headers, body) == Err(f) <==> Wrong(mem, verb, url, headers, body, f)
  {
    TextExactly(mem, verb);
    TextExactly(mem, url);
    ListExactly(mem, headers.ptr, headers.n);
    FoundOrTaken(mem, headers.ptr, headers.n);
    BodyRefused(mem, body);
    hide Str, ShortText, BytesAt, HeadersUpTo, ReadBytes, ListTaken, FirstBad, TextPassed, Takes, Slot;
  }

  lemma BodyRefused(mem: Bytes, body: Span)
    ensures ReadBytes(mem, body.ptr, body.n).Err? <==> body.n > MAX_STRING || body.ptr + body.n > |mem|
    ensures ReadBytes(mem, body.ptr, body.n).Err? ==> ReadBytes(mem, body.ptr, body.n) == Err(BadBytes)
  {
  }

  lemma FoundOrTaken(mem: Bytes, list: nat, n: nat)
    ensures HeadersUpTo(mem, list, n).Ok? <==> forall i :: 0 <= i < n ==> Takes(mem, Slot(list, i))
  {
    ListExactly(mem, list, n);
    hide Taken, RecordWithin, Slot, HeadersUpTo;
    if HeadersUpTo(mem, list, n).Ok? {
      AllTaken(mem, list, HeadersUpTo(mem, list, n).value);
    } else {
      assert FirstBad(mem, list, n, HeadersUpTo(mem, list, n).error);
    }
  }

  // ----- Results -------------------------------------------------------------

  /** A (pointer, length) pair in memory, and the bytes it is for. */
  ghost predicate PairOf(mem: Bytes, at: nat, b: Bytes) { Pointed(mem, at, b) && Word(mem, at + 4, |b|) }

  /** The records of a list follow one another. */
  ghost predicate RecordsOf(mem: Bytes, list: nat, hs: seq<Header>) {
    forall i :: 0 <= i < |hs| ==> RecordOf(mem, list + 16 * i, hs[i])
  }

  ghost predicate RecordOf(mem: Bytes, at: nat, h: Header) { PairOf(mem, at, h.name) && PairOf(mem, at + 8, h.value) }

  ghost predicate ListOf(mem: Bytes, at: nat, hs: seq<Header>) {
    Word(mem, at + 4, |hs|) && exists list: nat :: Word(mem, at, list) && RecordsOf(mem, list, hs)
  }

  /** An error code: its place in the world's list of them, and its message. */
  ghost predicate CodeOf(mem: Bytes, at: nat, v1: bool, code: ErrorCode) {
    at < |mem| &&
    match code
    case Denied => mem[at] == 0
    case NotFound => mem[at] == 1
    case Invalid(m) => mem[at] == 2 && PairOf(mem, at + 4, m)
    case Unavailable(m) => mem[at] == 3 && !v1 && PairOf(mem, at + 4, m)
  }

  ghost predicate ResponseOf(mem: Bytes, at: nat, status: Status, hs: seq<Header>, body: Bytes) {
    && at + 20 <= |mem| && status == mem[at] as int + 0x100 * mem[at + 1] as int
    && ListOf(mem, at + 4, hs) && PairOf(mem, at + 12, body)
  }

  /** The bytes at an address stand for the answer: a byte for success or error, and its payload 4 bytes on. */
  ghost predicate Lies(mem: Bytes, at: nat, v1: bool, kind: Kind, a: Answer) {
    at < |mem| &&
    match a
    case Success(Nothing) => mem[at] == 0 && kind == OfNothing
    case Success(Text(t)) => mem[at] == 0 && kind == OfText && PairOf(mem, at + 4, t)
    case Success(Response(status, hs, body)) => mem[at] == 0 && kind == OfResponse && ResponseOf(mem, at + 4, status, hs, body)
    case Failure(code) => mem[at] == 1 && CodeOf(mem, at + 4, v1, code)
    case Broken => false
  }

  lemma PairLoads(mem: Bytes, at: nat)
    ensures forall b :: LoadBytes(mem, at) == Some(b) <==> PairOf(mem, at, b)
  {
    forall n: nat ensures (Load32(mem, at) == Some(n) <==> Word(mem, at, n)) && (Load32(mem, at + 4) == Some(n) <==> Word(mem, at + 4, n)) {
      WordLoaded(mem, at, n);
      WordLoaded(mem, at + 4, n);
    }
    hide Load32, Word;
    forall b ensures LoadBytes(mem, at) == Some(b) <==> PairOf(mem, at, b) {
      if Load32(mem, at).Some? { SpanRead(mem, Load32(mem, at).value, b); }
    }
  }

  lemma RecordLoads(mem: Bytes, at: nat)
    ensures forall h :: LoadHeader(mem, at) == Some(h) <==> RecordOf(mem, at, h)
  {
    PairLoads(mem, at);
    PairLoads(mem, at + 8);
    hide LoadBytes, PairOf;
  }

  lemma {:induction false} RecordsLoad(mem: Bytes, list: nat, n: nat)
    ensures forall hs :: LoadHeaders(mem, list, n) == Some(hs) <==> |hs| == n && RecordsOf(mem, list, hs)
    decreases n
  {
    hide LoadHeader, RecordOf;
    if n > 0 {
      RecordsLoad(mem, list + 16, n - 1);
      RecordLoads(mem, list);
      forall hs ensures LoadHeaders(mem, list, n) == Some(hs) <==> |hs| == n && RecordsOf(mem, list, hs) {
        if |hs| == n {
          RecordsFrom(mem, list, hs);
          assert hs == [hs[0]] + hs[1..];
        }
      }
    }
  }

  lemma RecordsFrom(mem: Bytes, list: nat, hs: seq<Header>)
    requires hs != []
    ensures RecordsOf(mem, list, hs) <==> RecordOf(mem, list, hs[0]) && RecordsOf(mem, list + 16, hs[1..])
  {
    hide RecordOf;
    var rest := hs[1..];
    if RecordOf(mem, list, hs[0]) && RecordsOf(mem, list + 16, rest) {
      forall i | 0 <= i < |hs| ensures RecordOf(mem, list + 16 * i, hs[i]) {
        if i > 0 {
          assert RecordOf(mem, list + 16 + 16 * (i - 1), rest[i - 1]);
          assert list + 16 + 16 * (i - 1) == list + 16 * i;
        }
      }
    }
    if RecordsOf(mem, list, hs) {
      assert RecordOf(mem, list + 16 * 0, hs[0]);
      forall i | 0 <= i < |rest| ensures RecordOf(mem, list + 16 + 16 * i, rest[i]) {
        assert RecordOf(mem, list + 16 * (i + 1), hs[i + 1]);
        assert list + 16 + 16 * i == list + 16 * (i + 1);
      }
    }
  }

  /** The list that the two words at an address stand for. */
  function LoadedList(mem: Bytes, at: nat): Option<seq<Header>> {
    match (Load32(mem, at), Load32(mem, at + 4))
    case (Some(p), Some(n)) => LoadHeaders(mem, p, n)
    case _ => None
  }

  lemma ListLoads(mem: Bytes, at: nat)
    ensures forall hs :: LoadedList(mem, at) == Some(hs) <==> ListOf(mem, at, hs)
  {
    forall n: nat ensures (Load32(mem, at) == Some(n) <==> Word(mem, at, n)) && (Load32(mem, at + 4) == Some(n) <==> Word(mem, at + 4, n)) {
      WordLoaded(mem, at, n);
      WordLoaded(mem, at + 4, n);
    }
    if Load32(mem, at).Some? && Load32(mem, at + 4).Some? { RecordsLoad(mem, Load32(mem, at).value, Load32(mem, at + 4).value); }
    hide Load32, Word, LoadHeaders, RecordsOf;
  }

  lemma CodeLoads(mem: Bytes, at: nat, v1: bool, code: ErrorCode)
    ensures LoadCode(mem, at, v1) == Some(code) <==> CodeOf(mem, at, v1, code)
  {
    PairLoads(mem, at + 4);
    hide LoadBytes, PairOf;
  }

  lemma ResponseLoads(mem: Bytes, at: nat, r: Payload)
    ensures LoadResponse(mem, at) == Some(r) <==> r.Response? && ResponseOf(mem, at, r.status, r.headers, r.body)
  {
    PairLoads(mem, at + 12);
    ListLoads(mem, at + 4);
    PairWithin(mem, at + 12);
    ResponseParts(mem, at);
    hide LoadResponse, LoadedList, LoadBytes, PairOf, ListOf;
  }

  lemma ResponseParts(mem: Bytes, at: nat)
    ensures LoadBytes(mem, at + 12).Some? ==> at + 20 <= |mem|
    ensures LoadResponse(mem, at) ==
      if LoadedList(mem, at + 4).Some? && LoadBytes(mem, at + 12).Some? then
        Some(Response(mem[at] as nat + 256 * mem[at + 1] as nat, LoadedList(mem, at + 4).value, LoadBytes(mem, at + 12).value))
      else None
  {
    PairWithin(mem, at + 12);
    hide Load32, LoadHeaders, LoadBytes;
  }

  lemma PairWithin(mem: Bytes, at: nat)
    ensures LoadBytes(mem, at).Some? ==> at + 8 <= |mem|
  {
  }

  /** A plugin loads the answer that the bytes stand for, and traps exactly when they stand for none. */
  lemma LoadsExactly(mem: Bytes, at: nat, v1: bool, kind: Kind)
    ensures forall a :: LoadResult(mem, at, v1, kind) == Some(a) <==> Lies(mem, at, v1, kind, a)
  {
    forall a ensures LoadResult(mem, at, v1, kind) == Some(a) <==> Lies(mem, at, v1, kind, a) {
      LoadExactly(mem, at, v1, kind, a);
    }
  }

  lemma LoadExactly(mem: Bytes, at: nat, v1: bool, kind: Kind, a: Answer)
    ensures LoadResult(mem, at, v1, kind) == Some(a) <==> Lies(mem, at, v1, kind, a)
  {
    PairLoads(mem, at + 4);
    if a.Failure? { CodeLoads(mem, at + 4, v1, a.code); }
    if a.Success? { ResponseLoads(mem, at + 4, a.payload); }
    hide LoadBytes, PairOf, LoadCode, CodeOf, LoadResponse, ResponseOf;
  }

  /** What the plugin sees is what the host answered, but for an unavailable service in 0.1.0 and headers past the 64th. */
  lemma SeenExactly(v1: bool, a: Answer)
    ensures Seen(v1, a) == a <==>
      !(v1 && a.Failure? && a.code.Unavailable?) && (a.Success? && a.payload.Response? ==> |a.payload.headers| <= 64)
    ensures a.Success? && a.payload.Response? && |a.payload.headers| > 64 ==>
      Seen(v1, a) == Success(a.payload.(headers := a.payload.headers[..64]))
  {
  }
}

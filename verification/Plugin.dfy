/** A plugin instance, as the host functions work on it. */
module Plugin {
  import opened Prelude
  import opened Abi
  import opened AbiProof
  import opened AbiResults
  import opened AbiLayout

  /** What a step that may fault did to a guest. */
  ghost predicate Became<G>(expected: Result<Placed<G>, Fault>, r: Result<nat, Fault>, after: Guest<G>) {
    match expected case Ok(p) => r == Ok(p.at) && after == p.guest case Err(f) => r == Err(f)
  }

  class Instance<G(!new)> {
    var mem: Bytes
    var rest: G
    /** Host calls made in this invocation, and those that reached the host. */
    var calls: nat
    ghost var asked: nat
    const realloc: Realloc<G>

    ghost function View(): Guest<G>
      reads this
    {
      Guest(mem, rest)
    }

    /** No more than 64 calls reach the host. */
    ghost predicate Valid()
      reads this
    {
      asked <= calls && asked <= MAX_HOST_CALLS
    }

    constructor (mem: Bytes, rest: G, realloc: Realloc<G>)
      ensures View() == Guest(mem, rest) && this.realloc == realloc && calls == asked == 0 && Valid()
    {
      this.mem, this.rest, this.realloc, this.calls, this.asked := mem, rest, realloc, 0, 0;
    }

    method Begin() returns (ok: bool)
      requires Valid()
      modifies this`calls
      ensures Valid() && calls == old(calls) + 1
      ensures ok <==> old(calls) < MAX_HOST_CALLS
    {
      calls := calls + 1;
      ok := calls <= MAX_HOST_CALLS;
    }

    /** Calls the guest's cabi_realloc, which may change the guest as it likes. */
    method Allocate(align: nat, n: nat) returns (r: Option<nat>)
      modifies this`mem, this`rest
      ensures match realloc(old(View()), align, n)
        case None => r == None && View() == old(View())
        case Some((h, p)) => r == Some(U32(p)) && View() == h
    {
      match realloc(Guest(mem, rest), align, n)
      case None => r := None;
      case Some((h, p)) =>
        mem, rest := h.mem, h.rest;
        r := Some(U32(p));
    }

    method Write(at: nat, b: Bytes) returns (ok: bool)
      modifies this`mem
      ensures ok <==> at + |b| <= |old(mem)|
      ensures mem == if ok then Store(old(mem), at, b) else old(mem)
    {
      ok := at + |b| <= |mem|;
      if ok { mem := Store(mem, at, b); }
    }

    method Put(b: Bytes) returns (r: Result<nat, Fault>)
      modifies this`mem, this`rest
      ensures Became(Abi.Put(realloc, old(View()), b), r, View())
    {
      if |b| == 0 { return Ok(1); }
      var p := Allocate(1, |b|);
      if p.None? { return Err(Trapped); }
      var ok := Write(p.value, b);
      r := if ok then Ok(p.value) else Err(BadAllocation);
    }

    method ReadHeaders(ptr: nat, n: nat) returns (r: Result<seq<Header>, Fault>)
      ensures r == Abi.ReadHeaders(mem, ptr, n)
    {
      hide U32, ReadHeader;
      if n > MAX_HEADERS { return Err(TooManyHeaders); }
      var out: seq<Header> := [];
      for i := 0 to n
        invariant HeadersUpTo(mem, ptr, i) == Ok(out)
      {
        var h := HeaderAt(U32(ptr + 16 * i));
        if h.Err? {
          FaultStays(mem, ptr, i + 1, n);
          return Err(h.error);
        }
        out := out + [h.value];
      }
      r := Ok(out);
    }

    method HeaderAt(at: nat) returns (r: Result<Header, Fault>)
      ensures r == ReadHeader(mem, at)
    {
      hide U32, Load32, Str;
      var np, nn, vp, vn := Load32(mem, at), Load32(mem, U32(at + 4)), Load32(mem, U32(at + 8)), Load32(mem, U32(at + 12));
      if np.None? || nn.None? || vp.None? || vn.None? { return Err(HeaderOutOfBounds); }
      var name := Str(mem, np.value, nn.value);
      if name.Err? { return Err(name.error); }
      var value := Str(mem, vp.value, vn.value);
      if value.Err? { return Err(value.error); }
      r := Ok(Header(name.value, value.value));
    }

    method WriteHeader(at: nat, h: Header) returns (r: Result<nat, Fault>)
      modifies this`mem, this`rest
      ensures Became(Abi.WriteHeader(realloc, old(View()), at, h), r, View())
    {
      hide Abi.Put, Record, Store;
      var name := Put(h.name);
      if name.Err? { return Err(name.error); }
      var value := Put(h.value);
      if value.Err? { return Err(value.error); }
      var ok := Write(at, Record(name.value, |h.name|, value.value, |h.value|));
      r := if ok then Ok(at) else Err(BadAllocation);
    }

    method WriteHeaders(headers: seq<Header>) returns (r: Result<nat, Fault>)
      modifies this`mem, this`rest
      ensures Became(Abi.WriteHeaders(realloc, old(View()), headers), r, View())
    {
      var hs := headers;
      if |hs| > MAX_HEADERS { hs := hs[..MAX_HEADERS]; }
      assert hs == First(headers);
      hide First, U32, Abi.WriteHeader;
      if |hs| == 0 { return Ok(4); }
      var list := Allocate(4, 16 * |hs|);
      if list.None? { return Err(Trapped); }
      hide RecordsUpTo;
      r := WriteRecords(list.value, hs);
    }

    method WriteRecords(list: nat, hs: seq<Header>) returns (r: Result<nat, Fault>)
      modifies this`mem, this`rest
      ensures match RecordsUpTo(realloc, old(View()), list, hs, |hs|)
        case Ok(g) => r == Ok(list) && View() == g
        case Err(f) => r == Err(f)
    {
      hide U32, Abi.WriteHeader, RecordsUpTo;
      ghost var start := View();
      NoRecords(realloc, start, list, hs);
      for i := 0 to |hs|
        invariant RecordsUpTo(realloc, start, list, hs, i) == Ok(View())
      {
        ghost var g := View();
        var record := WriteHeader(U32(list + 16 * i), hs[i]);
        NextRecords(realloc, start, g, list, hs, i);
        if record.Err? {
          WriteFaultStays(realloc, start, list, hs, i + 1, |hs|, record.error);
          return Err(record.error);
        }
      }
      r := Ok(list);
    }

    /** A (pointer, length) pair for bytes placed in the guest, set in the result bytes. */
    method PutAt(buf: Bytes, offset: nat, b: Bytes) returns (r: Result<Bytes, Fault>)
      requires offset + 8 <= |buf|
      modifies this`mem, this`rest
      ensures Filled(Abi.PutAt(realloc, Encoded(old(View()), buf), offset, b), r, View())
    {
      hide Abi.Put, Bytes32, Store;
      var p := Put(b);
      if p.Err? { return Err(p.error); }
      r := Ok(Store(Store(buf, offset, Bytes32(p.value)), offset + 4, Bytes32(|b|)));
    }

    /** The result bytes of an answer, with what they point to placed in the guest. */
    method Fill(v1: bool, size: nat, answer: Answer) returns (r: Result<Bytes, Fault>)
      requires size >= if answer.Success? && answer.payload.Response? then RESPONSE_RESULT else SMALL_RESULT
      modifies this`mem, this`rest
      ensures Filled(Encode(realloc, old(View()), v1, size, answer), r, View())
    {
      hide Abi.PutAt, Abi.WriteHeaders, First;
      var buf := Zeros(size);
      match answer
      case Success(Nothing) => r := Ok(buf);
      case Success(Text(t)) => r := PutAt(buf, 4, t);
      case Success(Response(status, headers, body)) =>
        buf := Store(buf, 4, Bytes16(status));
        var list := WriteHeaders(headers);
        if list.Err? { return Err(list.error); }
        buf := Store(Store(buf, 8, Bytes32(list.value)), 12, Bytes32(|First(headers)|));
        r := PutAt(buf, 16, body);
      case Failure(code) =>
        var shown := Shown(v1, code);
        buf := buf[0 := 1][4 := Discriminant(shown)];
        if shown.Invalid? || shown.Unavailable? { r := PutAt(buf, 8, shown.message); } else { r := Ok(buf); }
      case Broken => r := Err(HostFailed);
    }

    method WriteResult(ret: nat, v1: bool, size: nat, answer: Answer) returns (fault: Option<Fault>)
      requires size >= if answer.Success? && answer.payload.Response? then RESPONSE_RESULT else SMALL_RESULT
      modifies this`mem, this`rest
      ensures Ended(Abi.WriteResult(realloc, old(View()), ret, v1, size, answer), fault, View())
    {
      hide Encode;
      var buf := Fill(v1, size, answer);
      if buf.Err? { return Some(buf.error); }
      var ok := Write(ret, buf.value);
      fault := if ok then None else Some(BadReturn);
    }

    method ReadRequest(verb: Span, url: Span, headers: Span, body: Span) returns (r: Result<Request, Fault>)
      ensures match r case Ok(q) => Asks(mem, verb, url, headers, body, q) case Err(f) => Wrong(mem, verb, url, headers, body, f)
      ensures r == Abi.ReadRequest(mem, verb, url, headers, body)
    {
      RequestExactly(mem, verb, url, headers, body);
      FaultExactly(mem, verb, url, headers, body);
      hide Str, Abi.ReadHeaders, ReadBytes, Asks, Wrong;
      var v := Str(mem, verb.ptr, verb.n);
      if v.Err? { return Err(v.error); }
      var u := Str(mem, url.ptr, url.n);
      if u.Err? { return Err(u.error); }
      var hs := ReadHeaders(headers.ptr, headers.n);
      if hs.Err? { return Err(hs.error); }
      var b := ReadBytes(mem, body.ptr, body.n);
      if b.Err? { return Err(b.error); }
      r := Ok(Request(v.value, u.value, hs.value, b.value));
    }

    /**
     * The http.send host function: reads the request, asks the host, and
     * writes its answer.  The host is asked the one request that the plugin
     * passed, if it passed one that is taken; the plugin then finds in its
     * memory what the host answered.
     */
    method Send(host: Request -> Answer, v1: bool, verb: Span, url: Span, headers: Span, body: Span, ret: nat, ghost owned: Owned<G>)
      returns (fault: Option<Fault>, ghost request: Option<Request>)
      requires Valid() && forall q :: OfKind(host(q), OfResponse)
      modifies this
      ensures Valid() && calls == old(calls) + 1
      ensures asked == old(asked) + if request.Some? then 1 else 0
      ensures old(calls) >= MAX_HOST_CALLS ==> fault == Some(TooManyCalls) && request == None
      ensures old(calls) < MAX_HOST_CALLS ==>
        && (forall q :: Asks(old(mem), verb, url, headers, body, q) <==> request == Some(q))
        && (request == None ==> fault.Some? && Wrong(old(mem), verb, url, headers, body, fault.value))
      ensures request.Some? ==>
        && Ended(Abi.WriteResult(realloc, old(View()), ret, v1, RESPONSE_RESULT, host(request.value)), fault, View())
        && (Honest(realloc, owned) && AllOwned(owned, old(View()), ret, ret + RESPONSE_RESULT) ==>
              match fault
              case None => Lies(mem, ret, v1, OfResponse, Seen(v1, host(request.value))) && Keeps(owned, old(View()), View(), ret, ret + RESPONSE_RESULT)
              case Some(f) => f == if host(request.value).Broken? then HostFailed else Trapped)
    {
      ghost var before := View();
      request := None;
      RequestExactly(mem, verb, url, headers, body);
      hide Asks, Wrong, Abi.ReadRequest, Abi.WriteResult, LoadResult, Honest, AllOwned, Keeps, Seen, Lies;
      var ok := Begin();
      if !ok { return Some(TooManyCalls), None; }
      var q := ReadRequest(verb, url, headers, body);
      if q.Err? { return Some(q.error), None; }
      request := Some(q.value);
      asked := asked + 1;
      if Honest(realloc, owned) && AllOwned(owned, before, ret, ret + RESPONSE_RESULT) {
        ResultRoundTrip(realloc, owned, before, ret, v1, OfResponse, host(q.value));
      }
      fault := WriteResult(ret, v1, RESPONSE_RESULT, host(q.value));
      LoadsExactly(mem, ret, v1, OfResponse);
    }
  }

  ghost predicate Ended<G>(expected: Result<Guest<G>, Fault>, fault: Option<Fault>, after: Guest<G>) {
    match expected case Ok(g) => fault == None && after == g case Err(f) => fault == Some(f)
  }

  ghost predicate Filled<G>(expected: Result<Encoded<G>, Fault>, r: Result<Bytes, Fault>, after: Guest<G>) {
    match expected case Ok(e) => r == Ok(e.buf) && after == e.guest case Err(f) => r == Err(f)
  }

  lemma NoRecords<G>(realloc: Realloc<G>, start: Guest<G>, list: nat, hs: seq<Header>)
    ensures RecordsUpTo(realloc, start, list, hs, 0) == Ok(start)
  {
  }

  lemma NextRecords<G>(realloc: Realloc<G>, start: Guest<G>, g: Guest<G>, list: nat, hs: seq<Header>, i: nat)
    requires i < |hs| && RecordsUpTo(realloc, start, list, hs, i) == Ok(g)
    ensures RecordsUpTo(realloc, start, list, hs, i + 1) ==
      match Abi.WriteHeader(realloc, g, U32(list + 16 * i), hs[i]) case Ok(p) => Ok(p.guest) case Err(f) => Err(f)
  {
  }

  lemma {:induction false} FaultStays(mem: Bytes, ptr: nat, i: nat, n: nat)
    requires i <= n && HeadersUpTo(mem, ptr, i).Err?
    ensures HeadersUpTo(mem, ptr, n) == HeadersUpTo(mem, ptr, i)
  {
    hide ReadHeader, U32;
    if i < n { FaultStays(mem, ptr, i, n - 1); }
  }

  lemma {:induction false} WriteFaultStays<G>(realloc: Realloc<G>, g: Guest<G>, list: nat, hs: seq<Header>, i: nat, n: nat, f: Fault)
    requires i <= n <= |hs| && RecordsUpTo(realloc, g, list, hs, i) == Err(f)
    ensures RecordsUpTo(realloc, g, list, hs, n) == Err(f)
  {
    hide Abi.WriteHeader, U32;
    if i < n { WriteFaultStays(realloc, g, list, hs, i, n - 1, f); }
  }
}

/**
 * The Canonical ABI between the host and a logic plugin, for the types of the
 * plugin world: bytes in guest memory, strings and lists as (pointer, length)
 * pairs, header records of 16 bytes, and results of 16 or 24 bytes.
 * The guest's cabi_realloc is any function of the guest's state; a fault ends
 * the invocation, so the state it leaves is not kept.
 */
module Abi {
  import opened Prelude

  type Bytes = seq<byte>

  const MAX_HEADERS := 64
  const MAX_STRING := 0x10_0000
  const MAX_HOST_CALLS := 64
  const SMALL_RESULT := 16
  const RESPONSE_RESULT := 24

  /** A guest: its memory, and the rest of its state. */
  datatype Guest<G> = Guest(mem: Bytes, rest: G)

  /** cabi_realloc on an alignment and a size: the guest after it and the pointer, or a trap. */
  type Realloc<!G> = (Guest<G>, nat, nat) -> Option<(Guest<G>, nat)>

  datatype Fault = Trapped | BadAllocation | TooManyHeaders | HeaderOutOfBounds | BadString | BadBytes | BadReturn | TooManyCalls | HostFailed

  datatype Header = Header(name: Bytes, value: Bytes)

  datatype ErrorCode = Denied | NotFound | Invalid(message: Bytes) | Unavailable(message: Bytes)

  type Status = n: nat | n < 0x1_0000

  datatype Payload = Nothing | Text(text: Bytes) | Response(status: Status, headers: seq<Header>, body: Bytes)

  /** What the host answered: a value, an error the plugin may see, or a failure of its own. */
  datatype Answer = Success(payload: Payload) | Failure(code: ErrorCode) | Broken

  datatype Placed<G> = Placed(guest: Guest<G>, at: nat)

  // ----- Bytes ---------------------------------------------------------------

  function U32(n: int): nat { n % 0x1_0000_0000 }

  /** A 32-bit value, least significant byte first. */
  function Bytes32(n: int): (r: Bytes)
    ensures |r| == 4
  {
    [(n % 256) as byte, (n / 256 % 256) as byte, (n / 65536 % 256) as byte, (n / 16777216 % 256) as byte]
  }

  function Bytes16(n: int): Bytes { [(n % 256) as byte, (n / 256 % 256) as byte] }

  function Value32(a: byte, b: byte, c: byte, d: byte): nat {
    a as int + 256 * b as int + 65536 * c as int + 16777216 * d as int
  }

  function Zeros(n: nat): Bytes { seq(n, _ => 0) }

  function Read(mem: Bytes, at: nat, n: nat): Option<Bytes> {
    if at + n <= |mem| then Some(mem[at..at + n]) else None
  }

  function Load32(mem: Bytes, at: nat): Option<nat> {
    if at + 4 <= |mem| then Some(Value32(mem[at], mem[at + 1], mem[at + 2], mem[at + 3])) else None
  }

  function Store(mem: Bytes, at: nat, b: Bytes): (r: Bytes)
    requires at + |b| <= |mem|
    ensures |r| == |mem|
  {
    mem[..at] + b + mem[at + |b|..]
  }

  // ----- Strings and lists ---------------------------------------------------

  predicate Continues(b: Bytes, i: nat, n: nat) {
    i + n <= |b| && forall k :: i <= k < i + n ==> 0x80 <= b[k] < 0xC0
  }

  /** The length of the UTF-8 sequence at the start, or 0 if there is none. */
  function RuneLength(b: Bytes): nat {
    if b == [] then 0
    else if b[0] < 0x80 then 1
    else if b[0] < 0xC2 then 0
    else if b[0] < 0xE0 then (if Continues(b, 1, 1) then 2 else 0)
    else if b[0] < 0xF0 then
      (if Continues(b, 1, 2) && (b[0] == 0xE0 ==> b[1] >= 0xA0) && (b[0] == 0xED ==> b[1] < 0xA0) then 3 else 0)
    else if b[0] < 0xF5 then
      (if Continues(b, 1, 3) && (b[0] == 0xF0 ==> b[1] >= 0x90) && (b[0] == 0xF4 ==> b[1] < 0x90) then 4 else 0)
    else 0
  }

  predicate ValidUtf8(b: Bytes) {
    b == [] || (0 < RuneLength(b) <= |b| && ValidUtf8(b[RuneLength(b)..]))
  }

  /** A list of bytes the plugin passes the host. */
  function ReadBytes(mem: Bytes, ptr: nat, n: nat): Result<Bytes, Fault> {
    if n > MAX_STRING then Err(BadBytes)
    else match Read(mem, ptr, n) case None => Err(BadBytes) case Some(b) => Ok(b)
  }

  /** A string argument the plugin passes the host. */
  function Str(mem: Bytes, ptr: nat, n: nat): Result<Bytes, Fault> {
    if n > MAX_STRING then Err(BadString)
    else match Read(mem, ptr, n)
      case None => Err(BadString)
      case Some(b) => if ValidUtf8(b) then Ok(b) else Err(BadString)
  }

  function Put<G>(realloc: Realloc<G>, g: Guest<G>, b: Bytes): Result<Placed<G>, Fault> {
    if b == [] then Ok(Placed(g, 1))
    else match realloc(g, 1, |b|)
      case None => Err(Trapped)
      case Some((h, p)) => Write(h, U32(p), b)
  }

  /** Writes bytes that an allocation was made for. */
  function Write<G>(g: Guest<G>, at: nat, b: Bytes): Result<Placed<G>, Fault> {
    if at + |b| <= |g.mem| then Ok(Placed(Guest(Store(g.mem, at, b), g.rest), at)) else Err(BadAllocation)
  }

  // ----- Headers -------------------------------------------------------------

  function ReadHeader(mem: Bytes, at: nat): Result<Header, Fault> {
    match (Load32(mem, at), Load32(mem, U32(at + 4)), Load32(mem, U32(at + 8)), Load32(mem, U32(at + 12)))
    case (Some(np), Some(nn), Some(vp), Some(vn)) =>
      (match Str(mem, np, nn)
       case Err(e) => Err(e)
       case Ok(name) => match Str(mem, vp, vn)
         case Err(e) => Err(e)
         case Ok(value) => Ok(Header(name, value)))
    case _ => Err(HeaderOutOfBounds)
  }

  /** The first k headers of a list. */
  function HeadersUpTo(mem: Bytes, ptr: nat, k: nat): Result<seq<Header>, Fault> {
    if k == 0 then Ok([])
    else match HeadersUpTo(mem, ptr, k - 1)
      case Err(e) => Err(e)
      case Ok(hs) => match ReadHeader(mem, U32(ptr + 16 * (k - 1)))
        case Err(e) => Err(e)
        case Ok(h) => Ok(hs + [h])
  }

  function ReadHeaders(mem: Bytes, ptr: nat, n: nat): Result<seq<Header>, Fault> {
    if n > MAX_HEADERS then Err(TooManyHeaders) else HeadersUpTo(mem, ptr, n)
  }

  function Record(np: nat, nn: nat, vp: nat, vn: nat): Bytes {
    Bytes32(np) + Bytes32(nn) + Bytes32(vp) + Bytes32(vn)
  }

  function WriteHeader<G>(realloc: Realloc<G>, g: Guest<G>, at: nat, h: Header): Result<Placed<G>, Fault> {
    match Put(realloc, g, h.name)
    case Err(e) => Err(e)
    case Ok(name) => match Put(realloc, name.guest, h.value)
      case Err(e) => Err(e)
      case Ok(value) => Write(value.guest, at, Record(name.at, |h.name|, value.at, |h.value|))
  }

  /** The guest after the first k records of a list were written. */
  function RecordsUpTo<G>(realloc: Realloc<G>, g: Guest<G>, list: nat, hs: seq<Header>, k: nat): Result<Guest<G>, Fault>
    requires k <= |hs|
  {
    if k == 0 then Ok(g)
    else match RecordsUpTo(realloc, g, list, hs, k - 1)
      case Err(e) => Err(e)
      case Ok(h) => match WriteHeader(realloc, h, U32(list + 16 * (k - 1)), hs[k - 1])
        case Err(e) => Err(e)
        case Ok(p) => Ok(p.guest)
  }

  function First(hs: seq<Header>): (r: seq<Header>)
    ensures r <= hs && |r| == Min(|hs|, MAX_HEADERS)
  {
    if |hs| > MAX_HEADERS then hs[..MAX_HEADERS] else hs
  }

  /** Writes a list of headers: the guest and the list's pointer; its length is that of the first 64. */
  function WriteHeaders<G>(realloc: Realloc<G>, g: Guest<G>, hs: seq<Header>): Result<Placed<G>, Fault> {
    var kept := First(hs);
    if kept == [] then Ok(Placed(g, 4))
    else match realloc(g, 4, 16 * |kept|)
      case None => Err(Trapped)
      case Some((h, p)) => match RecordsUpTo(realloc, h, U32(p), kept, |kept|)
        case Err(e) => Err(e)
        case Ok(after) => Ok(Placed(after, U32(p)))
  }

  // ----- Requests ------------------------------------------------------------

  datatype Request = Request(verb: Bytes, url: Bytes, headers: seq<Header>, body: Bytes)

  /** A (pointer, length) pair among the arguments. */
  datatype Span = Span(ptr: nat, n: nat)

  /** What a plugin asks of the network. */
  function ReadRequest(mem: Bytes, verb: Span, url: Span, headers: Span, body: Span): Result<Request, Fault> {
    match Str(mem, verb.ptr, verb.n)
    case Err(f) => Err(f)
    case Ok(v) => match Str(mem, url.ptr, url.n)
      case Err(f) => Err(f)
      case Ok(u) => match ReadHeaders(mem, headers.ptr, headers.n)
        case Err(f) => Err(f)
        case Ok(hs) => match ReadBytes(mem, body.ptr, body.n)
          case Err(f) => Err(f)
          case Ok(b) => Ok(Request(v, u, hs, b))
  }

  // ----- Results -------------------------------------------------------------

  /** How a version of the world shows an error: 0.1.0 has no unavailable. */
  function Shown(v1: bool, code: ErrorCode): ErrorCode {
    if v1 && code.Unavailable? then Invalid(UNAVAILABLE + code.message) else code
  }

  const UNAVAILABLE: Bytes := [117, 110, 97, 118, 97, 105, 108, 97, 98, 108, 101, 58, 32]

  function Discriminant(code: ErrorCode): byte {
    match code case Denied => 0 case NotFound => 1 case Invalid(_) => 2 case Unavailable(_) => 3
  }

  /** A guest and the result bytes to write in it. */
  datatype Encoded<G> = Encoded(guest: Guest<G>, buf: Bytes)

  /** A (pointer, length) pair for bytes placed in the guest, at an offset of the result. */
  function PutAt<G>(realloc: Realloc<G>, e: Encoded<G>, offset: nat, b: Bytes): Result<Encoded<G>, Fault>
    requires offset + 8 <= |e.buf|
  {
    match Put(realloc, e.guest, b)
    case Err(f) => Err(f)
    case Ok(p) => Ok(Encoded(p.guest, Store(Store(e.buf, offset, Bytes32(p.at)), offset + 4, Bytes32(|b|))))
  }

  function EncodePayload<G>(realloc: Realloc<G>, g: Guest<G>, size: nat, payload: Payload): Result<Encoded<G>, Fault>
    requires size >= if payload.Response? then RESPONSE_RESULT else SMALL_RESULT
  {
    match payload
    case Nothing => Ok(Encoded(g, Zeros(size)))
    case Text(t) => PutAt(realloc, Encoded(g, Zeros(size)), 4, t)
    case Response(status, headers, body) =>
      var buf := Store(Zeros(size), 4, Bytes16(status));
      match WriteHeaders(realloc, g, headers)
      case Err(f) => Err(f)
      case Ok(list) => PutAt(realloc, Encoded(list.guest, Store(Store(buf, 8, Bytes32(list.at)), 12, Bytes32(|First(headers)|))), 16, body)
  }

  function EncodeError<G>(realloc: Realloc<G>, g: Guest<G>, size: nat, code: ErrorCode): Result<Encoded<G>, Fault>
    requires size >= SMALL_RESULT
  {
    var e := Encoded(g, Zeros(size)[0 := 1][4 := Discriminant(code)]);
    if code.Invalid? || code.Unavailable? then PutAt(realloc, e, 8, code.message) else Ok(e)
  }

  function Encode<G>(realloc: Realloc<G>, g: Guest<G>, v1: bool, size: nat, answer: Answer): Result<Encoded<G>, Fault>
    requires size >= if answer.Success? && answer.payload.Response? then RESPONSE_RESULT else SMALL_RESULT
  {
    match answer
    case Success(payload) => EncodePayload(realloc, g, size, payload)
    case Failure(code) => EncodeError(realloc, g, size, Shown(v1, code))
    case Broken => Err(HostFailed)
  }

  function WriteResult<G>(realloc: Realloc<G>, g: Guest<G>, ret: nat, v1: bool, size: nat, answer: Answer): Result<Guest<G>, Fault>
    requires size >= if answer.Success? && answer.payload.Response? then RESPONSE_RESULT else SMALL_RESULT
  {
    match Encode(realloc, g, v1, size, answer)
    case Err(f) => Err(f)
    case Ok(e) =>
      if ret + |e.buf| <= |e.guest.mem| then Ok(Guest(Store(e.guest.mem, ret, e.buf), e.guest.rest)) else Err(BadReturn)
  }

  // ----- What a plugin loads -------------------------------------------------

  datatype Kind = OfNothing | OfText | OfResponse

  function LoadBytes(mem: Bytes, at: nat): Option<Bytes> {
    match (Load32(mem, at), Load32(mem, at + 4))
    case (Some(p), Some(n)) => Read(mem, p, n)
    case _ => None
  }

  function LoadHeader(mem: Bytes, at: nat): Option<Header> {
    match (LoadBytes(mem, at), LoadBytes(mem, at + 8))
    case (Some(name), Some(value)) => Some(Header(name, value))
    case _ => None
  }

  function LoadHeaders(mem: Bytes, at: nat, n: nat): Option<seq<Header>>
    decreases n
  {
    if n == 0 then Some([])
    else match (LoadHeader(mem, at), LoadHeaders(mem, at + 16, n - 1))
      case (Some(h), Some(rest)) => Some([h] + rest)
      case _ => None
  }

  function LoadCode(mem: Bytes, at: nat, v1: bool): Option<ErrorCode> {
    if at >= |mem| then None
    else if mem[at] == 0 then Some(Denied)
    else if mem[at] == 1 then Some(NotFound)
    else if mem[at] == 2 || (mem[at] == 3 && !v1) then
      match LoadBytes(mem, at + 4)
      case None => None
      case Some(m) => Some(if mem[at] == 2 then Invalid(m) else Unavailable(m))
    else None
  }

  function LoadResponse(mem: Bytes, at: nat): Option<Payload> {
    match (Load32(mem, at + 4), Load32(mem, at + 8), LoadBytes(mem, at + 12))
    case (Some(p), Some(n), Some(body)) =>
      (match LoadHeaders(mem, p, n)
       case None => None
       case Some(hs) => Some(Response(mem[at] as nat + 256 * mem[at + 1] as nat, hs, body)))
    case _ => None
  }

  /** A result as the Canonical ABI loads it in a version of the world; None is a trap. */
  function LoadResult(mem: Bytes, ret: nat, v1: bool, kind: Kind): Option<Answer> {
    if ret >= |mem| then None
    else if mem[ret] == 1 then
      match LoadCode(mem, ret + 4, v1) case None => None case Some(c) => Some(Failure(c))
    else if mem[ret] != 0 then None
    else match kind
      case OfNothing => Some(Success(Nothing))
      case OfText => (match LoadBytes(mem, ret + 4) case None => None case Some(t) => Some(Success(Text(t))))
      case OfResponse => match LoadResponse(mem, ret + 4) case None => None case Some(r) => Some(Success(r))
  }

  /** What the plugin is to see of an answer. */
  function Seen(v1: bool, answer: Answer): Answer {
    match answer
    case Failure(code) => Failure(Shown(v1, code))
    case Success(Response(status, headers, body)) => Success(Response(status, First(headers), body))
    case _ => answer
  }

  predicate OfKind(answer: Answer, kind: Kind) {
    answer.Success? ==>
      match answer.payload case Nothing => kind == OfNothing case Text(_) => kind == OfText case Response(_, _, _) => kind == OfResponse
  }

  function Size(kind: Kind): nat { if kind == OfResponse then RESPONSE_RESULT else SMALL_RESULT }
}

/**
 * The workflow ID of an agent's write: the tool, the escaped agent and the
 * agent's request ID.  Percent-encoding is that of section 2.1 of RFC 3986.
 */
module WriteId {
  import opened Prelude

  type Text = seq<byte>

  const SLASH: byte := 0x2f
  const COLON: byte := 0x3a
  const PERCENT: byte := 0x25

  /** What url.PathEscape leaves alone in a path segment: unreserved characters and $ & + = : @. */
  predicate Plain(c: byte) {
    0x61 <= c <= 0x7a || 0x41 <= c <= 0x5a || 0x30 <= c <= 0x39 ||
    c in {0x2d, 0x5f, 0x2e, 0x7e} || c in {0x24, 0x26, 0x2b, 0x3d, 0x3a, 0x40}
  }

  function Hex(n: int): byte
    requires 0 <= n < 16
  {
    if n < 10 then (0x30 + n) as byte else (0x41 + n - 10) as byte
  }

  /** The value of a hexadecimal digit in either case. */
  function Unhex(c: byte): Option<int> {
    if 0x30 <= c <= 0x39 then Some(c as int - 0x30)
    else if 0x61 <= c <= 0x66 then Some(c as int - 0x61 + 10)
    else if 0x41 <= c <= 0x46 then Some(c as int - 0x41 + 10)
    else None
  }

  function EscapeByte(c: byte): Text {
    if Plain(c) then [c] else [PERCENT, Hex(c as int / 16), Hex(c as int % 16)]
  }

  function PathEscape(s: Text): Text {
    if s == [] then [] else EscapeByte(s[0]) + PathEscape(s[1..])
  }

  function ReplaceByte(x: byte, c: byte, with: Text): Text { if x == c then with else [x] }

  /** strings.ReplaceAll for a single byte. */
  function ReplaceAll(s: Text, c: byte, with: Text): Text {
    if s == [] then [] else ReplaceByte(s[0], c, with) + ReplaceAll(s[1..], c, with)
  }

  /** The agent's part: a colon is escaped too, so the first colon always ends it. */
  function EscapeAgent(agent: Text): Text {
    ReplaceAll(PathEscape(agent), COLON, [PERCENT, 0x33, 0x41])
  }

  function WriteID(tool: Text, agent: Text, requestID: Text): Text {
    tool + [SLASH] + EscapeAgent(agent) + [COLON] + requestID
  }

  function PathUnescape(s: Text): Option<Text> {
    if s == [] then Some([])
    else if s[0] == PERCENT then
      if |s| < 3 || Unhex(s[1]).None? || Unhex(s[2]).None? then None
      else
        match PathUnescape(s[3..])
        case None => None
        case Some(rest) => Some([(16 * Unhex(s[1]).value + Unhex(s[2]).value) as byte] + rest)
    else
      match PathUnescape(s[1..])
      case None => None
      case Some(rest) => Some([s[0]] + rest)
  }

  /** strings.Cut: the text around the first separator. */
  function Cut(s: Text, sep: byte): Option<(Text, Text)> {
    if s == [] then None
    else if s[0] == sep then Some(([], s[1..]))
    else
      match Cut(s[1..], sep)
      case None => None
      case Some((before, after)) => Some(([s[0]] + before, after))
  }

  /** The tool and the agent a write workflow belongs to. */
  function WriteOwner(id: Text): Option<(Text, Text)> {
    match Cut(id, SLASH)
    case None => None
    case Some((tool, rest)) =>
      match Cut(rest, COLON)
      case None => None
      case Some((escaped, _)) =>
        match PathUnescape(escaped)
        case None => None
        case Some(agent) => if tool != [] && agent != [] then Some((tool, agent)) else None
  }

  /** The request ID of a task: what follows the first colon after the tool's name. */
  function RequestOf(id: Text, tool: Text): Option<Text> {
    var rest := if tool + [SLASH] <= id then id[|tool| + 1..] else id;
    match Cut(rest, COLON)
    case None => None
    case Some((_, requestID)) => Some(requestID)
  }

  // ----- Laws ----------------------------------------------------------------

  lemma {:induction false} CutFirst(before: Text, sep: byte, after: Text)
    requires sep !in before
    ensures Cut(before + [sep] + after, sep) == Some((before, after))
  {
    var s := before + [sep] + after;
    if before == [] {
      assert s[1..] == after;
    } else {
      CutFirst(before[1..], sep, after);
      assert s[1..] == before[1..] + [sep] + after;
      assert before == [before[0]] + before[1..];
    }
  }

  /** Cutting never takes a separator into the first part. */
  lemma {:induction false} CutClean(s: Text, sep: byte)
    ensures Cut(s, sep).Some? ==> sep !in Cut(s, sep).value.0
  {
    if s != [] && s[0] != sep { CutClean(s[1..], sep); }
  }

  lemma {:induction false} ReplaceConcat(a: Text, b: Text, c: byte, with: Text)
    ensures ReplaceAll(a + b, c, with) == ReplaceAll(a, c, with) + ReplaceAll(b, c, with)
  {
    hide ReplaceByte;
    if a == [] {
      assert a + b == b;
    } else {
      ReplaceConcat(a[1..], b, c, with);
      assert (a + b)[0] == a[0] && (a + b)[1..] == a[1..] + b;
      assert ReplaceAll(a + b, c, with) == ReplaceByte(a[0], c, with) + (ReplaceAll(a[1..], c, with) + ReplaceAll(b, c, with));
    }
  }

  /** How one byte of the agent's name comes out. */
  function Escaped(c: byte): Text {
    if c == COLON then [PERCENT, 0x33, 0x41] else EscapeByte(c)
  }

  lemma EscapedByte(c: byte)
    ensures ReplaceAll(EscapeByte(c), COLON, [PERCENT, 0x33, 0x41]) == Escaped(c)
  {
    var e := EscapeByte(c);
    var with: Text := [PERCENT, 0x33, 0x41];
    if Plain(c) {
      assert e[1..] == [];
    } else {
      var x, y := e[1], e[2];
      assert x != COLON && y != COLON;
      assert e[1..] == [x, y] && [x, y][1..] == [y] && [y][1..] == [];
      assert ReplaceAll([y], COLON, with) == [y] + ReplaceAll([], COLON, with);
      assert ReplaceAll([x, y], COLON, with) == [x] + ReplaceAll([y], COLON, with);
    }
  }

  lemma EscapeAgentStep(agent: Text)
    requires agent != []
    ensures EscapeAgent(agent) == Escaped(agent[0]) + EscapeAgent(agent[1..])
  {
    ReplaceConcat(EscapeByte(agent[0]), PathEscape(agent[1..]), COLON, [PERCENT, 0x33, 0x41]);
    EscapedByte(agent[0]);
  }

  lemma UnescapeStep(c: byte, rest: Text)
    ensures PathUnescape(Escaped(c) + rest) ==
            match PathUnescape(rest) case None => None case Some(r) => Some([c] + r)
    ensures COLON !in Escaped(c) && SLASH !in Escaped(c)
  {
    var s := Escaped(c) + rest;
    if Plain(c) && c != COLON {
      assert s[1..] == rest;
    } else {
      assert s[0] == PERCENT && s[3..] == rest;
      assert Unhex(s[1]) == Some(c as int / 16) && Unhex(s[2]) == Some(c as int % 16);
    }
  }

  /** The escaped agent has no separator in it and unescapes to the agent. */
  lemma {:induction false} AgentRoundTrip(agent: Text)
    ensures PathUnescape(EscapeAgent(agent)) == Some(agent)
    ensures COLON !in EscapeAgent(agent) && SLASH !in EscapeAgent(agent)
  {
    if agent != [] {
      EscapeAgentStep(agent);
      AgentRoundTrip(agent[1..]);
      UnescapeStep(agent[0], EscapeAgent(agent[1..]));
      assert agent == [agent[0]] + agent[1..];
    }
  }

  const DIGITS: Text := [0x30, 0x31, 0x32, 0x33, 0x34, 0x35, 0x36, 0x37, 0x38, 0x39, 0x41, 0x42, 0x43, 0x44, 0x45, 0x46]
  const LOWER_DIGITS: Text := [0x30, 0x31, 0x32, 0x33, 0x34, 0x35, 0x36, 0x37, 0x38, 0x39, 0x61, 0x62, 0x63, 0x64, 0x65, 0x66]

  /** The unreserved characters of section 2.3 of RFC 3986, and $ & + = @. */
  predicate Safe(c: byte) {
    || 0x41 <= c <= 0x5a || 0x61 <= c <= 0x7a || 0x30 <= c <= 0x39
    || c == 0x2d || c == 0x2e || c == 0x5f || c == 0x7e
    || c == 0x24 || c == 0x26 || c == 0x2b || c == 0x3d || c == 0x40
  }

  /**
   * Names are escaped byte by byte: a safe one stays, any other becomes a
   * percent sign and its two digits in upper case; so a name stays as it is
   * exactly when all its bytes are safe.
   */
  lemma {:induction false} EscapedExactly(agent: Text)
    ensures EscapeAgent([]) == []
    ensures agent != [] ==>
      var c := agent[0];
      EscapeAgent(agent) == (if Safe(c) then [c] else [PERCENT, DIGITS[c as int / 16], DIGITS[c as int % 16]]) + EscapeAgent(agent[1..])
    ensures EscapeAgent(agent) == agent <==> forall i :: 0 <= i < |agent| ==> Safe(agent[i])
    ensures |EscapeAgent(agent)| >= |agent|
  {
    if agent != [] {
      EscapeAgentStep(agent);
      EscapedExactly(agent[1..]);
      EscapedIs(agent[0]);
      hide EscapeAgent, Escaped, Safe;
      FirstAndRest(agent, EscapeAgent(agent), EscapeAgent(agent[1..]));
    }
  }

  lemma FirstAndRest(agent: Text, e: Text, rest: Text)
    requires agent != [] && |rest| >= |agent| - 1
    requires var c := agent[0];
      e == (if Safe(c) then [c] else [PERCENT, DIGITS[c as int / 16], DIGITS[c as int % 16]]) + rest
    ensures e == agent <==> Safe(agent[0]) && rest == agent[1..]
    ensures (forall i :: 0 <= i < |agent| ==> Safe(agent[i])) <==> Safe(agent[0]) && forall i :: 0 <= i < |agent[1..]| ==> Safe(agent[1..][i])
  {
    hide Safe;
    var tail := agent[1..];
    assert agent == [agent[0]] + tail;
    if Safe(agent[0]) { assert e[1..] == rest; }
    if Safe(agent[0]) && forall i :: 0 <= i < |tail| ==> Safe(tail[i]) {
      forall i | 0 <= i < |agent| ensures Safe(agent[i]) {
        if i > 0 { assert agent[i] == tail[i - 1]; }
      }
    }
  }

  lemma EscapedIs(c: byte)
    ensures Escaped(c) == if Safe(c) then [c] else [PERCENT, DIGITS[c as int / 16], DIGITS[c as int % 16]]
  {
  }

  /** Hexadecimal digits are read in either case, and nothing else is. */
  lemma UnhexExactly(c: byte, v: int)
    requires 0 <= v < 16
    ensures Unhex(c) == Some(v) <==> c == DIGITS[v] || c == LOWER_DIGITS[v]
    ensures Unhex(c).Some? ==> 0 <= Unhex(c).value < 16
  {
  }

  /** The owner read from a write's ID is the tool and agent it was made for, exactly when the names are not empty and the tool has no slash. */
  lemma OwnerRoundTrip(tool: Text, agent: Text, requestID: Text)
    ensures WriteOwner(WriteID(tool, agent, requestID)) == Some((tool, agent)) <==> tool != [] && agent != [] && SLASH !in tool
    ensures RequestOf(WriteID(tool, agent, requestID), tool) == Some(requestID)
  {
    var id := WriteID(tool, agent, requestID);
    var rest := EscapeAgent(agent) + [COLON] + requestID;
    AgentRoundTrip(agent);
    assert id == tool + [SLASH] + rest;
    CutFirst(EscapeAgent(agent), COLON, requestID);
    assert tool + [SLASH] <= id && id[|tool| + 1..] == rest;
    if SLASH !in tool {
      CutFirst(tool, SLASH, rest);
    } else {
      CutClean(id, SLASH);
    }
  }

  /** Distinct requests never share a workflow. */
  lemma WriteIdsDistinct(tool: Text, agent: Text, requestID: Text, tool': Text, agent': Text, requestID': Text)
    requires SLASH !in tool && SLASH !in tool' && WriteID(tool, agent, requestID) == WriteID(tool', agent', requestID')
    ensures tool == tool' && agent == agent' && requestID == requestID'
  {
    AgentRoundTrip(agent);
    AgentRoundTrip(agent');
    var rest, rest' := EscapeAgent(agent) + [COLON] + requestID, EscapeAgent(agent') + [COLON] + requestID';
    assert WriteID(tool, agent, requestID) == tool + [SLASH] + rest;
    assert WriteID(tool', agent', requestID') == tool' + [SLASH] + rest';
    CutFirst(tool, SLASH, rest);
    CutFirst(tool', SLASH, rest');
    CutFirst(EscapeAgent(agent), COLON, requestID);
    CutFirst(EscapeAgent(agent'), COLON, requestID');
  }
}

/** The request parser of http_server/src/request_parser.{hpp,cpp}: a byte-driven
    state machine that appends to a request object. */
module HttpParser {
  import opened Bytes

  const CR: Byte := 13
  const LF: Byte := 10
  const SP: Byte := 32
  const HT: Byte := 9
  const COLON: Byte := 58
  const DOT: Byte := 46
  const SLASH: Byte := 47
  const ZERO: Byte := 48

  datatype Header = Header(name: seq<Byte>, value: seq<Byte>)

  /** The fields of `struct request`. */
  datatype Fields = Fields(method_: seq<Byte>, uri: seq<Byte>, major: int, minor: int, headers: seq<Header>)

  datatype State =
    | MethodStart | Method | Uri
    | VersionH | VersionT1 | VersionT2 | VersionP | VersionSlash
    | MajorStart | Major | MinorStart | Minor | ExpectingNewline1
    | HeaderLineStart | HeaderLws | HeaderName | SpaceBeforeHeaderValue | HeaderValue
    | ExpectingNewline2 | ExpectingNewline3

  datatype Verdict = Good | Bad | Indeterminate

  // ----- character classes -----

  predicate IsChar(c: Byte) { 0 <= c <= 127 }

  predicate IsCtl(c: Byte) { 0 <= c <= 31 || c == 127 }

  /** ( ) < > @ , ; : \ " / [ ] ? = { } SP HT */
  predicate IsTspecial(c: Byte) {
    c in {40, 41, 60, 62, 64, 44, 59, 58, 92, 34, 47, 91, 93, 63, 61, 123, 125, 32, 9}
  }

  predicate IsDigit(c: Byte) { 48 <= c <= 57 }

  /** What may stand in a method or a header name. */
  predicate IsTokenChar(c: Byte) {
    IsChar(c) && !IsCtl(c) && !IsTspecial(c)
  }

  // ----- one byte -----

  /** In the states that append to the last header there is one. */
  predicate HasHeader(state: State, req: Fields) {
    state in {HeaderLws, HeaderName, SpaceBeforeHeaderValue, HeaderValue} ==> req.headers != []
  }

  function AppendName(req: Fields, c: Byte): Fields
    requires req.headers != []
  {
    var last := |req.headers| - 1;
    req.(headers := req.headers[last := req.headers[last].(name := req.headers[last].name + [c])])
  }

  function AppendValue(req: Fields, c: Byte): Fields
    requires req.headers != []
  {
    var last := |req.headers| - 1;
    req.(headers := req.headers[last := req.headers[last].(value := req.headers[last].value + [c])])
  }

  function Expect(c: Byte, wanted: Byte, state: State, next: State, req: Fields): (Verdict, State, Fields) {
    if c == wanted then (Indeterminate, next, req) else (Bad, state, req)
  }

  /** `consume` as a function of the state, the request so far and the byte. */
  function Step(state: State, req: Fields, c: Byte): (r: (Verdict, State, Fields))
    requires HasHeader(state, req)
    ensures HasHeader(r.1, r.2)
  {
    match state
    case MethodStart =>
      if !IsTokenChar(c) then (Bad, state, req)
      else (Indeterminate, Method, req.(method_ := req.method_ + [c]))
    case Method =>
      if c == SP then (Indeterminate, Uri, req)
      else if !IsTokenChar(c) then (Bad, state, req)
      else (Indeterminate, Method, req.(method_ := req.method_ + [c]))
    case Uri =>
      if c == SP then (Indeterminate, VersionH, req)
      else if IsCtl(c) then (Bad, state, req)
      else (Indeterminate, Uri, req.(uri := req.uri + [c]))
    case VersionH => Expect(c, 72, state, VersionT1, req)
    case VersionT1 => Expect(c, 84, state, VersionT2, req)
    case VersionT2 => Expect(c, 84, state, VersionP, req)
    case VersionP => Expect(c, 80, state, VersionSlash, req)
    case VersionSlash => Expect(c, SLASH, state, MajorStart, if c == SLASH then req.(major := 0, minor := 0) else req)
    case MajorStart =>
      if IsDigit(c) then (Indeterminate, Major, req.(major := req.major * 10 + c - ZERO))
      else (Bad, state, req)
    case Major =>
      if c == DOT then (Indeterminate, MinorStart, req)
      else if IsDigit(c) then (Indeterminate, Major, req.(major := req.major * 10 + c - ZERO))
      else (Bad, state, req)
    case MinorStart =>
      if IsDigit(c) then (Indeterminate, Minor, req.(minor := req.minor * 10 + c - ZERO))
      else (Bad, state, req)
    case Minor =>
      if c == CR then (Indeterminate, ExpectingNewline1, req)
      else if IsDigit(c) then (Indeterminate, Minor, req.(minor := req.minor * 10 + c - ZERO))
      else (Bad, state, req)
    case ExpectingNewline1 => Expect(c, LF, state, HeaderLineStart, req)
    case HeaderLineStart =>
      if c == CR then (Indeterminate, ExpectingNewline3, req)
      else if req.headers != [] && (c == SP || c == HT) then (Indeterminate, HeaderLws, req)
      else if !IsTokenChar(c) then (Bad, state, req)
      else (Indeterminate, HeaderName, req.(headers := req.headers + [Header([c], [])]))
    case HeaderLws =>
      if c == CR then (Indeterminate, ExpectingNewline2, req)
      else if c == SP || c == HT then (Indeterminate, HeaderLws, req)
      else if IsCtl(c) then (Bad, state, req)
      else (Indeterminate, HeaderValue, AppendValue(req, c))
    case HeaderName =>
      if c == COLON then (Indeterminate, SpaceBeforeHeaderValue, req)
      else if !IsTokenChar(c) then (Bad, state, req)
      else (Indeterminate, HeaderName, AppendName(req, c))
    case SpaceBeforeHeaderValue => Expect(c, SP, state, HeaderValue, req)
    case HeaderValue =>
      if c == CR then (Indeterminate, ExpectingNewline2, req)
      else if IsCtl(c) then (Bad, state, req)
      else (Indeterminate, HeaderValue, AppendValue(req, c))
    case ExpectingNewline2 => Expect(c, LF, state, HeaderLineStart, req)
    case ExpectingNewline3 => if c == LF then (Good, state, req) else (Bad, state, req)
  }

  // ----- a buffer of bytes -----

  datatype Outcome = Outcome(verdict: Verdict, consumed: nat, state: State, req: Fields)

  /** `parse` as a function: feeds bytes until a verdict or the end of the buffer. */
  function Feed(state: State, req: Fields, input: seq<Byte>): (r: Outcome)
    requires HasHeader(state, req)
    ensures HasHeader(r.state, r.req) && r.consumed <= |input|
    ensures r.verdict == Indeterminate ==> r.consumed == |input|
    decreases |input|
  {
    if input == [] then Outcome(Indeterminate, 0, state, req)
    else
      var (verdict, state', req') := Step(state, req, input[0]);
      if verdict != Indeterminate then Outcome(verdict, 1, state', req')
      else
        var r := Feed(state', req', input[1..]);
        r.(consumed := r.consumed + 1)
  }

  /** Feeding a buffer in two parts. */
  lemma {:induction false} FeedSplit(state: State, req: Fields, a: seq<Byte>, b: seq<Byte>)
    requires HasHeader(state, req)
    ensures var r := Feed(state, req, a);
            Feed(state, req, a + b) ==
            if r.verdict == Indeterminate then
              var s := Feed(r.state, r.req, b);
              s.(consumed := |a| + s.consumed)
            else r
    decreases |a|
  {
    if a == [] {
      assert a + b == b;
    } else {
      var (verdict, state', req') := Step(state, req, a[0]);
      assert (a + b)[0] == a[0] && (a + b)[1..] == a[1..] + b;
      if verdict == Indeterminate {
        FeedSplit(state', req', a[1..], b);
      }
    }
  }

  function Flatten(buffers: seq<seq<Byte>>): seq<Byte> {
    if buffers == [] then [] else buffers[0] + Flatten(buffers[1..])
  }

  /** Feeding buffer after buffer and stopping at the first verdict. */
  function FeedAll(state: State, req: Fields, buffers: seq<seq<Byte>>): Outcome
    requires HasHeader(state, req)
    decreases |buffers|
  {
    if buffers == [] then Outcome(Indeterminate, 0, state, req)
    else
      var r := Feed(state, req, buffers[0]);
      if r.verdict != Indeterminate then r
      else
        var s := FeedAll(r.state, r.req, buffers[1..]);
        s.(consumed := r.consumed + s.consumed)
  }

  /** However the input is cut into buffers, the verdict, the request and the bytes
      consumed in total are those of the input in one piece. */
  lemma {:induction false} ChunkingInvariance(state: State, req: Fields, buffers: seq<seq<Byte>>)
    requires HasHeader(state, req)
    ensures FeedAll(state, req, buffers) == Feed(state, req, Flatten(buffers))
    decreases |buffers|
  {
    if buffers != [] {
      FeedSplit(state, req, buffers[0], Flatten(buffers[1..]));
      var r := Feed(state, req, buffers[0]);
      if r.verdict == Indeterminate {
        ChunkingInvariance(r.state, r.req, buffers[1..]);
      }
    }
  }

  // ----- the classes -----

  class Request {
    var method_: seq<Byte>
    var uri: seq<Byte>
    var major: int
    var minor: int
    var headers: seq<Header>

    constructor ()
      ensures method_ == [] && uri == [] && headers == []
    {
      method_, uri, headers := [], [], [];
    }

    ghost function View(): Fields
      reads this
    {
      Fields(method_, uri, major, minor, headers)
    }

    method PushName(c: Byte)
      requires headers != []
      modifies this`headers
      ensures View() == AppendName(old(View()), c)
    {
      var last := |headers| - 1;
      headers := headers[last := headers[last].(name := headers[last].name + [c])];
    }

    method PushValue(c: Byte)
      requires headers != []
      modifies this`headers
      ensures View() == AppendValue(old(View()), c)
    {
      var last := |headers| - 1;
      headers := headers[last := headers[last].(value := headers[last].value + [c])];
    }
  }

  class RequestParser {
    var state: State

    constructor ()
      ensures state == MethodStart
    {
      state := MethodStart;
    }

    method Reset()
      modifies this
      ensures state == MethodStart
    {
      state := MethodStart;
    }

    /** `consume` */
    method Consume(req: Request, input: Byte) returns (r: Verdict)
      requires HasHeader(state, req.View())
      modifies this, req
      ensures (r, state, req.View()) == Step(old(state), old(req.View()), input)
    {
      match state {
        case MethodStart =>
          if !IsChar(input) || IsCtl(input) || IsTspecial(input) {
            return Bad;
          }
          state := Method;
          req.method_ := req.method_ + [input];
        case Method =>
          if input == SP {
            state := Uri;
          } else if !IsChar(input) || IsCtl(input) || IsTspecial(input) {
            return Bad;
          } else {
            req.method_ := req.method_ + [input];
          }
        case Uri =>
          if input == SP {
            state := VersionH;
          } else if IsCtl(input) {
            return Bad;
          } else {
            req.uri := req.uri + [input];
          }
        case VersionH =>
          if input != 72 { return Bad; }
          state := VersionT1;
        case VersionT1 =>
          if input != 84 { return Bad; }
          state := VersionT2;
        case VersionT2 =>
          if input != 84 { return Bad; }
          state := VersionP;
        case VersionP =>
          if input != 80 { return Bad; }
          state := VersionSlash;
        case VersionSlash =>
          if input != SLASH { return Bad; }
          req.major := 0;
          req.minor := 0;
          state := MajorStart;
        case MajorStart =>
          if !IsDigit(input) { return Bad; }
          req.major := req.major * 10 + input - ZERO;
          state := Major;
        case Major =>
          if input == DOT {
            state := MinorStart;
          } else if IsDigit(input) {
            req.major := req.major * 10 + input - ZERO;
          } else {
            return Bad;
          }
        case MinorStart =>
          if !IsDigit(input) { return Bad; }
          req.minor := req.minor * 10 + input - ZERO;
          state := Minor;
        case Minor =>
          if input == CR {
            state := ExpectingNewline1;
          } else if IsDigit(input) {
            req.minor := req.minor * 10 + input - ZERO;
          } else {
            return Bad;
          }
        case ExpectingNewline1 =>
          if input != LF { return Bad; }
          state := HeaderLineStart;
        case HeaderLineStart =>
          if input == CR {
            state := ExpectingNewline3;
          } else if req.headers != [] && (input == SP || input == HT) {
            state := HeaderLws;
          } else if !IsChar(input) || IsCtl(input) || IsTspecial(input) {
            return Bad;
          } else {
            req.headers := req.headers + [Header([], [])];
            req.PushName(input);
            assert [] + [input] == [input];
            assert req.headers == old(req.headers) + [Header([input], [])];
            state := HeaderName;
          }
        case HeaderLws =>
          if input == CR {
            state := ExpectingNewline2;
          } else if input == SP || input == HT {
          } else if IsCtl(input) {
            return Bad;
          } else {
            state := HeaderValue;
            req.PushValue(input);
          }
        case HeaderName =>
          if input == COLON {
            state := SpaceBeforeHeaderValue;
          } else if !IsChar(input) || IsCtl(input) || IsTspecial(input) {
            return Bad;
          } else {
            req.PushName(input);
          }
        case SpaceBeforeHeaderValue =>
          if input != SP { return Bad; }
          state := HeaderValue;
        case HeaderValue =>
          if input == CR {
            state := ExpectingNewline2;
          } else if IsCtl(input) {
            return Bad;
          } else {
            req.PushValue(input);
          }
        case ExpectingNewline2 =>
          if input != LF { return Bad; }
          state := HeaderLineStart;
        case ExpectingNewline3 =>
          return if input == LF then Good else Bad;
      }
      return Indeterminate;
    }

    /** `parse`: the verdict, and how much of the input was consumed. */
    method Parse(req: Request, input: seq<Byte>) returns (result: Verdict, consumed: nat)
      requires HasHeader(state, req.View())
      modifies this, req
      ensures Outcome(result, consumed, state, req.View()) == Feed(old(state), old(req.View()), input)
    {
      consumed := 0;
      while consumed != |input|
        invariant consumed <= |input| && HasHeader(state, req.View())
        invariant Feed(old(state), old(req.View()), input)
               == var r := Feed(state, req.View(), input[consumed..]); r.(consumed := consumed + r.consumed)
        decreases |input| - consumed
      {
        assert input[consumed..][0] == input[consumed] && input[consumed..][1..] == input[consumed + 1..];
        result := Consume(req, input[consumed]);
        consumed := consumed + 1;
        if result == Good || result == Bad {
          return result, consumed;
        }
      }
      return Indeterminate, consumed;
    }
  }
}

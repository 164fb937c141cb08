/** Framing of requests, and the header printer of http_server/src/reply.cpp against
    the request parser. */
module HttpReply {
  import opened Bytes
  import opened HttpParser
  import opened HttpGrammar

  // ----- framing -----

  /** A blank line ends at `k`: the four bytes before it are CR LF CR LF. */
  predicate BlankLineEndsAt(s: seq<Byte>, k: nat)
    requires k <= |s|
  {
    k >= 4 && s[k - 4] == CR && s[k - 3] == LF && s[k - 2] == CR && s[k - 1] == LF
  }

  predicate EndsInCr(s: seq<Byte>) {
    |s| > 0 && s[|s| - 1] == CR
  }

  predicate EndsInCrLf(s: seq<Byte>) {
    |s| > 1 && s[|s| - 2] == CR && s[|s| - 1] == LF
  }

  predicate EndsInCrLfCr(s: seq<Byte>) {
    |s| > 2 && s[|s| - 3] == CR && s[|s| - 2] == LF && s[|s| - 1] == CR
  }

  /** What each state knows about the end of the bytes read so far. */
  ghost predicate Framed(state: State, read: seq<Byte>) {
    && (EndsInCr(read) <==> state in {ExpectingNewline1, ExpectingNewline2, ExpectingNewline3})
    && (EndsInCrLf(read) <==> state == HeaderLineStart)
    && (EndsInCrLfCr(read) <==> state == ExpectingNewline3)
    && (forall k :: 0 <= k <= |read| ==> !BlankLineEndsAt(read, k))
  }

  lemma StepFramed(state: State, req: Fields, read: seq<Byte>, c: Byte)
    requires HasHeader(state, req) && Framed(state, read)
    ensures Step(state, req, c).0 == Indeterminate ==> Framed(Step(state, req, c).1, read + [c])
    ensures Step(state, req, c).0 == Good ==>
              BlankLineEndsAt(read + [c], |read| + 1)
              && forall k :: 0 <= k <= |read| ==> !BlankLineEndsAt(read + [c], k)
  {
    var read' := read + [c];
    assert forall k :: 0 <= k <= |read| ==> BlankLineEndsAt(read', k) == BlankLineEndsAt(read, k);
  }

  /** Feeding from a state that knows the end of what came before. */
  lemma {:induction false} FeedFramed(state: State, req: Fields, read: seq<Byte>, input: seq<Byte>)
    requires HasHeader(state, req) && Framed(state, read)
    ensures var r := Feed(state, req, input);
            && (r.verdict == Indeterminate ==> Framed(r.state, read + input))
            && (r.verdict == Good ==>
                  var all := read + input[..r.consumed];
                  BlankLineEndsAt(all, |all|) && forall k :: 0 <= k < |all| ==> !BlankLineEndsAt(all, k))
    decreases |input|
  {
    if input == [] {
      assert read + input == read;
    } else {
      StepFramed(state, req, read, input[0]);
      var (verdict, state', req') := Step(state, req, input[0]);
      if verdict == Indeterminate {
        FeedFramed(state', req', read + [input[0]], input[1..]);
        var r := Feed(state', req', input[1..]);
        assert read + [input[0]] + input[1..] == read + input;
        assert input[..r.consumed + 1] == [input[0]] + input[1..][..r.consumed];
        assert read + [input[0]] + input[1..][..r.consumed] == read + input[..r.consumed + 1];
      } else {
        assert input[..1] == [input[0]];
      }
    }
  }

  /** An accepted request ends with the first blank line of the input, and nothing
      before that line is looked at twice or skipped. */
  lemma AcceptsAtFirstBlankLine(input: seq<Byte>, start: Fields)
    requires Fresh(start) && Feed(MethodStart, start, input).verdict == Good
    ensures var n := Feed(MethodStart, start, input).consumed;
            BlankLineEndsAt(input, n) && forall k :: 0 <= k < n ==> !BlankLineEndsAt(input, k)
  {
    FeedFramed(MethodStart, start, [], input);
    var n := Feed(MethodStart, start, input).consumed;
    assert [] + input[..n] == input[..n];
    assert forall k :: 0 <= k <= n ==> BlankLineEndsAt(input, k) == BlankLineEndsAt(input[..n], k);
  }

  // ----- the header printer -----

  function PrintField(h: Header): seq<Byte> {
    h.name + [COLON, SP] + h.value + CRLF
  }

  function PrintFields(hs: seq<Header>): seq<Byte> {
    if hs == [] then [] else PrintField(hs[0]) + PrintFields(hs[1..])
  }

  predicate Printable(h: Header) {
    IsToken(h.name) && IsText(h.value)
  }

  lemma {:induction false} FlattenPush(a: seq<seq<Byte>>, b: seq<Byte>)
    ensures Flatten(a + [b]) == Flatten(a) + b
  {
    if a == [] {
      assert a + [b] == [b];
    } else {
      assert (a + [b])[1..] == a[1..] + [b];
      FlattenPush(a[1..], b);
    }
  }

  lemma {:induction false} PrintFieldsSnoc(hs: seq<Header>, h: Header)
    ensures PrintFields(hs + [h]) == PrintFields(hs) + PrintField(h)
  {
    if hs == [] {
      assert hs + [h] == [h] && [h][1..] == [];
    } else {
      assert (hs + [h])[1..] == hs[1..] + [h];
      PrintFieldsSnoc(hs[1..], h);
    }
  }

  lemma FlattenField(a: seq<seq<Byte>>, h: Header)
    ensures Flatten(a + [h.name] + [[COLON, SP]] + [h.value] + [CRLF]) == Flatten(a) + PrintField(h)
  {
    FlattenPush(a, h.name);
    FlattenPush(a + [h.name], [COLON, SP]);
    FlattenPush(a + [h.name] + [[COLON, SP]], h.value);
    FlattenPush(a + [h.name] + [[COLON, SP]] + [h.value], CRLF);
  }

  /** `reply::to_buffers`: the buffers to send, one per piece. */
  method ToBuffers(status: seq<Byte>, headers: seq<Header>, content: seq<Byte>) returns (buffers: seq<seq<Byte>>)
    ensures Flatten(buffers) == status + PrintFields(headers) + CRLF + content
  {
    buffers := [status];
    assert headers[..0] == [];
    for i := 0 to |headers|
      invariant Flatten(buffers) == status + PrintFields(headers[..i])
    {
      var h := headers[i];
      FlattenField(buffers, h);
      PrintFieldsSnoc(headers[..i], h);
      assert headers[..i] + [h] == headers[..i + 1];
      buffers := buffers + [h.name] + [[COLON, SP]] + [h.value] + [CRLF];
      assert status + PrintFields(headers[..i]) + PrintField(h) == status + PrintFields(headers[..i + 1]);
    }
    assert headers[..|headers|] == headers;
    FlattenPush(buffers, CRLF);
    buffers := buffers + [CRLF];
    FlattenPush(buffers, content);
    buffers := buffers + [content];
  }

  // ----- what the parser makes of printed headers -----

  /** `Feed` from `state` over `input` goes on to `state'` without a verdict. */
  ghost predicate Goes(state: State, req: Fields, input: seq<Byte>, state': State, req': Fields) {
    HasHeader(state, req) && Feed(state, req, input) == Outcome(Indeterminate, |input|, state', req')
  }

  lemma GoesOn(s0: State, r0: Fields, a: seq<Byte>, s1: State, r1: Fields, b: seq<Byte>, s2: State, r2: Fields)
    requires Goes(s0, r0, a, s1, r1) && Goes(s1, r1, b, s2, r2)
    ensures Goes(s0, r0, a + b, s2, r2)
  {
    FeedSplit(s0, r0, a, b);
  }

  function WithHeader(req: Fields, h: Header): Fields {
    req.(headers := req.headers + [h])
  }

  lemma {:induction false} NameGoes(req: Fields, name: seq<Byte>)
    requires IsToken(name)
    ensures Goes(HeaderLineStart, req, name, HeaderName, WithHeader(req, Header(name, [])))
    decreases |name|
  {
    var n := |name| - 1;
    LastOf(name);
    if n == 0 {
      FeedOne(HeaderLineStart, req, name[0]);
      assert name == [name[0]];
    } else {
      NameGoes(req, name[..n]);
      var req0 := WithHeader(req, Header(name[..n], []));
      FeedOne(HeaderName, req0, name[n]);
      assert AppendName(req0, name[n]) == WithHeader(req, Header(name, []));
      GoesOn(HeaderLineStart, req, name[..n], HeaderName, req0, [name[n]],
        HeaderName, WithHeader(req, Header(name, [])));
    }
  }

  lemma {:induction false} ValueGoes(req: Fields, name: seq<Byte>, value: seq<Byte>)
    requires IsText(value)
    ensures Goes(HeaderValue, WithHeader(req, Header(name, [])), value,
                 HeaderValue, WithHeader(req, Header(name, value)))
    decreases |value|
  {
    var req0 := WithHeader(req, Header(name, []));
    if value != [] {
      var n := |value| - 1;
      LastOf(value);
      ValueGoes(req, name, value[..n]);
      var req1 := WithHeader(req, Header(name, value[..n]));
      FeedOne(HeaderValue, req1, value[n]);
      assert AppendValue(req1, value[n]) == WithHeader(req, Header(name, value));
      GoesOn(HeaderValue, req0, value[..n], HeaderValue, req1, [value[n]],
        HeaderValue, WithHeader(req, Header(name, value)));
    }
  }

  lemma FieldGoes(req: Fields, h: Header)
    requires Printable(h)
    ensures Goes(HeaderLineStart, req, PrintField(h), HeaderLineStart, WithHeader(req, h))
  {
    var r0, r1 := WithHeader(req, Header(h.name, [])), WithHeader(req, h);
    NameGoes(req, h.name);
    FeedOne(HeaderName, r0, COLON);
    FeedOne(SpaceBeforeHeaderValue, r0, SP);
    GoesOn(HeaderName, r0, [COLON], SpaceBeforeHeaderValue, r0, [SP], HeaderValue, r0);
    assert [COLON] + [SP] == [COLON, SP];
    GoesOn(HeaderLineStart, req, h.name, HeaderName, r0, [COLON, SP], HeaderValue, r0);
    ValueGoes(req, h.name, h.value);
    GoesOn(HeaderLineStart, req, h.name + [COLON, SP], HeaderValue, r0, h.value, HeaderValue, r1);
    FeedOne(HeaderValue, r1, CR);
    FeedOne(ExpectingNewline2, r1, LF);
    GoesOn(HeaderValue, r1, [CR], ExpectingNewline2, r1, [LF], HeaderLineStart, r1);
    assert [CR] + [LF] == CRLF;
    GoesOn(HeaderLineStart, req, h.name + [COLON, SP] + h.value, HeaderValue, r1, CRLF, HeaderLineStart, r1);
  }

  lemma {:induction false} FieldsGo(req: Fields, hs: seq<Header>)
    requires forall h :: h in hs ==> Printable(h)
    ensures Goes(HeaderLineStart, req, PrintFields(hs), HeaderLineStart, req.(headers := req.headers + hs))
    decreases |hs|
  {
    if hs == [] {
      assert req.headers + hs == req.headers;
    } else {
      var r0 := WithHeader(req, hs[0]);
      FieldGoes(req, hs[0]);
      FieldsGo(r0, hs[1..]);
      assert r0.headers + hs[1..] == req.headers + hs;
      GoesOn(HeaderLineStart, req, PrintField(hs[0]), HeaderLineStart, r0,
        PrintFields(hs[1..]), HeaderLineStart, req.(headers := req.headers + hs));
    }
  }

  /** The parser, started at a header line, reads back exactly the headers that the
      reply prints, and stops where the content begins. */
  lemma PrintedHeadersParseBack(req: Fields, hs: seq<Header>, content: seq<Byte>)
    requires forall h :: h in hs ==> Printable(h)
    ensures var block := PrintFields(hs) + CRLF;
            Feed(HeaderLineStart, req, block + content)
            == Outcome(Good, |block|, ExpectingNewline3, req.(headers := req.headers + hs))
  {
    hide PrintFields, Step, Feed;
    var r1 := req.(headers := req.headers + hs);
    var block := PrintFields(hs);
    FieldsGo(req, hs);
    LastLine(r1, content);
    assert block + CRLF + content == block + (CRLF + content);
    FeedSplit(HeaderLineStart, req, block, CRLF + content);
  }

  lemma LastLine(req: Fields, content: seq<Byte>)
    ensures Feed(HeaderLineStart, req, CRLF + content) == Outcome(Good, 2, ExpectingNewline3, req)
  {
    var s := CRLF + content;
    assert s[0] == CR && s[1..] == [LF] + content && ([LF] + content)[0] == LF;
  }
}

/** The request format as a grammar of whole texts, without states, and the proof that
    the parser accepts exactly this language with this meaning. */
module HttpGrammar {
  import opened Bytes
  import opened HttpParser

  const CRLF: seq<Byte> := [CR, LF]

  // ----- the grammar (RFC 1945, sections 2.2, 4.2 and 5.1, with one space wherever it has one) -----

  /** What a token is made of: letters, digits and ! # $ % & ' * + - . ^ _ ` | ~ */
  predicate IsTokenByte(c: Byte): (r: bool)
    ensures r <==> IsTokenChar(c)
  {
    || 65 <= c <= 90 || 97 <= c <= 122 || IsDigitByte(c)
    || c in {33, 35, 36, 37, 38, 39, 42, 43, 45, 46, 94, 95, 96, 124, 126}
  }

  predicate IsDigitByte(c: Byte): (r: bool)
    ensures r <==> IsDigit(c)
  {
    c in {48, 49, 50, 51, 52, 53, 54, 55, 56, 57}
  }

  /** Anything but the controls below space and DEL. */
  predicate IsTextByte(c: Byte): (r: bool)
    ensures r <==> !IsCtl(c)
  {
    32 <= c && c != 127
  }

  /** LWS folding: a line that starts with spaces or tabs continues the header before it. */
  datatype Fold = Fold(lws: seq<Byte>, text: seq<Byte>)

  datatype HeaderLine = HeaderLine(name: seq<Byte>, first: seq<Byte>, folds: seq<Fold>)

  datatype RequestText = RequestText(
    method_: seq<Byte>, uri: seq<Byte>, major: seq<Byte>, minor: seq<Byte>, headers: seq<HeaderLine>)

  predicate IsToken(s: seq<Byte>) {
    s != [] && forall c :: c in s ==> IsTokenByte(c)
  }

  /** Any run of octets but controls. */
  predicate IsText(s: seq<Byte>) {
    forall c :: c in s ==> IsTextByte(c)
  }

  predicate IsBlank(c: Byte) {
    c == SP || c == HT
  }

  predicate IsNumber(s: seq<Byte>) {
    s != [] && forall c :: c in s ==> IsDigitByte(c)
  }

  predicate IsFold(f: Fold) {
    && f.lws != [] && (forall c :: c in f.lws ==> IsBlank(c))
    && IsText(f.text) && (f.text != [] ==> f.text[0] != SP)
  }

  predicate IsHeaderLine(h: HeaderLine) {
    IsToken(h.name) && IsText(h.first) && forall f :: f in h.folds ==> IsFold(f)
  }

  predicate IsRequest(t: RequestText) {
    && IsToken(t.method_)
    && IsText(t.uri) && SP !in t.uri
    && IsNumber(t.major) && IsNumber(t.minor)
    && forall h :: h in t.headers ==> IsHeaderLine(h)
  }

  function PrintFolds(folds: seq<Fold>): seq<Byte> {
    if folds == [] then [] else PrintFolds(folds[..|folds| - 1]) + PrintFold(folds[|folds| - 1]) + CRLF
  }

  function PrintFold(f: Fold): seq<Byte> {
    f.lws + f.text
  }

  function PrintHeader(h: HeaderLine): seq<Byte> {
    h.name + [COLON, SP] + h.first + CRLF + PrintFolds(h.folds)
  }

  function PrintHeaders(hs: seq<HeaderLine>): seq<Byte> {
    if hs == [] then [] else PrintHeaders(hs[..|hs| - 1]) + PrintHeader(hs[|hs| - 1])
  }

  /** "HTTP/" */
  const HTTP: seq<Byte> := [72, 84, 84, 80, SLASH]

  function PrintRequestLine(t: RequestText): seq<Byte> {
    t.method_ + [SP] + t.uri + [SP] + HTTP + t.major + [DOT] + t.minor + CRLF
  }

  function PrintRequest(t: RequestText): seq<Byte> {
    PrintRequestLine(t) + PrintHeaders(t.headers) + CRLF
  }

  // ----- its meaning -----

  function Number(digits: seq<Byte>): int {
    if digits == [] then 0 else Number(digits[..|digits| - 1]) * 10 + digits[|digits| - 1] - ZERO
  }

  function FoldedText(folds: seq<Fold>): seq<Byte> {
    if folds == [] then [] else FoldedText(folds[..|folds| - 1]) + folds[|folds| - 1].text
  }

  /** A header's value is its text with the line breaks and leading blanks of the folds removed. */
  function MeaningOf(h: HeaderLine): Header {
    Header(h.name, h.first + FoldedText(h.folds))
  }

  function Meanings(hs: seq<HeaderLine>): seq<Header> {
    seq(|hs|, i requires 0 <= i < |hs| => MeaningOf(hs[i]))
  }

  function Meaning(t: RequestText): Fields {
    Fields(t.method_, t.uri, Number(t.major), Number(t.minor), Meanings(t.headers))
  }

  // ----- partial texts: what the parser has read in each state -----

  /** The header lines finished so far are in `text.headers`; `cur` is the one being read. */
  datatype Partial = Partial(text: RequestText, cur: HeaderLine)

  predicate InHeader(state: State) {
    state in {HeaderLws, HeaderName, SpaceBeforeHeaderValue, HeaderValue, ExpectingNewline2}
  }

  /** A header line up to, and without, the end of its last physical line. */
  function OpenLine(h: HeaderLine): seq<Byte> {
    if h.folds == [] then h.name + [COLON, SP] + h.first
    else
      var n := |h.folds| - 1;
      h.name + [COLON, SP] + h.first + CRLF + PrintFolds(h.folds[..n]) + PrintFold(h.folds[n])
  }

  lemma CloseLine(h: HeaderLine)
    ensures PrintHeader(h) == OpenLine(h) + CRLF
  {
    if h.folds == [] {
      assert PrintHeader(h) == h.name + [COLON, SP] + h.first + CRLF;
    } else {
      var n := |h.folds| - 1;
      assert PrintFolds(h.folds) == PrintFolds(h.folds[..n]) + PrintFold(h.folds[n]) + CRLF;
    }
  }

  function Head(g: Partial): seq<Byte> {
    PrintRequestLine(g.text) + PrintHeaders(g.text.headers)
  }

  function Target(g: Partial): seq<Byte> {
    g.text.method_ + [SP] + g.text.uri + [SP]
  }

  /** The bytes read when the parser is in `state` with `g` recognised. */
  function Read(state: State, g: Partial): seq<Byte> {
    match state
    case MethodStart => []
    case Method => g.text.method_
    case Uri => g.text.method_ + [SP] + g.text.uri
    case VersionH => Target(g)
    case VersionT1 => Target(g) + HTTP[..1]
    case VersionT2 => Target(g) + HTTP[..2]
    case VersionP => Target(g) + HTTP[..3]
    case VersionSlash => Target(g) + HTTP[..4]
    case MajorStart => Target(g) + HTTP
    case Major => Target(g) + HTTP + g.text.major
    case MinorStart => Target(g) + HTTP + g.text.major + [DOT]
    case Minor => Target(g) + HTTP + g.text.major + [DOT] + g.text.minor
    case ExpectingNewline1 => Target(g) + HTTP + g.text.major + [DOT] + g.text.minor + [CR]
    case HeaderLineStart => Head(g)
    case HeaderName => Head(g) + g.cur.name
    case SpaceBeforeHeaderValue => Head(g) + g.cur.name + [COLON]
    case HeaderValue => Head(g) + OpenLine(g.cur)
    case HeaderLws => Head(g) + OpenLine(g.cur)
    case ExpectingNewline2 => Head(g) + OpenLine(g.cur) + [CR]
    case ExpectingNewline3 => Head(g) + [CR]
  }

  /** How far the states have come along the request line. */
  function Stage(state: State): nat {
    match state
    case MethodStart => 0
    case Method => 1
    case Uri => 2
    case VersionH => 3
    case VersionT1 => 4
    case VersionT2 => 5
    case VersionP => 6
    case VersionSlash => 7
    case MajorStart => 8
    case Major => 9
    case MinorStart => 10
    case Minor => 11
    case ExpectingNewline1 => 12
    case _ => 13
  }

  /** What `g` must satisfy in `state`: the parts behind are whole, those ahead empty. */
  ghost predicate Fits(state: State, g: Partial) {
    && (if Stage(state) >= 1 then IsToken(g.text.method_) else g.text.method_ == [])
    && IsText(g.text.uri) && SP !in g.text.uri
    && (Stage(state) < 2 ==> g.text.uri == [])
    && (if Stage(state) >= 9 then IsNumber(g.text.major) else g.text.major == [])
    && (if Stage(state) >= 11 then IsNumber(g.text.minor) else g.text.minor == [])
    && (forall h :: h in g.text.headers ==> IsHeaderLine(h))
    && (Stage(state) < 13 ==> g.text.headers == [])
    && (if InHeader(state) then IsHeaderLine(g.cur) else g.cur == HeaderLine([], [], []))
    && (state == HeaderName || state == SpaceBeforeHeaderValue ==> g.cur.first == [] && g.cur.folds == [])
    && (state == HeaderLws ==> g.cur.folds != [] && g.cur.folds[|g.cur.folds| - 1].text == [])
    && (state == HeaderValue && g.cur.folds != [] ==> g.cur.folds[|g.cur.folds| - 1].text != [])
  }

  /** The request object built by then; the version fields start out undefined. */
  function Built(state: State, g: Partial, start: Fields): Fields {
    Fields(g.text.method_, g.text.uri,
      if Stage(state) >= 8 then Number(g.text.major) else start.major,
      if Stage(state) >= 8 then Number(g.text.minor) else start.minor,
      Meanings(g.text.headers) + if InHeader(state) then [MeaningOf(g.cur)] else [])
  }

  predicate Fresh(req: Fields) {
    req.method_ == [] && req.uri == [] && req.headers == []
  }

  // ----- one step forward -----

  lemma NumberSnoc(s: seq<Byte>, c: Byte)
    ensures Number(s + [c]) == Number(s) * 10 + c - ZERO
  {
    assert (s + [c])[..|s|] == s;
  }

  lemma LastDigit(s: seq<Byte>)
    requires s != [] && forall c :: c in s ==> IsDigitByte(c)
    ensures 0 <= s[|s| - 1] - ZERO <= 9 && forall c :: c in s[..|s| - 1] ==> IsDigitByte(c)
  {
    assert IsDigitByte(s[|s| - 1]);
  }

  /** A version number is at least as large as what its first digits make. */
  lemma {:induction false} NumberGrows(s: seq<Byte>, k: nat)
    requires k <= |s| && forall c :: c in s ==> IsDigitByte(c)
    ensures 0 <= Number(s[..k]) <= Number(s)
    decreases |s|
  {
    if s == [] {
      assert s[..k] == [];
    } else {
      var n := |s| - 1;
      LastDigit(s);
      if k <= n {
        assert s[..n][..k] == s[..k];
        NumberGrows(s[..n], k);
      } else {
        assert s[..k] == s && s[..n][..0] == [];
        NumberGrows(s[..n], 0);
      }
    }
  }

  function PowerOf10(n: nat): (p: nat)
    ensures p > 0
  {
    if n == 0 then 1 else 10 * PowerOf10(n - 1)
  }

  lemma {:induction false} ShortNumber(s: seq<Byte>, n: nat)
    requires |s| <= n && forall c :: c in s ==> IsDigitByte(c)
    ensures Number(s) < PowerOf10(n)
    decreases n
  {
    if s != [] {
      LastDigit(s);
      ShortNumber(s[..|s| - 1], n - 1);
    }
  }

  /** Reading a version number stays within 32 bits at every digit, before `'0'` is taken
      off again, if and only if the number is small enough; nine digits always are. */
  lemma VersionFits(s: seq<Byte>)
    requires IsNumber(s)
    ensures (forall k :: 0 <= k < |s| ==> Number(s[..k]) * 10 + s[k] < 0x8000_0000) <==>
            Number(s) + ZERO < 0x8000_0000
    ensures |s| <= 9 ==> Number(s) + ZERO < 0x8000_0000
  {
    var n := |s| - 1;
    assert Number(s) == Number(s[..n]) * 10 + s[n] - ZERO;
    forall k | 0 <= k < |s|
      ensures Number(s[..k]) * 10 + s[k] <= Number(s) + ZERO
    {
      NumberGrows(s, k + 1);
      assert s[..k + 1][..k] == s[..k];
    }
    if |s| <= 9 {
      ShortNumber(s, 9);
      assert PowerOf10(9) == 1000000000;
    }
  }

  lemma MeaningsSnoc(hs: seq<HeaderLine>, h: HeaderLine)
    ensures Meanings(hs + [h]) == Meanings(hs) + [MeaningOf(h)]
  {
  }

  lemma PrintHeadersSnoc(hs: seq<HeaderLine>, h: HeaderLine)
    ensures PrintHeaders(hs + [h]) == PrintHeaders(hs) + PrintHeader(h)
  {
    assert (hs + [h])[..|hs|] == hs;
  }

  lemma FoldedTextSnoc(folds: seq<Fold>, f: Fold)
    ensures FoldedText(folds + [f]) == FoldedText(folds) + f.text
  {
    assert (folds + [f])[..|folds|] == folds;
  }

  /** The last physical line of a header in the making, with `f` in place of its last fold. */
  function WithLastFold(h: HeaderLine, f: Fold): HeaderLine
    requires h.folds != []
  {
    h.(folds := h.folds[..|h.folds| - 1] + [f])
  }

  function AddToValue(h: HeaderLine, c: Byte): HeaderLine {
    if h.folds == [] then h.(first := h.first + [c])
    else
      var f := h.folds[|h.folds| - 1];
      WithLastFold(h, f.(text := f.text + [c]))
  }

  function AddBlank(h: HeaderLine, c: Byte): HeaderLine {
    if h.folds == [] then h
    else
      var f := h.folds[|h.folds| - 1];
      WithLastFold(h, f.(lws := f.lws + [c]))
  }

  /** The partial text after one more byte. */
  function Next(state: State, g: Partial, c: Byte): Partial {
    var t := g.text;
    match state
    case MethodStart => g.(text := t.(method_ := t.method_ + [c]))
    case Method => if c == SP then g else g.(text := t.(method_ := t.method_ + [c]))
    case Uri => if c == SP then g else g.(text := t.(uri := t.uri + [c]))
    case MajorStart => g.(text := t.(major := t.major + [c]))
    case Major => if c == DOT then g else g.(text := t.(major := t.major + [c]))
    case MinorStart => g.(text := t.(minor := t.minor + [c]))
    case Minor => if c == CR then g else g.(text := t.(minor := t.minor + [c]))
    case HeaderLineStart =>
      if c == CR then g
      else if t.headers != [] && IsBlank(c) then
        var n := |t.headers| - 1;
        var h := t.headers[n];
        Partial(t.(headers := t.headers[..n]), h.(folds := h.folds + [Fold([c], [])]))
      else g.(cur := HeaderLine([c], [], []))
    case HeaderLws =>
      if c == CR then g else g.(cur := if IsBlank(c) then AddBlank(g.cur, c) else AddToValue(g.cur, c))
    case HeaderName => if c == COLON then g else g.(cur := g.cur.(name := g.cur.name + [c]))
    case HeaderValue => if c == CR then g else g.(cur := AddToValue(g.cur, c))
    case ExpectingNewline2 => Partial(t.(headers := t.headers + [g.cur]), HeaderLine([], [], []))
    case _ => g
  }

  /** In `state` with `g` read, byte `c` is taken and leads to `g'`. */
  ghost predicate Leads(state: State, g: Partial, c: Byte, start: Fields, g': Partial) {
    && HasHeader(state, Built(state, g, start))
    && var (verdict, state', req') := Step(state, Built(state, g, start), c);
       && verdict == Indeterminate && Fits(state', g')
       && Read(state', g') == Read(state, g) + [c] && Built(state', g', start) == req'
  }

  ghost predicate Takes(state: State, g: Partial, c: Byte, start: Fields) {
    && Fits(state, g) && HasHeader(state, Built(state, g, start))
    && Step(state, Built(state, g, start), c).0 == Indeterminate
  }

  /** From a partial text, a byte the parser takes leads to the partial text with that byte. */
  lemma Forward(state: State, g: Partial, c: Byte, start: Fields)
    requires Takes(state, g, c, start)
    ensures Leads(state, g, c, start, Next(state, g, c))
  {
    hide Leads, Takes, Next;
    match state {
      case MethodStart => ForwardTarget(state, g, c, start);
      case Method => ForwardTarget(state, g, c, start);
      case Uri => ForwardTarget(state, g, c, start);
      case MajorStart => ForwardMajor(state, g, c, start);
      case Major => ForwardMajor(state, g, c, start);
      case MinorStart => ForwardMinor(state, g, c, start);
      case Minor => ForwardMinor(state, g, c, start);
      case HeaderLineStart => ForwardLineStart(g, c, start);
      case HeaderLws => ForwardLws(g, c, start);
      case HeaderName => ForwardName(g, c, start);
      case HeaderValue => ForwardValue(g, c, start);
      case ExpectingNewline2 => ForwardNewline2(g, c, start);
      case ExpectingNewline1 => ForwardNewline1(g, c, start);
      case SpaceBeforeHeaderValue => ForwardSpace(g, c, start);
      case ExpectingNewline3 => NothingMore(g, c, start);
      case _ => ForwardVersion(state, g, c, start);
    }
  }

  lemma ForwardTarget(state: State, g: Partial, c: Byte, start: Fields)
    requires state in {MethodStart, Method, Uri} && Takes(state, g, c, start)
    ensures Leads(state, g, c, start, Next(state, g, c))
  {
    hide Number, Meanings, PrintHeaders, IsHeaderLine;
  }

  lemma ForwardMajor(state: State, g: Partial, c: Byte, start: Fields)
    requires state in {MajorStart, Major} && Takes(state, g, c, start)
    ensures Leads(state, g, c, start, Next(state, g, c))
  {
    hide Number, Meanings, PrintHeaders, IsHeaderLine, IsToken, IsText;
    NumberSnoc(g.text.major, c);
    NumberNone();
  }

  lemma ForwardMinor(state: State, g: Partial, c: Byte, start: Fields)
    requires state in {MinorStart, Minor} && Takes(state, g, c, start)
    ensures Leads(state, g, c, start, Next(state, g, c))
  {
    hide Number, Meanings, PrintHeaders, IsHeaderLine, IsToken, IsText;
    NumberSnoc(g.text.minor, c);
    NumberNone();
  }

  lemma NumberNone()
    ensures Number([]) == 0
  {
  }

  lemma ForwardVersion(state: State, g: Partial, c: Byte, start: Fields)
    requires state in {VersionH, VersionT1, VersionT2, VersionP, VersionSlash}
    requires Takes(state, g, c, start)
    ensures Leads(state, g, c, start, Next(state, g, c))
  {
    hide Number, Meanings, PrintHeaders, IsHeaderLine, IsToken, IsText, IsNumber, Target, Head;
    NumberNone();
    assert HTTP[..1] == [72] && HTTP[..2] == HTTP[..1] + [84] && HTTP[..3] == HTTP[..2] + [84];
    assert HTTP[..4] == HTTP[..3] + [80] && HTTP == HTTP[..4] + [SLASH];
  }

  lemma NothingMore(g: Partial, c: Byte, start: Fields)
    ensures !Takes(ExpectingNewline3, g, c, start)
  {
  }

  lemma ForwardNewline1(g: Partial, c: Byte, start: Fields)
    requires Takes(ExpectingNewline1, g, c, start)
    ensures Leads(ExpectingNewline1, g, c, start, Next(ExpectingNewline1, g, c))
  {
    hide Number, Meanings, PrintHeaders, IsHeaderLine, IsToken, IsText, IsNumber;
    HeadersNone(g);
    assert [CR] + [LF] == CRLF;
    assert g.text.headers == [];
  }

  lemma ForwardSpace(g: Partial, c: Byte, start: Fields)
    requires Takes(SpaceBeforeHeaderValue, g, c, start)
    ensures Leads(SpaceBeforeHeaderValue, g, c, start, Next(SpaceBeforeHeaderValue, g, c))
  {
    hide Number, Meanings, PrintHeaders, IsHeaderLine, IsToken, IsText, IsNumber, MeaningOf;
    assert [COLON, SP] == [COLON] + [SP];
  }

  lemma HeadersNone(g: Partial)
    ensures g.text.headers == [] ==> Head(g) == PrintRequestLine(g.text)
  {
  }

  lemma LastFoldReplaced(h: HeaderLine, f: Fold, c: Byte)
    requires IsHeaderLine(h) && h.folds != [] && IsFold(f)
    requires var old' := h.folds[|h.folds| - 1]; PrintFold(f) == PrintFold(old') + [c]
    ensures IsHeaderLine(WithLastFold(h, f))
    ensures OpenLine(WithLastFold(h, f)) == OpenLine(h) + [c]
    ensures FoldedText(WithLastFold(h, f).folds) == FoldedText(h.folds[..|h.folds| - 1]) + f.text
  {
    hide PrintFold, PrintFolds, FoldedText, IsFold, IsToken, IsText;
    var n := |h.folds| - 1;
    var h' := WithLastFold(h, f);
    assert h'.folds[..n] == h.folds[..n] && h'.folds[n] == f;
    FoldedTextSnoc(h.folds[..n], f);
    forall x | x in h'.folds
      ensures IsFold(x)
    {
      assert x == f || x in h.folds;
    }
  }

  /** A blank at the start of a line reopens the header before it. */
  lemma Reopen(h: HeaderLine, c: Byte)
    requires IsHeaderLine(h) && IsBlank(c)
    ensures var h' := h.(folds := h.folds + [Fold([c], [])]);
            IsHeaderLine(h') && OpenLine(h') == PrintHeader(h) + [c] && MeaningOf(h') == MeaningOf(h)
  {
    var f := Fold([c], []);
    var h' := h.(folds := h.folds + [f]);
    assert h'.folds[..|h.folds|] == h.folds && h'.folds[|h.folds|] == f;
    assert PrintFold(f) == [c];
    FoldedTextSnoc(h.folds, f);
    assert h.first + (FoldedText(h.folds) + []) == h.first + FoldedText(h.folds);
  }

  lemma ForwardLineStart(g: Partial, c: Byte, start: Fields)
    requires Takes(HeaderLineStart, g, c, start)
    ensures Leads(HeaderLineStart, g, c, start, Next(HeaderLineStart, g, c))
  {
    hide Number, PrintRequestLine, IsText, IsNumber, PrintHeaders, PrintHeader, MeaningOf, OpenLine;
    var hs := g.text.headers;
    if c == CR {
    } else if hs != [] && IsBlank(c) {
      hide Takes, Leads, Next;
      ForwardFold(g, c, start);
    } else {
      OneLetterHeader(c);
    }
  }

  /** A line that starts with a blank goes on with the last header. */
  lemma ForwardFold(g: Partial, c: Byte, start: Fields)
    requires Takes(HeaderLineStart, g, c, start) && g.text.headers != [] && IsBlank(c) && c != CR
    ensures Leads(HeaderLineStart, g, c, start, Next(HeaderLineStart, g, c))
  {
    hide Number, PrintRequestLine, IsText, IsNumber, PrintHeaders, PrintHeader, MeaningOf, OpenLine;
    var hs := g.text.headers;
    var g' := Next(HeaderLineStart, g, c);
    var n := |hs| - 1;
    var h := hs[n];
    Reopen(h, c);
    assert hs == hs[..n] + [h];
    PrintHeadersSnoc(hs[..n], h);
    MeaningsSnoc(hs[..n], h);
    RequestLineOnly(g, g');
    assert Head(g) == Head(g') + PrintHeader(h);
    assert Head(g') + (PrintHeader(h) + [c]) == Head(g) + [c];
  }

  lemma RequestLineOnly(g: Partial, g': Partial)
    requires g'.text == g.text.(headers := g'.text.headers)
    ensures PrintRequestLine(g'.text) == PrintRequestLine(g.text)
  {
  }

  lemma OneLetterHeader(c: Byte)
    requires IsTokenChar(c)
    ensures IsHeaderLine(HeaderLine([c], [], [])) && MeaningOf(HeaderLine([c], [], [])) == Header([c], [])
  {
  }

  lemma ForwardLws(g: Partial, c: Byte, start: Fields)
    requires Takes(HeaderLws, g, c, start)
    ensures Leads(HeaderLws, g, c, start, Next(HeaderLws, g, c))
  {
    hide Number, PrintRequestLine, IsText, IsNumber, PrintHeaders, Meanings, OpenLine, IsHeaderLine, FoldedText;
    var h := g.cur;
    var f := h.folds[|h.folds| - 1];
    LastFoldIs(h);
    if IsBlank(c) {
      BlankAppended(f, c);
      LastFoldReplaced(h, f.(lws := f.lws + [c]), c);
    } else if c != CR {
      TextAppended(f, c);
      ValueAppended(h, f.(text := f.text + [c]), c);
      LastFoldReplaced(h, f.(text := f.text + [c]), c);
    }
  }

  lemma LastFoldIs(h: HeaderLine)
    requires IsHeaderLine(h) && h.folds != []
    ensures var n := |h.folds| - 1;
            IsFold(h.folds[n]) && FoldedText(h.folds) == FoldedText(h.folds[..n]) + h.folds[n].text
  {
    assert h.folds[|h.folds| - 1] in h.folds;
  }

  lemma BlankAppended(f: Fold, c: Byte)
    requires IsFold(f) && f.text == [] && IsBlank(c)
    ensures IsFold(f.(lws := f.lws + [c])) && PrintFold(f.(lws := f.lws + [c])) == PrintFold(f) + [c]
  {
  }

  lemma TextAppended(f: Fold, c: Byte)
    requires IsFold(f) && !IsCtl(c) && (f.text == [] ==> c != SP)
    ensures IsFold(f.(text := f.text + [c])) && PrintFold(f.(text := f.text + [c])) == PrintFold(f) + [c]
    ensures f.text == [] ==> f.text + [c] == [c]
  {
  }

  lemma ForwardName(g: Partial, c: Byte, start: Fields)
    requires Takes(HeaderName, g, c, start)
    ensures Leads(HeaderName, g, c, start, Next(HeaderName, g, c))
  {
    hide Number, PrintRequestLine, IsNumber, PrintHeaders, Meanings, OpenLine, FoldedText;
  }

  lemma ForwardValue(g: Partial, c: Byte, start: Fields)
    requires Takes(HeaderValue, g, c, start)
    ensures Leads(HeaderValue, g, c, start, Next(HeaderValue, g, c))
  {
    hide Number, PrintRequestLine, IsNumber, PrintHeaders, Meanings, OpenLine, IsHeaderLine, FoldedText;
    var h := g.cur;
    if c == CR {
    } else if h.folds == [] {
      FirstAppended(h, c);
    } else {
      var f := h.folds[|h.folds| - 1];
      LastFoldIs(h);
      TextAppended(f, c);
      LastFoldReplaced(h, f.(text := f.text + [c]), c);
      ValueAppended(h, f.(text := f.text + [c]), c);
    }
  }

  lemma ValueAppended(h: HeaderLine, f: Fold, c: Byte)
    requires IsHeaderLine(h) && h.folds != []
    requires f.text == h.folds[|h.folds| - 1].text + [c]
    ensures MeaningOf(WithLastFold(h, f)) == Header(MeaningOf(h).name, MeaningOf(h).value + [c])
  {
    var n := |h.folds| - 1;
    LastFoldIs(h);
    FoldedTextSnoc(h.folds[..n], f);
    assert h.first + (FoldedText(h.folds[..n]) + (h.folds[n].text + [c]))
        == h.first + (FoldedText(h.folds[..n]) + h.folds[n].text) + [c];
  }

  lemma FirstAppended(h: HeaderLine, c: Byte)
    requires IsHeaderLine(h) && h.folds == [] && !IsCtl(c)
    ensures var h' := h.(first := h.first + [c]);
            && IsHeaderLine(h') && OpenLine(h') == OpenLine(h) + [c]
            && MeaningOf(h') == Header(MeaningOf(h).name, MeaningOf(h).value + [c])
  {
  }

  lemma ForwardNewline2(g: Partial, c: Byte, start: Fields)
    requires Takes(ExpectingNewline2, g, c, start)
    ensures Leads(ExpectingNewline2, g, c, start, Next(ExpectingNewline2, g, c))
  {
    hide Number, PrintRequestLine, IsNumber, PrintHeaders, Meanings, OpenLine, IsHeaderLine, MeaningOf, PrintHeader;
    hide IsToken, IsText;
    var h := g.cur;
    CloseLine(h);
    PrintHeadersSnoc(g.text.headers, h);
    MeaningsSnoc(g.text.headers, h);
    RequestLineOnly(g, Next(ExpectingNewline2, g, c));
    assert [CR] + [LF] == CRLF;
    assert Head(g) + OpenLine(h) + [CR] + [LF] == Head(g) + (OpenLine(h) + CRLF);
  }

  // ----- one step back -----

  /** `g` in `state` arose from `g0` in `s0` by byte `c`. */
  ghost predicate ComesFrom(state: State, g: Partial, start: Fields, s0: State, g0: Partial, c: Byte) {
    Takes(s0, g0, c, start) && Step(s0, Built(s0, g0, start), c).1 == state && Next(s0, g0, c) == g
  }

  /** Every partial text but the empty one has a last byte, and a partial text before it. */
  lemma Backward(state: State, g: Partial, start: Fields) returns (s0: State, g0: Partial, c: Byte)
    requires Fits(state, g) && state != MethodStart
    ensures ComesFrom(state, g, start, s0, g0, c)
  {
    hide ComesFrom, Fits;
    match state {
      case Method => s0, g0, c := BackMethod(g, start);
      case Uri => s0, g0, c := BackUri(g, start);
      case Major => s0, g0, c := BackNumber(state, g, start);
      case Minor => s0, g0, c := BackNumber(state, g, start);
      case HeaderLineStart => s0, g0, c := BackLineStart(g, start);
      case HeaderName => s0, g0, c := BackName(g, start);
      case HeaderLws => s0, g0, c := BackLws(g, start);
      case HeaderValue => s0, g0, c := BackValue(g, start);
      case _ => s0, g0, c := BackFixed(state, g, start);
    }
  }

  lemma LastOf(s: seq<Byte>)
    requires s != []
    ensures var n := |s| - 1;
            && (IsNumber(s) ==> IsDigit(s[n]) && (n > 0 ==> IsNumber(s[..n])))
            && (IsToken(s) ==> IsTokenChar(s[n]) && !IsBlank(s[n]) && (n > 0 ==> IsToken(s[..n])))
            && (IsText(s) ==> !IsCtl(s[n]) && IsText(s[..n]))
            && s == s[..n] + [s[n]]
  {
    var n := |s| - 1;
    assert s[n] in s;
    assert forall c :: c in s[..n] ==> c in s;
  }

  lemma BackMethod(g: Partial, start: Fields) returns (s0: State, g0: Partial, c: Byte)
    requires Fits(Method, g)
    ensures ComesFrom(Method, g, start, s0, g0, c)
  {
    hide Number, Meanings, IsHeaderLine, Read, IsNumber, IsToken, IsText;
    var s := g.text.method_;
    var n := |s| - 1;
    TokenNotEmpty(s);
    LastOf(s);
    s0, g0, c := if n == 0 then MethodStart else Method, g.(text := g.text.(method_ := s[..n])), s[n];
  }

  lemma TokenNotEmpty(s: seq<Byte>)
    requires IsToken(s)
    ensures s != []
  {
  }

  lemma BackUri(g: Partial, start: Fields) returns (s0: State, g0: Partial, c: Byte)
    requires Fits(Uri, g)
    ensures ComesFrom(Uri, g, start, s0, g0, c)
  {
    hide Number, Meanings, IsHeaderLine, Read, IsNumber, IsToken, IsText;
    var s := g.text.uri;
    if s == [] {
      s0, g0, c := Method, g, SP;
    } else {
      var n := |s| - 1;
      LastOf(s);
      assert s[n] in s && SP !in s[..n];
      s0, g0, c := Uri, g.(text := g.text.(uri := s[..n])), s[n];
    }
  }

  lemma BackNumber(state: State, g: Partial, start: Fields) returns (s0: State, g0: Partial, c: Byte)
    requires Fits(state, g) && state in {Major, Minor}
    ensures ComesFrom(state, g, start, s0, g0, c)
  {
    hide Read, Number, Meanings, IsHeaderLine, IsToken, IsText;
    var t := g.text;
    LastOf(if state == Major then t.major else t.minor);
    if state == Major {
      var n := |t.major| - 1;
      s0, g0, c := if n == 0 then MajorStart else Major, g.(text := t.(major := t.major[..n])), t.major[n];
    } else {
      var n := |t.minor| - 1;
      s0, g0, c := if n == 0 then MinorStart else Minor, g.(text := t.(minor := t.minor[..n])), t.minor[n];
    }
  }

  lemma BackFixed(state: State, g: Partial, start: Fields) returns (s0: State, g0: Partial, c: Byte)
    requires Fits(state, g)
    requires state in {VersionH, VersionT1, VersionT2, VersionP, VersionSlash, MajorStart, MinorStart,
                       ExpectingNewline1, SpaceBeforeHeaderValue, ExpectingNewline2, ExpectingNewline3}
    ensures ComesFrom(state, g, start, s0, g0, c)
  {
    hide Read, Number, Meanings, IsHeaderLine, IsToken, IsText, IsNumber;
    g0 := g;
    match state {
      case VersionH => s0, c := Uri, SP;
      case VersionT1 => s0, c := VersionH, 72;
      case VersionT2 => s0, c := VersionT1, 84;
      case VersionP => s0, c := VersionT2, 84;
      case VersionSlash => s0, c := VersionP, 80;
      case MajorStart => s0, c := VersionSlash, SLASH;
      case MinorStart => s0, c := Major, DOT;
      case ExpectingNewline1 => s0, c := Minor, CR;
      case SpaceBeforeHeaderValue => s0, c := HeaderName, COLON;
      case ExpectingNewline2 =>
        var n := |g.cur.folds| - 1;
        s0, c := if g.cur.folds != [] && g.cur.folds[n].text == [] then HeaderLws else HeaderValue, CR;
      case _ => s0, c := HeaderLineStart, CR;
    }
  }

  lemma BackLineStart(g: Partial, start: Fields) returns (s0: State, g0: Partial, c: Byte)
    requires Fits(HeaderLineStart, g)
    ensures ComesFrom(HeaderLineStart, g, start, s0, g0, c)
  {
    hide Read, Number, IsHeaderLine, IsToken, IsText, IsNumber, MeaningOf;
    var hs := g.text.headers;
    c := LF;
    if hs == [] {
      s0, g0 := ExpectingNewline1, g;
    } else {
      var n := |hs| - 1;
      s0, g0 := ExpectingNewline2, Partial(g.text.(headers := hs[..n]), hs[n]);
      assert hs == hs[..n] + [hs[n]];
    }
  }

  lemma BackName(g: Partial, start: Fields) returns (s0: State, g0: Partial, c: Byte)
    requires Fits(HeaderName, g)
    ensures ComesFrom(HeaderName, g, start, s0, g0, c)
  {
    hide Read, Number, Meanings, IsNumber, MeaningOf;
    var name := g.cur.name;
    var n := |name| - 1;
    c := name[n];
    LastOf(name);
    if n == 0 {
      s0, g0 := HeaderLineStart, g.(cur := HeaderLine([], [], []));
      assert name == [c];
    } else {
      s0, g0 := HeaderName, g.(cur := g.cur.(name := name[..n]));
    }
  }

  lemma BackLws(g: Partial, start: Fields) returns (s0: State, g0: Partial, c: Byte)
    requires Fits(HeaderLws, g)
    ensures ComesFrom(HeaderLws, g, start, s0, g0, c)
  {
    hide Fits, ComesFrom;
    LwsNotEmpty(g);
    if |g.cur.folds[|g.cur.folds| - 1].lws| == 1 {
      s0, g0, c := BackLwsFirst(g, start);
    } else {
      s0, g0, c := BackLwsMore(g, start);
    }
  }

  lemma LwsNotEmpty(g: Partial)
    requires Fits(HeaderLws, g)
    ensures g.cur.folds != [] && IsHeaderLine(g.cur)
    ensures var f := g.cur.folds[|g.cur.folds| - 1]; f.lws != [] && f.text == []
  {
    hide IsToken, IsText, IsNumber;
    assert g.cur.folds[|g.cur.folds| - 1] in g.cur.folds;
  }

  /** A header line without its last fold, and what that fold begins with. */
  lemma LastFoldOff(h: HeaderLine)
    requires IsHeaderLine(h) && h.folds != []
    ensures var k := |h.folds| - 1; var f := h.folds[k];
      && IsHeaderLine(h.(folds := h.folds[..k])) && h.folds == h.folds[..k] + [f]
      && IsFold(f) && IsBlank(f.lws[|f.lws| - 1]) && f.lws == f.lws[..|f.lws| - 1] + [f.lws[|f.lws| - 1]]
      && (|f.lws| > 1 ==> IsFold(f.(lws := f.lws[..|f.lws| - 1])))
  {
    hide IsToken, IsText;
    var k := |h.folds| - 1;
    var f := h.folds[k];
    assert f in h.folds;
    assert f.lws[|f.lws| - 1] in f.lws;
  }

  lemma BackLwsFirst(g: Partial, start: Fields) returns (s0: State, g0: Partial, c: Byte)
    requires Fits(HeaderLws, g) && g.cur.folds != [] && |g.cur.folds[|g.cur.folds| - 1].lws| == 1
    ensures ComesFrom(HeaderLws, g, start, s0, g0, c)
  {
    hide Number, IsNumber, MeaningOf, IsToken, IsText, Read, FoldedText, IsHeaderLine, IsFold;
    var h := g.cur;
    LastFoldOff(h);
    var k := |h.folds| - 1;
    c := h.folds[k].lws[0];
    var h0 := h.(folds := h.folds[..k]);
    s0, g0 := HeaderLineStart, Partial(g.text.(headers := g.text.headers + [h0]), HeaderLine([], [], []));
    assert h.folds[k] == Fold([c], []);
  }

  lemma BackLwsMore(g: Partial, start: Fields) returns (s0: State, g0: Partial, c: Byte)
    requires Fits(HeaderLws, g) && g.cur.folds != [] && |g.cur.folds[|g.cur.folds| - 1].lws| > 1
    ensures ComesFrom(HeaderLws, g, start, s0, g0, c)
  {
    hide Number, IsNumber, MeaningOf, IsToken, IsText, Read, FoldedText, IsHeaderLine, IsFold;
    var h := g.cur;
    LastFoldOff(h);
    var f := h.folds[|h.folds| - 1];
    var n := |f.lws| - 1;
    c := f.lws[n];
    s0, g0 := HeaderLws, g.(cur := WithLastFold(h, f.(lws := f.lws[..n])));
    KeepsHeader(h, f.(lws := f.lws[..n]));
  }

  lemma KeepsHeader(h: HeaderLine, f: Fold)
    requires IsHeaderLine(h) && h.folds != [] && IsFold(f)
    ensures IsHeaderLine(WithLastFold(h, f))
  {
    forall x | x in WithLastFold(h, f).folds
      ensures IsFold(x)
    {
      assert x == f || x in h.folds;
    }
  }

  lemma BackValue(g: Partial, start: Fields) returns (s0: State, g0: Partial, c: Byte)
    requires Fits(HeaderValue, g)
    ensures ComesFrom(HeaderValue, g, start, s0, g0, c)
  {
    hide Fits, ComesFrom;
    if g.cur.folds == [] {
      s0, g0, c := BackFirst(g, start);
    } else {
      s0, g0, c := BackFold(g, start);
    }
  }

  lemma FirstShortened(h: HeaderLine)
    requires IsHeaderLine(h) && h.first != []
    ensures var n := |h.first| - 1;
      IsHeaderLine(h.(first := h.first[..n])) && !IsCtl(h.first[n]) && h.first == h.first[..n] + [h.first[n]]
  {
    hide IsToken, IsFold;
    LastOf(h.first);
  }

  lemma BackFirst(g: Partial, start: Fields) returns (s0: State, g0: Partial, c: Byte)
    requires Fits(HeaderValue, g) && g.cur.folds == []
    ensures ComesFrom(HeaderValue, g, start, s0, g0, c)
  {
    hide Number, IsNumber, IsToken, Meanings, IsFold, Read, FoldedText, IsHeaderLine, IsText;
    var h := g.cur;
    if h.first == [] {
      s0, g0, c := SpaceBeforeHeaderValue, g, SP;
    } else {
      var n := |h.first| - 1;
      FirstShortened(h);
      s0, g0, c := HeaderValue, g.(cur := h.(first := h.first[..n])), h.first[n];
    }
  }

  lemma BackFold(g: Partial, start: Fields) returns (s0: State, g0: Partial, c: Byte)
    requires Fits(HeaderValue, g) && g.cur.folds != []
    ensures ComesFrom(HeaderValue, g, start, s0, g0, c)
  {
    hide Number, IsNumber, MeaningOf, IsToken, Meanings, IsHeaderLine, FoldedText, IsText, Read;
    var h := g.cur;
    LastFoldIs(h);
    var k := |h.folds| - 1;
    var f := h.folds[k];
    var n := |f.text| - 1;
    c := f.text[n];
    LastOf(f.text);
    var f0 := f.(text := f.text[..n]);
    assert f0.(text := f0.text + [c]) == f;
    assert IsFold(f0);
    KeepsHeader(h, f0);
    var h0 := WithLastFold(h, f0);
    assert h0.folds[..k] == h.folds[..k] && h0.folds[k] == f0;
    assert h.folds == h.folds[..k] + [f];
    s0, g0 := if n == 0 then HeaderLws else HeaderValue, g.(cur := h0);
    assert AddToValue(h0, c) == h;
  }

  // ----- the parser's language -----

  /** After any bytes that bring no verdict, the parser has read a partial text and built its fields. */
  lemma {:induction false} Sound(input: seq<Byte>, start: Fields) returns (g: Partial)
    requires Fresh(start) && Feed(MethodStart, start, input).verdict == Indeterminate
    ensures var r := Feed(MethodStart, start, input);
            Fits(r.state, g) && Read(r.state, g) == input && Built(r.state, g, start) == r.req
    decreases |input|
  {
    if input == [] {
      g := Nothing();
    } else {
      var n := |input| - 1;
      var c := input[n];
      assert input == input[..n] + [c];
      FeedSplit(MethodStart, start, input[..n], [c]);
      var r0 := Feed(MethodStart, start, input[..n]);
      var g0 := Sound(input[..n], start);
      FeedOne(r0.state, r0.req, c);
      Forward(r0.state, g0, c, start);
      g := Next(r0.state, g0, c);
    }
  }

  function Nothing(): Partial {
    Partial(RequestText([], [], [], [], []), HeaderLine([], [], []))
  }

  lemma FeedOne(state: State, req: Fields, c: Byte)
    requires HasHeader(state, req)
    ensures var (verdict, state', req') := Step(state, req, c);
            Feed(state, req, [c]) == Outcome(verdict, 1, state', req')
  {
    assert [c][1..] == [];
  }

  /** Every partial text is read without a verdict. */
  lemma {:induction false} Complete(state: State, g: Partial, start: Fields)
    requires Fresh(start) && Fits(state, g)
    ensures HasHeader(state, Built(state, g, start))
    ensures var input := Read(state, g);
            Feed(MethodStart, start, input) == Outcome(Indeterminate, |input|, state, Built(state, g, start))
    decreases |Read(state, g)|
  {
    hide Read, Fits, Built, Step, Next;
    if state == MethodStart {
      NothingRead(g, start);
    } else {
      var s0, g0, c := Backward(state, g, start);
      Forward(s0, g0, c, start);
      Complete(s0, g0, start);
      FeedSplit(MethodStart, start, Read(s0, g0), [c]);
      FeedOne(s0, Built(s0, g0, start), c);
    }
  }

  lemma NothingRead(g: Partial, start: Fields)
    requires Fresh(start) && Fits(MethodStart, g)
    ensures Read(MethodStart, g) == [] && Built(MethodStart, g, start) == start
  {
  }

  /** The partial text just before the last byte of a request. */
  function AlmostAll(t: RequestText): Partial {
    Partial(t, HeaderLine([], [], []))
  }

  lemma AlmostAllRead(t: RequestText, start: Fields)
    requires IsRequest(t)
    ensures Fits(ExpectingNewline3, AlmostAll(t))
    ensures PrintRequest(t) == Read(ExpectingNewline3, AlmostAll(t)) + [LF]
    ensures Built(ExpectingNewline3, AlmostAll(t), start) == Meaning(t)
  {
    assert CRLF == [CR] + [LF];
    assert Meanings(t.headers) + [] == Meanings(t.headers);
  }

  lemma FitsRequest(g: Partial)
    requires Fits(ExpectingNewline3, g)
    ensures IsRequest(g.text) && g == AlmostAll(g.text)
  {
  }

  /** Completeness: an input that starts with a request text is accepted right at
      its end, with its meaning. */
  lemma Accepts(t: RequestText, rest: seq<Byte>, start: Fields)
    requires IsRequest(t) && Fresh(start)
    ensures Feed(MethodStart, start, PrintRequest(t) + rest)
            == Outcome(Good, |PrintRequest(t)|, ExpectingNewline3, Meaning(t))
  {
    hide Read, Fits, Built, PrintRequest, Meaning, IsRequest;
    var g := AlmostAll(t);
    var input := Read(ExpectingNewline3, g);
    AlmostAllRead(t, start);
    Complete(ExpectingNewline3, g, start);
    assert PrintRequest(t) + rest == input + ([LF] + rest);
    FeedSplit(MethodStart, start, input, [LF] + rest);
    assert ([LF] + rest)[0] == LF;
  }

  /** Soundness: what is accepted is a request text, consumed to its end, with its meaning. */
  lemma {:induction false} AcceptedIsRequest(input: seq<Byte>, start: Fields) returns (t: RequestText)
    requires Fresh(start) && Feed(MethodStart, start, input).verdict == Good
    ensures IsRequest(t) && PrintRequest(t) <= input
    ensures Feed(MethodStart, start, input) == Outcome(Good, |PrintRequest(t)|, ExpectingNewline3, Meaning(t))
  {
    var k := GoodByte(MethodStart, start, input);
    var r := Feed(MethodStart, start, input[..k]);
    var g := Sound(input[..k], start);
    FitsRequest(g);
    t := g.text;
    AlmostAllRead(t, start);
    assert input == PrintRequest(t) + input[k + 1..] by {
      assert input == input[..k] + [LF] + input[k + 1..];
    }
    Accepts(t, input[k + 1..], start);
  }

  lemma GoodAtEnd(state: State, req: Fields, c: Byte)
    requires HasHeader(state, req)
    ensures Step(state, req, c).0 == Good ==> c == LF && state == ExpectingNewline3
  {
  }

  /** Where the accepting byte is: a line feed met while waiting for the last one. */
  lemma {:induction false} GoodByte(state: State, req: Fields, input: seq<Byte>) returns (k: nat)
    requires HasHeader(state, req) && Feed(state, req, input).verdict == Good
    ensures k < |input| && input[k] == LF
    ensures var r := Feed(state, req, input[..k]); r.verdict == Indeterminate && r.state == ExpectingNewline3
    decreases |input|
  {
    hide Step;
    GoodAtEnd(state, req, input[0]);
    var (verdict, state', req') := Step(state, req, input[0]);
    if verdict == Good {
      k := 0;
    } else {
      k := GoodByte(state', req', input[1..]);
      assert input[..k + 1][0] == input[0] && input[..k + 1][1..] == input[1..][..k];
      k := k + 1;
    }
  }

  /** The parser accepts an input exactly when a request text is a prefix of it, and
      then the request object holds what that text means. */
  lemma ParserAcceptsTheGrammar(input: seq<Byte>, start: Fields)
    requires Fresh(start)
    ensures Feed(MethodStart, start, input).verdict == Good
            <==> exists t :: IsRequest(t) && PrintRequest(t) <= input
    ensures forall t :: IsRequest(t) && PrintRequest(t) <= input ==>
              Feed(MethodStart, start, input) == Outcome(Good, |PrintRequest(t)|, ExpectingNewline3, Meaning(t))
  {
    hide IsRequest, PrintRequest, Meaning;
    forall t | IsRequest(t) && PrintRequest(t) <= input
      ensures Feed(MethodStart, start, input) == Outcome(Good, |PrintRequest(t)|, ExpectingNewline3, Meaning(t))
    {
      var rest := input[|PrintRequest(t)|..];
      assert input == PrintRequest(t) + rest;
      Accepts(t, rest, start);
    }
    if Feed(MethodStart, start, input).verdict == Good {
      var t := AcceptedIsRequest(input, start);
    }
  }

  // ----- an example -----

  function Text(s: string): (b: seq<Byte>)
    requires forall k :: 0 <= k < |s| ==> s[k] as int < 256
    ensures |b| == |s| && forall k :: 0 <= k < |s| ==> b[k] == s[k] as int
  {
    seq(|s|, k requires 0 <= k < |s| => s[k] as int)
  }

  /** A header with a fold, as it stands and as it is taken. */
  lemma SampleHeader(h: HeaderLine)
    requires h == HeaderLine(Text("Host"), Text("b"), [Fold(Text(" "), Text("c"))])
    ensures PrintHeader(h) == Text("Host: b\r\n c\r\n") && MeaningOf(h) == Header(Text("Host"), Text("bc"))
  {
    assert h.folds[..0] == [];
    assert FoldedText(h.folds) == Text("c");
    assert PrintFolds(h.folds) == Text(" c\r\n");
  }

  lemma SampleLine(t: RequestText)
    requires t.method_ == Text("GET") && t.uri == Text("/a") && t.major == Text("1") && t.minor == Text("0")
    ensures PrintRequestLine(t) == Text("GET /a HTTP/1.0\r\n") && Number(t.major) == 1 && Number(t.minor) == 0
  {
    assert t.major[..0] == [] && t.minor[..0] == [];
  }

  /** A request, as it stands and as it is taken. */
  lemma SampleRequest(t: RequestText)
    requires t == RequestText(Text("GET"), Text("/a"), Text("1"), Text("0"),
                              [HeaderLine(Text("Host"), Text("b"), [Fold(Text(" "), Text("c"))])])
    ensures PrintRequest(t) == Text("GET /a HTTP/1.0\r\n") + Text("Host: b\r\n c\r\n") + CRLF
    ensures Meaning(t) == Fields(Text("GET"), Text("/a"), 1, 0, [Header(Text("Host"), Text("bc"))])
  {
    hide Text, PrintHeader, PrintRequestLine, MeaningOf, Number;
    var h := t.headers[0];
    SampleHeader(h);
    SampleLine(t);
    assert t.headers[..0] == [] && [] + PrintHeader(h) == PrintHeader(h);
    assert PrintHeaders(t.headers) == PrintHeader(h);
    assert Meanings(t.headers) == [MeaningOf(h)];
  }
}

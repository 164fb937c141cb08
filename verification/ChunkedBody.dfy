/** The decoder of chunked bodies (http_client/src/http_proxy_base.cpp). */
module ChunkedBody {
  function Crlf(): string {
    "\r\n"
  }

  // ----- strtol with base 16 -----

  const LONG_MAX := 0x7FFF_FFFF_FFFF_FFFF
  const LONG_MIN := -0x8000_0000_0000_0000

  predicate IsSpace(c: char) {
    c == ' ' || '\t' <= c <= '\r'
  }

  predicate IsHexDigit(c: char) {
    '0' <= c <= '9' || 'a' <= c <= 'f' || 'A' <= c <= 'F'
  }

  function HexDigit(c: char): (d: nat)
    requires IsHexDigit(c)
    ensures d < 16
  {
    if c <= '9' then (c - '0') as nat else if c <= 'F' then (c - 'A') as nat + 10 else (c - 'a') as nat + 10
  }

  predicate AllHex(d: string) {
    forall k :: 0 <= k < |d| ==> IsHexDigit(d[k])
  }

  /** The hexadecimal digits a string starts with. */
  function Digits(s: string): (d: string)
    ensures d <= s && AllHex(d)
  {
    if s == "" || !IsHexDigit(s[0]) then "" else [s[0]] + Digits(s[1..])
  }

  function HexValue(d: string): nat
    requires AllHex(d)
  {
    if d == "" then 0 else 16 * HexValue(d[..|d| - 1]) + HexDigit(d[|d| - 1])
  }

  function SkipSpace(s: string): string {
    if s != "" && IsSpace(s[0]) then SkipSpace(s[1..]) else s
  }

  function SkipPrefix(s: string): string {
    if |s| >= 3 && s[0] == '0' && (s[1] == 'x' || s[1] == 'X') && IsHexDigit(s[2]) then s[2..] else s
  }

  function Strtol16(s: string): (v: int)
    ensures LONG_MIN <= v <= LONG_MAX
  {
    var t := SkipSpace(s);
    var negative := t != "" && t[0] == '-';
    var u := if t != "" && (t[0] == '-' || t[0] == '+') then t[1..] else t;
    var v: int := HexValue(Digits(SkipPrefix(u)));
    if negative then (if -v < LONG_MIN then LONG_MIN else -v)
    else if v > LONG_MAX then LONG_MAX else v
  }

  /** The conversion to `uint16`. */
  function ToUint16(v: int): (u: nat)
    ensures u < 65536 && (0 <= v < 65536 ==> u == v)
  {
    v % 65536
  }

  // ----- std::string -----

  /** `find` of CRLF, or -1. */
  function FindCrlf(s: string, from: nat): (at: int)
    ensures at == -1 || from <= at <= |s| - 2
    decreases |s| - from
  {
    if from + 2 > |s| then -1
    else if s[from] == '\r' && s[from + 1] == '\n' then from
    else FindCrlf(s, from + 1)
  }

  function Substr(s: string, at: nat, len: nat): string
    requires at <= |s|
  {
    if at + len <= |s| then s[at..at + len] else s[at..]
  }

  /** The string that a C string holds. */
  function CString(s: string): string {
    if s == "" || s[0] == '\0' then "" else [s[0]] + CString(s[1..])
  }

  // ----- the decoder -----

  /** What the loop appends from `total` on; lengths are kept in 16 bits. */
  function Decode(s: string, total: nat): string
    decreases if total <= |s| then |s| + 1 - total else 0
  {
    var offset := FindCrlf(s, total);
    if offset < 1 then ""
    else
      var len := ToUint16(Strtol16(Substr(s, total, ToUint16(offset - total))));
      if len == 0 then "" else Substr(s, offset + 2, len) + Decode(s, offset + 2 + len + 2)
  }

  /** The chunk loop of `handle_read_body`. */
  method DecodeBody(responseBody: string) returns (tmp: string)
    ensures tmp == Decode(CString(responseBody), 0)
  {
    hide Strtol16, ToUint16, CString, FindCrlf, Substr;
    tmp := "";
    var curBody := CString(responseBody);
    var totalOffset := 0;
    while true
      invariant tmp + Decode(curBody, totalOffset) == Decode(curBody, 0)
      decreases if totalOffset <= |curBody| then |curBody| + 1 - totalOffset else 0
    {
      var offset := FindCrlf(curBody, totalOffset);
      if offset < 1 {
        break;
      }
      var len := ToUint16(offset - totalOffset);
      len := ToUint16(Strtol16(Substr(curBody, totalOffset, len)));
      if len == 0 {
        break;
      }
      ghost var rest := Decode(curBody, offset + 2 + len + 2);
      assert tmp + (Substr(curBody, offset + 2, len) + rest) == tmp + Substr(curBody, offset + 2, len) + rest;
      totalOffset := offset + 2;
      tmp := tmp + Substr(curBody, totalOffset, len);
      totalOffset := totalOffset + len + 2;
    }
  }

  // ----- the encoding, section 4.1 of RFC 7230 -----

  /** A chunk: its size as written, its extensions, its data. */
  datatype Chunk = Chunk(size: string, extensions: string, data: string)

  predicate SizeLine(size: string, extensions: string) {
    && size != "" && AllHex(size)
    && (extensions == "" || extensions[0] == ';') && '\r' !in extensions
  }

  /** The size, with any leading zeros and in either case, is that of the data, which is
      not empty. */
  predicate IsChunk(c: Chunk) {
    SizeLine(c.size, c.extensions) && HexValue(c.size) == |c.data| > 0
  }

  predicate IsLast(c: Chunk) {
    SizeLine(c.size, c.extensions) && HexValue(c.size) == 0
  }

  function Line(c: Chunk): string {
    c.size + c.extensions
  }

  /** The chunks, then a last chunk of size zero and whatever comes after its line. */
  function Encode(chunks: seq<Chunk>, last: Chunk): string {
    if chunks == [] then Line(last) + (Crlf() + last.data)
    else Line(chunks[0]) + (Crlf() + (chunks[0].data + (Crlf() + Encode(chunks[1..], last))))
  }

  function Payload(chunks: seq<Chunk>): string {
    if chunks == [] then "" else chunks[0].data + Payload(chunks[1..])
  }

  /** Where the data of the last of the chunks ends. */
  function DataEnd(chunks: seq<Chunk>): nat {
    if chunks == [] then 0
    else |Line(chunks[0])| + 2 + |chunks[0].data| + if |chunks| == 1 then 0 else 2 + DataEnd(chunks[1..])
  }

  // ----- what the decoder finds -----

  lemma {:induction false} FindsLineEnd(s: string, from: nat, at: nat)
    requires from <= at && at + 2 <= |s| && s[at] == '\r' && s[at + 1] == '\n'
    requires forall k :: from <= k < at ==> s[k] != '\r'
    ensures FindCrlf(s, from) == at
    decreases at - from
  {
    if from < at {
      FindsLineEnd(s, from + 1, at);
    }
  }

  lemma {:induction false} FindsNone(s: string, from: nat)
    requires forall k :: from <= k < |s| - 1 ==> s[k] != '\r'
    ensures FindCrlf(s, from) == -1
    decreases |s| - from
  {
    if from + 2 <= |s| {
      FindsNone(s, from + 1);
    }
  }

  lemma {:induction false} DigitsOf(size: string, extensions: string)
    requires AllHex(size)
    requires extensions == "" || extensions[0] == ';'
    ensures Digits(size + extensions) == size
  {
    var s := size + extensions;
    if size != "" {
      assert s[1..] == size[1..] + extensions;
      DigitsOf(size[1..], extensions);
    } else {
      assert s == extensions;
    }
  }

  lemma SizeRead(size: string, extensions: string)
    requires SizeLine(size, extensions) && HexValue(size) <= 65536
    ensures Strtol16(size + extensions) == HexValue(size)
  {
    var s := size + extensions;
    assert IsHexDigit(s[0]) && s[0] != '-' && s[0] != '+';
    assert SkipSpace(s) == s;
    assert |s| >= 2 ==> s[1] == if |size| >= 2 then size[1] else extensions[0];
    assert SkipPrefix(s) == s;
    DigitsOf(size, extensions);
    hide HexValue, SkipSpace, SkipPrefix, Digits, IsHexDigit;
    assert Digits(SkipPrefix(s)) == size;
  }

  /** The line of a chunk stands at `at`. */
  ghost predicate LineAt(s: string, at: nat, c: Chunk) {
    && at + |Line(c)| + 2 <= |s| && s[at..at + |Line(c)|] == Line(c)
    && s[at + |Line(c)|] == '\r' && s[at + |Line(c)| + 1] == '\n'
  }

  /** The chunks stand at `at`, one after the other, and then the last one. */
  ghost predicate ChunksAt(s: string, at: nat, chunks: seq<Chunk>, last: Chunk)
    decreases |chunks|
  {
    if chunks == [] then LineAt(s, at, last)
    else
      var c := chunks[0];
      var start := at + |Line(c)| + 2;
      && LineAt(s, at, c) && start + |c.data| + 2 <= |s| && s[start..start + |c.data|] == c.data
      && ChunksAt(s, start + |c.data| + 2, chunks[1..], last)
  }

  lemma LineFound(s: string, total: nat, c: Chunk)
    requires LineAt(s, total, c) && SizeLine(c.size, c.extensions)
    ensures FindCrlf(s, total) == total + |Line(c)| >= 1
  {
    NoReturn(c);
    hide FindCrlf, Line, SizeLine;
    var line := Line(c);
    forall k | total <= k < total + |line|
      ensures s[k] != '\r'
    {
      assert s[k] == s[total..total + |line|][k - total] == line[k - total];
    }
    FindsLineEnd(s, total, total + |line|);
  }

  /** A line that is cut off is no line. */
  lemma CutLine(s: string, n: nat, total: nat, c: Chunk)
    requires n <= |s| && LineAt(s, total, c) && SizeLine(c.size, c.extensions) && n < total + |Line(c)| + 2
    ensures FindCrlf(s[..n], total) == -1
  {
    NoReturn(c);
    hide FindCrlf, Line, SizeLine;
    var line := Line(c);
    forall k | total <= k < n - 1
      ensures s[..n][k] != '\r'
    {
      assert s[k] == s[total..total + |line|][k - total] == line[k - total];
    }
    FindsNone(s[..n], total);
  }

  lemma NoReturn(c: Chunk)
    requires SizeLine(c.size, c.extensions)
    ensures 1 <= |Line(c)| && forall k :: 0 <= k < |Line(c)| ==> Line(c)[k] != '\r'
  {
  }

  /** What a decoder reads at a chunk. */
  lemma ReadsLine(s: string, total: nat, c: Chunk)
    requires LineAt(s, total, c) && SizeLine(c.size, c.extensions) && HexValue(c.size) < 65536 && |s| < 65536
    ensures var offset := FindCrlf(s, total);
      && offset == total + |Line(c)| >= 1
      && ToUint16(Strtol16(Substr(s, total, ToUint16(offset - total)))) == HexValue(c.size)
  {
    hide HexValue, Strtol16, FindCrlf, ToUint16, Digits, IsHexDigit, AllHex;
    var line := Line(c);
    LineFound(s, total, c);
    assert Substr(s, total, |line|) == line;
    SizeRead(c.size, c.extensions);
    Fits16(|line|);
    Fits16(HexValue(c.size));
  }

  lemma Fits16(n: nat)
    requires n < 65536
    ensures ToUint16(n) == n
  {
  }

  /** One turn of the decoder. */
  lemma ReadsChunk(s: string, total: nat, c: Chunk)
    requires LineAt(s, total, c) && SizeLine(c.size, c.extensions) && HexValue(c.size) < 65536 && |s| < 65536
    ensures var n, start := HexValue(c.size), total + |Line(c)| + 2;
            Decode(s, total) == if n == 0 then "" else Substr(s, start, n) + Decode(s, start + n + 2)
  {
    hide HexValue, Strtol16, FindCrlf, ToUint16, Line, LineAt, AllHex, SizeLine, Substr;
    ReadsLine(s, total, c);
  }

  /** What is decoded is never longer than what is left. */
  lemma {:induction false} DecodedFits(s: string, total: nat)
    ensures |Decode(s, total)| <= if total <= |s| then |s| - total else 0
    ensures FindCrlf(s, total) >= 1 ==> |Decode(s, total)| <= |s| - (FindCrlf(s, total) + 2)
    decreases if total <= |s| then |s| + 1 - total else 0
  {
    hide Strtol16, ToUint16, FindCrlf;
    var offset := FindCrlf(s, total);
    if offset >= 1 {
      var len := ToUint16(Strtol16(Substr(s, total, ToUint16(offset - total))));
      if len != 0 {
        DecodedFits(s, offset + 2 + len + 2);
      }
    }
  }

  /** Behind a size line the decoder finds no more than what comes after it. */
  lemma DecodedBehind(s: string, total: nat, c: Chunk)
    requires LineAt(s, total, c) && SizeLine(c.size, c.extensions)
    ensures |Decode(s, total)| <= |s| - (total + |Line(c)| + 2)
  {
    hide Decode, FindCrlf, Line, LineAt, SizeLine;
    LineFound(s, total, c);
    DecodedFits(s, total);
  }

  // ----- decoding the front of an encoded body -----

  lemma {:induction false} PayloadOf(chunks: seq<Chunk>)
    requires chunks != []
    ensures Payload(chunks) == chunks[0].data + Payload(chunks[1..])
    ensures |Payload(chunks)| >= |chunks[0].data|
  {
  }

  lemma LineInFront(s: string, n: nat, total: nat, c: Chunk)
    requires LineAt(s, total, c) && total + |Line(c)| + 2 <= n <= |s|
    ensures LineAt(s[..n], total, c)
  {
    hide Line;
    assert s[..n][total..total + |Line(c)|] == s[total..total + |Line(c)|];
  }

  lemma FirstOf(s: string, at: nat, chunks: seq<Chunk>, last: Chunk)
    requires ChunksAt(s, at, chunks, last)
    ensures chunks == [] ==> LineAt(s, at, last)
    ensures chunks != [] ==>
      var c, start := chunks[0], at + |Line(chunks[0])| + 2;
      && LineAt(s, at, c) && start + |c.data| + 2 <= |s| && s[start..start + |c.data|] == c.data
      && ChunksAt(s, start + |c.data| + 2, chunks[1..], last)
  {
    hide Line, LineAt;
  }

  lemma SubstrInFront(s: string, n: nat, at: nat, len: nat)
    requires at + len <= n <= |s|
    ensures Substr(s[..n], at, len) == s[at..at + len]
  {
  }

  lemma SameFront(a: string, b: string, c: string)
    ensures a + b == a + c <==> b == c
  {
    assert (a + b)[|a|..] == b && (a + c)[|a|..] == c;
  }

  /** A chunk that is whole is decoded to its data. */
  lemma DecodesWhole(s: string, n: nat, total: nat, c: Chunk)
    requires n <= |s| && n < 65536 && LineAt(s, total, c) && IsChunk(c)
    requires total + |Line(c)| + 2 + |c.data| <= n
    ensures var start := total + |Line(c)| + 2;
            Decode(s[..n], total) == s[start..start + |c.data|] + Decode(s[..n], start + |c.data| + 2)
  {
    hide Decode, Line, LineAt, HexValue, SizeLine, Substr;
    LineInFront(s, n, total, c);
    ReadsChunk(s[..n], total, c);
    SubstrInFront(s, n, total + |Line(c)| + 2, |c.data|);
  }

  /** A chunk that is cut off is decoded to less than its data. */
  lemma DecodesCut(s: string, n: nat, total: nat, c: Chunk)
    requires n <= |s| && LineAt(s, total, c) && IsChunk(c)
    requires n < total + |Line(c)| + 2 + |c.data|
    ensures |Decode(s[..n], total)| < |c.data|
  {
    if n < total + |Line(c)| + 2 {
      CutLine(s, n, total, c);
    } else {
      hide Decode, Line, LineAt, HexValue, SizeLine;
      LineInFront(s, n, total, c);
      DecodedBehind(s[..n], total, c);
    }
  }

  lemma DecodesLast(s: string, n: nat, total: nat, last: Chunk)
    requires n <= |s| && n < 65536 && LineAt(s, total, last) && IsLast(last)
    ensures Decode(s[..n], total) == ""
  {
    if n < total + |Line(last)| + 2 {
      CutLine(s, n, total, last);
    } else {
      hide Decode, Line, LineAt, HexValue, SizeLine;
      LineInFront(s, n, total, last);
      ReadsChunk(s[..n], total, last);
    }
  }

  /** From the front of a text, shorter than 65536 characters, the data of the chunks is
      decoded if and only if it is all there. */
  lemma {:induction false} DecodesFront(s: string, n: nat, total: nat, chunks: seq<Chunk>, last: Chunk)
    requires n <= |s| && n < 65536 && ChunksAt(s, total, chunks, last)
    requires IsLast(last) && forall k :: 0 <= k < |chunks| ==> IsChunk(chunks[k])
    ensures Decode(s[..n], total) == Payload(chunks) <==> chunks == [] || total + DataEnd(chunks) <= n
    decreases |chunks|
  {
    hide Decode, Line, LineAt, IsChunk, IsLast, ChunksAt, Payload;
    FirstOf(s, total, chunks, last);
    if chunks == [] {
      DecodesLast(s, n, total, last);
      NoPayload();
    } else {
      var c, rest := chunks[0], chunks[1..];
      var next := total + |Line(c)| + 2 + |c.data| + 2;
      PayloadOf(chunks);
      if next - 2 <= n {
        DecodesWhole(s, n, total, c);
        DecodesFront(s, n, next, rest, last);
        SameFront(c.data, Decode(s[..n], next), Payload(rest));
      } else {
        DecodesCut(s, n, total, c);
      }
    }
  }

  lemma NoPayload()
    ensures Payload([]) == ""
  {
  }

  lemma Middle(pre: string, a: string, rest: string)
    ensures var s := pre + (a + rest);
            s[|pre|..|pre| + |a|] == a && s == (pre + a) + rest && |s| == |pre| + |a| + |rest|
  {
  }

  lemma LineEncoded(pre: string, c: Chunk, rest: string)
    ensures LineAt(pre + (Line(c) + (Crlf() + rest)), |pre|, c)
    ensures pre + (Line(c) + (Crlf() + rest)) == (pre + Line(c) + Crlf()) + rest
  {
    var line := Line(c);
    Middle(pre, line, Crlf() + rest);
    Middle(pre + line, Crlf(), rest);
    var s, at := pre + (line + (Crlf() + rest)), |pre| + |line|;
    assert s[at..at + 2][0] == s[at] && s[at..at + 2][1] == s[at + 1];
  }

  lemma {:induction false} EncodedStands(pre: string, chunks: seq<Chunk>, last: Chunk)
    ensures ChunksAt(pre + Encode(chunks, last), |pre|, chunks, last)
    decreases |chunks|
  {
    hide LineAt, Line, Crlf, Encode, ChunksAt;
    EncodeStep(chunks, last);
    var s := pre + Encode(chunks, last);
    if chunks == [] {
      LineEncoded(pre, last, last.data);
      LastStands(s, |pre|, last);
    } else {
      var c, after := chunks[0], Encode(chunks[1..], last);
      var p := pre + Line(c) + Crlf();
      CrlfLength();
      LineEncoded(pre, c, c.data + (Crlf() + after));
      EncodedStands(p + c.data + Crlf(), chunks[1..], last);
      Middle(p, c.data, Crlf() + after);
      Middle(p + c.data, Crlf(), after);
      ChunkStands(s, |pre|, chunks, last);
    }
  }

  lemma LastStands(s: string, at: nat, last: Chunk)
    requires LineAt(s, at, last)
    ensures ChunksAt(s, at, [], last)
  {
    hide LineAt;
  }

  lemma ChunkStands(s: string, at: nat, chunks: seq<Chunk>, last: Chunk)
    requires chunks != [] && LineAt(s, at, chunks[0])
    requires var start := at + |Line(chunks[0])| + 2;
      && start + |chunks[0].data| + 2 <= |s| && s[start..start + |chunks[0].data|] == chunks[0].data
      && ChunksAt(s, start + |chunks[0].data| + 2, chunks[1..], last)
    ensures ChunksAt(s, at, chunks, last)
  {
    hide LineAt, Line;
  }

  lemma EncodeStep(chunks: seq<Chunk>, last: Chunk)
    ensures Encode(chunks, last) ==
            if chunks == [] then Line(last) + (Crlf() + last.data)
            else Line(chunks[0]) + (Crlf() + (chunks[0].data + (Crlf() + Encode(chunks[1..], last))))
  {
    hide Line, Crlf;
  }

  lemma CrlfLength()
    ensures |Crlf()| == 2
  {
  }

  // ----- numbers and cut chunks -----

  /** `substr` gives the characters from `at` on, `len` of them or as many as there are. */
  lemma SubstrOf(s: string, at: nat, len: nat)
    requires at <= |s|
    ensures |Substr(s, at, len)| == if len < |s| - at then len else |s| - at
    ensures forall k :: 0 <= k < |Substr(s, at, len)| ==> Substr(s, at, len)[k] == s[at + k]
  {
  }

  /** Digits mean their numbers, in lower and upper case. */
  lemma HexDigits(k: nat)
    requires k < 16
    ensures IsHexDigit("0123456789abcdef"[k]) && HexDigit("0123456789abcdef"[k]) == k
    ensures IsHexDigit("0123456789ABCDEF"[k]) && HexDigit("0123456789ABCDEF"[k]) == k
  {
  }

  lemma {:induction false} SpaceSkipped(space: string, t: string)
    requires forall k :: 0 <= k < |space| ==> IsSpace(space[k])
    requires t == "" || !IsSpace(t[0])
    ensures SkipSpace(space + t) == t
  {
    if space == "" {
      assert space + t == t;
    } else {
      assert (space + t)[1..] == space[1..] + t;
      SpaceSkipped(space[1..], t);
    }
  }

  lemma {:induction false} DigitsEnd(digits: string, rest: string)
    requires AllHex(digits) && (rest == "" || !IsHexDigit(rest[0]))
    ensures Digits(digits + rest) == digits
  {
    var s := digits + rest;
    if digits != "" {
      assert s[1..] == digits[1..] + rest;
      DigitsEnd(digits[1..], rest);
    } else {
      assert s == rest;
    }
  }

  /** The number of digits behind an optional `0x`. */
  lemma PrefixSkipped(prefix: string, digits: string, rest: string)
    requires prefix == "" || prefix == "0x" || prefix == "0X"
    requires digits != "" && AllHex(digits) && (rest == "" || !IsHexDigit(rest[0]))
    requires prefix == "" ==> rest == "" || (rest[0] != 'x' && rest[0] != 'X')
    ensures Digits(SkipPrefix(prefix + digits + rest)) == digits
  {
    var s := prefix + digits + rest;
    DigitsEnd(digits, rest);
    if prefix == "" {
      assert s == digits + rest;
      assert |s| >= 2 ==> s[1] == if |digits| >= 2 then digits[1] else rest[0];
      assert SkipPrefix(s) == s;
    } else {
      assert s[2..] == digits + rest && s[2] == digits[0];
    }
  }

  /** `strtol` with base 16: white space, a sign, `0x`, and digits up to the first other
      character, within the range of `long`. */
  lemma StrtolReads(space: string, sign: string, prefix: string, digits: string, rest: string)
    requires forall k :: 0 <= k < |space| ==> space[k] as int in {32, 9, 10, 11, 12, 13}
    requires sign == "" || sign == "+" || sign == "-"
    requires prefix == "" || prefix == "0x" || prefix == "0X"
    requires digits != "" && AllHex(digits) && (rest == "" || !IsHexDigit(rest[0]))
    requires prefix == "" ==> rest == "" || (rest[0] != 'x' && rest[0] != 'X')
    ensures var m: int, n := HexValue(digits), Strtol16(space + (sign + (prefix + digits + rest)));
      var v := if sign == "-" then -m else m;
      n == if v < LONG_MIN then LONG_MIN else if v > LONG_MAX then LONG_MAX else v
  {
    hide HexValue, Digits, SkipPrefix;
    var u := prefix + digits + rest;
    var t := sign + u;
    assert u[0] == (if prefix == "" then digits[0] else '0');
    assert IsHexDigit(u[0]) && u[0] != '-' && u[0] != '+' && !IsSpace(u[0]);
    SpaceSkipped(space, t);
    PrefixSkipped(prefix, digits, rest);
    assert sign != "" ==> t[1..] == u;
    assert sign == "" ==> t == u;
  }

  /** Of a chunk that is cut off in its data, the part that is there is decoded. */
  lemma DecodesPart(s: string, n: nat, total: nat, c: Chunk)
    requires n <= |s| && n < 65536 && LineAt(s, total, c) && IsChunk(c) && |c.data| < 65536
    requires total + |Line(c)| + 2 <= n < total + |Line(c)| + 2 + |c.data|
    ensures Decode(s[..n], total) == s[total + |Line(c)| + 2..n]
  {
    hide Decode, Line, LineAt, HexValue, SizeLine, Substr;
    var start := total + |Line(c)| + 2;
    LineInFront(s, n, total, c);
    ReadsChunk(s[..n], total, c);
    DecodedFits(s[..n], start + |c.data| + 2);
    RestOf(s, n, start, |c.data|);
  }

  lemma RestOf(s: string, n: nat, at: nat, len: nat)
    requires at <= n <= |s| && n < at + len
    ensures Substr(s[..n], at, len) + "" == s[at..n]
  {
  }
}

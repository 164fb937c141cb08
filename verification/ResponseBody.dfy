/** What a response's body is taken to be once the connection is closed
    (`handle_read_body` of http_client/src/http_proxy_base.cpp), through the 16-bit lengths
    of `dynamic_string` (share/src/dynamic_array.h). */
module ResponseBody {
  import opened Wrappers
  import opened ChunkedBody

  const BLANK_LINE := "\r\n\r\n"

  // ----- dynamic_string -----

  /** How many bytes `append` copies. */
  function AppendLength(data: string, len: nat): (n: nat)
    requires len < 65536
    ensures n < 65536
  {
    if len == 0 then ToUint16(|CString(data)|) else len
  }

  /** `dynamic_string`; `len` and `maxLen` are 16 bits wide. */
  class DynamicString {
    var len: nat
    var maxLen: nat
    var data: array<char>

    ghost predicate Valid()
      reads this, data
    {
      len < maxLen < 65536 && data.Length == maxLen && data[len] == '\0'
    }

    ghost function Text(): string
      reads this, data
      requires Valid()
    {
      data[..len]
    }

    constructor ()
      ensures Valid() && fresh(data) && Text() == "" && maxLen == 64
    {
      len, maxLen := 0, 64;
      data := new char[64](_ => '\0');
    }

    /** `append` of a C++ string's bytes, which a NUL follows. It answers whether all it
        reads and writes is there. */
    method Append(text: string, length: nat, offset: nat) returns (ok: bool)
      requires Valid() && length < 65536
      modifies this, data
      ensures Valid() && (data == old(data) || fresh(data))
      ensures var n := AppendLength(text, length);
        && (ok <==> offset + n <= |text| + 1 && (n >= old(maxLen) - old(len) ==> old(len) + n + 1 < 65536))
        && Text() == if ok then old(Text()) + (text + "\0")[offset..offset + n] else old(Text())
    {
      hide CString;
      var n := length;
      if n == 0 {
        n := ToUint16(|CString(text)|);
      }
      if offset + n > |text| + 1 {
        return false;
      }
      if n >= maxLen - len {
        var max := ToUint16(len + n + 1);
        if max < len + n + 1 {
          return false;
        }
        Grow(max);
      }
      var c := text + "\0";
      ghost var before := data[..len];
      forall k | 0 <= k < n {
        data[len + k] := c[offset + k];
      }
      Joins(data, len, n, before, c[offset..offset + n]);
      len := len + n;
      data[len] := '\0';
      ok := true;
    }

    /** The new memory of `append`. */
    method Grow(max: nat)
      requires Valid() && maxLen <= max < 65536
      modifies this
      ensures Valid() && fresh(data) && maxLen == max && len == old(len) && Text() == old(Text())
    {
      var tmp := new char[max](_ => '\0');
      forall k | 0 <= k < len {
        tmp[k] := data[k];
      }
      maxLen := max;
      data := tmp;
    }
  }

  lemma Joins(data: array<char>, len: nat, n: nat, before: string, after: string)
    requires len + n <= data.Length && |before| == len && |after| == n
    requires forall k :: 0 <= k < len ==> data[k] == before[k]
    requires forall k :: 0 <= k < n ==> data[len + k] == after[k]
    ensures data[..len + n] == before + after
  {
    forall k | 0 <= k < len + n
      ensures data[k] == (before + after)[k]
    {
      if k >= len {
        assert data[len + (k - len)] == after[k - len];
      }
    }
  }

  // ----- handle_read_body -----

  /** `find` of a blank line, or -1. */
  function FindBlankLine(s: string, from: nat): (at: int)
    ensures at == -1 || from <= at <= |s| - 4
    decreases |s| - from
  {
    if from + 4 > |s| then -1
    else if s[from..from + 4] == BLANK_LINE then from
    else FindBlankLine(s, from + 1)
  }

  /** The conversion to `int`. */
  function ToInt32(v: int): int {
    var u := v % 0x1_0000_0000;
    if u < 0x8000_0000 then u else u - 0x1_0000_0000
  }

  /** What the response body becomes, or none where memory is overrun. */
  function Copied(text: string): Option<string> {
    var found := ToInt32(FindBlankLine(text, 0) + 4);
    var offset := if found > 0 then ToUint16(found) else 0;
    var length := if found > 0 then ToUint16(ToUint16(|text|) - found) else ToUint16(|text|);
    Taken(text, offset, AppendLength(text, length))
  }

  /** The copy of `n` bytes, where both the bytes and the memory for them are there. */
  function Taken(text: string, offset: nat, n: nat): Option<string> {
    if offset + n <= |text| + 1 && n < 65535 then Some((text + "\0")[offset..offset + n]) else None
  }

  function Response(text: string, chunked: bool): Option<string> {
    if chunked && Copied(text).Some? then Some(Decode(CString(Copied(text).value), 0)) else Copied(text)
  }

  /** What `append` is asked for, by the lengths that the handler computes. */
  lemma CopiedIs(text: string, found: int, len: nat, offset: nat)
    requires found == ToInt32(FindBlankLine(text, 0) + 4)
    requires offset == (if found > 0 then ToUint16(found) else 0)
    requires len == if found > 0 then ToUint16(ToUint16(|text|) - found) else ToUint16(|text|)
    ensures len < 65536
    ensures Copied(text) == Taken(text, offset, AppendLength(text, len))
  {
    hide FindBlankLine, ToInt32, ToUint16, CString, AppendLength, Taken;
  }

  lemma NothingBefore(s: string)
    ensures "" + s == s
  {
  }

  method HandleReadBody(text: string, chunked: bool) returns (ok: bool, result: DynamicString)
    ensures result.Valid()
    ensures ok <==> Response(text, chunked).Some?
    ensures ok ==> result.Text() == Response(text, chunked).value
  {
    hide FindBlankLine, ToInt32, ToUint16, CString, Decode, Copied, AppendLength;
    var body := new DynamicString();
    var offset := ToInt32(FindBlankLine(text, 0) + |BLANK_LINE|);
    ghost var found := offset;
    var len := ToUint16(|text|);
    if offset > 0 {
      len := ToUint16(len - offset);
    } else {
      offset := 0;
    }
    Fits16(0);
    CopiedIs(text, found, len, ToUint16(offset));
    ok := body.Append(text, len, ToUint16(offset));
    if ok {
      ghost var n := AppendLength(text, len);
      NothingBefore((text + "\0")[ToUint16(offset)..ToUint16(offset) + n]);
    }
    if ok && chunked {
      result := Unchunk(body);
    } else {
      result := body;
    }
  }

  /** The part of the handler for chunked bodies. */
  method Unchunk(body: DynamicString) returns (result: DynamicString)
    requires body.Valid()
    ensures result.Valid() && result.Text() == Decode(CString(body.Text()), 0)
  {
    hide CString, Decode;
    var curBody := body.data[..body.len];
    var tmp := DecodeBody(curBody);
    DecodedIsText(curBody);
    result := new DynamicString();
    var ok := result.Append(tmp, ToUint16(|tmp|), 0);
    assert AppendLength(tmp, |tmp|) == |tmp|;
    assert (tmp + "\0")[0..|tmp|] == tmp;
  }

  lemma {:induction false} CStringFits(s: string)
    ensures CString(s) <= s && '\0' !in CString(s)
    ensures |CString(s)| < |s| ==> s[|CString(s)|] == '\0'
  {
    if s != "" && s[0] != '\0' {
      CStringFits(s[1..]);
    }
  }

  lemma {:induction false} CStringWhole(s: string)
    requires '\0' !in s
    ensures CString(s) == s
  {
    if s != "" {
      CStringWhole(s[1..]);
    }
  }

  /** Decoding gives no NUL and no more than there is. */
  lemma DecodedIsText(s: string)
    ensures |Decode(CString(s), 0)| <= |s| && '\0' !in Decode(CString(s), 0)
    ensures CString(Decode(CString(s), 0)) == Decode(CString(s), 0)
  {
    CStringFits(s);
    DecodedFits(CString(s), 0);
    DecodedFrom(CString(s), 0, '\0');
    CStringWhole(Decode(CString(s), 0));
  }

  lemma {:induction false} DecodedFrom(s: string, total: nat, c: char)
    requires c !in s
    ensures c !in Decode(s, total)
    decreases if total <= |s| then |s| + 1 - total else 0
  {
    hide Strtol16, ToUint16, FindCrlf, Substr;
    var offset := FindCrlf(s, total);
    if offset >= 1 {
      var len := ToUint16(Strtol16(Substr(s, total, ToUint16(offset - total))));
      if len != 0 {
        SubstrFrom(s, offset + 2, len, c);
        DecodedFrom(s, offset + 2 + len + 2, c);
      }
    }
  }

  lemma SubstrFrom(s: string, at: nat, len: nat, c: char)
    requires at <= |s| && c !in s
    ensures c !in Substr(s, at, len)
  {
  }

  // ----- which bodies come back -----

  /** The headers of a response: no NUL, and the blank line after them is the first. */
  predicate IsHead(head: string) {
    '\0' !in head && FindBlankLine(head + BLANK_LINE, 0) == |head| && |head| + 4 < 65536
  }

  /** How much of a body is copied: its size in 16 bits or, where that is 0, the length
      in 16 bits of the C string that headers and body make. */
  function CopiedLength(head: string, body: string): nat {
    if ToUint16(|body|) != 0 then ToUint16(|body|)
    else ToUint16(|head| + 4 + |CString(body)|)
  }

  lemma {:induction false} BlankLineStays(s: string, t: string, from: nat)
    requires FindBlankLine(s, from) != -1
    ensures FindBlankLine(s + t, from) == FindBlankLine(s, from)
    decreases |s| - from
  {
    assert (s + t)[from..from + 4] == s[from..from + 4];
    if s[from..from + 4] != BLANK_LINE {
      BlankLineStays(s, t, from + 1);
    }
  }

  lemma {:induction false} CStringJoin(s: string, t: string)
    requires '\0' !in s
    ensures CString(s + t) == s + CString(t)
  {
    if s == "" {
      assert s + t == t;
    } else {
      CStringJoin(s[1..], t);
      assert (s + t)[1..] == s[1..] + t;
    }
  }

  lemma Uint16Sub(a: nat, b: nat)
    ensures ToUint16(ToUint16(a + b) - a) == ToUint16(b)
  {
  }

  lemma Uint16Less(a: nat)
    ensures ToUint16(a) <= a && (a > 0 && ToUint16(a) == 0 ==> a >= 65536)
  {
  }

  /** The body that is copied from behind the headers, which is the front of the one that
      was sent. Where 65535 bytes are asked for, the new capacity is 0 in 16 bits. */
  lemma CopiedBody(head: string, body: string)
    requires IsHead(head) && body != ""
    ensures CopiedLength(head, body) <= |body|
    ensures Copied(head + BLANK_LINE + body) ==
            if CopiedLength(head, body) == 65535 then None else Some(body[..CopiedLength(head, body)])
  {
    hide FindBlankLine, CString;
    var text, at := head + BLANK_LINE + body, |head| + 4;
    BlankLineStays(head + BLANK_LINE, body, 0);
    Uint16Sub(at, |body|);
    CStringJoin(head + BLANK_LINE, body);
    CStringFits(body);
    Uint16Less(|body|);
    hide ToUint16;
    Uint16Small(at);
    var n := CopiedLength(head, body);
    assert AppendLength(text, ToUint16(|body|)) == n;
    assert at + n <= |text|;
    assert (text + "\0")[at..at + n] == body[..n];
  }

  lemma Uint16Small(n: nat)
    requires n < 65536
    ensures ToUint16(n) == n && ToInt32(n) == n
  {
  }

  /** Without a blank line the first three bytes are taken for the headers; shorter texts
      are copied far beyond their end. */
  lemma NoBlankLine(text: string)
    requires FindBlankLine(text, 0) == -1 && |text| < 65536
    ensures 3 < |text| ==> Copied(text) == Some(text[3..])
    ensures |text| < 3 ==> Copied(text) == None
  {
    hide FindBlankLine, CString, ToUint16, ToInt32, Copied;
    Uint16Small(3);
    Uint16Small(|text|);
    var len := ToUint16(|text| - 3);
    CopiedIs(text, 3, len, 3);
    if 3 < |text| {
      Uint16Small(|text| - 3);
      FromThree(text);
    } else if |text| < 3 {
      WrapsBelow(|text|);
    }
  }

  lemma FromThree(text: string)
    requires |text| > 3
    ensures (text + "\0")[3..3 + (|text| - 3)] == text[3..]
  {
  }

  lemma WrapsBelow(n: nat)
    requires n < 3
    ensures ToUint16(n - 3) == 65533 + n
  {
  }

  /** A body without chunks comes back if and only if it has between 1 and 65534 bytes. */
  lemma PlainComesBack(head: string, body: string)
    requires IsHead(head)
    ensures Response(head + BLANK_LINE + body, false) == Some(body) <==> 0 < |body| < 65535
  {
    if body == "" {
      EmptyOverruns(head);
    } else {
      CopiedBody(head, body);
      var n := CopiedLength(head, body);
      CopiedFits(head, body);
      if |body| < 65536 {
        Uint16Small(|body|);
      }
      assert body[..n] == body <==> n == |body|;
    }
  }

  /** An empty body is copied with the length of the headers, from behind them. */
  lemma EmptyOverruns(head: string)
    requires IsHead(head)
    ensures Copied(head + BLANK_LINE + "") == None
  {
    hide FindBlankLine, CString;
    var text := head + BLANK_LINE;
    assert text + "" == text;
    CStringWhole(text);
    Uint16Small(|text|);
  }

  lemma FrontOfCString(s: string, n: nat)
    requires n <= |s|
    ensures CString(s[..n]) == s[..if n < |CString(s)| then n else |CString(s)|]
  {
    CStringFits(s);
    var m := |CString(s)|;
    if n <= m {
      assert s[..n] == CString(s)[..n];
      CStringWhole(s[..n]);
    } else {
      assert s[..m] == CString(s);
      CStringCut(s[..m], s[m..n]);
      assert s[..n] == s[..m] + s[m..n];
    }
  }

  lemma CStringCut(s: string, t: string)
    requires '\0' !in s && t != "" && t[0] == '\0'
    ensures CString(s + t) == s
  {
    CStringJoin(s, t);
  }

  /** The payload of a chunked body comes back if and only if no NUL comes before the end
      of its data and that end is copied. */
  lemma ChunkedComesBack(head: string, chunks: seq<Chunk>, last: Chunk)
    requires IsHead(head) && IsLast(last) && forall k :: 0 <= k < |chunks| ==> IsChunk(chunks[k])
    ensures var body := Encode(chunks, last);
      Response(head + BLANK_LINE + body, true) == Some(Payload(chunks)) <==>
      CopiedLength(head, body) < 65535
      && DataEnd(chunks) <= CopiedLength(head, body) && DataEnd(chunks) <= |CString(body)|
  {
    hide IsHead, Copied, CString, CopiedLength, ChunksAt, DataEnd, Encode, Decode, Payload, IsChunk, IsLast;
    var body := Encode(chunks, last);
    NotEmpty(chunks, last);
    CopiedBody(head, body);
    var n := CopiedLength(head, body);
    CopiedFits(head, body);
    if n < 65535 {
      var m := if n < |CString(body)| then n else |CString(body)|;
      CStringFits(body);
      FrontOfCString(body, n);
      EncodedStands("", chunks, last);
      assert "" + body == body;
      DecodesFront(body, m, 0, chunks, last);
      NoDataEnd();
    }
  }

  lemma NoDataEnd()
    ensures DataEnd([]) == 0
  {
  }

  lemma CopiedFits(head: string, body: string)
    ensures CopiedLength(head, body) < 65536
  {
  }

  lemma NotEmpty(chunks: seq<Chunk>, last: Chunk)
    ensures Encode(chunks, last) != ""
  {
    hide Line;
  }

  lemma {:induction false} DataEndInside(chunks: seq<Chunk>, last: Chunk)
    ensures |Payload(chunks)| <= DataEnd(chunks) <= |Encode(chunks, last)|
  {
    hide Line;
    if chunks != [] {
      DataEndInside(chunks[1..], last);
    }
  }

  /** A body without NUL of at most 65534 bytes is decoded to its payload, however it is
      split into chunks. */
  lemma DecodeInvertsEncode(head: string, chunks: seq<Chunk>, last: Chunk)
    requires IsHead(head) && IsLast(last) && forall k :: 0 <= k < |chunks| ==> IsChunk(chunks[k])
    requires '\0' !in Encode(chunks, last) && |Encode(chunks, last)| < 65535
    ensures Response(head + BLANK_LINE + Encode(chunks, last), true) == Some(Payload(chunks))
  {
    hide IsHead, CString, Encode, DataEnd, Payload, IsChunk, IsLast, Response;
    var body := Encode(chunks, last);
    NotEmpty(chunks, last);
    CStringWhole(body);
    DataEndInside(chunks, last);
    ChunkedComesBack(head, chunks, last);
  }

  /** No payload of 65535 bytes or more comes back. */
  lemma LargePayloadLost(head: string, chunks: seq<Chunk>, last: Chunk)
    requires IsHead(head) && IsLast(last) && forall k :: 0 <= k < |chunks| ==> IsChunk(chunks[k])
    requires |Payload(chunks)| >= 65535
    ensures Response(head + BLANK_LINE + Encode(chunks, last), true) != Some(Payload(chunks))
  {
    hide IsHead, CString, Encode, DataEnd, Payload, IsChunk, IsLast, Response;
    DataEndInside(chunks, last);
    CopiedFits(head, Encode(chunks, last));
    ChunkedComesBack(head, chunks, last);
  }

  lemma HexAppended(d: string, c: char)
    requires AllHex(d) && IsHexDigit(c)
    ensures AllHex(d + [c]) && HexValue(d + [c]) == 16 * HexValue(d) + HexDigit(c)
  {
    assert (d + [c])[..|d|] == d;
  }

  lemma LargeSize(size: string)
    requires size == "10000"
    ensures AllHex(size) && HexValue(size) == 65536
  {
    HexAppended([], '1');
    HexAppended(['1'], '0');
    HexAppended(['1', '0'], '0');
    HexAppended(['1', '0', '0'], '0');
    HexAppended(['1', '0', '0', '0'], '0');
    assert [] + ['1'] == ['1'] && ['1'] + ['0'] == ['1', '0'] && ['1', '0'] + ['0'] == ['1', '0', '0'];
    assert ['1', '0', '0'] + ['0'] == ['1', '0', '0', '0'] && size == ['1', '0', '0', '0'] + ['0'];
  }

  /** One chunk of 65536 bytes is lost, for one. */
  lemma LargeChunkLost(c: Chunk, last: Chunk)
    requires c.size == "10000" && c.extensions == "" && |c.data| == 65536
    requires last.size == "0" && last.extensions == ""
    ensures IsChunk(c) && IsLast(last) && Payload([c]) == c.data
    ensures Response(BLANK_LINE + Encode([c], last), true) != Some(c.data)
  {
    hide Response, Encode, HexValue;
    LargeSize(c.size);
    HexAppended([], '0');
    NoDigits();
    assert [] + ['0'] == last.size;
    PayloadOf([c]);
    NoPayload();
    assert c.data + "" == c.data;
    assert "" + BLANK_LINE == BLANK_LINE;
    LargePayloadLost("", [c], last);
  }

  lemma NoDigits()
    ensures HexValue([]) == 0
  {
  }
}

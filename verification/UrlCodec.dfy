/** The URL codec of http_client/src/http_proxy_base.cpp, on bytes. */
module UrlCodec {
  import opened Sequences

  type Byte = c: char | c as int < 256

  /** The table of digits, with the NUL that ends it. */
  const HEX_CHARS: seq<Byte> := "0123456789ABCDEF\0"

  predicate IsAscii(s: seq<Byte>) {
    forall k :: 0 <= k < |s| ==> s[k] as int < 128
  }

  predicate IsPlain(c: Byte) {
    '0' <= c <= '9' || 'a' <= c <= 'z' || 'A' <= c <= 'Z' || c == '-' || c == '_' || c == '.' || c == '~'
  }

  // ----- encoding -----

  /** The number a `char` holds. */
  function Signed(c: Byte): int {
    if c as int < 128 then c as int else c as int - 256
  }

  /** The index of the first digit: a signed shift, then the conversion to `unsigned char`. */
  function High(c: Byte): (h: nat)
    ensures h < 256
  {
    Signed(c) / 16 % 256
  }

  function Low(c: Byte): (h: nat)
    ensures h < 16
  {
    Signed(c) % 16
  }

  /** The index stays in the table just for the lower half of the bytes. */
  lemma HighInTable(c: Byte)
    ensures High(c) < |HEX_CHARS| <==> c as int < 128
    ensures c as int < 128 ==> 16 * High(c) + Low(c) == c as int && High(c) < 16
  {
    var n := Signed(c);
    assert if c as int < 128 then 0 <= n / 16 < 8 else -8 <= n / 16 < 0;
    assert n == 16 * (n / 16) + n % 16;
  }

  /** The first byte of an umlaut in UTF-8, for one. */
  lemma HighOutOfTable(c: Byte)
    requires c as int == 0xC3
    ensures High(c) == 252 && High(c) >= |HEX_CHARS| && !IsPlain(c)
  {
  }

  function EncodeChar(c: Byte): seq<Byte>
    requires c as int < 128
  {
    if IsPlain(c) then [c]
    else if c == ' ' then "+"
    else ['%', HEX_CHARS[High(c)], HEX_CHARS[Low(c)]]
  }

  function Encode(s: seq<Byte>): seq<Byte>
    requires IsAscii(s)
  {
    if s == [] then [] else EncodeChar(s[0]) + Encode(s[1..])
  }

  /** `url_encode`; without `inTable`, the source reads past its table of digits. */
  method UrlEncode(input: seq<Byte>) returns (inTable: bool, output: seq<Byte>)
    ensures inTable <==> IsAscii(input)
    ensures inTable ==> output == Encode(input)
  {
    output := [];
    var i := 0;
    while i < |input|
      invariant i <= |input| && IsAscii(input[..i])
      invariant IsAscii(input) ==> output + Encode(input[i..]) == Encode(input)
    {
      hide Encode, High, Low;
      HighInTable(input[i]);
      EncodeNext(output, input, i);
      if IsPlain(input[i]) {
        output := output + [input[i]];
      } else if input[i] == ' ' {
        output := output + "+";
      } else {
        output := output + ['%'];
        var high := High(input[i]);
        if high >= |HEX_CHARS| {
          return false, output;
        }
        output := output + [HEX_CHARS[high]];
        var low := Low(input[i]);
        output := output + [HEX_CHARS[low]];
      }
      i := i + 1;
    }
    inTable := true;
  }

  lemma EncodeNext(output: seq<Byte>, s: seq<Byte>, i: nat)
    requires i < |s|
    ensures IsAscii(s) ==>
      output + Encode(s[i..]) == output + EncodeChar(s[i]) + Encode(s[i + 1..])
    ensures IsPlain(s[i]) || s[i] == ' ' ==> s[i] as int < 128
    ensures s[i] as int < 128 && !IsPlain(s[i]) && s[i] != ' ' ==>
      output + EncodeChar(s[i]) == output + ['%'] + [HEX_CHARS[High(s[i])]] + [HEX_CHARS[Low(s[i])]]
  {
    assert s[i..][1..] == s[i + 1..] && s[i..][0] == s[i];
    if IsAscii(s) {
      Associative(output, EncodeChar(s[i]), Encode(s[i + 1..]));
    }
  }

  // ----- decoding -----

  /** `from_hex`: letters beyond F and other characters get a number too. */
  function FromHex(c: Byte): (h: int)
    ensures 0 <= h < 256
  {
    if 'A' <= c <= 'Z' then c as int - 'A' as int + 10
    else if 'a' <= c <= 'z' then c as int - 'a' as int + 10
    else (c as int - '0' as int) % 256
  }

  /** The sum of the digits in 8 bits. */
  function Unescaped(high: nat, low: nat): Byte {
    ((16 * high + low) % 256) as char
  }

  /** A string's byte at `k`, where the end of a string reads as NUL. */
  function At(s: seq<Byte>, k: nat): Byte
    requires k <= |s|
  {
    if k < |s| then s[k] else '\0'
  }

  function From(s: seq<Byte>, k: nat): (t: seq<Byte>)
    ensures |t| == if k <= |s| then |s| - k else 0
  {
    if k <= |s| then s[k..] else []
  }

  /** At least one byte follows every percent sign that is not part of an escape; the
      second may be the NUL at the end. */
  predicate Complete(s: seq<Byte>)
    decreases |s|
  {
    if s == [] then true
    else if s[0] == '%' then |s| >= 2 && Complete(From(s, 3))
    else Complete(s[1..])
  }

  function Decode(s: seq<Byte>): seq<Byte>
    requires Complete(s)
    decreases |s|
  {
    if s == [] then []
    else if s[0] == '+' then [' '] + Decode(s[1..])
    else if s[0] == '%' then [Unescaped(FromHex(s[1]), FromHex(At(s, 2)))] + Decode(From(s, 3))
    else [s[0]] + Decode(s[1..])
  }

  /** `url_decode`; without `inString`, the source reads past the end of its input. */
  method UrlDecode(input: seq<Byte>) returns (inString: bool, output: seq<Byte>)
    ensures inString <==> Complete(input)
    ensures inString ==> output == Decode(input)
  {
    output := [];
    var i := 0;
    while i < |input|
      invariant Complete(From(input, i)) <==> Complete(input)
      invariant Complete(input) ==> output + Decode(From(input, i)) == Decode(input)
    {
      hide FromHex, Unescaped, Complete, Decode;
      DecodeNext(output, input, i);
      var c := input[i];
      if input[i] == '+' {
        c := ' ';
      } else if input[i] == '%' {
        i := i + 1;
        if i == |input| {
          // the byte at the end is NUL, and there is none after it
          return false, output;
        }
        var high := FromHex(At(input, i));
        i := i + 1;
        var low := FromHex(At(input, i));
        c := Unescaped(high, low);
      }
      i := i + 1;
      output := output + [c];
    }
    inString := true;
  }

  /** What a turn of `url_decode` reads and goes on with. */
  lemma DecodeNext(output: seq<Byte>, s: seq<Byte>, i: nat)
    requires i < |s|
    ensures s[i] == '%' ==> (Complete(From(s, i)) <==> i + 1 < |s| && Complete(From(s, i + 3)))
    ensures s[i] != '%' ==> (Complete(From(s, i)) <==> Complete(From(s, i + 1)))
    ensures s[i] == '%' && Complete(From(s, i)) ==>
      output + Decode(From(s, i)) ==
      output + [Unescaped(FromHex(s[i + 1]), FromHex(At(s, i + 2)))] + Decode(From(s, i + 3))
    ensures s[i] != '%' && Complete(From(s, i)) ==>
      output + Decode(From(s, i)) == output + [if s[i] == '+' then ' ' else s[i]] + Decode(From(s, i + 1))
  {
    hide FromHex, Unescaped, From, At;
    FromNext(s, i);
    if Complete(From(s, i)) {
      if s[i] == '%' {
        Associative(output, [Unescaped(FromHex(s[i + 1]), FromHex(At(s, i + 2)))], Decode(From(s, i + 3)));
      } else {
        Associative(output, [if s[i] == '+' then ' ' else s[i]], Decode(From(s, i + 1)));
      }
    }
  }

  lemma FromNext(s: seq<Byte>, i: nat)
    requires i < |s|
    ensures From(s, i)[0] == s[i] && From(s, i)[1..] == From(s, i + 1) && From(From(s, i), 3) == From(s, i + 3)
    ensures i + 1 < |s| ==> From(s, i)[1] == s[i + 1] && At(From(s, i), 2) == At(s, i + 2)
  {
  }

  // ----- both together -----

  lemma HexDigitBack(h: nat)
    requires h < 16
    ensures FromHex(HEX_CHARS[h]) == h
  {
  }

  lemma CharBack(c: Byte, t: seq<Byte>)
    requires c as int < 128 && Complete(t)
    ensures Complete(EncodeChar(c) + t) && Decode(EncodeChar(c) + t) == [c] + Decode(t)
  {
    var s := EncodeChar(c) + t;
    if IsPlain(c) || c == ' ' {
      assert s[1..] == t;
    } else {
      HighInTable(c);
      HexDigitBack(High(c));
      HexDigitBack(Low(c));
      assert From(s, 3) == t;
    }
  }

  lemma NothingDecoded()
    ensures Complete([]) && Decode([]) == []
  {
  }

  /** Decoding an encoded string gives it back. */
  lemma {:induction false} DecodeInvertsEncode(s: seq<Byte>)
    requires IsAscii(s)
    ensures Complete(Encode(s)) && Decode(Encode(s)) == s
  {
    hide EncodeChar, Decode, Complete;
    if s == [] {
      NothingDecoded();
    } else {
      DecodeInvertsEncode(s[1..]);
      CharBack(s[0], Encode(s[1..]));
    }
  }

  // ----- which bytes stand for which -----

  /** The unreserved characters, section 2.3 of RFC 3986: letters, digits, and - . _ ~ */
  predicate IsUnreserved(c: Byte) {
    var n := c as int;
    65 <= n <= 90 || 97 <= n <= 122 || 48 <= n <= 57 || n in {45, 46, 95, 126}
  }

  const LOWER: seq<Byte> := "0123456789abcdef"

  const UPPER: seq<Byte> := "0123456789ABCDEF"

  lemma PlainIsUnreserved(c: Byte)
    ensures IsPlain(c) <==> IsUnreserved(c)
  {
  }

  /** What one byte is encoded as: an unreserved one as itself, a space as a plus sign, and
      any other as its number in two digits. */
  lemma EncodesOne(c: Byte)
    requires c as int < 128
    ensures Encode([c]) ==
            if IsUnreserved(c) then [c] else if c == ' ' then ['+']
            else ['%', UPPER[c as int / 16], UPPER[c as int % 16]]
  {
    hide High, Low;
    PlainIsUnreserved(c);
    HighInTable(c);
    HighLow(c);
    assert [c][1..] == [];
    assert EncodeChar(c) + [] == EncodeChar(c);
  }

  lemma HighLow(c: Byte)
    requires c as int < 128
    ensures High(c) == c as int / 16 && Low(c) == c as int % 16
  {
  }

  /** A string is encoded byte by byte. */
  lemma {:induction false} EncodesEach(s: seq<Byte>, t: seq<Byte>)
    requires IsAscii(s) && IsAscii(t)
    ensures IsAscii(s + t) && Encode(s + t) == Encode(s) + Encode(t)
  {
    hide EncodeChar;
    if s == [] {
      assert s + t == t;
    } else {
      EncodesEach(s[1..], t);
      assert (s + t)[1..] == s[1..] + t && (s + t)[0] == s[0];
      Associative(EncodeChar(s[0]), Encode(s[1..]), Encode(t));
    }
  }

  /** An encoded string holds unreserved bytes, plus signs and percent signs alone. */
  lemma {:induction false} EncodedBytes(s: seq<Byte>, c: Byte)
    requires IsAscii(s) && c in Encode(s)
    ensures IsUnreserved(c) || c == '+' || c == '%'
  {
    hide EncodeChar;
    if c in EncodeChar(s[0]) {
      OneEncoded(s[0], c);
    } else {
      EncodedBytes(s[1..], c);
    }
  }

  lemma OneEncoded(x: Byte, c: Byte)
    requires x as int < 128 && c in EncodeChar(x)
    ensures IsUnreserved(c) || c == '+' || c == '%'
  {
    hide High, Low;
    HighInTable(x);
    PlainIsUnreserved(c);
  }

  /** An escape means the number that its digits make, in lower or upper case. */
  lemma EscapeMeans(high: nat, low: nat, x: Byte, y: Byte, t: seq<Byte>)
    requires high < 16 && low < 16 && Complete(t)
    requires (x == LOWER[high] || x == UPPER[high]) && (y == LOWER[low] || y == UPPER[low])
    ensures Complete(['%', x, y] + t) && Decode(['%', x, y] + t) == [(16 * high + low) as char] + Decode(t)
  {
    DigitMeans(high, x);
    DigitMeans(low, y);
    hide FromHex;
    var s := ['%', x, y] + t;
    assert From(s, 3) == t && s[1] == x && At(s, 2) == y;
  }

  lemma DigitMeans(h: nat, x: Byte)
    requires h < 16 && (x == LOWER[h] || x == UPPER[h])
    ensures FromHex(x) == h
  {
  }

  /** A plus sign means a space, and any other byte but a percent sign itself. */
  lemma OthersMean(c: Byte, t: seq<Byte>)
    requires c != '%' && Complete(t)
    ensures Complete([c] + t) && Decode([c] + t) == [if c == '+' then ' ' else c] + Decode(t)
  {
    assert ([c] + t)[1..] == t;
  }
}

/** The wire format of remote calls (share/src/rpc_param.h over share/src/dynamic_array.h):
    a value of fixed width is copied as it stands, every kind of list is a 16-bit count
    followed by its elements, and the arguments of a call follow one another. */
module Rpc {
  import opened Wrappers
  import opened Bytes

  /** Lists come as `dynamic_string`, `dynamic_array` and `dynamic_array2`, which differ
      in their elements and in the capacity they start with. */
  datatype Type = Fixed(width: nat) | List(element: Type, capacity: nat)

  datatype Value = Bytes(bytes: seq<Byte>) | Items(items: seq<Value>)

  /** The value is of the type, its lists start with a capacity the lists have, and no list
      is longer than the receiving list can get. */
  predicate Fits(v: Value, t: Type)
    decreases t
  {
    match t
    case Fixed(width) => v.Bytes? && |v.bytes| == width
    case List(element, capacity) =>
      && v.Items? && |v.items| <= LONGEST && StartsWith(capacity)
      && forall k :: 0 <= k < |v.items| ==> Fits(v.items[k], element)
  }

  const LONGEST: nat := 32767

  predicate StartsWith(capacity: nat) {
    capacity == 2 || capacity == 16 || capacity == 64
  }

  // ----- the format -----

  function Count(n: nat): (b: seq<Byte>)
    ensures |b| == 2
  {
    [n % 256, n / 256 % 256]
  }

  function Counted(low: int, high: int): int {
    low + 256 * high
  }

  function Encode(v: Value): seq<Byte>
    decreases v
  {
    match v
    case Bytes(b) => b
    case Items(items) => Count(|items|) + EncodeAll(items)
  }

  function EncodeAll(vs: seq<Value>): seq<Byte>
    decreases vs
  {
    if vs == [] then [] else Encode(vs[0]) + EncodeAll(vs[1..])
  }

  /** A value read from `b` at `i`, and the position after it. */
  function Decode(t: Type, b: seq<Byte>, i: nat): Option<(Value, nat)>
    decreases t, 0
  {
    match t
    case Fixed(width) => if i + width <= |b| then Some((Bytes(b[i..i + width]), i + width)) else None
    case List(element, _) =>
      if i + 2 > |b| then None
      else
        match DecodeMany(element, Counted(b[i], b[i + 1]), b, i + 2)
        case None => None
        case Some((vs, j)) => Some((Items(vs), j))
  }

  /** `n` values one after the other. */
  function DecodeMany(t: Type, n: nat, b: seq<Byte>, i: nat): Option<(seq<Value>, nat)>
    decreases t, n + 1
  {
    if n == 0 then Some(([], i))
    else
      match Decode(t, b, i)
      case None => None
      case Some((v, j)) =>
        match DecodeMany(t, n - 1, b, j)
        case None => None
        case Some((vs, k)) => Some(([v] + vs, k))
  }

  /** Values of the given types one after the other. */
  function DecodeTuple(types: seq<Type>, b: seq<Byte>, i: nat): Option<(seq<Value>, nat)> {
    if types == [] then Some(([], i))
    else
      match Decode(types[0], b, i)
      case None => None
      case Some((v, j)) =>
        match DecodeTuple(types[1..], b, j)
        case None => None
        case Some((vs, k)) => Some(([v] + vs, k))
  }

  /** `b` has the bytes `e` at `i`. */
  ghost predicate At(b: seq<Byte>, i: nat, e: seq<Byte>) {
    i + |e| <= |b| && b[i..i + |e|] == e
  }

  lemma AtJoin(b: seq<Byte>, i: nat, d: seq<Byte>, e: seq<Byte>)
    ensures At(b, i, d + e) <==> At(b, i, d) && At(b, i + |d|, e)
  {
    if i + |d| + |e| <= |b| {
      var (x, y) := (b[i..i + |d|], b[i + |d|..i + |d| + |e|]);
      assert b[i..i + |d + e|] == x + y;
      if x + y == d + e {
        assert x == (x + y)[..|d|] && y == (x + y)[|d|..];
        assert d == (d + e)[..|d|] && e == (d + e)[|d|..];
      }
    }
  }

  // ----- what was encoded is decoded, and nothing else is -----

  lemma CountsBack(n: nat)
    requires n < 65536
    ensures Counted(Count(n)[0], Count(n)[1]) == n
  {
  }

  lemma CountOf(low: Byte, high: Byte)
    ensures Count(Counted(low, high)) == [low, high]
  {
  }

  lemma {:induction false} DecodesEncoded(v: Value, t: Type, b: seq<Byte>, i: nat)
    requires Fits(v, t) && At(b, i, Encode(v))
    ensures Decode(t, b, i) == Some((v, i + |Encode(v)|))
    decreases t, 0
  {
    match t {
      case Fixed(_) =>
      case List(element, _) =>
        var n := |v.items|;
        AtJoin(b, i, Count(n), EncodeAll(v.items));
        assert b[i..i + 2] == Count(n);
        assert b[i] == b[i..i + 2][0] && b[i + 1] == b[i..i + 2][1];
        CountsBack(n);
        hide Count, Counted;
        DecodesMany(v.items, element, b, i + 2);
    }
  }

  lemma {:induction false} DecodesMany(vs: seq<Value>, t: Type, b: seq<Byte>, i: nat)
    requires (forall k :: 0 <= k < |vs| ==> Fits(vs[k], t)) && At(b, i, EncodeAll(vs))
    ensures DecodeMany(t, |vs|, b, i) == Some((vs, i + |EncodeAll(vs)|))
    decreases t, |vs| + 1
  {
    if vs != [] {
      AtJoin(b, i, Encode(vs[0]), EncodeAll(vs[1..]));
      DecodesEncoded(vs[0], t, b, i);
      DecodesMany(vs[1..], t, b, i + |Encode(vs[0])|);
      assert [vs[0]] + vs[1..] == vs;
    }
  }

  /** Decoding gives a value of the type whose encoding is what was consumed. */
  lemma {:induction false} EncodesDecoded(t: Type, b: seq<Byte>, i: nat)
    requires Decode(t, b, i).Some?
    ensures var (v, j) := Decode(t, b, i).value; At(b, i, Encode(v)) && j == i + |Encode(v)|
    decreases t, 0
  {
    match t {
      case Fixed(_) =>
      case List(element, _) =>
        var n := Counted(b[i], b[i + 1]);
        CountOf(b[i], b[i + 1]);
        EncodesMany(element, n, b, i + 2);
        var vs := DecodeMany(element, n, b, i + 2).value.0;
        hide Count, Counted;
        assert At(b, i, Count(n));
        AtJoin(b, i, Count(n), EncodeAll(vs));
    }
  }

  lemma {:induction false} EncodesMany(t: Type, n: nat, b: seq<Byte>, i: nat)
    requires i <= |b| && DecodeMany(t, n, b, i).Some?
    ensures var (vs, j) := DecodeMany(t, n, b, i).value;
            |vs| == n && At(b, i, EncodeAll(vs)) && j == i + |EncodeAll(vs)|
    decreases t, n + 1
  {
    if n > 0 {
      EncodesDecoded(t, b, i);
      var (v, j) := Decode(t, b, i).value;
      EncodesMany(t, n - 1, b, j);
      var vs := DecodeMany(t, n - 1, b, j).value.0;
      var all := [v] + vs;
      assert all[1..] == vs && all[0] == v;
      assert EncodeAll(all) == Encode(v) + EncodeAll(vs);
      AtJoin(b, i, Encode(v), EncodeAll(vs));
    }
  }

  predicate FitAll(vs: seq<Value>, types: seq<Type>) {
    |vs| == |types| && forall k :: 0 <= k < |vs| ==> Fits(vs[k], types[k])
  }

  lemma {:induction false} DecodesTuple(vs: seq<Value>, types: seq<Type>, b: seq<Byte>, i: nat)
    requires FitAll(vs, types) && At(b, i, EncodeAll(vs))
    ensures DecodeTuple(types, b, i) == Some((vs, i + |EncodeAll(vs)|))
  {
    if vs != [] {
      AtJoin(b, i, Encode(vs[0]), EncodeAll(vs[1..]));
      DecodesEncoded(vs[0], types[0], b, i);
      DecodesTuple(vs[1..], types[1..], b, i + |Encode(vs[0])|);
      assert [vs[0]] + vs[1..] == vs;
    }
  }

  // ----- the lists of the receiver -----

  /** `m_max_len <<= 1` in 16 bits */
  function Doubled16(c: nat): (d: nat)
    ensures c < 32768 ==> d == 2 * c
    ensures c == 32768 ==> d == 0
  {
    2 * c % 65536
  }

  /** `m_max_len` after `n` calls of `push_back`, kept in 16 bits. */
  function Capacity(first: nat, n: nat): nat {
    if n == 0 then first
    else
      var c := Capacity(first, n - 1);
      if n >= c then Doubled16(c) else c
  }

  /** The `n`-th `push_back` writes inside the memory of the list. */
  predicate Safe(first: nat, n: nat)
    requires n > 0
  {
    n - 1 < Capacity(first, n)
  }

  predicate PowerOfTwo(c: nat) {
    c == 1 || (c > 1 && c % 2 == 0 && PowerOfTwo(c / 2))
  }

  lemma {:induction false} CapacityGrows(first: nat, n: nat)
    requires StartsWith(first) && n <= LONGEST
    ensures n < Capacity(first, n) <= 32768 && PowerOfTwo(Capacity(first, n))
  {
    hide Doubled16;
    if n > 0 {
      CapacityGrows(first, n - 1);
      var c := Capacity(first, n - 1);
      if n >= c {
        PowersBelow(c);
        Doubled(c);
        hide PowerOfTwo;
      }
    }
  }

  lemma Doubled(c: nat)
    requires PowerOfTwo(c)
    ensures PowerOfTwo(2 * c)
  {
    assert 2 * c / 2 == c;
  }

  /** No power of two lies between 16384 and 32768. */
  lemma PowersBelow(c: nat)
    requires PowerOfTwo(c) && c <= 32767
    ensures c <= 16384
  {
    PowerHalves(c, 32768);
  }

  lemma {:induction false} PowerHalves(c: nat, d: nat)
    requires PowerOfTwo(c) && PowerOfTwo(d) && c < d
    ensures 2 * c <= d
  {
    if c > 1 {
      PowerHalves(c / 2, d / 2);
    }
  }

  /** A list takes up to 32767 elements safely, and not one more: the capacity then wraps to 0. */
  lemma SafeUpToLongest(first: nat, n: nat)
    requires StartsWith(first)
    ensures (forall k :: 0 < k <= n ==> Safe(first, k)) <==> n <= LONGEST
  {
    forall k | 0 < k <= n && k <= LONGEST
      ensures Safe(first, k)
    {
      CapacityGrows(first, k);
    }
    if n > LONGEST {
      CapacityGrows(first, LONGEST);
      var full := LONGEST + 1;
      assert Capacity(first, LONGEST) == 32768;
      assert Capacity(first, full) == 0;
      assert !Safe(first, full);
    }
  }

  /** `dynamic_array`, `dynamic_string` and `dynamic_array2` as the parser uses them. */
  class GrowingList<T(0)> {
    const first: nat
    var len: nat
    var maxLen: nat
    var data: array<T>

    ghost predicate Valid()
      reads this
    {
      StartsWith(first) && len <= LONGEST && maxLen == Capacity(first, len) == data.Length && len < maxLen
    }

    ghost function Contents(): seq<T>
      requires Valid()
      reads this, data
    {
      data[..len]
    }

    constructor (capacity: nat)
      requires StartsWith(capacity)
      ensures Valid() && Contents() == [] && fresh(data)
    {
      first, len, maxLen := capacity, 0, capacity;
      data := new T[capacity];
    }

    method PushBack(x: T)
      requires Valid() && len < LONGEST
      modifies this, data
      ensures Valid() && Contents() == old(Contents()) + [x] && (data == old(data) || fresh(data))
    {
      CapacityGrows(first, len + 1);
      if len + 1 >= maxLen {
        Grow();
      }
      data[len] := x;
      len := len + 1;
    }

    /** The part of `push_back` that gets a larger array. */
    method Grow()
      requires Valid() && len + 1 >= maxLen && 2 * maxLen < 65536
      modifies `maxLen, `data
      ensures fresh(data) && data.Length == maxLen == 2 * old(maxLen) && data[..len] == old(data[..len])
    {
      maxLen := Doubled16(maxLen);
      var tmp := new T[maxLen];
      forall i | 0 <= i < len {
        tmp[i] := data[i];
      }
      data := tmp;
    }
  }

  // ----- writing and reading -----

  /** `b` with `e` written over it at `i`. */
  function Written(b: seq<Byte>, i: nat, e: seq<Byte>): (r: seq<Byte>)
    requires i + |e| <= |b|
    ensures |r| == |b|
  {
    b[..i] + e + b[i + |e|..]
  }

  lemma WrittenTwice(b: seq<Byte>, i: nat, d: seq<Byte>, e: seq<Byte>)
    requires i + |d| + |e| <= |b|
    ensures Written(Written(b, i, d), i + |d|, e) == Written(b, i, d + e)
  {
    var r := Written(b, i, d);
    assert r[..i + |d|] == b[..i] + d;
    assert r[i + |d| + |e|..] == b[i + |d + e|..];
    assert b[..i] + d + e == b[..i] + (d + e);
  }

  lemma WrittenNothing(b: seq<Byte>, i: nat)
    requires i <= |b|
    ensures Written(b, i, []) == b
  {
  }

  lemma WrittenAt(b: seq<Byte>, i: nat, e: seq<Byte>)
    requires i + |e| <= |b|
    ensures At(Written(b, i, e), i, e)
  {
  }

  lemma EncodeAllSnoc(vs: seq<Value>, k: nat)
    requires k < |vs|
    ensures EncodeAll(vs[..k + 1]) == EncodeAll(vs[..k]) + Encode(vs[k])
  {
    EncodeAllJoin(vs[..k], [vs[k]]);
    assert vs[..k + 1] == vs[..k] + [vs[k]];
    assert EncodeAll([vs[k]]) == Encode(vs[k]) + EncodeAll([]);
  }

  lemma {:induction false} EncodeAllJoin(us: seq<Value>, vs: seq<Value>)
    ensures EncodeAll(us + vs) == EncodeAll(us) + EncodeAll(vs)
  {
    if us == [] {
      assert us + vs == vs;
    } else {
      EncodeAllJoin(us[1..], vs);
      assert (us + vs)[1..] == us[1..] + vs && (us + vs)[0] == us[0];
      assert Encode(us[0]) + (EncodeAll(us[1..]) + EncodeAll(vs)) == Encode(us[0]) + EncodeAll(us[1..]) + EncodeAll(vs);
    }
  }

  /** `memcpy` into the buffer. */
  method Copy(buffer: array<Byte>, i: nat, e: seq<Byte>)
    requires i + |e| <= buffer.Length
    modifies buffer
    ensures buffer[..] == Written(old(buffer[..]), i, e)
  {
    forall k | 0 <= k < |e| {
      buffer[i + k] := e[k];
    }
  }

  /** `fill_param`: writes the encoding and nothing else. */
  method FillParam(v: Value, buffer: array<Byte>, bufferIndex: nat) returns (next: nat)
    requires bufferIndex + |Encode(v)| <= buffer.Length
    modifies buffer
    ensures next == bufferIndex + |Encode(v)| && buffer[..] == Written(old(buffer[..]), bufferIndex, Encode(v))
    decreases v
  {
    match v {
      case Bytes(bytes) =>
        Copy(buffer, bufferIndex, bytes);
        next := bufferIndex + |bytes|;
      case Items(items) =>
        var len := |items|;
        ghost var before := buffer[..];
        Copy(buffer, bufferIndex, Count(len));
        next := bufferIndex + 2;
        hide Count;
        var i := 0;
        WrittenTwice(before, bufferIndex, Count(len), []);
        while i < len
          invariant i <= len && next == bufferIndex + |Count(len) + EncodeAll(items[..i])|
          invariant next + |EncodeAll(items[i..])| <= buffer.Length
          invariant buffer[..] == Written(before, bufferIndex, Count(len) + EncodeAll(items[..i]))
        {
          EncodeAllSnoc(items, i);
          assert items[i..][1..] == items[i + 1..];
          WrittenTwice(before, bufferIndex, Count(len) + EncodeAll(items[..i]), Encode(items[i]));
          assert Count(len) + EncodeAll(items[..i]) + Encode(items[i]) == Count(len) + EncodeAll(items[..i + 1]);
          next := FillParam(items[i], buffer, next);
          i := i + 1;
        }
        assert items[..i] == items;
    }
  }

  /** `parse_param`, given that an encoded value stands at the position. */
  method ParseParam(t: Type, buffer: array<Byte>, bufferIndex: nat, ghost v: Value) returns (value: Value, next: nat)
    requires Fits(v, t) && At(buffer[..], bufferIndex, Encode(v))
    ensures value == v && next == bufferIndex + |Encode(v)|
    decreases t, 0
  {
    match t {
      case Fixed(width) =>
        value := Bytes(buffer[bufferIndex..bufferIndex + width]);
        next := bufferIndex + width;
      case List(element, capacity) =>
        ghost var b, n := buffer[..], |v.items|;
        AtJoin(b, bufferIndex, Count(n), EncodeAll(v.items));
        assert b[bufferIndex..bufferIndex + 2] == Count(n);
        assert buffer[bufferIndex] == Count(n)[0] && buffer[bufferIndex + 1] == Count(n)[1];
        CountsBack(n);
        var len := Counted(buffer[bufferIndex], buffer[bufferIndex + 1]);
        var items;
        items, next := ParseItems(element, capacity, len, buffer, bufferIndex + 2, v.items);
        value := Items(items);
    }
  }

  /** The loop of `parse_param` of a list. */
  method ParseItems(element: Type, capacity: nat, len: nat, buffer: array<Byte>, bufferIndex: nat, ghost vs: seq<Value>)
    returns (items: seq<Value>, next: nat)
    requires (forall k :: 0 <= k < |vs| ==> Fits(vs[k], element)) && |vs| == len <= LONGEST && StartsWith(capacity)
    requires At(buffer[..], bufferIndex, EncodeAll(vs))
    ensures items == vs && next == bufferIndex + |EncodeAll(vs)|
    decreases element, 1
  {
    hide Fits, Encode, At, StartsWith;
    ghost var b := buffer[..];
    next := bufferIndex;
    var list := new GrowingList<Value>(capacity);
    var i := 0;
    while i < len
      invariant i <= len == |vs| && fresh(list) && fresh(list.data) && list.Valid()
      invariant list.Contents() == vs[..i] && list.len == i
      invariant next == bufferIndex + |EncodeAll(vs[..i])|
      invariant At(b, next, EncodeAll(vs[i..])) && buffer[..] == b
    {
      EncodeAllSnoc(vs, i);
      assert vs[i..][1..] == vs[i + 1..];
      AtJoin(b, next, Encode(vs[i]), EncodeAll(vs[i + 1..]));
      var item;
      item, next := ParseParam(element, buffer, next, vs[i]);
      list.PushBack(item);
      assert vs[..i + 1] == vs[..i] + [vs[i]];
      i := i + 1;
    }
    assert vs[..i] == vs;
    items := list.data[..list.len];
  }

  /** `fill_packet` of all arguments. */
  method FillPacket(args: seq<Value>, buffer: array<Byte>, bufferIndex: nat) returns (next: nat)
    requires bufferIndex + |EncodeAll(args)| <= buffer.Length
    modifies buffer
    ensures next == bufferIndex + |EncodeAll(args)|
    ensures buffer[..] == Written(old(buffer[..]), bufferIndex, EncodeAll(args))
  {
    hide Written, Encode;
    if args == [] {
      WrittenNothing(buffer[..], bufferIndex);
      return bufferIndex;
    }
    WrittenTwice(buffer[..], bufferIndex, Encode(args[0]), EncodeAll(args[1..]));
    next := FillParam(args[0], buffer, bufferIndex);
    next := FillPacket(args[1..], buffer, next);
  }

  /** `rpc_param<n, m>::convert`: reads the parameters from position `m - n` on. */
  method Convert(n: nat, m: nat, types: seq<Type>, params: seq<Value>, buffer: array<Byte>, bufferIndex: nat,
                 ghost args: seq<Value>)
    returns (params': seq<Value>, next: nat)
    requires n <= m == |types| == |params|
    requires FitAll(args, types[m - n..]) && At(buffer[..], bufferIndex, EncodeAll(args))
    ensures params' == params[..m - n] + args && next == bufferIndex + |EncodeAll(args)|
    decreases n
  {
    hide Encode, At, Fits;
    if n == 0 {
      return params, bufferIndex;
    }
    AtJoin(buffer[..], bufferIndex, Encode(args[0]), EncodeAll(args[1..]));
    assert types[m - n..][0] == types[m - n] && types[m - n..][1..] == types[m - (n - 1)..];
    var value;
    value, next := ParseParam(types[m - n], buffer, bufferIndex, args[0]);
    params', next := Convert(n - 1, m, types, params[m - n := value], buffer, next, args[1..]);
    assert params[m - n := value][..m - (n - 1)] == params[..m - n] + [args[0]];
    assert args == [args[0]] + args[1..];
    assert params[..m - n] + [args[0]] + args[1..] == params[..m - n] + ([args[0]] + args[1..]);
  }

  /** `call_helper<n>::call`: the arguments the function is called with. */
  function CallHelper(n: nat, tuple: seq<Value>, args: seq<Value>): seq<Value>
    requires n <= |tuple|
  {
    if n == 0 then args else CallHelper(n - 1, tuple, [tuple[n - 1]] + args)
  }

  lemma {:induction false} CallsWithTuple(n: nat, tuple: seq<Value>, args: seq<Value>)
    requires n <= |tuple|
    ensures CallHelper(n, tuple, args) == tuple[..n] + args
  {
    if n > 0 {
      CallsWithTuple(n - 1, tuple, [tuple[n - 1]] + args);
      assert tuple[..n] == tuple[..n - 1] + [tuple[n - 1]];
      assert tuple[..n - 1] + ([tuple[n - 1]] + args) == tuple[..n - 1] + [tuple[n - 1]] + args;
    }
  }

  /** A remote call: what the sender fills in, from `bufferIndex` on, is what the receiver's
      function is called with; both stop at the same position and the rest of the buffer is
      as it was. */
  method RemoteCall(args: seq<Value>, types: seq<Type>, initial: seq<Value>, buffer: array<Byte>, bufferIndex: nat)
    returns (called: seq<Value>, filled: nat, parsed: nat)
    requires FitAll(args, types) && |initial| == |types|
    requires bufferIndex + |EncodeAll(args)| <= buffer.Length
    modifies buffer
    ensures called == args && parsed == filled == bufferIndex + |EncodeAll(args)|
    ensures buffer[..bufferIndex] == old(buffer[..bufferIndex]) && buffer[filled..] == old(buffer[filled..])
  {
    filled := FillPacket(args, buffer, bufferIndex);
    WrittenAt(old(buffer[..]), bufferIndex, EncodeAll(args));
    assert types[0..] == types;
    var params;
    params, parsed := Convert(|types|, |types|, types, initial, buffer, bufferIndex, args);
    CallsWithTuple(|types|, params, []);
    called := CallHelper(|types|, params, []);
    assert params[..|types|] + [] == params;
  }

  /** The same for a function that gets the socket's index first: the index is not sent. */
  method RemoteCallWithIndex(socketIndex: Value, args: seq<Value>, types: seq<Type>, initial: seq<Value>,
                             buffer: array<Byte>, bufferIndex: nat)
    returns (called: seq<Value>, filled: nat, parsed: nat)
    requires |types| > 0 && FitAll(args, types[1..]) && |initial| == |types|
    requires bufferIndex + |EncodeAll(args)| <= buffer.Length
    modifies buffer
    ensures called == [socketIndex] + args && parsed == filled == bufferIndex + |EncodeAll(args)|
    ensures buffer[..bufferIndex] == old(buffer[..bufferIndex]) && buffer[filled..] == old(buffer[filled..])
  {
    filled := FillPacket(args, buffer, bufferIndex);
    WrittenAt(old(buffer[..]), bufferIndex, EncodeAll(args));
    var params := initial[0 := socketIndex];
    params, parsed := Convert(|types| - 1, |types|, types, params, buffer, bufferIndex, args);
    CallsWithTuple(|types|, params, []);
    called := CallHelper(|types|, params, []);
    assert params[..|types|] + [] == params;
  }

  // ----- the bytes on the wire -----

  function Lengths(vs: seq<Value>): nat {
    if vs == [] then 0 else |Encode(vs[0])| + Lengths(vs[1..])
  }

  lemma {:induction false} ItemAt(vs: seq<Value>, k: nat)
    requires k < |vs|
    ensures At(EncodeAll(vs), Lengths(vs[..k]), Encode(vs[k]))
    decreases |vs|
  {
    var e, rest := Encode(vs[0]), EncodeAll(vs[1..]);
    assert EncodeAll(vs) == e + rest;
    if k == 0 {
      assert (e + rest)[..|e|] == e;
    } else {
      ItemAt(vs[1..], k - 1);
      assert vs[..k][1..] == vs[1..][..k - 1] && vs[..k][0] == vs[0];
      var at := Lengths(vs[1..][..k - 1]);
      var n := |Encode(vs[k])|;
      assert (e + rest)[|e| + at..|e| + at + n] == rest[at..at + n];
    }
  }

  /** A list goes over the wire as its length, the low byte first, and then its elements one
      after the other, the first one first; a value of fixed width as it stands. */
  lemma OnTheWire(v: Value)
    requires v.Items? ==> |v.items| < 65536
    ensures v.Bytes? ==> Encode(v) == v.bytes
    ensures v.Items? ==>
      var n := |v.items|;
      && |Encode(v)| >= 2 && Encode(v)[0] == n % 256 && Encode(v)[1] == n / 256 && Encode(v)[2..] == EncodeAll(v.items)
      && forall k :: 0 <= k < n ==> At(EncodeAll(v.items), Lengths(v.items[..k]), Encode(v.items[k]))
  {
    if v.Items? {
      var n := |v.items|;
      assert n / 256 % 256 == n / 256;
      assert (Count(n) + EncodeAll(v.items))[2..] == EncodeAll(v.items);
      forall k | 0 <= k < n
        ensures At(EncodeAll(v.items), Lengths(v.items[..k]), Encode(v.items[k]))
      {
        ItemAt(v.items, k);
      }
    }
  }

  /** Three hundred and one elements are announced as 45, 1. */
  lemma CountOnTheWire()
    ensures Count(301) == [45, 1]
  {
  }
}

/** What a circular buffer holds, and what storing, taking and moving do to it: the
    arithmetic shared by socket_input_stream.cpp and socket_output_stream.cpp. */
module Ring {
  import opened Bytes
  import opened Sequences

  /** The bytes from `head` up to `tail`, going round the end; equal positions mean none. */
  function Content(b: seq<Byte>, head: nat, tail: nat): seq<Byte>
    requires head <= |b| && tail <= |b|
  {
    if head <= tail then b[head..tail] else b[head..] + b[..tail]
  }

  /** `_length` */
  function Length(size: nat, head: nat, tail: nat): (n: nat)
    requires head <= size && tail <= size
  {
    if head < tail then tail - head else if head > tail then size - head + tail else 0
  }

  lemma LengthIsContent(b: seq<Byte>, head: nat, tail: nat)
    requires head <= |b| && tail <= |b|
    ensures Length(|b|, head, tail) == |Content(b, head, tail)|
  {
  }

  /** A position in a buffer of `size` bytes, going round the end. */
  function Wrap(x: nat, size: nat): (r: nat)
    requires size > 0
    ensures r < size
    ensures x < size ==> r == x
    ensures size <= x < 2 * size ==> r == x - size
  {
    if size <= x < 2 * size then Below(x - size, size); x % size else x % size
  }

  lemma Below(x: nat, size: nat)
    requires x < size
    ensures (x + size) % size == x
  {
    Quotient(size, (x + size) / size, (x + size) % size, x);
  }

  lemma Quotient(size: int, q: int, r: int, x: int)
    requires size * q + r == x + size && 0 <= r < size && 0 <= x < size
    ensures q == 1 && r == x
  {
    assert q >= 2 ==> size * q >= size * 2;
    assert q <= 0 ==> size * q <= 0;
  }

  /** The buffer after `d` was written over it at `at`. */
  function Overwritten(b: seq<Byte>, at: nat, d: seq<Byte>): (r: seq<Byte>)
    requires at + |d| <= |b|
    ensures |r| == |b|
  {
    b[..at] + d + b[at + |d|..]
  }

  /** The buffer after `d` was stored at `at`, going round the end. */
  function Stored(b: seq<Byte>, at: nat, d: seq<Byte>): (r: seq<Byte>)
    requires at < |b| && |d| <= |b|
    ensures |r| == |b|
  {
    if at + |d| <= |b| then Overwritten(b, at, d)
    else
      var n := |b| - at;
      d[n..] + b[|d| - n..at] + d[..n]
  }

  /** Going round the end takes two writes. */
  lemma StoredInTwo(b: seq<Byte>, at: nat, d: seq<Byte>)
    requires at < |b| < at + |d| && |d| <= |b|
    ensures Overwritten(Overwritten(b, at, d[..|b| - at]), 0, d[|b| - at..]) == Stored(b, at, d)
  {
    var n := |b| - at;
    var r := Overwritten(b, at, d[..n]);
    assert r == b[..at] + d[..n];
    assert r[|d| - n..] == b[|d| - n..at] + d[..n];
    assert [] + d[n..] + r[|d| - n..] == d[n..] + b[|d| - n..at] + d[..n];
  }

  lemma StoreBelow(b: seq<Byte>, head: nat, tail: nat, d: seq<Byte>)
    requires tail + |d| < head < |b|
    ensures Content(Stored(b, tail, d), head, tail + |d|) == Content(b, head, tail) + d
  {
    var r := Stored(b, tail, d);
    assert r[head..] == b[head..];
    assert r[..tail + |d|] == b[..tail] + d;
    hide Stored;
    Associative(b[head..], b[..tail], d);
  }

  lemma StoreAbove(b: seq<Byte>, head: nat, tail: nat, d: seq<Byte>)
    requires head <= tail && tail + |d| < |b|
    ensures Content(Stored(b, tail, d), head, tail + |d|) == Content(b, head, tail) + d
  {
    var r := Stored(b, tail, d);
    assert r[head..tail] == b[head..tail];
    assert r[tail..tail + |d|] == d;
    assert r[head..tail + |d|] == r[head..tail] + r[tail..tail + |d|];
  }

  lemma StoreAround(b: seq<Byte>, head: nat, tail: nat, d: seq<Byte>)
    requires head <= tail < |b| && |b| <= tail + |d| < |b| + head
    ensures Content(Stored(b, tail, d), head, tail + |d| - |b|) == Content(b, head, tail) + d
  {
    var r, n := Stored(b, tail, d), |b| - tail;
    assert r[..|d| - n] == d[n..];
    assert r[head..tail] == b[head..tail];
    assert r[tail..] == d[..n];
    assert r[head..] == r[head..tail] + r[tail..];
    assert d == d[..n] + d[n..];
  }

  /** Storing at the tail adds to the end, as long as one byte stays free. */
  lemma StoreAppends(b: seq<Byte>, head: nat, tail: nat, d: seq<Byte>)
    requires head < |b| && tail < |b| && |Content(b, head, tail)| + |d| < |b|
    ensures Content(Stored(b, tail, d), head, Wrap(tail + |d|, |b|)) == Content(b, head, tail) + d
  {
    LengthIsContent(b, head, tail);
    hide Wrap, Content, Stored;
    if head > tail {
      StoreBelow(b, head, tail, d);
    } else if tail + |d| < |b| {
      StoreAbove(b, head, tail, d);
    } else {
      StoreAround(b, head, tail, d);
    }
  }

  /** The `n` bytes from `head` on, going round the end. */
  function Taken(b: seq<Byte>, head: nat, n: nat): (r: seq<Byte>)
    requires head <= |b| && n <= |b|
    ensures |r| == n
  {
    if head + n <= |b| then b[head..head + n] else b[head..] + b[..n - (|b| - head)]
  }

  lemma TakeAround(a: seq<Byte>, b: seq<Byte>, n: nat)
    requires n <= |a| + |b|
    ensures (a + b)[..n] == if n <= |a| then a[..n] else a + b[..n - |a|]
    ensures (a + b)[n..] == if n <= |a| then a[n..] + b else b[n - |a|..]
  {
  }

  /** Moving the head takes from the front. */
  lemma TakeRemoves(b: seq<Byte>, head: nat, tail: nat, n: nat)
    requires head < |b| && tail < |b| && n <= |Content(b, head, tail)|
    ensures Taken(b, head, n) == Content(b, head, tail)[..n]
    ensures Content(b, Wrap(head + n, |b|), tail) == Content(b, head, tail)[n..]
  {
    hide Wrap;
    if head <= tail {
      assert b[head..tail][n..] == b[head + n..tail];
      assert b[head..tail][..n] == b[head..head + n];
    } else {
      TakeAround(b[head..], b[..tail], n);
      if head + n < |b| {
        assert b[head..][n..] == b[head + n..] && b[head..][..n] == b[head..head + n];
      } else {
        var k := n - (|b| - head);
        assert b[..tail][k..] == b[k..tail] && b[..tail][..k] == b[..k];
        if k == 0 {
          assert b[head..] == b[head..head + n];
        }
      }
    }
  }

  /** At the end of the buffer the content goes on at its start. */
  lemma GoesRound(b: seq<Byte>, tail: nat)
    requires tail < |b|
    ensures Content(b, |b|, tail) == Content(b, 0, tail)
  {
  }

  lemma NothingHeld(b: seq<Byte>, at: nat)
    requires at <= |b|
    ensures Content(b, at, at) == []
  {
  }

  /** Sending `n` bytes that lie in one piece at the head. */
  lemma FrontSent(b: seq<Byte>, head: nat, tail: nat, n: nat)
    requires head <= |b| && tail <= |b| && head + n <= if head <= tail then tail else |b|
    ensures Content(b, head, tail) == b[head..head + n] + Content(b, head + n, tail)
  {
    if head <= tail {
      assert b[head..tail] == b[head..head + n] + b[head + n..tail];
    } else {
      assert b[head..] == b[head..head + n] + b[head + n..];
      Associative(b[head..head + n], b[head + n..], b[..tail]);
    }
  }
}

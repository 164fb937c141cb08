/** The two buffers between a socket and the packet code
    (share/src/socket_output_stream.cpp, share/src/socket_input_stream.cpp). */
module SocketStreams {
  import opened Bytes
  import opened Sequences
  import opened Ring

  const SOCKET_ERROR := -1
  const SOCKET_ERROR_WOULDBLOCK := -100

  /** What a call of `recv` finds. */
  datatype Receipt = Blocked | Failed | Data(bytes: seq<Byte>)

  /** The operating system's side of a socket. The answers to the successive calls are
      arbitrary; no bytes received at all means that the peer has closed. */
  class Socket {
    const sends: nat -> int
    const receipts: nat -> Receipt
    const availables: nat -> int
    var calls: nat
    var active: bool
    ghost var accepted: seq<Byte>   // the bytes taken by `send`
    ghost var received: seq<Byte>   // the bytes given by `receive`

    constructor (sends: nat -> int, receipts: nat -> Receipt, availables: nat -> int)
      ensures active && calls == 0 && accepted == [] && received == []
      ensures this.sends == sends && this.receipts == receipts && this.availables == availables
    {
      this.sends, this.receipts, this.availables := sends, receipts, availables;
      calls, active, accepted, received := 0, true, [], [];
    }

    method Send(data: seq<Byte>) returns (n: int)
      requires data != []
      modifies `calls, `accepted
      ensures n == SOCKET_ERROR || n == SOCKET_ERROR_WOULDBLOCK || 0 <= n <= |data|
      ensures accepted == old(accepted) + if n > 0 then data[..n] else []
      ensures calls == old(calls) + 1 && SendAnswers(sends(old(calls)), |data|, n)
    {
      n := sends(calls);
      if n > |data| {
        n := |data|;
      } else if n < 0 && n != SOCKET_ERROR_WOULDBLOCK {
        n := SOCKET_ERROR;
      }
      calls := calls + 1;
      accepted := accepted + if n > 0 then data[..n] else [];
    }

    /** Receives at most `len` bytes into the buffer at `at`; `d` is what was received. */
    method Receive(buffer: array<Byte>, at: nat, len: nat) returns (n: int, ghost d: seq<Byte>)
      requires at + len <= buffer.Length && at < buffer.Length
      modifies `calls, `received, buffer
      ensures n == SOCKET_ERROR || n == SOCKET_ERROR_WOULDBLOCK || 0 <= n <= len
      ensures received == old(received) + d && |d| == if n > 0 then n else 0
      ensures buffer[..] == Stored(old(buffer[..]), at, d)
      ensures calls == old(calls) + 1 && Answers(receipts(old(calls)), len, n, d)
    {
      var answer := receipts(calls);
      calls := calls + 1;
      d := [];
      match answer {
        case Blocked => n := SOCKET_ERROR_WOULDBLOCK;
        case Failed => n := SOCKET_ERROR;
        case Data(bytes) =>
          n := if |bytes| < len then |bytes| else len;
          CopyIn(buffer, at, bytes[..n]);
          d := bytes[..n];
          received := received + d;
      }
    }

    method Available() returns (n: int)
      modifies `calls
      ensures calls == old(calls) + 1 && n == availables(old(calls))
    {
      n := availables(calls);
      calls := calls + 1;
    }

    method SetActive(on: bool)
      modifies `active
      ensures active == on
    {
      active := on;
    }
  }

  /** The answer of a socket that fails: negative, and not the one of a socket that would block. */
  predicate Fails(answer: int) {
    answer < 0 && answer != SOCKET_ERROR_WOULDBLOCK
  }

  /** What `send` of `len` bytes returns: the number accepted, of which there may be none,
      or that the socket would block, or that it fails. */
  ghost predicate SendAnswers(answer: int, len: nat, n: int) {
    && (answer >= 0 ==> n == if answer > len then len else answer)
    && (answer == SOCKET_ERROR_WOULDBLOCK ==> n == SOCKET_ERROR_WOULDBLOCK)
    && (Fails(answer) ==> n == SOCKET_ERROR)
  }

  /** How many calls it takes to send `len` bytes, or until the socket stops, from a call on. */
  ghost function CallsFor(sends: nat -> int, call: nat, len: nat): (n: nat)
    ensures len > 0 ==> n > 0
    decreases len
  {
    if len == 0 then 0
    else if sends(call) <= 0 || sends(call) >= len then 1
    else 1 + CallsFor(sends, call + 1, len - sends(call))
  }

  /** The socket stops the sending of `len` bytes. */
  ghost predicate Stops(sends: nat -> int, call: nat, len: nat) {
    len > 0 && sends(call + CallsFor(sends, call, len) - 1) <= 0
  }

  ghost function Total(sends: nat -> int, call: nat, n: nat): int
    decreases n
  {
    if n == 0 then 0 else sends(call) + Total(sends, call + 1, n - 1)
  }

  /** All calls but the last accept something and not all, and the last one accepts nothing
      or what is left. */
  lemma {:induction false} CallsForLaw(sends: nat -> int, call: nat, len: nat)
    requires len > 0
    ensures var n := CallsFor(sends, call, len);
      && (forall j :: call <= j < call + n - 1 ==> sends(j) > 0) && 0 <= Total(sends, call, n - 1) < len
      && (sends(call + n - 1) > 0 ==> Total(sends, call, n) >= len)
    decreases len
  {
    var n := CallsFor(sends, call, len);
    if n > 1 {
      CallsForLaw(sends, call + 1, len - sends(call));
    } else {
      assert Total(sends, call + 1, 0) == 0;
    }
  }

  /** The result of sending `len` bytes from a call on, where `error` tells the place. */
  ghost function Result(sends: nat -> int, call: nat, len: nat, error: int): int {
    if !Stops(sends, call, len) then len
    else if Fails(sends(call + CallsFor(sends, call, len) - 1)) then error
    else 0
  }

  lemma NothingToSend(sends: nat -> int, call: nat, error: int)
    ensures Result(sends, call, 0, error) == 0 && !Stops(sends, call, 0)
  {
  }

  /** What `receive` returns, and what it puts into the buffer. */
  ghost predicate Answers(receipt: Receipt, len: nat, n: int, d: seq<Byte>) {
    match receipt
    case Blocked => n == SOCKET_ERROR_WOULDBLOCK && d == []
    case Failed => n == SOCKET_ERROR && d == []
    case Data(bytes) => n == |d| && d <= bytes && |d| == if |bytes| < len then |bytes| else len
  }

  /** What `fill_stream` returns: the number of bytes received, 0 when there are none
      yet, or an error told by the place in the code, one further when the peer has closed. */
  ghost predicate Reports(receipt: Receipt, len: nat, errorSequenceId: nat, ret: int, d: seq<Byte>) {
    match receipt
    case Blocked => ret == 0 && d == []
    case Failed => ret == SOCKET_ERROR - errorSequenceId && d == []
    case Data(bytes) =>
      && d <= bytes && |d| == (if |bytes| < len then |bytes| else len)
      && ret == if d == [] then SOCKET_ERROR - errorSequenceId - 1 else |d|
  }

  /** At the given call, the socket has something to offer for which a buffer may grow. */
  ghost predicate Offered(socket: Socket, maxBufferLen: nat, call: nat, bufferLen: nat) {
    && 0 < socket.availables(call) <= maxBufferLen - bufferLen - 1
    && socket.receipts(call + 1).Data? && socket.receipts(call + 1).bytes != []
  }

  /** At the given call, the socket tells of something for which a buffer may grow, but
      then has nothing to give. */
  ghost predicate Withheld(socket: Socket, maxBufferLen: nat, call: nat, bufferLen: nat) {
    0 < socket.availables(call) <= maxBufferLen - bufferLen - 1 && socket.receipts(call + 1).Blocked?
  }

  ghost predicate Fills(socket: Socket, call: nat, len: nat) {
    socket.receipts(call).Data? && |socket.receipts(call).bytes| >= len
  }

  /** `memcpy` into an array. */
  method CopyIn(a: array<Byte>, at: nat, d: seq<Byte>)
    requires at + |d| <= a.Length
    modifies a
    ensures a[..] == Overwritten(old(a[..]), at, d)
  {
    forall i | 0 <= i < |d| {
      a[at + i] := d[i];
    }
  }

  /** The copying done by `resize`: a buffer with `size` more bytes, and the content at its start. */
  method Compacted(buffer: array<Byte>, head: nat, tail: nat, size: nat) returns (newBuffer: array<Byte>, len: nat)
    requires head < buffer.Length && tail < buffer.Length
    ensures fresh(newBuffer) && newBuffer.Length == buffer.Length + size && len < buffer.Length
    ensures Content(newBuffer[..], 0, len) == Content(buffer[..], head, tail)
  {
    newBuffer := new Byte[buffer.Length + size](_ => 0);
    len := Length(buffer.Length, head, tail);
    LengthIsContent(buffer[..], head, tail);
    if head < tail {
      CopyIn(newBuffer, 0, buffer[head..tail]);
    } else if head > tail {
      CopyIn(newBuffer, 0, buffer[head..]);
      CopyIn(newBuffer, buffer.Length - head, buffer[..tail]);
    }
    assert newBuffer[..len] == Content(buffer[..], head, tail);
  }

  class OutputStream {
    const socket: Socket
    var buffer: array<Byte>
    var maxBufferLen: nat
    var head: nat
    var tail: nat
    var outputLen: nat
    ghost var written: seq<Byte>   // the bytes given to `write`
    ghost var discarded: bool      // an oversize reset has happened

    ghost predicate Shape()
      reads this
    {
      head < buffer.Length && tail < buffer.Length
    }

    ghost function Pending(): seq<Byte>
      requires Shape()
      reads this, buffer
    {
      Content(buffer[..], head, tail)
    }

    /** Unless there was an oversize reset, the bytes accepted by the socket and the bytes
        pending are the bytes written, and `outputLen` says whether bytes are pending. */
    ghost predicate Valid()
      reads this, buffer, socket
    {
      && Shape()
      && (!discarded ==> written == socket.accepted + Pending() && (outputLen > 0 <==> Pending() != []))
    }

    /** `initsize` of a new stream */
    constructor (socket: Socket, bufferLen: nat, maxBufferLen: nat)
      requires bufferLen > 0 && socket.accepted == []
      ensures Valid() && fresh(buffer) && this.socket == socket && this.maxBufferLen == maxBufferLen
      ensures written == [] && !discarded && buffer.Length == bufferLen
    {
      this.socket, this.maxBufferLen := socket, maxBufferLen;
      buffer := new Byte[bufferLen](_ => 0);
      head, tail, outputLen := 0, 0, 0;
      written, discarded := [], false;
    }

    method Resize(size: nat)
      requires Shape()
      modifies this
      ensures Shape() && fresh(buffer) && Pending() == old(Pending()) && head == 0
      ensures buffer.Length >= old(buffer.Length) + size
      ensures unchanged(`maxBufferLen, `outputLen, `written, `discarded)
    {
      var len := buffer.Length / 2;
      buffer, tail := Compacted(buffer, head, tail, if len > size then len else size);
      head := 0;
    }

    /** The copying done by `write`. */
    method Store(buf: seq<Byte>)
      requires Shape() && |Pending()| + |buf| < buffer.Length
      modifies buffer
      ensures buffer[..] == Stored(old(buffer[..]), tail, buf)
    {
      LengthIsContent(buffer[..], head, tail);
      hide Overwritten, Content;
      if head <= tail {
        if head == 0 {
          CopyIn(buffer, tail, buf);
        } else {
          var nFree := buffer.Length - tail;
          if |buf| <= nFree {
            CopyIn(buffer, tail, buf);
          } else {
            StoredInTwo(buffer[..], tail, buf);
            CopyIn(buffer, tail, buf[..nFree]);
            CopyIn(buffer, 0, buf[nFree..]);
          }
        }
      } else {
        CopyIn(buffer, tail, buf);
      }
    }

    method Append(buf: seq<Byte>)
      requires Shape() && |Pending()| + |buf| < buffer.Length
      modifies `tail, buffer
      ensures Shape() && Pending() == old(Pending()) + buf
    {
      StoreAppends(buffer[..], head, tail, buf);
      hide Wrap, Stored, Content;
      Store(buf);
      tail := Wrap(tail + |buf|, buffer.Length);
    }

    method Write(buf: seq<Byte>) returns (n: nat)
      requires Valid()
      modifies this, buffer
      ensures Valid() && n == |buf| && (buffer == old(buffer) || fresh(buffer))
      ensures Pending() == old(Pending()) + buf && written == old(written) + buf
      ensures unchanged(`maxBufferLen, `discarded)
    {
      var len := |buf|;
      var nFree := if head <= tail then buffer.Length - tail + head - 1 else head - tail - 1;
      LengthIsContent(buffer[..], head, tail);
      assert nFree == buffer.Length - 1 - |Pending()|;
      hide Content;
      if len >= nFree {
        Resize(len - nFree + 1);
      }
      Append(buf);
      outputLen := Length(buffer.Length, head, tail);
      LengthIsContent(buffer[..], head, tail);
      written := written + buf;
      Associative(socket.accepted, old(Pending()), buf);
      return len;
    }

    /** One of the loops of `flush`: sends `nLeft` bytes that lie in one piece from the
        head on, unless the socket stops it. */
    method SendLoop(nLeft: nat, error: int) returns (ok: bool, ret: int)
      requires head <= buffer.Length && tail <= buffer.Length
      requires head + nLeft <= if head <= tail then tail else buffer.Length
      modifies `head, socket`calls, socket`accepted
      ensures old(head) <= head <= old(head) + nLeft && (ok <==> head == old(head) + nLeft)
      ensures socket.accepted + Content(buffer[..], head, tail)
           == old(socket.accepted + Content(buffer[..], head, tail))
      ensures socket.calls == old(socket.calls) + CallsFor(socket.sends, old(socket.calls), nLeft)
      ensures ok <==> !Stops(socket.sends, old(socket.calls), nLeft)
      ensures ret == Result(socket.sends, old(socket.calls), nLeft, error)
      ensures ok ==> ret == nLeft
      ensures !ok ==> socket.calls > 0 && ret == if Fails(socket.sends(socket.calls - 1)) then error else 0
    {
      hide Content;
      var left := nLeft;
      ret := 0;
      while left > 0
        invariant 0 <= left <= nLeft && old(head) <= head && head + left == old(head) + nLeft
        invariant ret == head - old(head) && old(socket.calls) <= socket.calls
        invariant old(socket.calls) + CallsFor(socket.sends, old(socket.calls), nLeft)
               == socket.calls + CallsFor(socket.sends, socket.calls, left)
        invariant left == 0 ==> !Stops(socket.sends, old(socket.calls), nLeft)
        invariant socket.accepted + Content(buffer[..], head, tail)
               == old(socket.accepted + Content(buffer[..], head, tail))
      {
        ghost var accepted := socket.accepted;
        var nSent := socket.Send(buffer[head..head + left]);
        if nSent == SOCKET_ERROR_WOULDBLOCK { return false, 0; }
        if nSent == SOCKET_ERROR { return false, error; }
        if nSent == 0 { return false, 0; }
        ghost var b, h := buffer[..], head;
        ret := ret + nSent;
        left := left - nSent;
        head := head + nSent;
        assert buffer[h..h + left + nSent][..nSent] == b[h..head];
        FrontSent(b, h, tail, nSent);
        Associative(accepted, b[h..head], Content(b, head, tail));
      }
      ok := true;
    }

    /** `initsize` of a stream in use: what is pending is dropped, while `outputLen` stays. */
    method Reset()
      requires Shape()
      modifies this
      ensures Shape() && fresh(buffer) && buffer.Length == old(buffer.Length) && Pending() == [] && discarded
      ensures unchanged(`maxBufferLen, `outputLen, `written)
    {
      head, tail := 0, 0;
      buffer := new Byte[buffer.Length](_ => 0);
      discarded := true;
    }

    /** What the next `flush` of a buffer that is not oversize will say, by the answers to come. */
    ghost function FlushResult(): int
      requires Shape()
      reads this, socket
    {
      var call := socket.calls;
      if head <= tail then Result(socket.sends, call, tail - head, SOCKET_ERROR - 2)
      else
        var first := buffer.Length - head;
        if Stops(socket.sends, call, first) then Result(socket.sends, call, first, SOCKET_ERROR - 3)
        else
          var next := call + CallsFor(socket.sends, call, first);
          if Stops(socket.sends, next, tail) then Result(socket.sends, next, tail, SOCKET_ERROR - 4) else first + tail
    }

    method Flush() returns (ret: int)
      requires Valid()
      modifies this, socket`calls, socket`accepted, socket`active
      ensures Valid() && (buffer == old(buffer) || fresh(buffer)) && buffer.Length == old(buffer.Length)
      ensures unchanged(`maxBufferLen, `written)
      // a buffer grown over the maximum is dropped and the socket given up
      ensures buffer.Length > maxBufferLen ==>
        ret == SOCKET_ERROR - 1 && discarded && Pending() == []
        && !socket.active && socket.accepted == old(socket.accepted)
      // otherwise what the socket accepted comes off the front, and nothing else is lost
      ensures buffer.Length <= maxBufferLen ==>
        socket.accepted + Pending() == old(socket.accepted + Pending())
        && discarded == old(discarded) && socket.active == old(socket.active)
      // the result says whether all was sent
      ensures buffer.Length <= maxBufferLen && Pending() == [] ==> ret == |old(Pending())|
      // it is an error if and only if the send that stops it fails, told by the place
      ensures buffer.Length <= maxBufferLen ==> ret == old(FlushResult())
      ensures buffer.Length <= maxBufferLen ==>
        (ret < 0 <==> Pending() != [] && socket.calls > 0 && Fails(socket.sends(socket.calls - 1)))
    {
      hide Result, Stops, CallsFor, Content, Fails;
      NothingToSend(socket.sends, socket.calls, SOCKET_ERROR - 2);
      NothingHeld(buffer[..], 0);
      NothingHeld(buffer[..], tail);
      if buffer.Length > maxBufferLen {
        Reset();
        socket.SetActive(false);
        return SOCKET_ERROR - 1;
      }
      LengthIsContent(buffer[..], head, tail);
      var nFlushed := 0;
      var ok;
      if head < tail {
        ok, ret := SendLoop(tail - head, SOCKET_ERROR - 2);
        if !ok {
          LengthIsContent(buffer[..], head, tail);
          return;
        }
        nFlushed := ret;
      } else if head > tail {
        ok, ret := SendLoop(buffer.Length - head, SOCKET_ERROR - 3);
        if !ok {
          LengthIsContent(buffer[..], head, tail);
          return;
        }
        nFlushed := ret;
        head := 0;
        GoesRound(buffer[..], tail);
        ok, ret := SendLoop(tail, SOCKET_ERROR - 4);
        if !ok {
          LengthIsContent(buffer[..], head, tail);
          return;
        }
        nFlushed := nFlushed + ret;
      }
      head, tail := 0, 0;
      outputLen := Length(buffer.Length, head, tail);
      return nFlushed;
    }
  }

  /** What was received since went to the end of the content. */
  ghost predicate Grew(contents: seq<Byte>, received: seq<Byte>, contents': seq<Byte>, received': seq<Byte>) {
    received <= received' && contents' == contents + received'[|received|..]
  }

  lemma GrewTwice(c: seq<Byte>, r: seq<Byte>, c': seq<Byte>, r': seq<Byte>, c'': seq<Byte>, r'': seq<Byte>)
    requires Grew(c, r, c', r') && Grew(c', r', c'', r'')
    ensures Grew(c, r, c'', r'')
  {
    assert r''[|r|..] == r'[|r|..] + r''[|r'|..];
    Associative(c, r'[|r|..], r''[|r'|..]);
  }

  class InputStream {
    const socket: Socket
    var buffer: array<Byte>
    var maxBufferLen: nat
    var head: nat
    var tail: nat
    var inputLen: nat
    ghost var consumed: seq<Byte>   // the bytes read or skipped
    ghost var resets: nat           // oversize resets so far

    ghost predicate Shape()
      reads this
    {
      head < buffer.Length && tail < buffer.Length
    }

    ghost function Contents(): seq<Byte>
      requires Shape()
      reads this, buffer
    {
      Content(buffer[..], head, tail)
    }

    /** Unless there was an oversize reset, the bytes consumed and the bytes held are the
        bytes received. */
    ghost predicate Balanced()
      reads this, buffer, socket
    {
      Shape() && (resets == 0 ==> consumed + Contents() == socket.received)
    }

    /** Between calls, the length kept is never too small either. */
    ghost predicate Valid()
      reads this, buffer, socket
    {
      Balanced() && inputLen >= |Contents()|
    }

    /** `initsize` of a new stream */
    constructor (socket: Socket, bufferLen: nat, maxBufferLen: nat)
      requires bufferLen > 0 && socket.received == []
      ensures Valid() && fresh(buffer) && this.socket == socket && this.maxBufferLen == maxBufferLen
      ensures head == tail == 0 && consumed == [] && resets == 0 && buffer.Length == bufferLen
    {
      this.socket, this.maxBufferLen := socket, maxBufferLen;
      buffer := new Byte[bufferLen](_ => 0);
      head, tail, inputLen := 0, 0, 0;
      consumed, resets := [], 0;
    }

    /** The copying of `read` and `peek`. */
    method CopyOut(len: nat) returns (buf: seq<Byte>)
      requires Shape() && 0 < len <= |Contents()|
      ensures buf == Contents()[..len]
    {
      TakeRemoves(buffer[..], head, tail, len);
      if head < tail {
        buf := buffer[head..head + len];
      } else {
        var rightLen := buffer.Length - head;
        if len <= rightLen {
          buf := buffer[head..head + len];
        } else {
          buf := buffer[head..] + buffer[..len - rightLen];
        }
      }
    }

    /** Takes the next `len` bytes, or none when there are fewer. */
    method Read(len: nat) returns (ret: nat, buf: seq<Byte>)
      requires Valid()
      modifies `head, `inputLen, `consumed
      ensures Valid() && head == Wrap(old(head) + ret, buffer.Length)
      ensures if 0 < len <= old(|Contents()|) then
                ret == len && buf == old(Contents())[..len] && Contents() == old(Contents())[len..]
                && inputLen == |Contents()|
              else ret == 0 && buf == [] && Contents() == old(Contents()) && inputLen == old(inputLen)
    {
      LengthIsContent(buffer[..], head, tail);
      if len == 0 || len > Length(buffer.Length, head, tail) {
        return 0, [];
      }
      buf := CopyOut(len);
      Take(len);
      LengthIsContent(buffer[..], head, tail);
      inputLen := Length(buffer.Length, head, tail);
      return len, buf;
    }

    method Peek(len: nat) returns (ok: bool, buf: seq<Byte>)
      requires Valid()
      ensures ok <==> 0 < len <= |Contents()|
      ensures buf == if ok then Contents()[..len] else []
    {
      LengthIsContent(buffer[..], head, tail);
      if len == 0 || len > Length(buffer.Length, head, tail) {
        return false, [];
      }
      buf := CopyOut(len);
      ok := true;
    }

    /** Drops the next `len` bytes; the length kept is not brought up to date. */
    method Skip(len: nat) returns (ok: bool)
      requires Valid()
      modifies `head, `consumed
      ensures Valid() && (ok <==> 0 < len <= old(|Contents()|))
      ensures Contents() == if ok then old(Contents())[len..] else old(Contents())
    {
      LengthIsContent(buffer[..], head, tail);
      if len == 0 || len > Length(buffer.Length, head, tail) {
        return false;
      }
      Take(len);
      return true;
    }

    /** Moves the head on. */
    method Take(len: nat)
      requires Valid() && len <= |Contents()|
      modifies `head, `consumed
      ensures Valid() && head == Wrap(old(head) + len, buffer.Length) && Contents() == old(Contents())[len..]
      ensures consumed == old(consumed) + old(Contents())[..len]
    {
      TakeRemoves(buffer[..], head, tail, len);
      hide Content, Taken, Wrap;
      ghost var c := Contents();
      assert c == c[..len] + c[len..];
      Associative(consumed, c[..len], c[len..]);
      consumed := consumed + c[..len];
      head := Wrap(head + len, buffer.Length);
    }

    /** `peek` and then `skip` does to the content what `read` does. */
    method PeekThenSkip(len: nat) returns (ok: bool, buf: seq<Byte>)
      requires Valid()
      modifies `head, `consumed
      ensures Valid()
      ensures if 0 < len <= old(|Contents()|) then
                ok && buf == old(Contents())[..len] && Contents() == old(Contents())[len..]
              else !ok && buf == [] && Contents() == old(Contents())
    {
      ok, buf := Peek(len);
      var skipped := Skip(len);
    }

    method Resize(size: nat)
      requires Shape()
      modifies `buffer, `head, `tail
      ensures Shape() && fresh(buffer) && Contents() == old(Contents()) && head == 0
      ensures buffer.Length ==
              old(buffer.Length) + if old(buffer.Length) / 2 > size then old(buffer.Length) / 2 else size
    {
      var len := buffer.Length / 2;
      buffer, tail := Compacted(buffer, head, tail, if len > size then len else size);
      head := 0;
    }

    /** Receives at the tail, which the caller moves on. */
    method FillStream(fillLen: nat, available: nat, errorSequenceId: nat)
      returns (fillLen': nat, ret: int, ghost d: seq<Byte>)
      requires Shape() && tail + available <= buffer.Length
      modifies `inputLen, buffer, socket`calls, socket`received
      ensures inputLen == old(|Contents()|) && ret <= available
      ensures socket.received == old(socket.received) + d && |d| == if ret > 0 then ret else 0
      ensures buffer[..] == Stored(old(buffer[..]), tail, d)
      ensures fillLen' == fillLen + |d|
      ensures Reports(socket.receipts(old(socket.calls)), available, errorSequenceId, ret, d)
      ensures socket.calls == old(socket.calls) + 1 && (ret < 0 ==> ret <= SOCKET_ERROR)
    {
      LengthIsContent(buffer[..], head, tail);
      inputLen := Length(buffer.Length, head, tail);
      ret, d := socket.Receive(buffer, tail, available);
      fillLen' := fillLen;
      if ret == SOCKET_ERROR_WOULDBLOCK {
        ret := 0;
      } else if ret == SOCKET_ERROR {
        ret := SOCKET_ERROR - errorSequenceId;
      } else if ret == 0 {
        ret := SOCKET_ERROR - errorSequenceId - 1;
      } else {
        fillLen' := fillLen + ret;
      }
    }

    /** Receives at the tail and moves the tail on, when something was received. */
    method FillTail(fillLen: nat, available: nat, errorSequenceId: nat) returns (fillLen': nat, ret: int)
      requires Balanced() && 0 < available && tail + available <= buffer.Length
      requires |Contents()| + available < buffer.Length
      modifies `inputLen, `tail, buffer, socket`calls, socket`received
      ensures Balanced() && Grew(old(Contents()), old(socket.received), Contents(), socket.received)
      ensures ret <= available && (ret <= 0 ==> socket.received == old(socket.received))
      ensures ret <= 0 ==> tail == old(tail) && inputLen == |Contents()|
      ensures ret > 0 ==> tail == Wrap(old(tail) + ret, buffer.Length)
      ensures fillLen' == fillLen + |socket.received| - |old(socket.received)|
      ensures ret < 0 ==> ret <= SOCKET_ERROR
      ensures |socket.received| == |old(socket.received)| + if ret > 0 then ret else 0
      ensures Reports(socket.receipts(old(socket.calls)), available, errorSequenceId, ret,
                      socket.received[|old(socket.received)|..])
      ensures socket.calls == old(socket.calls) + 1
    {
      ghost var c, before := Contents(), buffer[..];
      ghost var d;
      fillLen', ret, d := FillStream(fillLen, available, errorSequenceId);
      StoreAppends(before, head, tail, d);
      hide Content, Stored, Wrap;
      Associative(consumed, c, d);
      assert socket.received[|old(socket.received)|..] == d;
      if ret < 1 {
        assert c + d == c && Wrap(tail, buffer.Length) == tail;
        return;
      }
      tail := Wrap(tail + ret, buffer.Length);
    }

    /** `initsize` of a stream in use: what is held is dropped, while `inputLen` stays. */
    method Reset()
      requires Shape()
      modifies `buffer, `head, `tail, `resets
      ensures Shape() && fresh(buffer) && buffer.Length == old(buffer.Length) && Contents() == []
      ensures resets == old(resets) + 1
    {
      head, tail := 0, 0;
      buffer := new Byte[buffer.Length](_ => 0);
      resets := resets + 1;
    }

    /** The stream has gone on from an earlier state: what was received went to the end of
        the content, or there was an oversize reset and the socket was given up. */
    ghost predicate WentOn(contents: seq<Byte>, received: seq<Byte>, resets: nat, ret: int)
      requires Shape()
      reads this, buffer, socket
    {
      if this.resets == resets then Grew(contents, received, Contents(), socket.received)
      else this.resets > resets && Contents() == [] && !socket.active && ret < SOCKET_ERROR
    }

    ghost predicate IsFull()
      reads this, buffer
    {
      Shape() && |Contents()| + 1 == buffer.Length
    }

    /** The bytes that the first receipt of `fill` has room for. */
    ghost function FirstFree(): nat
      reads this
      requires Shape()
    {
      if 0 < head <= tail then buffer.Length - tail
      else if head == 0 then buffer.Length - tail - 1
      else head - tail - 1
    }

    /** The next `fill` will receive up to the end of the buffer, and then nothing at its start. */
    ghost predicate RunsDry()
      reads this, socket
      requires Shape()
    {
      1 < head <= tail && Fills(socket, socket.calls, FirstFree()) && socket.receipts(socket.calls + 1).Blocked?
    }

    /** The next `fill` will receive bytes that its result, if it is no error, does not
        count: when a receipt finds nothing after an earlier one has filled its room, and
        when bytes come after the buffer has grown. */
    ghost predicate Miscounts()
      reads this, socket
      requires Shape()
    {
      var k, n, len, max := socket.calls, FirstFree(), buffer.Length, maxBufferLen;
      if n == 0 then Offered(socket, max, k, len)
      else
        && Fills(socket, k, n)
        && if 1 < head <= tail then
             RunsDry()
             || (Fills(socket, k + 1, head - 1) && (Offered(socket, max, k + 2, len)
                                                || Withheld(socket, max, k + 2, len)))
           else Offered(socket, max, k + 1, len) || Withheld(socket, max, k + 1, len)
    }

    /** The next `fill` will receive bytes and have room left at once. */
    ghost predicate Spares()
      reads this, socket
      requires Shape()
    {
      && socket.receipts(socket.calls).Data?
      && 0 < |socket.receipts(socket.calls).bytes| < FirstFree()
    }

    /** When the buffer is full: grows it by what is waiting, or gives up. */
    method CheckStreamAvailable(fillLen: nat, errorSequenceId: nat) returns (ret: int)
      requires Balanced() && errorSequenceId > 0
      modifies this, buffer, socket`calls, socket`received, socket`active
      ensures Balanced() && (buffer == old(buffer) || fresh(buffer)) && consumed == old(consumed)
      ensures maxBufferLen == old(maxBufferLen)
      ensures WentOn(old(Contents()), old(socket.received), old(resets), ret)
      ensures ret < 1 ==> inputLen >= |Contents()|
      ensures ret < 0 ==> ret <= SOCKET_ERROR
      ensures ret <= 1 && (ret == 1 ==> resets == old(resets)) && |socket.received| >= |old(socket.received)|
      ensures |socket.received| > |old(socket.received)| ==> buffer.Length > old(buffer.Length)
      ensures |socket.received| > |old(socket.received)| <==>
              Offered(socket, maxBufferLen, old(socket.calls), old(buffer.Length))
      ensures Offered(socket, maxBufferLen, old(socket.calls), old(buffer.Length)) ==> ret == 1
      ensures ret == 0 <==> Withheld(socket, maxBufferLen, old(socket.calls), old(buffer.Length))
      ensures buffer.Length == old(buffer.Length) || 2 * buffer.Length <= 3 * maxBufferLen
    {
      LengthIsContent(buffer[..], head, tail);
      inputLen := Length(buffer.Length, head, tail);
      var available := socket.Available();
      if available > 0 {
        if buffer.Length + available + 1 > maxBufferLen {
          Reset();
          socket.SetActive(false);
          return SOCKET_ERROR - errorSequenceId;
        }
        Resize(available + 1);
        var _, receiveLen := FillTail(fillLen, available, errorSequenceId + 1);
        if receiveLen < 1 {
          return receiveLen;
        }
      }
      return 1;
    }

    /** The result of `fill`. */
    ghost function Told(nFilled: nat, ret: int): int {
      if ret < 1 then ret else nFilled
    }

    /** One receipt has moved the tail on and nothing else. */
    ghost predicate SparedBy(buffer: array<Byte>, head: nat, tail: nat, calls: nat, n: nat)
      reads this, socket
    {
      this.buffer == buffer && this.head == head && this.tail == tail + n && socket.calls == calls + 1
    }

    /** `fill` with the free space at the end of the buffer. */
    method FillAbove() returns (nFilled: nat, ret: int, ghost grown: nat)
      requires Balanced() && inputLen >= |Contents()| && head == 0
      modifies this, buffer, socket`calls, socket`received, socket`active
      ensures Balanced() && (buffer == old(buffer) || fresh(buffer)) && consumed == old(consumed)
      ensures maxBufferLen == old(maxBufferLen)
      ensures WentOn(old(Contents()), old(socket.received), old(resets), ret)
      ensures |socket.received| == |old(socket.received)| + nFilled + grown
      ensures grown > 0 ==> buffer.Length > old(buffer.Length)
      ensures old(Miscounts()) <==> Told(nFilled, ret) >= 0 && Told(nFilled, ret) != nFilled + grown
      ensures !old(RunsDry()) && (old(IsFull()) ==> nFilled == 0)
      ensures old(IsFull() && Offered(socket, maxBufferLen, socket.calls, buffer.Length)) ==> ret == 1 && grown > 0
      ensures old(Spares()) ==> ret > 0 && nFilled == |socket.receipts(old(socket.calls)).bytes|
                                && SparedBy(old(buffer), old(head), old(tail), old(socket.calls), nFilled)
      ensures ret < 1 ==> inputLen >= |Contents()|
      ensures ret >= 1 ==> resets == old(resets)
      ensures buffer.Length == old(buffer.Length) || 2 * buffer.Length <= 3 * maxBufferLen
    {
      LengthIsContent(buffer[..], head, tail);
      hide Content, Wrap, Grew, Offered, Withheld;
      ghost var c, r, k := Contents(), socket.received, resets;
      Unchanged();
      grown := 0;
      nFilled, ret := 0, 0;
      var nFree := buffer.Length - tail - 1;
      if nFree != 0 {
        nFilled, ret := FillTail(nFilled, nFree, 1);
        if ret < 1 {
          return;
        }
      }
      if ret == nFree {
        ret, grown := CheckedAfter(nFilled, 3, c, r, k);
      }
    }

    /** `fill` with free space at both ends of the buffer. */
    method FillAround() returns (nFilled: nat, ret: int, ghost grown: nat)
      requires Balanced() && inputLen >= |Contents()| && 0 < head <= tail
      modifies this, buffer, socket`calls, socket`received, socket`active
      ensures Balanced() && (buffer == old(buffer) || fresh(buffer)) && consumed == old(consumed)
      ensures maxBufferLen == old(maxBufferLen)
      ensures WentOn(old(Contents()), old(socket.received), old(resets), ret)
      ensures |socket.received| == |old(socket.received)| + nFilled + grown
      ensures grown > 0 ==> buffer.Length > old(buffer.Length)
      ensures old(Miscounts()) <==> Told(nFilled, ret) >= 0 && Told(nFilled, ret) != nFilled + grown
      ensures old(RunsDry()) ==> ret == 0 && nFilled == old(FirstFree()) && grown == 0
      ensures !old(IsFull())
      ensures old(Spares()) ==> ret > 0 && nFilled == |socket.receipts(old(socket.calls)).bytes|
                                && SparedBy(old(buffer), old(head), old(tail), old(socket.calls), nFilled)
      ensures ret < 1 ==> inputLen >= |Contents()|
      ensures ret >= 1 ==> resets == old(resets)
      ensures buffer.Length == old(buffer.Length) || 2 * buffer.Length <= 3 * maxBufferLen
    {
      hide Content, Wrap, Grew, Offered, Withheld, IsFull, Miscounts, RunsDry, Spares;
      LengthIsContent(buffer[..], head, tail);
      AroundCases();
      ghost var c, r, k := Contents(), socket.received, resets;
      Unchanged();
      grown := 0;
      var nFree := buffer.Length - tail;
      nFilled, ret := FillTail(0, nFree, 6);
      if ret < nFree {
        return;
      }
      ret := 0;
      nFree := head - 1;
      LengthIsContent(buffer[..], head, tail);
      if nFree != 0 {
        ghost var c', r' := Contents(), socket.received;
        nFilled, ret := FillTail(nFilled, nFree, 8);
        GrewTwice(c, r, c', r', Contents(), socket.received);
        if ret < 1 {
          return;
        }
      }
      if ret == nFree {
        ret, grown := CheckedAfter(nFilled, 10, c, r, k);
      }
    }

    /** What the next `fill` depends on, with free space at both ends. */
    lemma AroundCases()
      requires Shape() && 0 < head <= tail
      ensures var k, n, len, max := socket.calls, buffer.Length - tail, buffer.Length, maxBufferLen;
        && FirstFree() == n && !IsFull()
        && (RunsDry() <==> 1 < head && Fills(socket, k, n) && socket.receipts(k + 1).Blocked?)
        && (Spares() <==> socket.receipts(k).Data? && 0 < |socket.receipts(k).bytes| < n)
        && (Miscounts() <==>
              Fills(socket, k, n) &&
              if 1 < head then
                socket.receipts(k + 1).Blocked?
                || (Fills(socket, k + 1, head - 1) && (Offered(socket, max, k + 2, len)
                                                       || Withheld(socket, max, k + 2, len)))
              else Offered(socket, max, k + 1, len) || Withheld(socket, max, k + 1, len))
    {
      hide Offered, Withheld, Fills;
      LengthIsContent(buffer[..], head, tail);
    }

    /** `fill` with the free space in the middle of the buffer. */
    method FillBetween() returns (nFilled: nat, ret: int, ghost grown: nat)
      requires Balanced() && inputLen >= |Contents()| && head > tail
      modifies this, buffer, socket`calls, socket`received, socket`active
      ensures Balanced() && (buffer == old(buffer) || fresh(buffer)) && consumed == old(consumed)
      ensures maxBufferLen == old(maxBufferLen)
      ensures WentOn(old(Contents()), old(socket.received), old(resets), ret)
      ensures |socket.received| == |old(socket.received)| + nFilled + grown
      ensures grown > 0 ==> buffer.Length > old(buffer.Length)
      ensures old(Miscounts()) <==> Told(nFilled, ret) >= 0 && Told(nFilled, ret) != nFilled + grown
      ensures !old(RunsDry()) && (old(IsFull()) ==> nFilled == 0)
      ensures old(IsFull() && Offered(socket, maxBufferLen, socket.calls, buffer.Length)) ==> ret == 1 && grown > 0
      ensures old(Spares()) ==> ret > 0 && nFilled == |socket.receipts(old(socket.calls)).bytes|
                                && SparedBy(old(buffer), old(head), old(tail), old(socket.calls), nFilled)
      ensures ret < 1 ==> inputLen >= |Contents()|
      ensures ret >= 1 ==> resets == old(resets)
      ensures buffer.Length == old(buffer.Length) || 2 * buffer.Length <= 3 * maxBufferLen
    {
      LengthIsContent(buffer[..], head, tail);
      hide Content, Wrap, Grew, Offered, Withheld;
      ghost var c, r, k := Contents(), socket.received, resets;
      Unchanged();
      grown := 0;
      nFilled, ret := 0, 0;
      var nFree := head - tail - 1;
      if nFree != 0 {
        nFilled, ret := FillTail(nFilled, nFree, 13);
        if ret < 1 {
          return;
        }
      }
      if ret == nFree {
        ret, grown := CheckedAfter(nFilled, 15, c, r, k);
      }
    }

    /** `fill`. A result that is no error counts the bytes received if and only if the
        stream and the answers to come do not make it miscount. */
    method Fill() returns (ret: int, ghost through: bool, ghost grown: nat)
      requires Valid()
      modifies this, buffer, socket`calls, socket`received, socket`active
      ensures Valid() && (buffer == old(buffer) || fresh(buffer)) && consumed == old(consumed)
      ensures maxBufferLen == old(maxBufferLen)
      ensures WentOn(old(Contents()), old(socket.received), old(resets), ret)
      ensures |old(socket.received)| <= |socket.received|
      ensures ret >= 0 && ret != |socket.received| - |old(socket.received)| <==> old(Miscounts())
      ensures if through then 0 <= ret && ret + grown == |socket.received| - |old(socket.received)| else ret <= 0
      ensures grown > 0 ==> buffer.Length > old(buffer.Length)
      ensures old(IsFull()) ==> ret <= 0
      ensures old(IsFull() && Offered(socket, maxBufferLen, socket.calls, buffer.Length)) ==> through && grown > 0
      ensures old(RunsDry()) ==> ret == 0 && |socket.received| == |old(socket.received)| + old(FirstFree())
      ensures old(Spares()) ==> ret == |socket.receipts(old(socket.calls)).bytes|
                                && SparedBy(old(buffer), old(head), old(tail), old(socket.calls), ret)
      ensures through ==> inputLen == |Contents()|
      ensures buffer.Length == old(buffer.Length) || 2 * buffer.Length <= 3 * maxBufferLen
    {
      hide Miscounts, RunsDry, Spares, FirstFree, Offered, IsFull, Content, Wrap, Grew;
      var nFilled;
      if head <= tail {
        if head == 0 {
          nFilled, ret, grown := FillAbove();
        } else {
          nFilled, ret, grown := FillAround();
        }
      } else {
        nFilled, ret, grown := FillBetween();
      }
      through := ret >= 1;
      if ret < 1 {
        return;
      }
      LengthIsContent(buffer[..], head, tail);
      inputLen := Length(buffer.Length, head, tail);
      ret := nFilled;
    }

    lemma Unchanged()
      requires Shape()
      ensures Grew(Contents(), socket.received, Contents(), socket.received)
    {
    }

    /** `check_stream_available` after the content and the bytes received have already grown since `c` and `r`. */
    method CheckedAfter(fillLen: nat, errorSequenceId: nat, ghost c: seq<Byte>, ghost r: seq<Byte>, ghost k: nat)
      returns (ret: int, ghost grown: nat)
      requires Balanced() && errorSequenceId > 0 && k == resets && Grew(c, r, Contents(), socket.received)
      modifies this, buffer, socket`calls, socket`received, socket`active
      ensures Balanced() && (buffer == old(buffer) || fresh(buffer)) && consumed == old(consumed)
      ensures maxBufferLen == old(maxBufferLen)
      ensures WentOn(c, r, k, ret) && |socket.received| >= |old(socket.received)|
      ensures ret < 1 ==> inputLen >= |Contents()|
      ensures ret == 1 ==> resets == k
      ensures ret < 0 ==> ret <= SOCKET_ERROR
      ensures ret <= 1
      ensures |socket.received| == |old(socket.received)| + grown
      ensures grown > 0 ==> buffer.Length > old(buffer.Length)
      ensures grown > 0 <==> Offered(socket, maxBufferLen, old(socket.calls), old(buffer.Length))
      ensures Offered(socket, maxBufferLen, old(socket.calls), old(buffer.Length)) ==> ret == 1
      ensures ret == 0 <==> Withheld(socket, maxBufferLen, old(socket.calls), old(buffer.Length))
      ensures buffer.Length == old(buffer.Length) || 2 * buffer.Length <= 3 * maxBufferLen
    {
      ghost var c', r' := Contents(), socket.received;
      ret := CheckStreamAvailable(fillLen, errorSequenceId);
      if resets == k {
        GrewTwice(c, r, c', r', Contents(), socket.received);
      }
      grown := |socket.received| - |r'|;
    }
  }

  lemma GrewBy(c: seq<Byte>, r: seq<Byte>, c': seq<Byte>, r': seq<Byte>)
    requires Grew(c, r, c', r')
    ensures |c'| - |c| == |r'| - |r|
  {
  }

  /** A fill, and by how much the content has grown. */
  method FillCounting(stream: InputStream) returns (ret: int, came: int)
    requires stream.Valid()
    modifies stream, stream.buffer, stream.socket`calls, stream.socket`received, stream.socket`active
    ensures ret >= 0 && ret != came <==> old(stream.Miscounts())
    ensures ret >= 0 ==> came >= 0
    ensures old(stream.RunsDry()) ==> ret == 0 && came == old(stream.FirstFree())
    ensures old(stream.IsFull()) ==> ret <= 0
  {
    hide InputStream.Miscounts, InputStream.RunsDry, InputStream.FirstFree, InputStream.Spares, Content, Grew;
    LengthIsContent(stream.buffer[..], stream.head, stream.tail);
    var before := Length(stream.buffer.Length, stream.head, stream.tail);
    ghost var c, r := stream.Contents(), stream.socket.received;
    ghost var through, grown;
    ret, through, grown := stream.Fill();
    LengthIsContent(stream.buffer[..], stream.head, stream.tail);
    came := Length(stream.buffer.Length, stream.head, stream.tail) - before;
    if ret >= 0 {
      GrewBy(c, r, stream.Contents(), stream.socket.received);
    }
  }

  /** A full buffer grows for what is waiting: a byte comes, and `fill` says that none has. */
  method GrownMiscount() returns (ret: int, came: int)
    ensures ret == 0 && came > 0
  {
    var socket := new Socket(_ => 0, _ => Data([65]), _ => 1);
    var stream := new InputStream(socket, 1, 16);
    assert stream.IsFull() && Offered(socket, 16, socket.calls, 1) && stream.Miscounts();
    ret, came := FillCounting(stream);
  }

  /** Two bytes come and are read, two more come up to the end of the buffer, and the
      receipt at its start finds nothing: `fill` says that none has come. */
  method BlockedMiscount() returns (ret: int, came: int)
    ensures ret == 0 && came == 2
  {
    hide InputStream.IsFull, InputStream.WentOn, Content;
    var socket := new Socket(_ => 0, k => if k < 2 then Data([65, 66]) else Blocked, _ => 0);
    var stream := new InputStream(socket, 4, 16);
    ghost var through, grown;
    assert stream.Spares();
    ret, through, grown := stream.Fill();
    assert stream.head == 0 && stream.tail == 2 && socket.calls == 1;
    LengthIsContent(stream.buffer[..], stream.head, stream.tail);
    var _, _ := stream.Read(2);
    assert stream.head == 2 && stream.tail == 2 && stream.FirstFree() == 2;
    assert stream.RunsDry();
    ret, came := FillCounting(stream);
  }
}

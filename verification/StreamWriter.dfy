/**
 * The sender of examples/socket/socket-bound-tcp-static-routing.cc: a buffer is written to a socket over and
 * over until a given number of bytes has been accepted, re-entered whenever the socket has space again.
 */
module StreamWriter {
  import opened Division

  newtype Byte = x: int | 0 <= x < 256

  /** The first `n` bytes of the endless repetition of `data`. */
  function Stream(data: seq<Byte>, n: nat): (s: seq<Byte>)
    requires data != []
    ensures |s| == n && forall p :: 0 <= p < n ==> s[p] == data[p % |data|]
  {
    seq(n, p requires 0 <= p < n => data[p % |data|])
  }

  /** A slice of the buffer that starts where the stream stands continues the stream. */
  lemma SliceContinuesStream(data: seq<Byte>, n: nat, k: nat)
    requires data != [] && n % |data| + k <= |data|
    ensures Stream(data, n) + data[n % |data|..n % |data| + k] == Stream(data, n + k)
  {
    forall p | n <= p < n + k
      ensures p % |data| == n % |data| + (p - n)
    {
      ModWithin(n, p - n, |data|);
    }
  }

  lemma StreamPrefix(data: seq<Byte>, m: nat, n: nat)
    requires data != [] && m <= n
    ensures Stream(data, n) == Stream(data, m) + Stream(data, n)[m..]
  {
  }

  lemma PrefixOfStream(data: seq<Byte>, m: nat, n: nat)
    requires data != [] && m <= n
    ensures Stream(data, n)[..m] == Stream(data, m)
  {
  }

  function Min(a: nat, b: nat): nat {
    if a < b then a else b
  }

  /** A call of Send: the space there was, the bytes that were offered, and what it returned. */
  datatype Call = Call(space: nat, offered: seq<Byte>, amount: int)

  /** A connected socket: the space in its send buffer, and the bytes it has accepted. */
  class Socket {
    var txAvailable: nat
    var accepted: seq<Byte>
    var closed: bool
    ghost var calls: seq<Call>  // the calls of Send so far

    constructor ()
      ensures accepted == [] && !closed && calls == []
    {
      txAvailable, accepted, closed, calls := 0, [], false, [];
    }

    method GetTxAvailable() returns (n: nat)
      ensures n == txAvailable
    {
      n := txAvailable;
    }

    /** Accepts some of the bytes, at least one, or fails and accepts none. */
    method Send(bytes: seq<Byte>) returns (amountSent: int)
      requires 0 < |bytes| <= txAvailable
      modifies this
      ensures closed == old(closed) && amountSent <= |bytes| && amountSent != 0
      ensures calls == old(calls) + [Call(old(txAvailable), bytes, amountSent)]
      ensures amountSent < 0 ==> accepted == old(accepted) && txAvailable == old(txAvailable)
      ensures amountSent > 0 ==> accepted == old(accepted) + bytes[..amountSent]
    {
      var n: nat :| n <= |bytes|;
      calls := calls + [Call(txAvailable, bytes, if n == 0 then -1 else n)];
      if n == 0 {
        return -1;
      }
      accepted := accepted + bytes[..n];
      var space: nat :| space >= 0;
      txAvailable := space;
      return n;
    }

    method Close()
      modifies this`closed
      ensures closed
    {
      closed := true;
    }

    /** The network takes bytes out of the send buffer. */
    method Drain()
      modifies this`txAvailable
    {
      var space: nat :| space >= 0;
      txAvailable := space;
    }
  }

  /** The calls since `before`, none of which failed. */
  ghost predicate NoneFails(before: seq<Call>, calls: seq<Call>) {
    before <= calls && forall k :: |before| <= k < |calls| ==> calls[k].amount > 0
  }

  ghost predicate LastFailed(before: seq<Call>, calls: seq<Call>) {
    |before| < |calls| && calls[|calls| - 1].amount < 0
  }

  ghost predicate OnlyLastFails(before: seq<Call>, calls: seq<Call>) {
    NoneFails(before, calls) || (LastFailed(before, calls) && NoneFails(before, calls[..|calls| - 1]))
  }

  class Writer {
    const data: seq<Byte>
    const totalTxBytes: nat
    var currentTxBytes: nat
    ghost var written: seq<Byte>  // all bytes any socket has accepted since the last StartFlow

    constructor (data: seq<Byte>, totalTxBytes: nat)
      requires data != []
      ensures this.data == data && this.totalTxBytes == totalTxBytes && Valid()
    {
      this.data, this.totalTxBytes := data, totalTxBytes;
      currentTxBytes, written := 0, [];
    }

    /** The counter is the number of bytes accepted, and they are the stream. */
    ghost predicate Valid()
      reads this
    {
      data != [] && currentTxBytes <= totalTxBytes && written == Stream(data, currentTxBytes)
    }

    /** Offers as much of the stream as there is up to the end of the buffer, left to write, and space for. */
    ghost predicate Offers(call: Call, current: nat)
      requires data != [] && current <= totalTxBytes
    {
      var offset, n := current % |data|, |call.offered|;
      && offset + n <= |data| && current + n <= totalTxBytes && n <= call.space
      && (offset + n == |data| || current + n == totalTxBytes || n == call.space)
      && call.offered == data[offset..offset + n]
    }

    /**
     * Writes until everything has been accepted, the buffer is full, or a send fails. Only in the last case is
     * the socket left open, so it is closed with bytes missing exactly when the buffer filled up.
     */
    method WriteUntilBufferFull(sock: Socket)
      requires Valid()
      modifies this, sock
      ensures Valid() && old(currentTxBytes) <= currentTxBytes
      ensures sock.accepted == old(sock.accepted) + Stream(data, currentTxBytes)[old(currentTxBytes)..]
      ensures old(sock.closed) ==> sock.closed
      ensures !old(sock.closed) ==> (sock.closed <==> currentTxBytes == totalTxBytes || sock.txAvailable == 0)
      ensures old(sock.txAvailable) == 0 ==> currentTxBytes == old(currentTxBytes) && sock.txAvailable == 0
      ensures OnlyLastFails(old(sock.calls), sock.calls)
      ensures !old(sock.closed) ==> (sock.closed <==> !LastFailed(old(sock.calls), sock.calls))
      ensures !LastFailed(old(sock.calls), sock.calls) ==> currentTxBytes == totalTxBytes || sock.txAvailable == 0
      ensures sock.calls == old(sock.calls) <==> old(currentTxBytes) == totalTxBytes || old(sock.txAvailable) == 0
    {
      while currentTxBytes < totalTxBytes && sock.txAvailable > 0
        invariant Valid() && old(currentTxBytes) <= currentTxBytes && sock.closed == old(sock.closed)
        invariant sock.accepted == old(sock.accepted) + Stream(data, currentTxBytes)[old(currentTxBytes)..]
        invariant old(sock.txAvailable) == 0 ==> currentTxBytes == old(currentTxBytes) && sock.txAvailable == 0
        invariant NoneFails(old(sock.calls), sock.calls)
        invariant sock.calls == old(sock.calls) ==>
                    currentTxBytes == old(currentTxBytes) && sock.txAvailable == old(sock.txAvailable)
        invariant old(currentTxBytes) == totalTxBytes || old(sock.txAvailable) == 0 ==> sock.calls == old(sock.calls)
        decreases totalTxBytes - currentTxBytes
      {
        var before := currentTxBytes;
        var sent := SendNext(sock);
        if !sent {
          return;
        }
        assert Stream(data, currentTxBytes)[old(currentTxBytes)..] ==
               Stream(data, before)[old(currentTxBytes)..] + Stream(data, currentTxBytes)[before..];
      }
      sock.Close();
    }

    /** A call that finds no space closes the socket with bytes missing. */
    method CloseEarly(sock: Socket)
      requires Valid() && currentTxBytes < totalTxBytes && sock.txAvailable == 0 && !sock.closed
      modifies this, sock
      ensures sock.closed && currentTxBytes == old(currentTxBytes) < totalTxBytes && sock.accepted == old(sock.accepted)
    {
      WriteUntilBufferFull(sock);
    }

    /** The body of the loop: one call of Send, with a slice that lies within the buffer. */
    method SendNext(sock: Socket) returns (sent: bool)
      requires Valid() && currentTxBytes < totalTxBytes && sock.txAvailable > 0
      modifies this, sock
      ensures Valid() && sock.closed == old(sock.closed) && (sent <==> old(currentTxBytes) < currentTxBytes)
      ensures old(currentTxBytes) <= currentTxBytes
      ensures sock.accepted == old(sock.accepted) + Stream(data, currentTxBytes)[old(currentTxBytes)..]
      ensures !sent ==> sock.txAvailable == old(sock.txAvailable)
      ensures |sock.calls| == |old(sock.calls)| + 1 && sock.calls[..|old(sock.calls)|] == old(sock.calls)
      ensures var call := sock.calls[|old(sock.calls)|];
              && call.space == old(sock.txAvailable) && Offers(call, old(currentTxBytes))
              && (sent <==> call.amount >= 0) && (sent ==> currentTxBytes == old(currentTxBytes) + call.amount)
    {
      var left := totalTxBytes - currentTxBytes;
      var dataOffset := currentTxBytes % |data|;
      var available := sock.GetTxAvailable();
      var toWrite := Min(Min(|data| - dataOffset, left), available);
      var slice := data[dataOffset..dataOffset + toWrite];
      var amountSent := sock.Send(slice);
      if amountSent < 0 {
        return false;
      }
      SliceContinuesStream(data, currentTxBytes, amountSent);
      assert slice[..amountSent] == data[dataOffset..dataOffset + amountSent];
      StreamPrefix(data, currentTxBytes, currentTxBytes + amountSent);
      written := written + slice[..amountSent];
      currentTxBytes := currentTxBytes + amountSent;
      return true;
    }

    method StartFlow(sock: Socket)
      requires data != []
      modifies this, sock
      ensures Valid()
      ensures sock.accepted == old(sock.accepted) + Stream(data, currentTxBytes)
      ensures OnlyLastFails(old(sock.calls), sock.calls) && (old(sock.closed) ==> sock.closed)
      ensures !old(sock.closed) ==> (sock.closed <==> !LastFailed(old(sock.calls), sock.calls))
      ensures !LastFailed(old(sock.calls), sock.calls) ==> currentTxBytes == totalTxBytes || sock.txAvailable == 0
      ensures sock.calls == old(sock.calls) <==> totalTxBytes == 0 || old(sock.txAvailable) == 0
    {
      currentTxBytes := 0;
      written := [];
      WriteUntilBufferFull(sock);
    }

    /**
     * A whole flow: any number of callbacks, between which the network frees any amount of space. If the socket is
     * still open at the end, its last call of Send failed.
     */
    method Flow(sock: Socket)
      requires data != [] && sock.accepted == []
      modifies this, sock
      ensures Valid() && sock.accepted == Stream(data, currentTxBytes)
      ensures old(sock.calls) <= sock.calls && (old(sock.closed) ==> sock.closed)
      ensures !sock.closed ==> LastFailed(old(sock.calls), sock.calls)
      ensures totalTxBytes > 0 && old(sock.txAvailable) > 0 ==> |sock.calls| > |old(sock.calls)|
    {
      StartFlow(sock);
      var callbacks: nat :| callbacks >= 0;
      for i := 0 to callbacks
        invariant Valid() && sock.accepted == Stream(data, currentTxBytes)
        invariant old(sock.calls) <= sock.calls && (old(sock.closed) ==> sock.closed)
        invariant !sock.closed ==> LastFailed(old(sock.calls), sock.calls)
        invariant totalTxBytes > 0 && old(sock.txAvailable) > 0 ==> |sock.calls| > |old(sock.calls)|
      {
        sock.Drain();
        ghost var before := currentTxBytes;
        WriteUntilBufferFull(sock);
        StreamPrefix(data, before, currentTxBytes);
        PrefixOfStream(data, before, currentTxBytes);
      }
    }
  }
}

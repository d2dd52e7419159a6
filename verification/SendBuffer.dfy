/** The output ring of a connection (tcp.c): `send_data` puts bytes in, `conn_write` hands them to the
    socket as it accepts them. */
module SendBuffer {
  import opened Numbers

  class Connection {
    const sendBuf: array<byte>
    var sendBufR: nat
    var sendBufW: nat

    ghost predicate Valid()
      reads this
    {
      sendBufR < sendBuf.Length && sendBufW < sendBuf.Length
    }

    /** The bytes that wait, oldest first. One cell always stays free. */
    function Waiting(): (s: seq<byte>)
      requires Valid()
      reads this, sendBuf
      ensures |s| < sendBuf.Length
    {
      if sendBufW < sendBufR then sendBuf[sendBufR..] + sendBuf[..sendBufW] else sendBuf[sendBufR..sendBufW]
    }

    constructor (size: nat)
      requires size > 0
      ensures Valid() && fresh(sendBuf) && sendBuf.Length == size && Waiting() == []
    {
      sendBuf := new byte[size];
      sendBufR, sendBufW := 0, 0;
    }

    /** `avail_send_buf`. */
    method Available() returns (n: nat)
      requires Valid()
      ensures n == sendBuf.Length - 1 - |Waiting()|
    {
      if sendBufR > sendBufW {
        n := sendBufR - sendBufW - 1;
      } else {
        n := sendBuf.Length - sendBufW + sendBufR - 1;
      }
    }

    /** `send_data`: all of it or nothing. */
    method SendData(d: seq<byte>) returns (failed: bool)
      requires Valid()
      modifies this`sendBufW, sendBuf
      ensures Valid()
      ensures failed <==> |old(Waiting())| + |d| >= sendBuf.Length
      ensures Waiting() == if failed then old(Waiting()) else old(Waiting()) + d
    {
      hide Connection.Waiting;
      var available := Available();
      if available < |d| { return true; }
      for i := 0 to |d|
        invariant Valid() && Waiting() == old(Waiting()) + d[..i]
      {
        ghost var before := Waiting();
        Put(d[i]);
        assert d[..i + 1] == d[..i] + [d[i]];
      }
      assert d[..|d|] == d;
      failed := false;
    }

    /** One byte, and the index wraps. */
    method Put(b: byte)
      requires Valid() && |Waiting()| + 1 < sendBuf.Length
      modifies this`sendBufW, sendBuf
      ensures Valid() && Waiting() == old(Waiting()) + [b]
    {
      sendBuf[sendBufW] := b;
      sendBufW := sendBufW + 1;
      if sendBufW == sendBuf.Length { sendBufW := 0; }
    }

    /** The reading index moves on, and wraps. */
    method TakeSome(ret: nat)
      requires Valid() && 0 < ret <= if sendBufW < sendBufR then sendBuf.Length - sendBufR else sendBufW - sendBufR
      modifies this`sendBufR
      ensures Valid() && old(Waiting()) == old(sendBuf[sendBufR..sendBufR + ret]) + Waiting()
      ensures sendBufR == if old(sendBufR) + ret == sendBuf.Length then 0 else old(sendBufR) + ret
    {
      ghost var before, r := Waiting(), sendBufR;
      assert before[..ret] == sendBuf[r..r + ret] && before == before[..ret] + before[ret..];
      sendBufR := sendBufR + ret;
      if sendBufR == sendBuf.Length { sendBufR := 0; }
      assert Waiting() == before[ret..];
    }

    lemma NothingWaits()
      requires Valid() && sendBufR == sendBufW
      ensures Waiting() == []
    {
    }

    /** `conn_write`, when the socket takes at most `takes[k]` bytes at call `k`, none being an error or a
        full socket: what it took is what waited longest, in order, and each call offers all that lies in
        one piece. */
    method ConnWrite(takes: seq<nat>) returns (written: seq<byte>, emptied: bool)
      requires Valid()
      modifies this`sendBufR
      ensures Valid() && written + Waiting() == old(Waiting())
      ensures |written| == Taken(sendBuf.Length, old(sendBufR), |old(Waiting())|, takes)
      ensures emptied <==> Waiting() == []
    {
      hide Connection.Waiting;
      written := [];
      var k := 0;
      assert takes[0..] == takes;
      while sendBufR != sendBufW
        invariant Valid() && written + Waiting() == old(Waiting()) && k <= |takes|
        invariant |written| + Taken(sendBuf.Length, sendBufR, |Waiting()|, takes[k..])
               == Taken(sendBuf.Length, old(sendBufR), |old(Waiting())|, takes)
        decreases |Waiting()|
      {
        WaitingInOnePiece();
        var len;
        if sendBufW < sendBufR { len := sendBuf.Length - sendBufR; } else { len := sendBufW - sendBufR; }
        if k >= |takes| || takes[k] == 0 { return written, false; }
        var ret := if takes[k] < len then takes[k] else len;
        assert takes[k..][0] == takes[k] && takes[k..][1..] == takes[k + 1..];
        k := k + 1;
        written := written + sendBuf[sendBufR..sendBufR + ret];
        TakeSome(ret);
      }
      NothingWaits();
      emptied := true;
    }

    lemma WaitingInOnePiece()
      requires Valid() && sendBufR != sendBufW
      ensures |Waiting()| > 0
      ensures Min(|Waiting()|, sendBuf.Length - sendBufR) == if sendBufW < sendBufR then sendBuf.Length - sendBufR else sendBufW - sendBufR
    {
    }
  }

  /** How much the calls of `write` take, from index `r` of a ring of `size` on, when `n` bytes wait: each gets
      what lies in one piece, until one takes nothing. */
  function Taken(size: nat, r: nat, n: nat, takes: seq<nat>): nat
    decreases |takes|
  {
    if n == 0 || takes == [] || takes[0] == 0 || r >= size then 0
    else
      var t := Min(takes[0], Min(n, size - r));
      t + Taken(size, if r + t == size then 0 else r + t, n - t, takes[1..])
  }

  /** A socket that takes whatever it is offered gets everything in two calls. */
  lemma TwoCallsTakeAll(size: nat, r: nat, n: nat, takes: seq<nat>)
    requires r < size && n < size && |takes| >= 2 && takes[0] >= n && takes[1] >= n
    ensures Taken(size, r, n, takes) == n
  {
    var rest := takes[1..];
    assert rest[0] == takes[1];
    var t := Min(n, size - r);
    assert Taken(size, 0, n - t, rest) == n - t by { assert Taken(size, 0 + (n - t), 0, rest[1..]) == 0; }
  }

  /** And one that takes something at every call, as many bytes as calls at least. */
  lemma {:induction false} EveryCallTakes(size: nat, r: nat, n: nat, takes: seq<nat>)
    requires r < size && forall k :: 0 <= k < |takes| ==> takes[k] > 0
    ensures Min(n, |takes|) <= Taken(size, r, n, takes) <= n
    decreases |takes|
  {
    if n > 0 && takes != [] {
      var t := Min(takes[0], Min(n, size - r));
      EveryCallTakes(size, if r + t == size then 0 else r + t, n - t, takes[1..]);
    }
  }
}

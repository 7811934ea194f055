/** Moving a snapshot over RDMA: the sender cuts its buffer into chunks, one connection each; the
    receiver appends chunks until what it has is not a whole number of full chunks.  The chunk size is 2^30 in
    the program; nothing here depends on its value. */
module Rdma {
  import opened Basics

  type Bytes = seq<bv8>

  function Concat(chunks: seq<Bytes>): Bytes {
    if chunks == [] then [] else chunks[0] + Concat(chunks[1..])
  }

  lemma {:induction false} ConcatSnoc(chunks: seq<Bytes>, last: Bytes)
    ensures Concat(chunks + [last]) == Concat(chunks) + last
  {
    if chunks == [] {
      assert [last][1..] == [];
      assert chunks + [last] == [last];
      assert last + [] == last == [] + last;
    } else {
      assert (chunks + [last])[1..] == chunks[1..] + [last];
      ConcatSnoc(chunks[1..], last);
      assert chunks[0] + (Concat(chunks[1..]) + last) == chunks[0] + Concat(chunks[1..]) + last;
    }
  }

  function Min(a: int, b: int): int { if a < b then a else b }

  // ------------------------------------------------------------------ the sender

  /** A payload as chunks: all full but the last, which is empty only for an empty payload. */
  ghost predicate Cut(payload: Bytes, size: nat, chunks: seq<Bytes>) {
    && chunks != [] && Concat(chunks) == payload
    && (forall i :: 0 <= i < |chunks| - 1 ==> |chunks[i]| == size)
    && |chunks[|chunks| - 1]| <= size
    && (payload != [] ==> chunks[|chunks| - 1] != [])
  }

  /** The first `n` bytes have been sent, in full chunks if some are left. */
  ghost predicate Sent(payload: Bytes, size: nat, chunks: seq<Bytes>, n: nat) {
    n <= |payload| && Cut(payload[..n], size, chunks) && (n < |payload| ==> |chunks[|chunks| - 1]| == size)
  }

  lemma {:induction false} SendMore(payload: Bytes, size: nat, chunks: seq<Bytes>, n: nat)
    requires size > 0 && Sent(payload, size, chunks, n) && n < |payload|
    ensures var m := Min(|payload| - n, size); Sent(payload, size, chunks + [payload[n..n + m]], n + m)
  {
    var m := Min(|payload| - n, size);
    assert payload[..n] + payload[n..n + m] == payload[..n + m];
    CutMore(payload[..n], size, chunks, payload[n..n + m]);
  }

  /** One more chunk behind full ones. */
  lemma {:induction false} CutMore(payload: Bytes, size: nat, chunks: seq<Bytes>, chunk: Bytes)
    requires Cut(payload, size, chunks) && |chunks[|chunks| - 1]| == size && 0 < |chunk| <= size
    ensures Cut(payload + chunk, size, chunks + [chunk])
  {
    ConcatSnoc(chunks, chunk);
  }

  /** The writer's destructor. */
  method Send(payload: Bytes, size: nat) returns (chunks: seq<Bytes>)
    requires size > 0
    ensures Cut(payload, size, chunks)
  {
    var toSend := |payload|;
    chunks := [payload[..Min(toSend, size)]];
    toSend := toSend - size;
    while toSend > 0
      invariant toSend < |payload| || toSend <= 0
      invariant Sent(payload, size, chunks, if toSend > 0 then |payload| - toSend else |payload|)
    {
      var from := |payload| - toSend;
      SendMore(payload, size, chunks, from);
      chunks := chunks + [payload[from..from + Min(toSend, size)]];
      toSend := toSend - size;
    }
    assert payload[..|payload|] == payload;
  }

  // ------------------------------------------------------------------ the receiver

  /** Taking chunks until what has been received is not a whole number of chunks.  None: the
      receiver waits for a chunk that nobody sends. */
  function Receiving(chunks: seq<Bytes>, size: nat, got: Bytes): Option<(Bytes, seq<Bytes>)>
    requires size > 0
  {
    if chunks == [] then None
    else
      var got' := got + chunks[0];
      if |got'| % size == 0 then Receiving(chunks[1..], size, got') else Some((got', chunks[1..]))
  }

  /** The reader's constructor: the first chunk, then the loop. */
  method Receive(chunks: seq<Bytes>, size: nat) returns (r: Option<(Bytes, seq<Bytes>)>)
    requires size > 0
    ensures r == Receiving(chunks, size, [])
  {
    if chunks == [] {
      return None;
    }
    var buffer, rest := chunks[0], chunks[1..];
    var received := |buffer|;
    assert [] + chunks[0] == buffer;
    while received % size == 0
      invariant received == |buffer|
      invariant Receiving(chunks, size, [])
        == if received % size == 0 then Receiving(rest, size, buffer) else Some((buffer, rest))
      decreases |rest|
    {
      if rest == [] {
        return None;
      }
      buffer, received, rest := buffer + rest[0], received + |rest[0]|, rest[1..];
    }
    r := Some((buffer, rest));
  }

  /** The receiver passes over full chunks. */
  lemma {:induction false} FullChunks(chunks: seq<Bytes>, size: nat, got: Bytes)
    requires size > 0 && chunks != [] && |got| % size == 0
    requires forall i :: 0 <= i < |chunks| - 1 ==> |chunks[i]| == size
    ensures Receiving(chunks, size, got)
      == var all := got + Concat(chunks);
         if |all| % size == 0 then None else Some((all, []))
    decreases |chunks|
  {
    var got' := got + chunks[0];
    assert got + Concat(chunks) == got' + Concat(chunks[1..]);
    if |chunks| == 1 {
      assert chunks[1..] == [] && got' + [] == got';
    } else {
      assert |got'| % size == 0 by {
        NextMultiple(|got|, size);
      }
      forall i | 0 <= i < |chunks[1..]| - 1
        ensures |chunks[1..][i]| == size
      {
        assert chunks[1..][i] == chunks[i + 1];
      }
      FullChunks(chunks[1..], size, got');
    }
  }

  lemma {:induction false} NextMultiple(n: nat, size: nat)
    requires size > 0 && n % size == 0
    ensures (n + size) % size == 0
  {
    var q := n / size;
    assert n == q * size;
    assert n + size == (q + 1) * size;
    ModOf(q + 1, 0, size);
  }

  /** Sender and receiver together: the receiver ends up with exactly the payload, and with no chunk
      left over, unless the payload is a whole number of chunks; then it waits for one chunk more
      than was sent. */
  lemma {:induction false} ReceivesWhatWasSent(payload: Bytes, size: nat, chunks: seq<Bytes>)
    requires size > 0 && Cut(payload, size, chunks)
    ensures Receiving(chunks, size, []) == if |payload| % size != 0 then Some((payload, [])) else None
  {
    ModOf(0, 0, size);
    FullChunks(chunks, size, []);
    assert [] + Concat(chunks) == payload;
  }

  method Transfer(payload: Bytes, size: nat) returns (r: Option<Bytes>)
    requires size > 0
    ensures r == if |payload| % size != 0 then Some(payload) else None
  {
    var chunks := Send(payload, size);
    var got := Receive(chunks, size);
    ReceivesWhatWasSent(payload, size, chunks);
    r := if got.None? then None else Some(got.value.0);
  }

  // ------------------------------------------------------------------ the streams

  class WriteStream {
    var buffer: Bytes
    var position: nat

    ghost predicate Valid()
      reads this
    {
      position == |buffer|
    }

    constructor ()
      ensures Valid() && buffer == []
    {
      buffer, position := [], 0;
    }

    method Write(data: Bytes)
      requires Valid()
      modifies this
      ensures Valid() && buffer == old(buffer) + data
    {
      buffer := buffer + data;
      position := position + |data|;
    }
  }

  class ReadStream {
    const buffer: Bytes
    var position: nat

    ghost predicate Valid()
      reads this
    {
      position <= |buffer|
    }

    constructor (buffer: Bytes)
      ensures Valid() && this.buffer == buffer && position == 0
    {
      this.buffer := buffer;
      position := 0;
    }

    /** The next bytes; None, and nothing changes, if there are not that many left. */
    method Read(sz: nat) returns (r: Option<Bytes>)
      requires Valid()
      modifies this`position
      ensures Valid()
      ensures r.Some? <==> sz <= |old(buffer[position..])|
      ensures r.Some? ==> old(buffer[position..]) == r.value + buffer[position..] && |r.value| == sz
      ensures r.None? ==> position == old(position)
    {
      if position + sz > |buffer| {
        return None;
      }
      r := Some(buffer[position..position + sz]);
      position := position + sz;
    }

    /** Reading pieces of the sizes that were written gives the pieces back, and then the stream is
        at its end. */
    method ReadBack(sizes: seq<nat>, ghost pieces: seq<Bytes>) returns (r: seq<Bytes>)
      requires Valid() && buffer[position..] == Concat(pieces)
      requires |sizes| == |pieces| && forall i :: 0 <= i < |sizes| ==> sizes[i] == |pieces[i]|
      modifies this`position
      ensures Valid() && r == pieces && position == |buffer|
    {
      r := [];
      var i := 0;
      assert pieces[0..] == pieces;
      while i < |sizes|
        invariant Valid() && 0 <= i <= |pieces| && r == pieces[..i]
        invariant buffer[position..] == Concat(pieces[i..])
      {
        assert pieces[i..][0] == pieces[i] && pieces[i..][1..] == pieces[i + 1..];
        ghost var before := buffer[position..];
        var piece := Read(sizes[i]);
        SameFront(before, pieces[i], Concat(pieces[i + 1..]), piece.value, buffer[position..]);
        r := r + [piece.value];
        i := i + 1;
      }
      assert pieces[i..] == [];
    }
  }

  lemma {:induction false} SameFront(whole: Bytes, a: Bytes, b: Bytes, a': Bytes, b': Bytes)
    requires whole == a + b == a' + b' && |a| == |a'|
    ensures a == a' && b == b'
  {
    assert whole[..|a|] == a == a';
    assert whole[|a|..] == b == b';
  }

  /** Writing the pieces and sending the buffer. */
  method WriteAll(pieces: seq<Bytes>) returns (w: WriteStream)
    ensures fresh(w) && w.Valid() && w.buffer == Concat(pieces)
  {
    w := new WriteStream();
    var i := 0;
    while i < |pieces|
      invariant w.Valid() && 0 <= i <= |pieces| && fresh(w)
      invariant w.buffer == Concat(pieces[..i])
    {
      w.Write(pieces[i]);
      ConcatSnoc(pieces[..i], pieces[i]);
      assert pieces[..i + 1] == pieces[..i] + [pieces[i]];
      i := i + 1;
    }
    assert pieces[..i] == pieces;
  }

  /** The whole way: pieces written on one side are read on the other, in order and complete,
      exactly when they are not a whole number of chunks in all. */
  method RoundTrip(pieces: seq<Bytes>, size: nat) returns (r: Option<seq<Bytes>>)
    requires size > 0
    ensures r == if |Concat(pieces)| % size != 0 then Some(pieces) else None
  {
    var w := WriteAll(pieces);
    var got := Transfer(w.buffer, size);
    if got.None? {
      return None;
    }
    var reader := new ReadStream(got.value);
    assert reader.buffer[0..] == reader.buffer;
    var back := reader.ReadBack(seq(|pieces|, i requires 0 <= i < |pieces| => |pieces[i]|), pieces);
    r := Some(back);
  }
}

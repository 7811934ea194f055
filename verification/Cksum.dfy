/** The Internet checksum that the gateway recomputes after rewriting an address, on a
    little-endian host. */
module Cksum {

  type Byte = b: int | 0 <= b < 256
  type Word = w: int | 0 <= w < 0x10000

  function WordOf(low: Byte, high: Byte): Word { (low as int) + 256 * (high as int) }

  /** The 16-bit words of a buffer; a byte left over counts as a word. */
  function Words(bytes: seq<Byte>): seq<Word> {
    if bytes == [] then []
    else if |bytes| == 1 then [bytes[0]]
    else [WordOf(bytes[0], bytes[1])] + Words(bytes[2..])
  }

  /** A byte left over counts as if a zero byte followed it. */
  lemma {:induction false} PaddedWords(bytes: seq<Byte>)
    requires |bytes| % 2 == 1
    ensures Words(bytes) == Words(bytes + [0])
  {
    if |bytes| == 1 {
      assert (bytes + [0])[2..] == [] && WordOf(bytes[0], 0) == bytes[0];
    } else {
      assert (bytes + [0])[2..] == bytes[2..] + [0];
      PaddedWords(bytes[2..]);
    }
  }

  function Sum(ws: seq<Word>): nat {
    if ws == [] then 0 else ws[0] + Sum(ws[1..])
  }

  // ------------------------------------------------------------------ ones'-complement arithmetic

  /** Addition with end-around carry (section 1 of RFC 1071). */
  function OnesAdd(a: Word, b: Word): Word {
    if a + b > 0xffff then a + b - 0xffff else a + b
  }

  function OnesSum(ws: seq<Word>): Word {
    if ws == [] then 0 else OnesAdd(ws[0], OnesSum(ws[1..]))
  }

  /** The ones'-complement representative of a number: zero only for zero. */
  function Representative(s: nat): Word {
    if s == 0 then 0 else (s - 1) % 0xffff + 1
  }

  lemma {:induction false} RepresentativeUnique(s: nat, r: Word, k: nat)
    requires s == r + k * 0xffff && (r == 0 ==> s == 0)
    ensures Representative(s) == r
  {
  }

  lemma {:induction false} RepresentativeOf(s: nat) returns (k: nat)
    ensures s == Representative(s) + k * 0xffff
    ensures Representative(s) == 0 ==> s == 0
  {
    k := if s == 0 then 0 else (s - 1) / 0xffff;
  }

  lemma {:induction false} OnesSumIs(ws: seq<Word>)
    ensures OnesSum(ws) == Representative(Sum(ws))
  {
    if ws == [] {
    } else {
      OnesSumIs(ws[1..]);
      var k := RepresentativeOf(Sum(ws[1..]));
      var carried := ws[0] + OnesSum(ws[1..]) > 0xffff;
      RepresentativeUnique(Sum(ws), OnesSum(ws), if carried then k + 1 else k);
    }
  }

  // ------------------------------------------------------------------ the two folds

  function Fold(s: nat): nat { s / 0x10000 + s % 0x10000 }

  /** What is returned for a given sum: a fold, a second addition of the high part, and the
      complement of the low 16 bits. */
  function Finish(s: nat): Word {
    var once := Fold(s);
    var twice := once + once / 0x10000;
    0xffff - twice % 0x10000
  }

  /** The folding does not carry a third time. */
  predicate Settles(s: nat) { Fold(Fold(s)) < 0x10000 }

  /** Dropping the high part of the second addition. */
  lemma {:induction false} LowHalf(high: nat, twice: nat)
    requires twice < 0x2_0000
    ensures (high * 0x10000 + twice) % 0x10000 == if twice < 0x10000 then twice else twice - 0x10000
  {
  }

  /** The low 16 bits of the second addition. */
  lemma {:induction false} FinishLow(s: nat)
    requires s < 0x4000_0000_0000
    ensures Fold(Fold(s)) < 0x2_0000
    ensures Finish(s) == 0xffff - (if Settles(s) then Fold(Fold(s)) else Fold(Fold(s)) - 0x10000)
  {
    var once := Fold(s);
    assert once + once / 0x10000 == once / 0x10000 * 0x10000 + Fold(once);
    LowHalf(once / 0x10000, Fold(once));
  }

  /** The ones'-complement representative, from the second fold. */
  lemma {:induction false} FoldedRepresentative(s: nat)
    requires Fold(Fold(s)) < 0x2_0000 - 1
    ensures Representative(s) == if Settles(s) then Fold(Fold(s)) else Fold(Fold(s)) - 0xffff
  {
    var twice, k := Fold(Fold(s)), s / 0x10000 + Fold(s) / 0x10000;
    assert s == twice + k * 0xffff;
    if twice < 0x10000 {
      RepresentativeUnique(s, twice, k);
    } else {
      RepresentativeUnique(s, twice - 0xffff, k + 1);
    }
  }

  /** Two folds give the complement of the ones'-complement sum exactly when no third carry is due.
      (A buffer whose length is an int has a sum below 2^46.) */
  lemma {:induction false} FinishExact(s: nat)
    requires s < 0x4000_0000_0000
    ensures Finish(s) == 0xffff - Representative(s) <==> Settles(s)
  {
    FinishLow(s);
    FoldedRepresentative(s);
  }

  /** A sum below 2^32 always settles. */
  lemma {:induction false} SmallSumsSettle(s: nat)
    requires s < 0x1_0000_0000
    ensures Settles(s)
  {
  }

  lemma {:induction false} SumBound(ws: seq<Word>)
    ensures Sum(ws) <= 0xffff * |ws|
  {
    if ws == [] {
    } else {
      SumBound(ws[1..]);
    }
  }

  lemma {:induction false} WordCount(bytes: seq<Byte>)
    ensures |Words(bytes)| == (|bytes| + 1) / 2
  {
    if |bytes| > 1 {
      WordCount(bytes[2..]);
    }
  }

  // ------------------------------------------------------------------ the checksum

  function Checksum(bytes: seq<Byte>): Word { Finish(Sum(Words(bytes))) }

  /** The checksum is the complement of the ones'-complement sum whenever the word sum is below
      2^32. */
  lemma {:induction false} ChecksumIsComplement(bytes: seq<Byte>)
    requires Sum(Words(bytes)) < 0x1_0000_0000
    ensures Checksum(bytes) == 0xffff - OnesSum(Words(bytes))
  {
    SmallSumsSettle(Sum(Words(bytes)));
    FinishExact(Sum(Words(bytes)));
    OnesSumIs(Words(bytes));
  }

  /** Buffers of up to 131074 bytes are always in that range. */
  lemma {:induction false} ShortBuffers(bytes: seq<Byte>)
    requires |bytes| <= 131074
    ensures Sum(Words(bytes)) < 0x1_0000_0000
  {
    WordCount(bytes);
    SumBound(Words(bytes));
  }

  /** `n` words of ones. */
  function Ones(n: nat): (bytes: seq<Byte>)
    ensures |bytes| == 2 * n
  {
    if n == 0 then [] else [255, 255] + Ones(n - 1)
  }

  lemma {:induction false} SumOnes(n: nat)
    ensures Sum(Words(Ones(n))) == n * 0xffff
  {
    if n == 0 {
    } else {
      SumOnes(n - 1);
      assert [255, 255] + Ones(n - 1) == Ones(n);
    }
  }

  /** A buffer of 131078 bytes whose sum does not settle: its checksum is off by one. */
  lemma {:induction false} ThirdCarryIsLost(n: nat)
    requires n == 65538
    ensures var bytes := [1, 0] + Ones(n);
      |bytes| == 131078 && Checksum(bytes) == 0xffff && 0xffff - OnesSum(Words(bytes)) == 0xfffe
  {
    var bytes := [1, 0] + Ones(n);
    SumOnes(n);
    OnesSumIs(Words(bytes));
  }

  lemma {:induction false} SumSplit(ws: seq<Word>, i: nat)
    requires i < |ws|
    ensures Sum(ws) == ws[i] + Sum(ws[..i] + ws[i + 1..])
  {
    if i == 0 {
      assert ws[..0] + ws[1..] == ws[1..];
    } else {
      SumSplit(ws[1..], i - 1);
      var rest := ws[..i] + ws[i + 1..];
      assert rest[0] == ws[0] && rest[1..] == ws[1..][..i - 1] + ws[1..][i..];
    }
  }

  /** The order of the words does not matter (section 2(A) of RFC 1071). */
  lemma {:induction false} SumPermuted(ws: seq<Word>, ws': seq<Word>)
    requires multiset(ws) == multiset(ws')
    ensures Sum(ws) == Sum(ws')
    decreases |ws|
  {
    if ws == [] {
      assert |multiset(ws')| == 0;
      assert ws' == [];
    } else {
      var i := FindWord(ws', ws[0], ws);
      SumSplit(ws', i);
      WithoutWord(ws, ws', i);
      SumPermuted(ws[1..], ws'[..i] + ws'[i + 1..]);
    }
  }

  lemma {:induction false} WithoutWord(ws: seq<Word>, ws': seq<Word>, i: nat)
    requires multiset(ws) == multiset(ws') && ws != [] && i < |ws'| && ws'[i] == ws[0]
    ensures multiset(ws[1..]) == multiset(ws'[..i] + ws'[i + 1..])
  {
    assert ws == [ws[0]] + ws[1..];
    assert ws' == ws'[..i] + [ws'[i]] + ws'[i + 1..];
    assert multiset(ws[1..]) == multiset(ws) - multiset{ws[0]};
    assert multiset(ws'[..i] + ws'[i + 1..]) == multiset(ws') - multiset{ws[0]};
  }

  lemma {:induction false} FindWord(ws': seq<Word>, w: Word, ws: seq<Word>) returns (i: nat)
    requires multiset(ws) == multiset(ws') && w in ws
    ensures i < |ws'| && ws'[i] == w
  {
    assert w in multiset(ws');
    i :| 0 <= i < |ws'| && ws'[i] == w;
  }

  lemma {:induction false} ChecksumPermuted(bytes: seq<Byte>, bytes': seq<Byte>)
    requires multiset(Words(bytes)) == multiset(Words(bytes'))
    ensures Sum(Words(bytes)) == Sum(Words(bytes'))
    ensures Checksum(bytes) == Checksum(bytes')
  {
    SumPermuted(Words(bytes), Words(bytes'));
  }

  /** The loop over the buffer. */
  method InCksum(buf: array<Byte>, len: nat) returns (c: Word)
    requires len <= buf.Length
    ensures c == Checksum(buf[..len])
  {
    var sum, i := 0, 0;
    ghost var bytes := buf[..len];
    assert bytes[0..] == bytes;
    while len - i > 1
      invariant 0 <= i <= len && 0 <= sum
      invariant sum + Sum(Words(bytes[i..])) == Sum(Words(bytes))
    {
      sum := sum + WordOf(buf[i], buf[i + 1]);
      i := i + 2;
    }
    if i < len {
      sum := sum + buf[i];
    } else {
      assert bytes[i..] == [];
    }
    c := FoldTwice(sum);
  }

  /** The folding after the loop. */
  method FoldTwice(total: nat) returns (c: Word)
    ensures c == Finish(total)
  {
    var sum := total;
    sum := sum / 0x10000 + sum % 0x10000;
    sum := sum + sum / 0x10000;
    c := 0xffff - sum % 0x10000;
  }

  // ------------------------------------------------------------------ rewriting a header

  /** The sum of the words from `k` on, where the buffers differ in the word `m` words further. */
  lemma {:induction false} SumFromStore(bytes: seq<Byte>, bytes': seq<Byte>, k: nat, m: nat)
    requires |bytes| == |bytes'| && k + 2 * m + 1 < |bytes|
    requires forall x :: 0 <= x < |bytes| && x != k + 2 * m && x != k + 2 * m + 1 ==> bytes[x] == bytes'[x]
    ensures var i := k + 2 * m;
      Sum(Words(bytes[k..])) + WordOf(bytes'[i], bytes'[i + 1])
        == Sum(Words(bytes'[k..])) + WordOf(bytes[i], bytes[i + 1])
    decreases m
  {
    if m == 0 {
      assert bytes[k + 2..] == bytes'[k + 2..];
    } else {
      SumFromStore(bytes, bytes', k + 2, m - 1);
    }
  }

  /** Replacing the word at an even offset changes the sum by the difference. */
  lemma {:induction false} SumStore(bytes: seq<Byte>, bytes': seq<Byte>, i: nat)
    requires i % 2 == 0 && i + 1 < |bytes| == |bytes'|
    requires forall x :: 0 <= x < |bytes| && x != i && x != i + 1 ==> bytes[x] == bytes'[x]
    ensures Sum(Words(bytes)) + WordOf(bytes'[i], bytes'[i + 1]) == Sum(Words(bytes')) + WordOf(bytes[i], bytes[i + 1])
  {
    assert bytes[0..] == bytes && bytes'[0..] == bytes';
    SumFromStore(bytes, bytes', 0, i / 2);
  }

  /** A header with the complement of its sum in a field that was zero sums up to all ones. */
  lemma {:induction false} StoredIsZero(zeroed: seq<Byte>, stored: seq<Byte>, i: nat)
    requires i % 2 == 0 && i + 1 < |zeroed| == |stored| <= 131072
    requires forall x :: 0 <= x < |zeroed| && x != i && x != i + 1 ==> zeroed[x] == stored[x]
    requires zeroed[i] == 0 && zeroed[i + 1] == 0 && WordOf(stored[i], stored[i + 1]) == Checksum(zeroed)
    ensures Checksum(stored) == 0
  {
    SumStore(zeroed, stored, i);
    ShortBuffers(zeroed);
    ShortBuffers(stored);
    ChecksumIsComplement(zeroed);
    ChecksumIsComplement(stored);
    OnesSumIs(Words(zeroed));
    OnesSumIs(Words(stored));
    var s := Sum(Words(zeroed));
    var k := RepresentativeOf(s);
    RepresentativeUnique(Sum(Words(stored)), 0xffff, k);
  }

  /** The header length in bytes: four times the low half of the first byte. */
  function HeaderLength(first: Byte): nat { first % 16 * 4 }

  const SUM_AT: nat := 10
  const SRC_AT: nat := 12
  const DST_AT: nat := 16

  /** The first `len` bytes hold a valid checksum. */
  predicate ChecksOut(packet: array<Byte>, len: int)
    reads packet
  {
    0 <= len <= packet.Length && Checksum(packet[..len]) == 0
  }

  /** Zeroing the checksum field, computing the checksum and storing it: afterwards the header
      checks out (section 3.1 of RFC 791).  The low half of the first byte is the header's length in
      words of four bytes; a header that claims to be too short to hold its checksum does not. */
  method Recalculate(packet: array<Byte>)
    requires 20 <= packet.Length && 4 * (packet[0] % 16) <= packet.Length
    modifies packet
    ensures forall i :: 0 <= i < packet.Length && i != 10 && i != 11 ==> packet[i] == old(packet[i])
    ensures packet[0] % 16 >= 3 ==> ChecksOut(packet, 4 * (packet[0] % 16))
  {
    packet[SUM_AT], packet[SUM_AT + 1] := 0, 0;
    var len := HeaderLength(packet[0]);
    ghost var zeroed := packet[..];
    assert zeroed[..len] == packet[..len];
    var c := InCksum(packet, len);
    packet[SUM_AT], packet[SUM_AT + 1] := c % 256, c / 256;
    if len > SUM_AT {
      HeaderStored(zeroed, packet[..], len, c);
    }
    assert packet[..][..len] == packet[..len];
  }

  lemma {:induction false} HeaderStored(zeroed: seq<Byte>, stored: seq<Byte>, len: nat, c: Word)
    requires 11 < len <= |zeroed| && len <= 60
    requires c == Checksum(zeroed[..len]) && zeroed[10] == 0 && zeroed[11] == 0
    requires stored == zeroed[10 := c % 256][11 := c / 256]
    ensures Checksum(stored[..len]) == 0
  {
    StoredIsZero(zeroed[..len], stored[..len], 10);
  }

  method StoreAddress(packet: array<Byte>, at: nat, address: seq<Byte>)
    requires |address| == 4 && at + 4 <= packet.Length
    modifies packet
    ensures forall i :: 0 <= i < 4 ==> packet[at + i] == address[i]
    ensures forall i :: 0 <= i < packet.Length && !(at <= i < at + 4) ==> packet[i] == old(packet[i])
  {
    packet[at], packet[at + 1], packet[at + 2], packet[at + 3] := address[0], address[1], address[2], address[3];
  }

  /** The first byte of a version 4 packet is 64 and the number of words in the header. */
  lemma {:induction false} Version4(first: Byte)
    ensures 64 + 5 <= first < 64 + 16 ==> first % 16 >= 3 && 4 * (first % 16) == 4 * (first - 64)
  {
  }

  /** Rewriting the source address, at 12, or the destination address, at 16, of a packet and bringing
      its checksum up to date.  Of a version 4 packet, whose first byte is 64 and the number of words in
      the header, that many words sum up to all ones afterwards. */
  method RewriteAddress(packet: array<Byte>, at: nat, address: seq<Byte>)
    requires |address| == 4 && (at == 12 || at == 16)
    requires 20 <= packet.Length && 4 * (packet[0] % 16) <= packet.Length
    modifies packet
    ensures forall i :: 0 <= i < 4 ==> packet[at + i] == address[i]
    ensures forall i :: 0 <= i < packet.Length && i != 10 && i != 11 && !(at <= i < at + 4) ==>
      packet[i] == old(packet[i])
    ensures packet[0] % 16 >= 3 ==> ChecksOut(packet, 4 * (packet[0] % 16))
    ensures 64 + 5 <= packet[0] < 64 + 16 ==> ChecksOut(packet, 4 * (packet[0] - 64))
  {
    Version4(packet[0]);
    StoreAddress(packet, at, address);
    Recalculate(packet);
  }

  /** The two rewrites of a packet in transit. */
  method RewriteSource(packet: array<Byte>, address: seq<Byte>)
    requires |address| == 4 && 20 <= packet.Length && 4 * (packet[0] % 16) <= packet.Length
    modifies packet
    ensures packet[12..16] == address && packet[16..] == old(packet[16..]) && packet[..10] == old(packet[..10])
    ensures 64 + 5 <= packet[0] < 64 + 16 ==> ChecksOut(packet, 4 * (packet[0] - 64))
  {
    RewriteAddress(packet, SRC_AT, address);
  }

  method RewriteDestination(packet: array<Byte>, address: seq<Byte>)
    requires |address| == 4 && 20 <= packet.Length && 4 * (packet[0] % 16) <= packet.Length
    modifies packet
    ensures packet[16..20] == address && packet[20..] == old(packet[20..])
    ensures packet[..10] == old(packet[..10]) && packet[12..16] == old(packet[12..16])
    ensures 64 + 5 <= packet[0] < 64 + 16 ==> ChecksOut(packet, 4 * (packet[0] - 64))
  {
    RewriteAddress(packet, DST_AT, address);
  }
}

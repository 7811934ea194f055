/** The bounded LEB128 decoder of the frame-replay code, against the grammar of section 5.2.2 of the
    WebAssembly Core Specification 1.0. */
module Leb128 {
  import opened Basics

  type Byte = b: int | 0 <= b < 256

  // ------------------------------------------------------------------ bits of natural numbers

  function Pow2(k: nat): (r: nat)
    ensures r > 0
  {
    if k == 0 then 1 else 2 * Pow2(k - 1)
  }

  lemma {:induction false} Pow2Add(i: nat, j: nat)
    ensures Pow2(i + j) == Pow2(i) * Pow2(j)
  {
    if j == 0 {
    } else {
      Pow2Add(i, j - 1);
      calc {
        Pow2(i + j);
        2 * Pow2(i + (j - 1));
        2 * (Pow2(i) * Pow2(j - 1));
        Pow2(i) * (2 * Pow2(j - 1));
      }
    }
  }

  lemma {:induction false} Pow2Monotone(i: nat, j: nat)
    requires i <= j
    ensures Pow2(i) <= Pow2(j)
    decreases j
  {
    if i < j {
      Pow2Monotone(i, j - 1);
    }
  }

  /** Bitwise OR. */
  function Or(a: nat, b: nat): nat {
    if a == 0 && b == 0 then 0
    else 2 * Or(a / 2, b / 2) + (if a % 2 == 1 || b % 2 == 1 then 1 else 0)
  }

  lemma {:induction false} OrZero(b: nat)
    ensures Or(0, b) == b
  {
    if b == 0 {
    } else {
      OrZero(b / 2);
    }
  }

  /** OR adds when the bits of one operand lie above those of the other. */
  lemma {:induction false} OrDisjoint(a: nat, m: nat, k: nat)
    requires a < Pow2(k)
    ensures Or(a, m * Pow2(k)) == a + m * Pow2(k)
  {
    var b := m * Pow2(k);
    if k == 0 {
      OrZero(b);
    } else {
      var half := m * Pow2(k - 1);
      assert b == 2 * half;
      OrDisjoint(a / 2, m, k - 1);
      if a == 0 && b == 0 {
      } else {
        assert Or(a, b) == 2 * Or(a / 2, half) + (if a % 2 == 1 then 1 else 0);
      }
    }
  }

  // ------------------------------------------------------------------ the grammar

  /** The three ways the decoder is used. */
  datatype Width = U32 | S32 | S64
  {
    function Bits(): nat { if S64? then 64 else 32 }
    predicate Signed() { !U32? }
  }

  datatype Decoded = Decoded(value: int, used: nat)

  /** The value of a last byte in `bits` bits. */
  function LastByte(bits: nat, signed: bool, n: Byte): Option<int>
    requires bits > 0
  {
    if !signed then (if n < Pow2(bits) then Some(n) else None)
    else if n < 64 && n < Pow2(bits - 1) then Some(n)
    else if n >= 64 && n >= 128 - Pow2(bits - 1) then Some(n - 128)
    else None
  }

  /** The productions uN and sN: the number at the front of the bytes. */
  function Grammar(bits: nat, signed: bool, bytes: seq<Byte>): Option<Decoded>
    requires bits > 0
    decreases |bytes|
  {
    if bytes == [] then None
    else if bytes[0] < 128 then
      match LastByte(bits, signed, bytes[0])
      case None => None
      case Some(v) => Some(Decoded(v, 1))
    else if bits <= 7 then None
    else Lift(1, bytes[0] - 128, Grammar(bits - 7, signed, bytes[1..]))
  }

  /** `k` bytes holding the low bits `low` in front of a number. */
  function Lift(k: nat, low: int, d: Option<Decoded>): Option<Decoded> {
    match d
    case None => None
    case Some(Decoded(v, used)) => Some(Decoded(low + v * Pow2(7 * k), used + k))
  }

  lemma {:induction false} LiftTwice(k: nat, low: int, next: int, d: Option<Decoded>)
    ensures Lift(k, low, Lift(1, next, d)) == Lift(k + 1, low + next * Pow2(7 * k), d)
  {
    if d.Some? {
      var v, p := d.value.value, Pow2(7 * k);
      Pow2Add(7, 7 * k);
      assert Pow2(7) == 128;
      assert (next + v * 128) * p == next * p + v * (128 * p);
    }
  }

  // ------------------------------------------------------------------ range and casts

  predicate InRange(bits: nat, signed: bool, v: int)
    requires bits > 0
  {
    if signed then -(Pow2(bits - 1) as int) <= v < Pow2(bits - 1) else 0 <= v < Pow2(bits)
  }

  /** The cast of a 64-bit result to the width asked for. */
  function Cast(bits: nat, signed: bool, r: int): int
    requires bits > 0
  {
    var low := r % Pow2(bits);
    if signed && low >= Pow2(bits - 1) then low - Pow2(bits) else low
  }

  lemma {:induction false} ModShift(x: int, q: int, m: int)
    requires m > 0
    ensures (x + q * m) % m == x % m
    decreases if q < 0 then -q else q
  {
    if q > 0 {
      ModShift(x, q - 1, m);
      ModStep(x + (q - 1) * m, m);
      assert x + q * m == x + (q - 1) * m + m;
    } else if q < 0 {
      ModShift(x, q + 1, m);
      ModStep(x + q * m, m);
      assert x + q * m + m == x + (q + 1) * m;
    }
  }

  lemma {:induction false} ModStep(x: int, m: int)
    requires m > 0
    ensures (x + m) % m == x % m
  {
    var q, r := x / m, x % m;
    assert x == q * m + r;
    assert x + m == (q + 1) * m + r;
    ModOf(q + 1, r, m);
  }

  /** Two numbers that differ by a multiple of 2^bits have the same cast; a number in range is its
      own cast. */
  lemma {:induction false} CastUnique(bits: nat, signed: bool, v: int, q: int, r: int)
    requires bits > 0 && InRange(bits, signed, v) && r == v + q * Pow2(bits)
    ensures Cast(bits, signed, r) == v
  {
    var m := Pow2(bits);
    ModShift(v, q, m);
    if v < 0 {
      ModOf(-1, v + m, m);
    } else {
      ModOf(0, v, m);
    }
  }

  /** The grammar only yields numbers of the width. */
  lemma {:induction false} GrammarInRange(bits: nat, signed: bool, bytes: seq<Byte>)
    requires bits > 0 && Grammar(bits, signed, bytes).Some?
    ensures InRange(bits, signed, Grammar(bits, signed, bytes).value.value)
    decreases bits
  {
    if bytes[0] >= 128 {
      GrammarInRange(bits - 7, signed, bytes[1..]);
      RangeStep(bits, signed, Grammar(bits - 7, signed, bytes[1..]).value.value, bytes[0] - 128);
      assert Pow2(7 * 1) == 128;
    }
  }

  lemma {:induction false} RangeStep(bits: nat, signed: bool, v: int, low: nat)
    requires bits > 7 && InRange(bits - 7, signed, v) && low < 128
    ensures InRange(bits, signed, low + v * 128)
  {
    Pow2Add(7, bits - 7);
    Pow2Add(7, bits - 8);
    assert Pow2(7) == 128;
  }

  // ------------------------------------------------------------------ how many bytes

  /** The bytes that belong to one number: up to the first one below 128. */
  ghost predicate Spans(bytes: seq<Byte>, n: nat) {
    0 < n <= |bytes| && bytes[n - 1] < 128 && forall i :: 0 <= i < n - 1 ==> bytes[i] >= 128
  }

  lemma {:induction false} GrammarSpans(bits: nat, signed: bool, bytes: seq<Byte>)
    requires bits > 0 && Grammar(bits, signed, bytes).Some?
    ensures Spans(bytes, Grammar(bits, signed, bytes).value.used)
    decreases bits
  {
    if bytes[0] >= 128 {
      GrammarSpans(bits - 7, signed, bytes[1..]);
      var n := Grammar(bits - 7, signed, bytes[1..]).value.used;
      assert forall i :: 0 < i < n + 1 ==> bytes[i] == bytes[1..][i - 1];
    }
  }

  lemma {:induction false} SpansUnique(bytes: seq<Byte>, n: nat, m: nat)
    requires Spans(bytes, n) && Spans(bytes, m)
    ensures n == m
  {
  }

  /** Skipping a number without decoding it; the caller vouches that it ends inside the buffer. */
  method SkipLeb(buf: seq<Byte>, pos: nat) returns (pos': nat)
    requires pos <= |buf| && exists n :: Spans(buf[pos..], n)
    ensures pos < pos' <= |buf| && Spans(buf[pos..], pos' - pos)
  {
    ghost var n :| Spans(buf[pos..], n);
    pos' := pos;
    while buf[pos'] >= 128
      invariant pos <= pos' < pos + n
      invariant forall i :: 0 <= i < pos' - pos ==> buf[pos..][i] >= 128
      decreases pos + n - pos'
    {
      assert buf[pos'] == buf[pos..][pos' - pos];
      pos' := pos' + 1;
    }
    assert buf[pos'] == buf[pos..][pos' - pos];
    pos' := pos' + 1;
  }

  // ------------------------------------------------------------------ the decoder

  /** What reading `k` continuation bytes has established. */
  ghost predicate Reading(w: Width, bytes: seq<Byte>, k: nat, result: nat) {
    && k <= |bytes| && 7 * k < w.Bits() + 7
    && result < Pow2(7 * k)
    && Grammar(w.Bits(), w.Signed(), bytes) == Rest(w.Bits() - 7 * k, w.Signed(), bytes, k, result)
  }

  /** The number, given `k` groups of it and `bits` bits to go. */
  function Rest(bits: int, signed: bool, bytes: seq<Byte>, k: nat, low: nat): Option<Decoded>
    requires k <= |bytes|
  {
    if bits > 0 then Lift(k, low, Grammar(bits, signed, bytes[k..])) else None
  }

  lemma {:induction false} RestGoesOn(bits: int, signed: bool, bytes: seq<Byte>, k: nat, low: nat)
    requires bits > 0 && k < |bytes| && bytes[k] >= 128
    ensures Rest(bits, signed, bytes, k, low)
      == Rest(bits - 7, signed, bytes, k + 1, low + (bytes[k] - 128) * Pow2(7 * k))
  {
    if bits > 7 {
      LiftTwice(k, low, bytes[k] - 128, Grammar(bits - 7, signed, bytes[k + 1..]));
    }
  }

  lemma {:induction false} NextBelow(k: nat, result: nat, n: nat)
    requires result < Pow2(7 * k) && n < 128
    ensures Pow2(7 * (k + 1)) == 128 * Pow2(7 * k)
    ensures 0 <= result + n * Pow2(7 * k) < Pow2(7 * (k + 1))
  {
    Pow2Add(7, 7 * k);
    assert Pow2(7) == 128;
    BelowGroup(Pow2(7 * k), result, n);
  }

  lemma {:induction false} BelowGroup(p: nat, result: nat, n: nat)
    requires result < p && n < 128
    ensures 0 <= result + n * p < 128 * p
  {
    assert 0 <= n * p <= 127 * p;
  }

  /** The seven bits of a byte above the `k` groups read so far, as far as they fit in the word. */
  function Placed(result: nat, n: Byte, k: nat, word: nat): nat
    requires 7 * k <= word
  {
    result + n % 128 % Pow2(word - 7 * k) * Pow2(7 * k)
  }

  /** OR-ing the seven bits of a byte into the result, shifted in a word of `word` bits. */
  method OrGroup(result: nat, n: Byte, ghost k: nat, shift: nat, word: nat) returns (r: nat)
    requires shift == 7 * k <= word && result < Pow2(7 * k)
    ensures r == Placed(result, n, k, word)
  {
    r := Or(result, n % 128 * Pow2(shift) % Pow2(word));
    ShiftInWord(n % 128, shift, word);
    OrDisjoint(result, n % 128 % Pow2(word - shift), shift);
  }

  /** OR-ing ones into all positions of the word from `shift` on. */
  method ExtendSign(result: nat, shift: nat, word: nat) returns (r: nat)
    requires shift < word && result < Pow2(shift)
    ensures r == result + Pow2(word) - Pow2(shift)
  {
    r := Or(result, (Pow2(word) - 1) * Pow2(shift) % Pow2(word));
    ghost var c := Pow2(word - shift);
    Pow2Add(word - shift, shift);
    OnesAbove(c, Pow2(shift));
    OrDisjoint(result, c - 1, shift);
  }

  lemma {:induction false} ShiftInWord(n: nat, shift: nat, word: nat)
    requires shift <= word
    ensures n * Pow2(shift) % Pow2(word) == n % Pow2(word - shift) * Pow2(shift)
  {
    Pow2Add(word - shift, shift);
    MulMod(n, Pow2(shift), Pow2(word - shift));
  }

  lemma {:induction false} MulMod(n: nat, p: nat, m: nat)
    requires p > 0 && m > 0
    ensures n * p % (m * p) == n % m * p
  {
    var q, r := n / m, n % m;
    assert n == q * m + r;
    assert n * p == q * (m * p) + r * p;
    ModOf(q, r * p, m * p);
  }

  lemma {:induction false} PlacedWhole(result: nat, n: Byte, k: nat, word: nat)
    requires 7 * k + 7 <= word
    ensures Placed(result, n, k, word) == result + n % 128 * Pow2(7 * k)
  {
    Pow2Monotone(7, word - 7 * k);
    assert Pow2(7) == 128;
    ModOf(0, n % 128, Pow2(word - 7 * k));
  }

  /** The check after the loop, on the last byte. */
  predicate LastByteOk(w: Width, shift: nat, n: Byte) {
    if shift < w.Bits() then true
    else match w
      case U32 => n / 16 == 0
      case S32 => if n / 8 % 2 == 1 then n / 16 == 7 else n / 16 == 0
      case S64 => if n % 2 == 1 then n / 2 == 63 else n / 2 == 0
  }

  /** What a last byte loses when its sign bit counts. */
  function SignPart(signed: bool, n: Byte): nat {
    if signed && n >= 64 then 128 else 0
  }

  /** The value of a number whose last byte comes after `k` groups with the bits `low`. */
  function Ended(low: nat, n: Byte, sign: nat, k: nat): int { low + (n - sign) * Pow2(7 * k) }

  /** The check after the loop accepts exactly the last bytes of the grammar. */
  lemma {:induction false} LastByteExact(w: Width, k: nat, n: Byte)
    requires 7 * k < w.Bits() && n < 128
    ensures LastByteOk(w, 7 * k + 7, n) <==> LastByte(w.Bits() - 7 * k, w.Signed(), n).Some?
    ensures LastByteOk(w, 7 * k + 7, n) ==>
      LastByte(w.Bits() - 7 * k, w.Signed(), n).value == n - SignPart(w.Signed(), n)
  {
    var bits := w.Bits() - 7 * k;
    if 7 * k + 7 < w.Bits() {
      Pow2Monotone(7, bits - 1);
      Pow2Monotone(7, bits);
      assert Pow2(7) == 128;
    } else {
      assert bits == 4 || bits == 1;
      assert Pow2(4) == 16 && Pow2(3) == 8 && Pow2(0) == 1;
    }
  }

  /** The grammar's value when the number ends at byte `k`. */
  lemma {:induction false} Ending(w: Width, bytes: seq<Byte>, k: nat, result: nat)
    requires Reading(w, bytes, k, result) && 7 * k < w.Bits() && k < |bytes| && bytes[k] < 128
    ensures var n := bytes[k];
      Grammar(w.Bits(), w.Signed(), bytes) ==
        if LastByteOk(w, 7 * k + 7, n)
        then Some(Decoded(Ended(result, n, SignPart(w.Signed(), n), k), k + 1))
        else None
  {
    assert bytes[k..][0] == bytes[k];
    LastByteExact(w, k, bytes[k]);
  }

  /** A negative number that is shorter than its width: the sign extension adds a multiple of 2^bits
      to it. */
  lemma {:induction false} ExtendedMultiple(bits: nat, k: nat, low: nat, n: Byte, word: nat)
    requires low < Pow2(7 * k) && 7 * k + 7 < bits <= word && n < 128
    ensures Placed(low, n, k, word) < Pow2(7 * k + 7)
    ensures Placed(low, n, k, word) + Pow2(word) - Pow2(7 * k + 7)
      == Ended(low, n, 128, k) + Pow2(word - bits) * Pow2(bits)
  {
    PlacedWhole(low, n, k, word);
    assert n % 128 == n;
    NextBelow(k, low, n);
    Distribute(n, Pow2(7 * k));
    Pow2Add(word - bits, bits);
  }

  /** A short number that is not negative is there as it is. */
  lemma {:induction false} ShortIs(k: nat, low: nat, n: Byte, word: nat)
    requires 7 * k + 7 <= word && n < 128
    ensures Placed(low, n, k, word) == Ended(low, n, 0, k)
  {
    PlacedWhole(low, n, k, word);
    assert n % 128 == n - 0;
  }

  lemma {:induction false} Distribute(n: int, p: int)
    ensures (n - 128) * p == n * p - 128 * p
  {
  }

  /** A number whose last byte reaches its width: what the word drops is a multiple of 2^bits, and
      so is the sign bit that is not extended. */
  lemma {:induction false} LongMultiple(bits: nat, k: nat, low: nat, n: Byte, sign: nat, word: nat) returns (q: int)
    requires 7 * k < bits <= word && bits <= 7 * k + 7 && n < 128 && (sign == 0 || sign == 128)
    ensures Placed(low, n, k, word) == Ended(low, n, sign, k) + q * Pow2(bits)
  {
    q := LastGroupMultiple(bits, k, n, sign, word);
    assert n % 128 == n;
  }

  lemma {:induction false} LastGroupMultiple(bits: nat, k: nat, n: nat, sign: nat, word: nat) returns (q: int)
    requires 7 * k < bits <= word && bits <= 7 * k + 7 && (sign == 0 || sign == 128)
    ensures n % Pow2(word - 7 * k) * Pow2(7 * k) == (n - sign) * Pow2(7 * k) + q * Pow2(bits)
  {
    var p, high, c := Pow2(7 * k), Pow2(word - 7 * k), Pow2(word - bits);
    Pow2Add(word - 7 * k, 7 * k);
    Pow2Add(word - bits, bits);
    var e := SignIsMultiple(bits, k, sign);
    LastGroupDifference(p, n, sign, high, Pow2(bits), c, e);
    q := e - n / high * c;
  }

  lemma {:induction false} SignIsMultiple(bits: nat, k: nat, sign: nat) returns (e: nat)
    requires 0 < bits <= 7 * k + 7 && (sign == 0 || sign == 128)
    ensures sign * Pow2(7 * k) == e * Pow2(bits)
  {
    if sign == 0 {
      e := 0;
    } else {
      Pow2Add(7, 7 * k);
      Pow2Add(7 * k + 7 - bits, bits);
      assert Pow2(7) == 128;
      e := Pow2(7 * k + 7 - bits);
    }
  }

  lemma {:induction false} LastGroupDifference(p: int, n: int, sign: int, high: int, m: int, c: int, e: int)
    requires high > 0 && high * p == c * m && sign * p == e * m
    ensures n % high * p == (n - sign) * p + (e - n / high * c) * m
  {
    var d, r := n / high, n % high;
    assert n == d * high + r;
    assert n * p == d * (high * p) + r * p;
    assert d * (c * m) == (d * c) * m;
    assert (n - sign) * p == n * p - sign * p;
    assert (e - d * c) * m == e * m - (d * c) * m;
  }

  lemma {:induction false} OnesAbove(c: nat, p: nat)
    requires c > 0 && p > 0
    ensures (c * p - 1) * p % (c * p) == (c - 1) * p == c * p - p
  {
    var m := c * p;
    assert (c - 1) * p == m - p;
    assert (m - 1) * p == m * p - p;
    assert (p - 1) * m == m * p - m;
    assert 0 <= (c - 1) * p;
    ModOf(p - 1, m - p, m);
  }

  /** Reading on after a continuation byte; past the width, nothing can be accepted any more. */
  lemma {:induction false} ReadOn(w: Width, bytes: seq<Byte>, k: nat, result: nat, word: nat)
    requires Reading(w, bytes, k, result) && 7 * k < w.Bits() <= word && k < |bytes| && bytes[k] >= 128
    ensures Reading(w, bytes, k + 1, Placed(result, bytes[k], k, word))
  {
    PlacedBelow(result, bytes[k], k, word);
    RestPlaced(w.Bits() - 7 * k, w.Signed(), bytes, k, result, word);
  }

  lemma {:induction false} RestPlaced(bits: nat, signed: bool, bytes: seq<Byte>, k: nat, low: nat, word: nat)
    requires 0 < bits <= word - 7 * k && k < |bytes| && bytes[k] >= 128
    ensures Rest(bits, signed, bytes, k, low) == Rest(bits - 7, signed, bytes, k + 1, Placed(low, bytes[k], k, word))
  {
    RestGoesOn(bits, signed, bytes, k, low);
    if bits > 7 {
      PlacedWhole(low, bytes[k], k, word);
      assert bytes[k] % 128 == bytes[k] - 128;
    }
  }

  lemma {:induction false} PlacedBelow(result: nat, n: Byte, k: nat, word: nat)
    requires result < Pow2(7 * k) && 7 * k <= word
    ensures Placed(result, n, k, word) < Pow2(7 * (k + 1))
  {
    ModBelow(n % 128, Pow2(word - 7 * k));
    NextBelow(k, result, n % 128 % Pow2(word - 7 * k));
  }

  lemma {:induction false} ModBelow(n: nat, m: nat)
    requires m > 0
    ensures 0 <= n % m <= n
  {
    if n < m {
      ModOf(0, n, m);
    }
  }

  /** The check and the sign extension after the loop, for a number that ends at byte `k`. */
  method Finish(w: Width, ghost bytes: seq<Byte>, ghost k: nat, ghost low: nat, shift: nat, byte: Byte, r: nat,
                word: nat)
      returns (ok: bool, result: nat)
    requires Reading(w, bytes, k, low) && k < |bytes| && bytes[k] == byte < 128
    requires 7 * k < w.Bits() <= word && shift == 7 * k + 7 && r == Placed(low, byte, k, word)
    ensures match Grammar(w.Bits(), w.Signed(), bytes)
      case Some(d) => ok && d.used == k + 1 && Cast(w.Bits(), w.Signed(), result) == d.value
      case None => !ok
  {
    Ending(w, bytes, k, low);
    ok, result := LastByteOk(w, shift, byte), r;
    if ok {
      GrammarInRange(w.Bits(), w.Signed(), bytes);
      ghost var q;
      result, q := Extend(w.Bits(), w.Signed(), k, low, shift, byte, r, word);
      CastUnique(w.Bits(), w.Signed(), Ended(low, byte, SignPart(w.Signed(), byte), k), q, result);
    }
  }

  /** The sign extension: the result differs from the number by a multiple of 2^bits. */
  method Extend(bits: nat, signed: bool, ghost k: nat, ghost low: nat, shift: nat, byte: Byte, r: nat, word: nat)
      returns (result: nat, ghost q: int)
    requires 7 * k < bits <= word && shift == 7 * k + 7 && low < Pow2(7 * k)
    requires byte < 128 && r == Placed(low, byte, k, word)
    ensures result == Ended(low, byte, SignPart(signed, byte), k) + q * Pow2(bits)
  {
    result := r;
    if shift >= bits {
      q := LongMultiple(bits, k, low, byte, SignPart(signed, byte), word);
    } else if signed && byte / 64 % 2 == 1 {
      ExtendedMultiple(bits, k, low, byte, word);
      result := ExtendSign(r, shift, word);
      q := Pow2(word - bits);
    } else {
      ShortIs(k, low, byte, word);
      q := 0;
    }
  }

  /** The decoder with an accumulator of `word` bits. */
  method ReadInWord(buf: seq<Byte>, pos: nat, w: Width, previous: nat, word: nat)
      returns (ok: bool, pos': nat, result: nat)
    requires pos <= |buf| && w.Bits() <= word
    ensures match Grammar(w.Bits(), w.Signed(), buf[pos..])
      case Some(d) => ok && pos' == pos + d.used && Cast(w.Bits(), w.Signed(), result) == d.value
      case None => !ok && pos' == pos && result == previous
  {
    var offset, bcnt, shift, r := 0, 0, 0, 0;
    var byte: Byte := 0;
    ghost var bytes, low := buf[pos..], 0;
    while true
      invariant offset == bcnt && shift == 7 * bcnt
      invariant Reading(w, bytes, bcnt, r)
      decreases |bytes| - bcnt
    {
      if bcnt + 1 > (w.Bits() + 6) / 7 {
        return false, pos, previous;
      }
      if pos + offset + 1 > |buf| {
        return false, pos, previous;
      }
      byte := buf[pos + offset];
      assert byte == bytes[bcnt];
      low := r;
      r := OrGroup(r, byte, bcnt, shift, word);
      if byte >= 128 {
        ReadOn(w, bytes, bcnt, low, word);
      }
      offset, bcnt, shift := offset + 1, bcnt + 1, shift + 7;
      if byte < 128 {
        break;
      }
    }
    ok, result := Finish(w, bytes, bcnt - 1, low, shift, byte, r, word);
    if ok {
      pos' := pos + offset;
    } else {
      pos', result := pos, previous;
    }
  }

  /** Reads one number at `pos`.  It succeeds exactly on the encodings of the grammar, the 64-bit
      result cast to its width is the encoded number, and on failure position and result are as
      before. */
  method ReadLeb(buf: seq<Byte>, pos: nat, w: Width, previous: nat) returns (ok: bool, pos': nat, result: nat)
    requires pos <= |buf|
    ensures match Grammar(w.Bits(), w.Signed(), buf[pos..])
      case Some(d) => ok && pos' == pos + d.used && Cast(w.Bits(), w.Signed(), result) == d.value
      case None => !ok && pos' == pos && result == previous
  {
    ok, pos', result := ReadInWord(buf, pos, w, previous, 64);
  }

  /** A number that can be read is skipped to the same position. */
  lemma {:induction false} SkipAgreesWithRead(w: Width, bytes: seq<Byte>, skipped: nat)
    requires Grammar(w.Bits(), w.Signed(), bytes).Some? && Spans(bytes, skipped)
    ensures skipped == Grammar(w.Bits(), w.Signed(), bytes).value.used
  {
    GrammarSpans(w.Bits(), w.Signed(), bytes);
    SpansUnique(bytes, skipped, Grammar(w.Bits(), w.Signed(), bytes).value.used);
  }
}

/** A stream of bits as a decoder sees it, and the descriptors u(n), ue(v) and se(v) of
    Rec. ITU-T H.264 (08/2021), sections 7.2, 9.1 and 9.1.1: how they are read, and how a value is laid out. */
module BitStream {
  import opened Words

  datatype Stream = End | Next(bit: bool, rest: Stream)

  datatype Read<+T> = Fail | Got(value: T, rest: Stream) {
    predicate IsFailure() { Fail? }

    function PropagateFailure<U>(): Read<U>
      requires Fail?
    {
      Fail
    }

    function Extract(): (T, Stream)
      requires Got?
    {
      (value, rest)
    }
  }

  /** The bits from index i on, followed by `tail`. */
  function Feed(bits: Bits, i: nat, tail: Stream): Stream
    decreases |bits| - i
  {
    if i >= |bits| then tail else Next(bits[i], Feed(bits, i + 1, tail))
  }

  predicate AllZero(s: Stream) {
    match s
    case End => true
    case Next(b, rest) => !b && AllZero(rest)
  }

  /** more_rbsp_data(): what is left is not just the stop bit and its alignment zeros. */
  predicate MoreRbspData(s: Stream) {
    !(s.Next? && s.bit && AllZero(s.rest))
  }

  /** The last bit of the stream is there and set. */
  predicate EndsInOne(s: Stream) {
    s.Next? && if s.rest.End? then s.bit else EndsInOne(s.rest)
  }

  // ----- reading

  function ReadBits(s: Stream, n: nat, acc: nat): Read<nat>
    decreases n, s, acc
  {
    if n == 0 then Got(acc, s)
    else match s
      case End => Fail
      case Next(b, rest) => ReadBits(rest, n - 1, 2 * acc + if b then 1 else 0)
  }

  /** u(n) */
  function ReadU(s: Stream, n: nat): Read<nat> {
    ReadBits(s, n, 0)
  }

  /** ue(v): 2^leadingZeroBits - 1 + read_bits(leadingZeroBits) */
  function ReadUeAfter(s: Stream, leadingZeroBits: nat): Read<nat>
    decreases s
  {
    match s
    case End => Fail
    case Next(false, rest) => ReadUeAfter(rest, leadingZeroBits + 1)
    case Next(true, rest) =>
      var (info, rest') :- ReadBits(rest, leadingZeroBits, 0);
      Got(Pow2(leadingZeroBits) - 1 + info, rest')
  }

  function ReadUe(s: Stream): Read<nat> {
    ReadUeAfter(s, 0)
  }

  /** se(v): codeNum k stands for (-1)^(k+1) Ceil(k / 2) */
  function ReadSe(s: Stream): Read<int> {
    var (k, rest) :- ReadUe(s);
    Got(if k % 2 == 1 then (k + 1) / 2 else -(k / 2), rest)
  }

  // ----- laying out

  function PutBits(v: nat, n: nat, tail: Stream): Stream
    decreases n, v, tail
  {
    if n == 0 then tail else Next(Bit(v, n - 1), PutBits(v, n - 1, tail))
  }

  function PutZeros(n: nat, tail: Stream): Stream
    decreases n, tail
  {
    if n == 0 then tail else Next(false, PutZeros(n - 1, tail))
  }

  /** The number of binary digits of v. */
  function BitLength(v: nat): (n: nat)
    ensures v > 0 <==> n > 0
  {
    if v == 0 then 0 else 1 + BitLength(v / 2)
  }

  /** u(n) of a value that fits: reading it back gives the value. */
  function U(v: nat, n: nat, tail: Stream): (s: Stream)
    requires v < Pow2(n)
    ensures ReadU(s, n) == Got(v, tail)
  {
    ReadPutBits(v, n, tail);
    PutBits(v, n, tail)
  }

  /** ue(v): uniquely decodable whatever follows. */
  function Ue(v: nat, tail: Stream): (s: Stream)
    ensures ReadUe(s) == Got(v, tail)
  {
    ReadPutUe(v, 0, BitLength(v + 1) - 1, tail);
    PutZeros(BitLength(v + 1) - 1, PutBits(v + 1, BitLength(v + 1), tail))
  }

  /** se(v) */
  function Se(v: int, tail: Stream): (s: Stream)
    ensures ReadSe(s) == Got(v, tail)
  {
    Ue(if v <= 0 then -2 * v else 2 * v - 1, tail)
  }

  // ----- proofs

  lemma {:induction false} BitLengthBounds(v: nat)
    ensures v < Pow2(BitLength(v)) && (v > 0 ==> Pow2(BitLength(v) - 1) <= v)
  {
    if v > 0 {
      BitLengthBounds(v / 2);
    }
  }

  lemma {:induction false} ShrOfTop(v: nat, n: nat)
    requires n > 0
    ensures Shr(v, n - 1) == 2 * Shr(v, n) + if Bit(v, n - 1) then 1 else 0
    decreases n
  {
    if n > 1 {
      ShrOfTop(v / 2, n - 1);
    } else {
      assert Shr(v, 1) == Shr(v / 2, 0) == v / 2;
    }
  }

  lemma {:induction false} TailOfBits(v: nat, n: nat, tail: Stream)
    ensures AllZero(PutBits(v, n, tail)) ==> AllZero(tail)
    ensures EndsInOne(tail) ==> EndsInOne(PutBits(v, n, tail))
    decreases n
  {
    if n > 0 {
      TailOfBits(v, n - 1, tail);
    }
  }

  lemma {:induction false} TailOfZeros(n: nat, tail: Stream)
    ensures AllZero(PutZeros(n, tail)) ==> AllZero(tail)
    ensures EndsInOne(tail) ==> EndsInOne(PutZeros(n, tail))
    decreases n
  {
    if n > 0 {
      TailOfZeros(n - 1, tail);
    }
  }

  lemma TailOfUe(v: nat, tail: Stream)
    ensures AllZero(Ue(v, tail)) ==> AllZero(tail)
    ensures EndsInOne(tail) ==> EndsInOne(Ue(v, tail))
  {
    TailOfZeros(BitLength(v + 1) - 1, PutBits(v + 1, BitLength(v + 1), tail));
    TailOfBits(v + 1, BitLength(v + 1), tail);
  }

  lemma {:induction false} ReadPutBitsFrom(v: nat, n: nat, tail: Stream)
    ensures ReadBits(PutBits(v, n, tail), n, Shr(v, n)) == Got(v, tail)
    decreases n
  {
    if n > 0 {
      ShrOfTop(v, n);
      ReadPutBitsFrom(v, n - 1, tail);
    }
  }

  lemma ReadPutBits(v: nat, n: nat, tail: Stream)
    requires v < Pow2(n)
    ensures ReadU(PutBits(v, n, tail), n) == Got(v, tail)
  {
    ShrBelow(v, 0, n);
    ReadPutBitsFrom(v, n, tail);
  }

  lemma {:induction false} PutLowBits(v: nat, m: nat, n: nat, tail: Stream)
    requires n <= m
    ensures PutBits(v % Pow2(m), n, tail) == PutBits(v, n, tail)
    decreases n
  {
    if n > 0 {
      LowBitsKeep(v, m, n - 1);
      PutLowBits(v, m, n - 1, tail);
    }
  }

  /** A field of a value that need not fit is read modulo 2^n. */
  lemma ReadPutLowBits(v: nat, n: nat, tail: Stream)
    ensures ReadU(PutBits(v, n, tail), n) == Got(v % Pow2(n), tail)
  {
    PutLowBits(v, n, n, tail);
    ReadPutBits(v % Pow2(n), n, tail);
  }

  lemma {:induction false} TopBitSet(v: nat, n: nat)
    requires Pow2(n) <= v < Pow2(n + 1)
    ensures Bit(v, n)
    decreases n
  {
    if n > 0 {
      TopBitSet(v / 2, n - 1);
    }
  }

  lemma ReadUeDigits(v: nat, n: nat, tail: Stream)
    requires Pow2(n) <= v < Pow2(n + 1)
    ensures ReadUeAfter(PutBits(v, n + 1, tail), n) == Got(v - 1, tail)
  {
    TopBitSet(v, n);
    ModUnique(v, Pow2(n), 1, v - Pow2(n));
    ReadPutLowBits(v, n, tail);
    assert ReadBits(PutBits(v, n, tail), n, 0) == Got(v - Pow2(n), tail);
  }

  lemma {:induction false} ReadPutUe(v: nat, seen: nat, left: nat, tail: Stream)
    requires seen + left == BitLength(v + 1) - 1
    ensures ReadUeAfter(PutZeros(left, PutBits(v + 1, BitLength(v + 1), tail)), seen) == Got(v, tail)
    decreases left
  {
    if left > 0 {
      ReadPutUe(v, seen + 1, left - 1, tail);
    } else {
      BitLengthBounds(v + 1);
      ReadUeDigits(v + 1, seen, tail);
    }
  }

  // ----- the codes are canonical: whatever is read as a value is the layout of that value

  lemma {:induction false} ReadBitsCanonical(s: Stream, n: nat, acc: nat)
    ensures ReadBits(s, n, acc).Got? ==>
              var r := ReadBits(s, n, acc);
              Shr(r.value, n) == acc && s == PutBits(r.value, n, r.rest)
    decreases n
  {
    if n > 0 && s.Next? && ReadBits(s, n, acc).Got? {
      ReadBitsCanonical(s.rest, n - 1, 2 * acc + if s.bit then 1 else 0);
      ShrOfTop(ReadBits(s, n, acc).value, n);
    }
  }

  lemma {:induction false} ShrZero(v: nat, n: nat)
    requires Shr(v, n) == 0
    ensures v < Pow2(n)
    decreases n
  {
    if n > 0 {
      ShrZero(v / 2, n - 1);
    }
  }

  lemma {:induction false} BitLengthUnique(v: nat, n: nat)
    requires Pow2(n) <= v < Pow2(n + 1)
    ensures BitLength(v) == n + 1
    decreases n
  {
    if n > 0 {
      BitLengthUnique(v / 2, n - 1);
    }
  }

  /** s is laid out as ue(v) is after its first `zeros` zeros, and `rest` follows. */
  predicate UeLayout(s: Stream, zeros: nat, v: nat, rest: Stream) {
    zeros < BitLength(v + 1) &&
    s == PutZeros(BitLength(v + 1) - 1 - zeros, PutBits(v + 1, BitLength(v + 1), rest))
  }

  lemma {:induction false} ReadUeAfterCanonical(s: Stream, zeros: nat)
    requires ReadUeAfter(s, zeros).Got?
    ensures UeLayout(s, zeros, ReadUeAfter(s, zeros).value, ReadUeAfter(s, zeros).rest)
    decreases s
  {
    if s.bit {
      var info := ReadBits(s.rest, zeros, 0);
      ReadBitsCanonical(s.rest, zeros, 0);
      UeInfoCanonical(zeros, info.value, s.rest, info.rest);
    } else {
      var r := ReadUeAfter(s.rest, zeros + 1);
      ReadUeAfterCanonical(s.rest, zeros + 1);
      ZeroBeforeLayout(s.rest, zeros, r.value, r.rest);
    }
  }

  lemma ZeroBeforeLayout(s: Stream, zeros: nat, v: nat, rest: Stream)
    requires UeLayout(s, zeros + 1, v, rest)
    ensures UeLayout(Next(false, s), zeros, v, rest)
  {
  }

  lemma TopDigit(zeros: nat, info: nat, rest: Stream)
    requires info < Pow2(zeros)
    ensures PutBits(Pow2(zeros) + info, zeros + 1, rest) == Next(true, PutBits(info, zeros, rest))
  {
    var digits := Pow2(zeros) + info;
    TopBitSet(digits, zeros);
    ModUnique(digits, Pow2(zeros), 1, info);
    PutLowBits(digits, zeros, zeros, rest);
  }

  lemma UeInfoCanonical(zeros: nat, info: nat, s: Stream, rest: Stream)
    requires Shr(info, zeros) == 0 && s == PutBits(info, zeros, rest)
    ensures UeLayout(Next(true, s), zeros, Pow2(zeros) - 1 + info, rest)
  {
    ShrZero(info, zeros);
    BitLengthUnique(Pow2(zeros) + info, zeros);
    TopDigit(zeros, info, rest);
  }

  lemma ReadUCanonical(s: Stream, n: nat)
    ensures ReadU(s, n).Got? ==> ReadU(s, n).value < Pow2(n) && s == U(ReadU(s, n).value, n, ReadU(s, n).rest)
  {
    ReadBitsCanonical(s, n, 0);
    if ReadU(s, n).Got? {
      ShrZero(ReadU(s, n).value, n);
    }
  }

  lemma ReadUeCanonical(s: Stream)
    ensures ReadUe(s).Got? ==> s == Ue(ReadUe(s).value, ReadUe(s).rest)
  {
    if ReadUe(s).Got? {
      ReadUeAfterCanonical(s, 0);
    }
  }

  // ----- bit strings as streams

  lemma {:induction false} FeedConcat(a: Bits, b: Bits, i: nat, tail: Stream)
    requires i <= |a|
    ensures Feed(a + b, i, tail) == Feed(a, i, Feed(b, 0, tail))
    decreases |a| - i
  {
    if i < |a| {
      FeedConcat(a, b, i + 1, tail);
    } else {
      FeedShifted(a, b, 0, tail);
    }
  }

  lemma {:induction false} FeedShifted(a: Bits, b: Bits, i: nat, tail: Stream)
    requires i <= |b|
    ensures Feed(a + b, |a| + i, tail) == Feed(b, i, tail)
    decreases |b| - i
  {
    if i < |b| {
      FeedShifted(a, b, i + 1, tail);
    }
  }

  lemma {:induction false} FeedBitsOf(v: nat, n: nat, i: nat, tail: Stream)
    requires i <= n
    ensures Feed(BitsOf(v, n), i, tail) == PutBits(v, n - i, tail)
    decreases n - i
  {
    if i < n {
      FeedBitsOf(v, n, i + 1, tail);
    }
  }

  lemma FeedAppended(bits: Bits, v: nat, n: nat, tail: Stream)
    ensures Feed(bits + BitsOf(v, n), 0, tail) == Feed(bits, 0, PutBits(v, n, tail))
  {
    FeedConcat(bits, BitsOf(v, n), 0, tail);
    FeedBitsOf(v, n, 0, tail);
  }

  /** The bits of a stream. */
  function Flatten(s: Stream): Bits {
    match s
    case End => []
    case Next(b, rest) => [b] + Flatten(rest)
  }

  lemma {:induction false} FlattenFeed(bits: Bits, i: nat)
    requires i <= |bits|
    ensures Flatten(Feed(bits, i, End)) == bits[i..]
    decreases |bits| - i
  {
    if i < |bits| {
      FlattenFeed(bits, i + 1);
    }
  }

  function Append(s: Stream, t: Stream): Stream {
    match s
    case End => t
    case Next(b, rest) => Next(b, Append(rest, t))
  }

  lemma {:induction false} FeedFlatten(s: Stream, t: Stream)
    ensures Feed(Flatten(s), 0, t) == Append(s, t)
    decreases s
  {
    if s.Next? {
      FeedFlatten(s.rest, t);
      FeedConcat([s.bit], Flatten(s.rest), 0, t);
    }
  }

  lemma {:induction false} AppendToBits(v: nat, n: nat, s: Stream, t: Stream)
    ensures Append(PutBits(v, n, s), t) == PutBits(v, n, Append(s, t))
    decreases n
  {
    if n > 0 {
      AppendToBits(v, n - 1, s, t);
    }
  }

  lemma {:induction false} AppendToZeros(n: nat, s: Stream, t: Stream)
    ensures Append(PutZeros(n, s), t) == PutZeros(n, Append(s, t))
    decreases n
  {
    if n > 0 {
      AppendToZeros(n - 1, s, t);
    }
  }

  lemma AppendToUe(v: nat, s: Stream, t: Stream)
    ensures Append(Ue(v, s), t) == Ue(v, Append(s, t))
  {
    var n := BitLength(v + 1);
    AppendToZeros(n - 1, PutBits(v + 1, n, s), t);
    AppendToBits(v + 1, n, s, t);
  }

  lemma {:induction false} FlattenPutBits(v: nat, n: nat, tail: Stream)
    requires tail.Next?
    ensures var s := PutBits(v, n, tail); s.Next? && |Flatten(s)| == n + |Flatten(tail)| && EndsInOne(s) == EndsInOne(tail)
    decreases n
  {
    if n > 0 {
      FlattenPutBits(v, n - 1, tail);
    }
  }

  lemma {:induction false} FlattenPutZeros(n: nat, tail: Stream)
    requires tail.Next?
    ensures var s := PutZeros(n, tail); s.Next? && |Flatten(s)| == n + |Flatten(tail)| && EndsInOne(s) == EndsInOne(tail)
    decreases n
  {
    if n > 0 {
      FlattenPutZeros(n - 1, tail);
    }
  }

  lemma FlattenUe(v: nat, tail: Stream)
    requires tail.Next?
    ensures var s := Ue(v, tail);
            s.Next? && |Flatten(s)| == 2 * BitLength(v + 1) - 1 + |Flatten(tail)| && EndsInOne(s) == EndsInOne(tail)
  {
    FlattenPutBits(v + 1, BitLength(v + 1), tail);
    FlattenPutZeros(BitLength(v + 1) - 1, PutBits(v + 1, BitLength(v + 1), tail));
  }

  lemma {:induction false} LastOfFlatten(s: Stream)
    requires s.Next?
    ensures |Flatten(s)| > 0 && Flatten(s)[|Flatten(s)| - 1] == EndsInOne(s)
    decreases s
  {
    if !s.rest.End? {
      LastOfFlatten(s.rest);
    }
  }

  /** Two equally long bit strings that begin the same stream are the same. */
  lemma {:induction false} FeedPrefix(a: Bits, b: Bits, i: nat, s: Stream, t: Stream)
    requires |a| == |b| && i <= |a|
    requires Feed(a, i, s) == Feed(b, i, t)
    ensures forall p :: i <= p < |a| ==> a[p] == b[p]
    decreases |a| - i
  {
    if i < |a| {
      FeedPrefix(a, b, i + 1, s, t);
    }
  }
}

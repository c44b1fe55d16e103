/** The bit writer of src/grd-nal-writer.c: bit fields packed into an array of 32-bit words that
    are byte-swapped as they fill up. Everything it does is stated on the bits written so far. */
module BitWriter {
  import opened Words
  import opened BitStream

  const BITSTREAM_ALLOCATION_STEP: nat := 4096

  // ----- words in memory (little-endian host, as the byte swap of the source presumes)

  /** Byte k of a word as it lies in memory. */
  function MemoryByte(w: Word, k: nat): (b: Word)
    ensures b < 256
  {
    Shr(w, 8 * k) % 256
  }

  /** Bit q of a word in memory order: bytes by address, each most significant bit first. */
  predicate MemoryBit(w: Word, q: nat)
    requires q < 32
  {
    Bit(MemoryByte(w, q / 8), 7 - q % 8)
  }

  /** The first `length` bits of a word array in memory order. */
  function MemoryBits(ws: seq<Word>, length: nat): (bits: Bits)
    requires length <= 32 * |ws|
    ensures |bits| == length
  {
    seq(length, p requires 0 <= p < length => MemoryBit(ws[p / 32], p % 32))
  }

  function SwapByteOrder(w: Word): Word {
    OrWord(OrWord(OrWord(Shl(MemoryByte(w, 0), 24), Shl(MemoryByte(w, 1), 16)), Shl(MemoryByte(w, 2), 8)),
           MemoryByte(w, 3))
  }

  lemma BitOfMemoryByte(w: Word, k: nat, j: nat)
    ensures Bit(MemoryByte(w, k), j) == (j < 8 && Bit(w, j + 8 * k))
  {
    assert Pow2(8) == 256;
    if j < 8 {
      LowBitsKeep(Shr(w, 8 * k), 8, j);
      BitOfShr(w, 8 * k, j);
    } else {
      BitAbove(MemoryByte(w, k), 8, j);
    }
  }

  lemma BitOfShiftedByte(w: Word, k: nat, shift: nat, p: nat)
    requires p < 32
    ensures Bit(Shl(MemoryByte(w, k), shift), p) == (shift <= p < shift + 8 && Bit(w, p - shift + 8 * k))
  {
    BitOfShl(MemoryByte(w, k), shift, p);
    if shift <= p {
      BitOfMemoryByte(w, k, p - shift);
    }
  }

  lemma BitOfSwap(w: Word, k: nat, j: nat)
    requires k < 4 && j < 8
    ensures Bit(SwapByteOrder(w), 8 * k + j) == Bit(w, 8 * (3 - k) + j)
  {
    var p := 8 * k + j;
    var a, b, c, d := Shl(MemoryByte(w, 0), 24), Shl(MemoryByte(w, 1), 16), Shl(MemoryByte(w, 2), 8), MemoryByte(w, 3);
    var ab := OrWord(a, b);
    var abc := OrWord(ab, c);
    BitOfShiftedByte(w, 0, 24, p);
    BitOfShiftedByte(w, 1, 16, p);
    BitOfShiftedByte(w, 2, 8, p);
    BitOfMemoryByte(w, 3, p);
    BitOfOr(a, b, p);
    BitOfOr(ab, c, p);
    BitOfOr(abc, d, p);
  }

  /** A swapped word lies in memory most significant bit first. */
  lemma SwappedWordInMemory(w: Word, q: nat)
    requires q < 32
    ensures MemoryBit(SwapByteOrder(w), q) == Bit(w, 31 - q)
  {
    var k, i := q / 8, q % 8;
    BitOfMemoryByte(SwapByteOrder(w), k, 7 - i);
    BitOfSwap(w, k, 7 - i);
  }

  // ----- what one write does to the bits written so far

  /** The bits after writing `value` into an n-bit field. The field itself holds the low n bits; the
      excess of a value that does not fit is or-ed onto the already written bits of the current word. */
  function AppendU(bits: Bits, value: nat, n: nat): (after: Bits)
    ensures |after| == |bits| + n
  {
    OrExcess(bits, value, n) + BitsOf(value, n)
  }

  function OrExcess(bits: Bits, value: nat, n: nat): (after: Bits)
    ensures |after| == |bits|
  {
    seq(|bits|, i requires 0 <= i < |bits| => bits[i] || ExcessBit(bits, value, n, |bits| - 1 - i))
  }

  /** Whether the excess of `value` over n bits reaches the j-th last bit written, within the current word. */
  predicate ExcessBit(bits: Bits, value: nat, n: nat, j: nat) {
    j < |bits| % 32 && Bit(value, n + j)
  }

  /** The excess of `value` falls on bits that are already set, or outside the current word. */
  ghost predicate ExcessHidden(bits: Bits, value: nat, n: nat) {
    forall j: nat :: ExcessBit(bits, value, n, j) ==> j < |bits| && bits[|bits| - 1 - j]
  }

  /** A write leaves the earlier bits alone exactly when the excess of its value is hidden. */
  lemma AppendIsCleanIff(bits: Bits, value: nat, n: nat)
    ensures AppendU(bits, value, n) == bits + BitsOf(value, n) <==> ExcessHidden(bits, value, n)
  {
    var after := AppendU(bits, value, n);
    if ExcessHidden(bits, value, n) {
      forall i | 0 <= i < |bits|
        ensures OrExcess(bits, value, n)[i] == bits[i]
      {
        assert ExcessBit(bits, value, n, |bits| - 1 - i) ==> bits[|bits| - 1 - (|bits| - 1 - i)];
      }
      assert OrExcess(bits, value, n) == bits;
    } else {
      var j: nat :| ExcessBit(bits, value, n, j) && !bits[|bits| - 1 - j];
      assert after[|bits| - 1 - j] != (bits + BitsOf(value, n))[|bits| - 1 - j];
    }
  }

  lemma FittingValueIsAppended(bits: Bits, value: nat, n: nat)
    requires value < Pow2(n)
    ensures AppendU(bits, value, n) == bits + BitsOf(value, n)
  {
    forall j: nat ensures !ExcessBit(bits, value, n, j) { BitAbove(value, n, n + j); }
    AppendIsCleanIff(bits, value, n);
  }

  // ----- the word array against the bits

  /** Bit p of the `offset` bits a word array holds: completed words lie in memory order, and of the
      current word only the low bits count. */
  predicate StoredBit(ws: seq<Word>, offset: nat, p: nat)
    requires p < offset < 32 * |ws|
  {
    if p / 32 < offset / 32 then MemoryBit(ws[p / 32], p % 32)
    else Bit(ws[p / 32], offset - 1 - p)
  }

  ghost predicate Holds(ws: seq<Word>, bits: Bits) {
    && (|bits| == 0 || |bits| < 32 * |ws|)
    && forall p {:trigger bits[p]} :: 0 <= p < |bits| ==> bits[p] == StoredBit(ws, |bits|, p)
  }

  /** The word-level step: shift n places, or in the value. */
  lemma ShiftedIn(w: Word, v: Word, n: nat, j: nat)
    requires j < 32
    ensures Bit(OrWord(Shl(w, n), v), j) == ((j >= n && Bit(w, j - n)) || Bit(v, j))
  {
    BitOfOr(Shl(w, n), v, j);
    BitOfShl(w, n, j);
  }

  /** The earlier words are untouched by a field, and so are their bits. */
  lemma EarlierWordsKept(ws: seq<Word>, ws': seq<Word>, bits: Bits, value: nat, n: nat, p: nat)
    requires Holds(ws, bits) && |bits| + n < 32 * |ws'| && |ws'| == |ws|
    requires forall i :: 0 <= i < |bits| / 32 ==> ws'[i] == ws[i]
    requires p / 32 < |bits| / 32
    ensures AppendU(bits, value, n)[p] == StoredBit(ws', |bits| + n, p)
  {
    assert p / 32 < (|bits| + n) / 32;
    assert bits[p] == StoredBit(ws, |bits|, p);
    assert !ExcessBit(bits, value, n, |bits| - 1 - p);
  }

  /** A field that leaves room in the current word. */
  lemma FieldFits(ws: seq<Word>, ws': seq<Word>, bits: Bits, w: Word, value: Word, n: nat)
    requires Holds(ws, bits) && |bits| % 32 + n < 32 && |bits| + n < 32 * |ws| && |ws'| == |ws|
    requires |bits| % 32 != 0 ==> w == ws[|bits| / 32]
    requires forall i :: 0 <= i < |bits| / 32 ==> ws'[i] == ws[i]
    requires ws'[|bits| / 32] == OrWord(Shl(w, n), value)
    ensures Holds(ws', AppendU(bits, value, n))
  {
    var after, offset, pos := AppendU(bits, value, n), |bits| + n, |bits| / 32;
    assert offset / 32 == pos;
    forall p | 0 <= p < offset
      ensures after[p] == StoredBit(ws', offset, p)
    {
      if p / 32 < pos {
        EarlierWordsKept(ws, ws', bits, value, n, p);
      } else {
        ShiftedIn(w, value, n, offset - 1 - p);
        assert StoredBit(ws', offset, p) == Bit(ws'[pos], offset - 1 - p);
        if p < |bits| {
          assert bits[p] == StoredBit(ws, |bits|, p) == Bit(w, |bits| - 1 - p);
        }
      }
    }
  }

  /** A field that completes the current word: that word is swapped, the next one takes the value. */
  predicate Spilled(ws: seq<Word>, ws': seq<Word>, bits: Bits, w: Word, value: Word, n: nat) {
    && n <= 32 <= |bits| % 32 + n && |bits| + n < 32 * |ws| && |ws'| == |ws|
    && (|bits| % 32 != 0 ==> w == ws[|bits| / 32])
    && (forall i :: 0 <= i < |bits| / 32 ==> ws'[i] == ws[i])
    && ws'[|bits| / 32] == SwapByteOrder(OrWord(Shl(w, 32 - |bits| % 32), Shr(value, |bits| % 32 + n - 32)))
    && ws'[|bits| / 32 + 1] == value
  }

  lemma FieldSpills(ws: seq<Word>, ws': seq<Word>, bits: Bits, w: Word, value: Word, n: nat)
    requires Holds(ws, bits) && Spilled(ws, ws', bits, w, value, n)
    ensures Holds(ws', AppendU(bits, value, n))
  {
    var after, offset := AppendU(bits, value, n), |bits| + n;
    forall p | 0 <= p < offset
      ensures after[p] == StoredBit(ws', offset, p)
    {
      if p / 32 < |bits| / 32 {
        EarlierWordsKept(ws, ws', bits, value, n, p);
      } else if p / 32 == |bits| / 32 {
        BitOfCompletedWord(ws, ws', bits, w, value, n, p);
      } else {
        BitOfNextWord(ws, ws', bits, w, value, n, p);
      }
    }
  }

  lemma BitOfCompletedWord(ws: seq<Word>, ws': seq<Word>, bits: Bits, w: Word, value: Word, n: nat, p: nat)
    requires Holds(ws, bits) && Spilled(ws, ws', bits, w, value, n) && p / 32 == |bits| / 32
    ensures p < |bits| + n && AppendU(bits, value, n)[p] == StoredBit(ws', |bits| + n, p)
  {
    var k, rest, q := |bits| % 32, |bits| % 32 + n - 32, p % 32;
    assert p == |bits| - k + q && p / 32 < (|bits| + n) / 32;
    SwappedWordInMemory(OrWord(Shl(w, 32 - k), Shr(value, rest)), q);
    CompletedWord(ws, bits, w, value, n, q);
  }

  lemma BitOfNextWord(ws: seq<Word>, ws': seq<Word>, bits: Bits, w: Word, value: Word, n: nat, p: nat)
    requires Holds(ws, bits) && Spilled(ws, ws', bits, w, value, n) && |bits| / 32 < p / 32 && p < |bits| + n
    ensures AppendU(bits, value, n)[p] == StoredBit(ws', |bits| + n, p)
  {
    assert p / 32 == (|bits| + n) / 32 == |bits| / 32 + 1 && |bits| <= p;
  }

  lemma CompletedWord(ws: seq<Word>, bits: Bits, w: Word, value: Word, n: nat, q: nat)
    requires Holds(ws, bits) && n <= 32 <= |bits| % 32 + n && |bits| + n < 32 * |ws|
    requires |bits| % 32 != 0 ==> w == ws[|bits| / 32]
    requires q < 32
    ensures AppendU(bits, value, n)[|bits| - |bits| % 32 + q] ==
            Bit(OrWord(Shl(w, 32 - |bits| % 32), Shr(value, |bits| % 32 + n - 32)), 31 - q)
  {
    var k, rest := |bits| % 32, |bits| % 32 + n - 32;
    var p := |bits| - k + q;
    ShiftedIn(w, Shr(value, rest), 32 - k, 31 - q);
    BitOfShr(value, rest, 31 - q);
    if q < k {
      assert bits[p] == StoredBit(ws, |bits|, p) == Bit(w, k - 1 - q);
    }
  }

  /** What an appended field that fits means to a decoder. */
  lemma FieldAppended(bits: Bits, value: nat, n: nat)
    requires value < Pow2(n)
    ensures forall t {:trigger Feed(bits + BitsOf(value, n), 0, t)} ::
              Feed(bits + BitsOf(value, n), 0, t) == Feed(bits, 0, U(value, n, t))
    ensures AppendU(bits, value, n) == bits + BitsOf(value, n)
    ensures n == 0 ==> bits + BitsOf(value, n) == bits
  {
    FittingValueIsAppended(bits, value, n);
    forall t
      ensures Feed(bits + BitsOf(value, n), 0, t) == Feed(bits, 0, U(value, n, t))
    {
      FeedAppended(bits, value, n, t);
    }
  }

  /** What the source writes as ue(v). */
  function UeWritten(value: Word, tail: Stream): Stream {
    if value == WORD_MODULUS - 1 then tail else Ue(value, tail)
  }

  function Size(s: Stream): nat {
    match s
    case End => 0
    case Next(_, rest) => 1 + Size(rest)
  }

  lemma {:induction false} ReadBitsConsumes(s: Stream, n: nat, acc: nat)
    ensures ReadBits(s, n, acc).Got? ==> Size(ReadBits(s, n, acc).rest) + n == Size(s)
    decreases n
  {
    if n > 0 && s.Next? {
      ReadBitsConsumes(s.rest, n - 1, 2 * acc + if s.bit then 1 else 0);
    }
  }

  lemma {:induction false} ReadUeConsumes(s: Stream, zeros: nat)
    ensures ReadUeAfter(s, zeros).Got? ==> Size(ReadUeAfter(s, zeros).rest) < Size(s)
    decreases s
  {
    if s.Next? {
      if s.bit {
        ReadBitsConsumes(s.rest, zeros, 0);
      } else {
        ReadUeConsumes(s.rest, zeros + 1);
      }
    }
  }

  /** The code of the source is decodable exactly below 2^32 - 1. */
  lemma UeWrittenIsReadBackIff(value: Word, tail: Stream)
    ensures ReadUe(UeWritten(value, tail)) == Got(value, tail) <==> value < WORD_MODULUS - 1
  {
    ReadUeConsumes(tail, 0);
  }

  lemma {:induction false} PutBitsOfZero(n: nat, tail: Stream)
    ensures PutBits(0, n, tail) == PutZeros(n, tail)
    decreases n
  {
    if n > 0 {
      BitOfZero(n - 1);
      PutBitsOfZero(n - 1, tail);
    }
  }

  lemma ZeroField(n: nat)
    ensures 0 < Pow2(n)
    ensures forall t :: U(0, n, t) == PutZeros(n, t)
  {
    forall t ensures U(0, n, t) == PutZeros(n, t) { PutBitsOfZero(n, t); }
  }

  /** The bits after the two fields of ue(v): one zero less than there are digits in v + 1, and then the digits. */
  function CodeBits(bits: Bits, digits: nat, n: nat): Bits {
    var zeros := if n > 1 then AppendU(bits, 0, n - 1) else bits;
    if n == 0 then zeros else AppendU(zeros, digits, n)
  }

  /** The value that ue(v) writes, in 32 bits. */
  function DigitsOf(value: Word): (digits: Word)
    ensures if value == WORD_MODULUS - 1 then digits == 0 else digits == value + 1
  {
    (value + 1) % WORD_MODULUS
  }

  lemma CodeBitsAreZerosAndDigits(bits: Bits, digits: nat)
    requires digits > 0
    ensures var n := BitLength(digits); CodeBits(bits, digits, n) == bits + BitsOf(0, n - 1) + BitsOf(digits, n)
  {
    var n := BitLength(digits);
    BitLengthBounds(digits);
    FittingValueIsAppended(bits, 0, n - 1);
    FittingValueIsAppended(bits + BitsOf(0, n - 1), digits, n);
    assert bits + BitsOf(0, 0) == bits;
  }

  /** What a decoder makes of them. */
  lemma CodeBitsDecode(bits: Bits, digits: nat, t: Stream)
    requires digits > 0
    ensures Feed(CodeBits(bits, digits, BitLength(digits)), 0, t) == Feed(bits, 0, Ue(digits - 1, t))
  {
    var n := BitLength(digits);
    CodeBitsAreZerosAndDigits(bits, digits);
    DigitsAfterZeros(bits, bits + BitsOf(0, n - 1), digits, n, t);
  }

  lemma CodeAppended(bits: Bits, value: Word, t: Stream)
    ensures Feed(CodeBits(bits, DigitsOf(value), BitLength(DigitsOf(value))), 0, t) == Feed(bits, 0, UeWritten(value, t))
  {
    if DigitsOf(value) > 0 {
      CodeBitsDecode(bits, DigitsOf(value), t);
    }
  }

  lemma CodeBitsLength(bits: Bits, value: Word)
    ensures var after := CodeBits(bits, DigitsOf(value), BitLength(DigitsOf(value)));
            && |after| <= |bits| + 63
            && if value == WORD_MODULUS - 1 then after == bits else |bits| < |after|
  {
    WordHas32Digits(DigitsOf(value));
  }

  lemma DigitsAfterZeros(bits: Bits, zeros: Bits, digits: nat, n: nat, tail: Stream)
    requires n > 0 && zeros == bits + BitsOf(0, n - 1)
    ensures Feed(zeros + BitsOf(digits, n), 0, tail) == Feed(bits, 0, PutZeros(n - 1, PutBits(digits, n, tail)))
  {
    FeedAppended(zeros, digits, n, tail);
    FeedAppended(bits, 0, n - 1, PutBits(digits, n, tail));
    PutBitsOfZero(n - 1, PutBits(digits, n, tail));
  }

  lemma {:induction false} Pow2Monotone(m: nat, n: nat)
    requires m <= n
    ensures Pow2(m) <= Pow2(n)
    decreases n - m
  {
    if m < n {
      Pow2Monotone(m, n - 1);
    }
  }

  lemma WordHas32Digits(w: Word)
    ensures BitLength(w) <= 32
  {
    WordModulusIsPow2();
    BitLengthBounds(w);
    if BitLength(w) > 32 {
      Pow2Monotone(32, BitLength(w) - 1);
    }
  }

  /** Shifting the current word to the top and swapping it puts its bits in memory order as well. */
  lemma LastWordFlushed(ws: seq<Word>, ws': seq<Word>, bits: Bits)
    requires Holds(ws, bits) && |bits| < 32 * |ws| && |ws'| == |ws|
    requires forall i :: 0 <= i < |bits| / 32 ==> ws'[i] == ws[i]
    requires FlushedFrom(ws'[|bits| / 32], ws[|bits| / 32], |bits| % 32)
    ensures MemoryBits(ws', |bits|) == bits
  {
    forall p | 0 <= p < |bits|
      ensures MemoryBit(ws'[p / 32], p % 32) == bits[p]
    {
      assert bits[p] == StoredBit(ws, |bits|, p);
      if p / 32 < |bits| / 32 {
        assert ws'[p / 32] == ws[p / 32];
      } else {
        assert |bits| - 1 - p == |bits| % 32 - 1 - p % 32;
      }
    }
  }

  /** The first k bits of `flushed` in memory are the low k bits of w. */
  ghost predicate FlushedFrom(flushed: Word, w: Word, k: nat)
    requires k < 32
  {
    forall q: nat :: q < k ==> MemoryBit(flushed, q) == Bit(w, k - 1 - q)
  }

  lemma FlushedWord(w: Word, k: nat)
    requires k < 32
    ensures FlushedFrom(SwapByteOrder(Shl(w, 32 - k)), w, k)
  {
    var shifted := Shl(w, 32 - k);
    var flushed := SwapByteOrder(shifted);
    forall q: nat | q < k
      ensures MemoryBit(flushed, q) == Bit(w, k - 1 - q)
    {
      SwappedWordInMemory(shifted, q);
      BitOfShl(w, 32 - k, 31 - q);
    }
  }

  // ----- which writes stay within the buffer

  /** The last word that a write touches: the one after a word that it completes, too. */
  function LastWordTouched(offset: nat, n: nat): nat {
    if 32 - offset % 32 > n then offset / 32 else offset / 32 + 1
  }

  function CapacityFor(required: nat, capacity: nat): nat {
    if required <= 32 * capacity then capacity else capacity + BITSTREAM_ALLOCATION_STEP
  }

  /** A write that passes the assertion on the new capacity stays within the buffer, if and only if the bits do
      not end exactly at the capacity: the check is not strict, but the word after a completed one is stored to. */
  lemma WriteStaysInRangeIff(offset: nat, n: nat, capacity: nat)
    requires 1 <= n <= 32 && offset + n <= 32 * CapacityFor(offset + n, capacity)
    ensures LastWordTouched(offset, n) < CapacityFor(offset + n, capacity) <==>
            offset + n != 32 * CapacityFor(offset + n, capacity)
  {
    assert LastWordTouched(offset, n) == (offset + n) / 32;
  }

  /** The bits fill a whole number of allocations. */
  predicate FillsAllocations(bits: nat) {
    bits > 0 && bits % (32 * BITSTREAM_ALLOCATION_STEP) == 0
  }

  class NalBitstream {
    ghost var Contents: Bits  // the bits written so far

    var buffer: array<Word>
    var bitOffset: nat
    var capacity: nat

    ghost predicate Valid()
      reads this, buffer
    {
      && capacity == buffer.Length
      && (capacity == 0 || BITSTREAM_ALLOCATION_STEP <= capacity)
      && |Contents| == bitOffset
      && Holds(buffer[..], Contents)
    }

    /** n more bits fit with a bit to spare: into the buffer, or into the first allocation. */
    predicate Fits(n: nat)
      reads this
    {
      bitOffset + n < 32 * (if capacity == 0 then BITSTREAM_ALLOCATION_STEP else capacity)
    }

    /** A buffer that was there is still in use, and otherwise the first one may have been allocated. */
    twostate predicate BufferKept()
      reads this
    {
      if capacity == old(capacity) then buffer == old(buffer)
      else old(capacity) == 0 && capacity == BITSTREAM_ALLOCATION_STEP && fresh(buffer)
    }

    /** The first allocation is there, and n more bits fit into it with a bit to spare. */
    predicate Room(n: nat)
      reads this
    {
      capacity == BITSTREAM_ALLOCATION_STEP && Fits(n)
    }

    constructor ()
      ensures Valid() && Contents == [] && capacity == 0 && fresh(buffer)
    {
      buffer := new Word[0];
      bitOffset, capacity := 0, 0;
      Contents := [];
    }

    method EnsureRemainingCapacity(requiredCapacityInBits: nat)
      requires Valid()
      requires requiredCapacityInBits <= 32 * (capacity + BITSTREAM_ALLOCATION_STEP)
      modifies this
      ensures Valid() && (buffer == old(buffer) || fresh(buffer))
      ensures capacity == if requiredCapacityInBits <= 32 * old(capacity) then old(capacity)
                          else old(capacity) + BITSTREAM_ALLOCATION_STEP
      ensures capacity == old(capacity) ==> buffer == old(buffer)
      ensures bitOffset == old(bitOffset) && Contents == old(Contents)
    {
      if requiredCapacityInBits <= capacity * 32 {
        return;
      }
      var newCapacity := capacity + BITSTREAM_ALLOCATION_STEP;
      var newBuffer := new Word[newCapacity];
      forall i | 0 <= i < capacity {
        newBuffer[i] := buffer[i];
      }
      buffer, capacity := newBuffer, newCapacity;
    }

    /** The word stores of one write; `bitOffset` advances over the field afterwards. */
    method StoreField(value: Word, nBits: nat)
      requires 1 <= nBits <= 32 && LastWordTouched(bitOffset, nBits) < buffer.Length
      requires |Contents| == bitOffset && Holds(buffer[..], Contents)
      modifies buffer
      ensures Holds(buffer[..], AppendU(Contents, value, nBits))
    {
      ghost var ws := buffer[..];
      var pos, offsetInDword := bitOffset / 32, bitOffset % 32;
      var bitsLeft := 32 - offsetInDword;
      if offsetInDword == 0 {
        buffer[pos] := 0;
      }
      ghost var word := buffer[pos];
      if bitsLeft > nBits {
        buffer[pos] := Shl(buffer[pos], nBits);
        buffer[pos] := OrWord(buffer[pos], value);
        FieldFits(ws, buffer[..], Contents, word, value, nBits);
        return;
      }
      var rest := nBits - bitsLeft;
      buffer[pos] := Shl(buffer[pos], bitsLeft);
      buffer[pos] := OrWord(buffer[pos], Shr(value, rest));
      buffer[pos] := SwapByteOrder(buffer[pos]);
      buffer[pos + 1] := value;
      FieldSpills(ws, buffer[..], Contents, word, value, nBits);
    }

    /** write_u. The capacity check of the source is not strict although the word after a completed one
        is touched as well: the bits must stay strictly below the capacity (WriteStaysInRangeIff). */
    method WriteField(value: Word, nBits: nat)
      requires Valid() && nBits <= 32
      requires nBits == 0 || |Contents| + nBits < 32 * CapacityFor(|Contents| + nBits, capacity)
      modifies this, buffer
      ensures Valid() && (buffer == old(buffer) || fresh(buffer))
      ensures capacity == if |Contents| <= 32 * old(capacity) then old(capacity)
                          else old(capacity) + BITSTREAM_ALLOCATION_STEP
      ensures capacity == old(capacity) ==> buffer == old(buffer)
      ensures Contents == if nBits == 0 then old(Contents) else AppendU(old(Contents), value, nBits)
    {
      if nBits == 0 {
        return;
      }
      WriteStaysInRangeIff(bitOffset, nBits, capacity);
      EnsureRemainingCapacity(bitOffset + nBits);
      StoreField(value, nBits);
      bitOffset := bitOffset + nBits;
      Contents := AppendU(Contents, value, nBits);
    }

    /** write_u where the field fits with a bit to spare. */
    method WriteFitting(value: Word, nBits: nat)
      requires Valid() && nBits <= 32 && Fits(nBits)
      modifies this, buffer
      ensures Valid() && BufferKept()
      ensures Contents == if nBits == 0 then old(Contents) else AppendU(old(Contents), value, nBits)
    {
      WriteField(value, nBits);
    }

    /** write_u of a value that fits its field, in terms of what a decoder reads. */
    method WriteU(value: Word, nBits: nat)
      requires Valid() && nBits <= 32 && value < Pow2(nBits) && Fits(nBits)
      modifies this, buffer
      ensures Valid() && BufferKept()
      ensures |Contents| == |old(Contents)| + nBits
      ensures forall t {:trigger Feed(Contents, 0, t)} ::
                Feed(Contents, 0, t) == Feed(old(Contents), 0, U(value, nBits, t))
    {
      FieldAppended(Contents, value, nBits);
      WriteFitting(value, nBits);
    }

    method WriteZerosAndDigits(digits: Word, nBits: nat)
      requires Valid() && nBits <= 32 && Fits(63)
      modifies this, buffer
      ensures Valid() && BufferKept() && Contents == CodeBits(old(Contents), digits, nBits)
    {
      if nBits > 1 {
        WriteFitting(0, nBits - 1);
      }
      WriteFitting(digits, nBits);
    }

    /** The number of digits, counted by shifting. */
    method CountBits(value: Word) returns (nBits: nat)
      ensures nBits == BitLength(value) <= 32
    {
      nBits := 0;
      var tmp: nat := value;
      while tmp != 0
        invariant nBits + BitLength(tmp) == BitLength(value)
      {
        nBits := nBits + 1;
        tmp := tmp / 2;
      }
      WordHas32Digits(value);
    }

    /** Exponential Golomb coding (unsigned). The largest 32-bit value has no code: nothing is written. */
    method WriteUe(value: Word)
      requires Valid() && Fits(63)
      modifies this, buffer
      ensures Valid() && BufferKept()
      ensures |Contents| <= |old(Contents)| + 63
      ensures forall t {:trigger Feed(Contents, 0, t)} ::
                Feed(Contents, 0, t) == Feed(old(Contents), 0, UeWritten(value, t))
      ensures value == WORD_MODULUS - 1 ==> Contents == old(Contents)
      ensures value < WORD_MODULUS - 1 ==> |old(Contents)| < |Contents|
    {
      var valueToWrite := (value + 1) % WORD_MODULUS;
      var nBits := CountBits(valueToWrite);
      CodeBitsLength(Contents, value);
      forall t {
        CodeAppended(Contents, value, t);
      }
      WriteZerosAndDigits(valueToWrite, nBits);
    }

    /** Exponential Golomb coding (signed), where the C expressions do not overflow. */
    method WriteSe(value: int)
      requires Valid() && Fits(63) && -0x4000_0000 < value < 0x4000_0000
      modifies this, buffer
      ensures Valid() && BufferKept()
      ensures |old(Contents)| < |Contents| <= |old(Contents)| + 63
      ensures forall t {:trigger Feed(Contents, 0, t)} ::
                Feed(Contents, 0, t) == Feed(old(Contents), 0, Se(value, t))
    {
      if value <= 0 {
        WriteUe(-value * 2);
      } else {
        WriteUe(value * 2 - 1);
      }
    }

    /** `8 - offset` is never 0: an aligned stream gets a whole zero byte. */
    method ByteAlign()
      requires Valid() && Fits(8)
      modifies this, buffer
      ensures Valid() && BufferKept()
      ensures |Contents| == |old(Contents)| + (8 - |old(Contents)| % 8)
      ensures forall t {:trigger Feed(Contents, 0, t)} ::
                Feed(Contents, 0, t) == Feed(old(Contents), 0, PutZeros(8 - |old(Contents)| % 8, t))
    {
      var offsetInByte := bitOffset % 8;
      var bitsLeft := 8 - offsetInByte;
      ZeroField(bitsLeft);
      WriteU(0, bitsLeft);
    }

    method WriteTrailingBits()
      requires Valid() && Fits(9)
      modifies this, buffer
      ensures Valid() && BufferKept()
      ensures |Contents| % 8 == 0 && |old(Contents)| + 2 <= |Contents| <= |old(Contents)| + 9
      ensures forall t {:trigger Feed(Contents, 0, t)} :: Feed(Contents, 0, t) ==
                Feed(old(Contents), 0, Next(true, PutZeros(|Contents| - |old(Contents)| - 1, t)))
    {
      ghost var before := Contents;
      WriteU(1, 1);
      assert forall t {:trigger Feed(Contents, 0, t)} :: Feed(Contents, 0, t) == Feed(before, 0, Next(true, t)) by {
        forall t ensures U(1, 1, t) == Next(true, t) { assert PutBits(1, 0, t) == t; }
      }
      ByteAlign();
    }

    method EndBitstream() returns (bitstream: array<Word>, bitstreamLength: nat)
      requires Valid() && |Contents| < 32 * capacity
      modifies buffer
      ensures bitstream == buffer && bitstreamLength == |Contents| < 32 * bitstream.Length
      ensures MemoryBits(bitstream[..], bitstreamLength) == Contents
    {
      var pos, offsetInDword := bitOffset / 32, bitOffset % 32;
      var bitsLeft := 32 - offsetInDword;
      ghost var ws := buffer[..];
      FlushedWord(buffer[pos], offsetInDword);
      buffer[pos] := SwapByteOrder(Shl(buffer[pos], bitsLeft));
      LastWordFlushed(ws, buffer[..], Contents);
      return buffer, bitOffset;
    }
  }
}

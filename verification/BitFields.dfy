/** Sequences of write_u calls (src/grd-nal-writer.c): what they leave in memory, and what a decoder that knows
    the widths makes of it. */
module BitFields {
  import opened Words
  import opened BitStream
  import opened BitWriter

  /** A field of a write_u call. */
  datatype Field = Field(value: Word, width: nat)

  function WriteFields(bits: Bits, fields: seq<Field>): Bits
    decreases |fields|
  {
    if |fields| == 0 then bits
    else AppendU(WriteFields(bits, fields[..|fields| - 1]), fields[|fields| - 1].value, fields[|fields| - 1].width)
  }

  function Concatenation(fields: seq<Field>): Bits {
    if |fields| == 0 then []
    else Concatenation(fields[..|fields| - 1]) + BitsOf(fields[|fields| - 1].value, fields[|fields| - 1].width)
  }

  /** Any sequence of writes whose values fit leaves exactly the concatenated encodings. */
  lemma {:induction false} WritesConcatenate(fields: seq<Field>)
    requires forall f :: f in fields ==> f.value < Pow2(f.width)
    ensures WriteFields([], fields) == Concatenation(fields)
    decreases |fields|
  {
    if |fields| > 0 {
      var init, last := fields[..|fields| - 1], fields[|fields| - 1];
      WritesConcatenate(init);
      assert last in fields;
      FittingValueIsAppended(Concatenation(init), last.value, last.width);
    }
  }

  function Widths(fields: seq<Field>): seq<nat> {
    seq(|fields|, i requires 0 <= i < |fields| => fields[i].width)
  }

  function Values(fields: seq<Field>): seq<nat> {
    seq(|fields|, i requires 0 <= i < |fields| => fields[i].value)
  }

  /** A decoder that knows the widths reads one field after another. */
  function ReadFields(s: Stream, widths: seq<nat>): Read<seq<nat>>
    decreases |widths|
  {
    if |widths| == 0 then Got([], s)
    else
      var (value, s) :- ReadU(s, widths[0]);
      var (values, s) :- ReadFields(s, widths[1..]);
      Got([value] + values, s)
  }

  lemma {:induction false} ConcatenationFromFirst(fields: seq<Field>)
    requires |fields| > 0
    ensures Concatenation(fields) == BitsOf(fields[0].value, fields[0].width) + Concatenation(fields[1..])
    decreases |fields|
  {
    var n := |fields|;
    if n == 1 {
      assert fields[..0] == fields[1..] == [];
    } else {
      ConcatenationFromFirst(fields[..n - 1]);
      assert fields[..n - 1][1..] == fields[1..][..n - 2];
    }
  }

  /** It recovers every value, and is left with what follows. */
  lemma {:induction false} FieldsAreReadBack(fields: seq<Field>, t: Stream)
    requires forall i :: 0 <= i < |fields| ==> fields[i].value < Pow2(fields[i].width)
    ensures ReadFields(Feed(Concatenation(fields), 0, t), Widths(fields)) == Got(Values(fields), t)
    decreases |fields|
  {
    if |fields| > 0 {
      var first, rest := fields[0], fields[1..];
      ConcatenationFromFirst(fields);
      FeedConcat(BitsOf(first.value, first.width), Concatenation(rest), 0, t);
      var s := Feed(Concatenation(rest), 0, t);
      FieldAppended([], first.value, first.width);
      assert [] + BitsOf(first.value, first.width) == BitsOf(first.value, first.width);
      assert Feed(BitsOf(first.value, first.width), 0, s) == U(first.value, first.width, s);
      FieldsAreReadBack(rest, t);
      assert Widths(fields)[1..] == Widths(rest) && Values(fields) == [first.value] + Values(rest);
    }
  }

  /** Mentioning an index brings up what is known of the fields before it. */
  predicate Upto(i: nat) { true }

  /** Fields of at most 32 bits whose values fit, and that never fill the buffer exactly on the way. */
  ghost predicate Writable(fields: seq<Field>) {
    forall i: nat {:trigger Upto(i)} :: Upto(i) && i <= |fields| ==>
      && !FillsAllocations(|Concatenation(fields[..i])|)
      && (i < |fields| ==> fields[i].width <= 32 && fields[i].value < Pow2(fields[i].width))
  }

  /** The bits are those of the first n fields. */
  ghost predicate Wrote(bits: Bits, fields: seq<Field>, n: nat) {
    n <= |fields| && forall i: nat {:trigger Upto(i)} :: Upto(i) && i == n ==> bits == Concatenation(fields[..i])
  }

  /** Any sequence of such fields, written one after another: the memory that is returned holds exactly their
      digits. */
  method WriteStream(fields: seq<Field>) returns (bitstream: array<Word>, bitstreamLength: nat)
    requires Writable(fields) && Concatenation(fields) != []
    ensures bitstreamLength == |Concatenation(fields)| < 32 * bitstream.Length
    ensures MemoryBits(bitstream[..], bitstreamLength) == Concatenation(fields)
  {
    var b := new NalBitstream();
    WriteAll(b, fields);
    assert Upto(|fields|) && fields[..|fields|] == fields;
    bitstream, bitstreamLength := b.EndBitstream();
  }

  method WriteAll(b: NalBitstream, fields: seq<Field>)
    requires Writable(fields) && b.Valid() && b.Contents == [] && b.capacity == 0
    modifies b, b.buffer
    ensures b.Valid() && (b.buffer == old(b.buffer) || fresh(b.buffer)) && Wrote(b.Contents, fields, |fields|)
    ensures Allocated(|b.Contents|, b.capacity)
  {
    var i := 0;
    while i < |fields|
      invariant 0 <= i <= |fields| && b.Valid() && (b.buffer == old(b.buffer) || fresh(b.buffer))
      invariant Wrote(b.Contents, fields, i) && Allocated(|b.Contents|, b.capacity)
    {
      OneFieldMore(fields, i, b.Contents, b.capacity);
      b.WriteField(fields[i].value, fields[i].width);
      i := i + 1;
    }
  }

  /** The capacity is a whole number of allocations and more than the bits. */
  predicate Allocated(bits: nat, capacity: nat) {
    capacity % BITSTREAM_ALLOCATION_STEP == 0 && (bits == 0 || bits < 32 * capacity)
  }

  lemma OneFieldMore(fields: seq<Field>, i: nat, bits: Bits, capacity: nat)
    requires Writable(fields) && i < |fields| && Wrote(bits, fields, i) && Allocated(|bits|, capacity)
    ensures var f := fields[i];
            && f.width <= 32
            && Wrote(if f.width == 0 then bits else AppendU(bits, f.value, f.width), fields, i + 1)
            && (f.width == 0 || |bits| + f.width < 32 * CapacityFor(|bits| + f.width, capacity))
            && Allocated(|bits| + f.width, CapacityFor(|bits| + f.width, capacity))
  {
    var f := fields[i];
    assert Upto(i) && Upto(i + 1);
    assert fields[..i + 1][..i] == fields[..i] && fields[..i + 1][i] == f;
    FittingValueIsAppended(bits, f.value, f.width);
    StaysInRange(|bits|, f.width, capacity);
  }

  lemma StaysInRange(offset: nat, n: nat, capacity: nat)
    requires n <= 32 && !FillsAllocations(offset + n) && Allocated(offset, capacity)
    ensures n > 0 ==> offset + n < 32 * CapacityFor(offset + n, capacity)
    ensures Allocated(offset + n, CapacityFor(offset + n, capacity))
  {
  }
}

/** The encoder: loops and streams, proved against `EncodeSpec`. */
module Encoder {
  import opened Bits
  import opened Varint
  import opened Descriptor
  import opened EncodeSpec
  import opened Streams
  import opened Iterator

  /** `ok` and the stream's new state `b` are those of emitting `e` in state `a`: it
      succeeds exactly when there is no encoding error and the bytes fit. */
  ghost predicate Emits(a: Output, b: Output, ok: bool, e: Emitted) {
    && a.Valid()
    && (ok <==> e.Out? && a.Fits(|e.bytes|))
    && (ok ==> b == a.Append(e.bytes))
  }

  lemma EmitsNothing(a: Output)
    requires a.Valid()
    ensures Emits(a, a, true, Out([]))
  {
    a.AppendNothing();
  }

  /** Emitting one thing and, if that went well, another. */
  lemma EmitsBoth(a: Output, b: Output, c: Output, first: Emitted, ok: bool, second: Emitted)
    requires Emits(a, b, true, first) && Emits(b, c, ok, second)
    ensures Emits(a, c, ok, Cat(first, second))
  {
    if second.Out? { a.AppendTwice(first.bytes, second.bytes); }
  }

  lemma EmitsFails(a: Output, b: Output, c: Output, first: Emitted, second: Emitted)
    requires Emits(a, b, false, first)
    ensures Emits(a, c, false, Cat(first, second))
  {
    if first.Out? && second.Out? { assert |first.bytes + second.bytes| == |first.bytes| + |second.bytes|; }
  }

  /** What a sizing pass measured is what a pass over a buffer does: whatever message `e`
      stands for, if sizing it advanced by `n`, then encoding it into a buffer succeeds
      exactly when `n` more bytes fit, and advances by exactly `n`; if sizing it failed,
      so does encoding it. */
  lemma SizingPredicts(s: Output, s': Output, sized: bool, a: Output, b: Output, ok: bool, e: Emitted)
    requires s.sizing && !a.sizing && Emits(s, s', sized, e) && Emits(a, b, ok, e)
    ensures var n := s'.bytesWritten - s.bytesWritten;
      && (ok <==> sized && a.bytesWritten + n <= a.maxSize)
      && (ok ==> b.bytesWritten == a.bytesWritten + n && b.state == a.state + n)
  {
    if e.Out? && !a.Fits(|e.bytes|) { assert !ok; }
  }

  // ---------- Integers ----------

  method EncodeVarint(stream: OStream, value: nat) returns (ok: bool)
    requires stream.Valid()
    requires value < TWO64
    modifies stream, stream.buf
    ensures stream.Valid()
    ensures Emits(old(stream.St()), stream.St(), ok, Out(EncVarint(value)))
  {
    if value <= 0x7F {
      ok := stream.Write([value]);
    } else {
      var buffer, n := VarintBytes(value);
      ok := stream.Write(buffer[..n]);
    }
  }

  /** The loop that fills the ten-byte buffer of a multi-byte varint. */
  method VarintBytes(value: nat) returns (buffer: array<Byte>, i: nat)
    requires 0 < value < TWO64
    ensures fresh(buffer) && i <= buffer.Length && buffer[..i] == EncVarint(value)
  {
    buffer := new Byte[10];
    i := 0;
    var v := value;
    EncVarintFits(value);
    while v != 0
      invariant i <= 10 && i + (if v == 0 then 0 else |EncVarint(v)|) == |EncVarint(value)| <= 10
      invariant v != 0 ==> EncVarint(value) == buffer[..i] + EncVarint(v)
      invariant v == 0 ==> i > 0 && buffer[i - 1] >= 128 && EncVarint(value) == buffer[..i - 1] + [buffer[i - 1] - 128]
      invariant fresh(buffer)
    {
      ghost var before := buffer[..i];
      buffer[i] := v % 128 + 128;
      assert buffer[..i] == before;
      i := i + 1;
      v := v / 128;
    }
    buffer[i - 1] := buffer[i - 1] - 128;
  }

  /** ZigZag in 64-bit unsigned arithmetic. */
  method EncodeSVarint(stream: OStream, value: int) returns (ok: bool)
    requires stream.Valid()
    requires InSigned(value, TWO64)
    modifies stream, stream.buf
    ensures stream.Valid()
    ensures Emits(old(stream.St()), stream.St(), ok, Out(EncVarint(ZigZag(value))))
  {
    var doubled := Unsigned(value, TWO64) * 2 % TWO64;
    var zigzagged := if value < 0 then TWO64 - 1 - doubled else doubled;
    ModOfSigned(value, TWO64);
    assert value < 0 ==> (value + TWO64) * 2 == TWO64 + (2 * value + TWO64);
    assert zigzagged == ZigZag(value);
    ok := EncodeVarint(stream, zigzagged);
  }

  method EncodeFixed32(stream: OStream, value: nat) returns (ok: bool)
    requires stream.Valid()
    requires value < TWO32
    modifies stream, stream.buf
    ensures stream.Valid()
    ensures Emits(old(stream.St()), stream.St(), ok, Out(EncFixed(value, 4)))
  {
    var bytes := [value % 256, value / 0x100 % 256, value / 0x1_0000 % 256, value / 0x100_0000 % 256];
    Fixed32Bytes(value);
    ok := stream.Write(bytes);
  }

  lemma Fixed32Bytes(v: nat)
    ensures EncFixed(v, 4) == [v % 256, v / 0x100 % 256, v / 0x1_0000 % 256, v / 0x100_0000 % 256]
  {
    assert v / 0x100 / 0x100 == v / 0x1_0000 && v / 0x1_0000 / 0x100 == v / 0x100_0000;
    assert EncFixed(v / 0x100_0000, 1) == [v / 0x100_0000 % 256];
    assert EncFixed(v / 0x1_0000, 2) == [v / 0x1_0000 % 256] + EncFixed(v / 0x100_0000, 1);
    assert EncFixed(v / 0x100, 3) == [v / 0x100 % 256] + EncFixed(v / 0x1_0000, 2);
    assert EncFixed(v, 4) == [v % 256] + EncFixed(v / 0x100, 3);
  }

  method EncodeFixed64(stream: OStream, value: nat) returns (ok: bool)
    requires stream.Valid()
    requires value < TWO64
    modifies stream, stream.buf
    ensures stream.Valid()
    ensures Emits(old(stream.St()), stream.St(), ok, Out(EncFixed(value, 8)))
  {
    var bytes := [
      value % 256, value / 0x100 % 256, value / 0x1_0000 % 256, value / 0x100_0000 % 256,
      value / TWO32 % 256, value / 0x100_0000_0000 % 256, value / 0x1_0000_0000_0000 % 256, value / 0x100_0000_0000_0000 % 256];
    Fixed64Bytes(value);
    ok := stream.Write(bytes);
  }

  lemma Fixed64Bytes(v: nat)
    ensures EncFixed(v, 8) == [
      v % 256, v / 0x100 % 256, v / 0x1_0000 % 256, v / 0x100_0000 % 256,
      v / TWO32 % 256, v / 0x100_0000_0000 % 256, v / 0x1_0000_0000_0000 % 256, v / 0x100_0000_0000_0000 % 256]
  {
    var w := v / TWO32;
    Fixed32Bytes(w);
    FixedLow(v);
    assert w / 0x100 == v / 0x100_0000_0000;
    assert w / 0x1_0000 == v / 0x1_0000_0000_0000;
    assert w / 0x100_0000 == v / 0x100_0000_0000_0000;
  }

  lemma FixedLow(v: nat)
    ensures EncFixed(v, 8)
         == [v % 256, v / 0x100 % 256, v / 0x1_0000 % 256, v / 0x100_0000 % 256] + EncFixed(v / TWO32, 4)
  {
    assert v / 0x100 / 0x100 == v / 0x1_0000 && v / 0x1_0000 / 0x100 == v / 0x100_0000 && v / 0x100_0000 / 0x100 == v / TWO32;
    assert EncFixed(v / 0x100_0000, 5) == [v / 0x100_0000 % 256] + EncFixed(v / TWO32, 4);
    assert EncFixed(v / 0x1_0000, 6) == [v / 0x1_0000 % 256] + EncFixed(v / 0x100_0000, 5);
    assert EncFixed(v / 0x100, 7) == [v / 0x100 % 256] + EncFixed(v / 0x1_0000, 6);
    assert EncFixed(v, 8) == [v % 256] + EncFixed(v / 0x100, 7);
  }

  // ---------- Tags and strings ----------

  method EncodeTag(stream: OStream, wireType: nat, fieldNumber: nat) returns (ok: bool)
    requires stream.Valid()
    requires wireType < 8 && fieldNumber < TWO32
    modifies stream, stream.buf
    ensures stream.Valid()
    ensures Emits(old(stream.St()), stream.St(), ok, Out(EncTag(wireType, fieldNumber)))
  {
    ok := EncodeVarint(stream, fieldNumber * 8 + wireType);
  }

  method EncodeTagForField(stream: OStream, f: Field) returns (ok: bool)
    requires stream.Valid()
    requires f.tag < TWO32
    modifies stream, stream.buf
    ensures stream.Valid()
    ensures Emits(old(stream.St()), stream.St(), ok, Out(FieldTag(f)))
  {
    var wireType;
    match f.ltype {
      case LBool | LVarint | LUVarint | LSVarint => wireType := WT_VARINT;
      case LFixed32 => wireType := WT_32BIT;
      case LFixed64 => wireType := WT_64BIT;
      case LBytes | LString | LSubmessage | LFixedLength => wireType := WT_STRING;
    }
    ok := EncodeTag(stream, wireType, f.tag);
  }

  method EncodeString(stream: OStream, buffer: seq<Byte>) returns (ok: bool)
    requires stream.Valid()
    modifies stream, stream.buf
    ensures stream.Valid()
    ensures Emits(old(stream.St()), stream.St(), ok, Out(LengthPrefixed(buffer)))
  {
    hide EncVarint;
    ok := EncodeVarint(stream, |buffer| % TWO64);
    ghost var mid := stream.St();
    if !ok {
      EmitsFails(old(stream.St()), mid, mid, Out(EncVarint(|buffer| % TWO64)), Out(buffer));
      return;
    }
    ok := stream.Write(buffer);
    EmitsBoth(old(stream.St()), mid, stream.St(), Out(EncVarint(|buffer| % TWO64)), ok, Out(buffer));
  }

  // ---------- The zero check ----------

  method CheckProto3Default(f: Field, c: Cell) returns (zero: bool)
    requires StoredCell(f, c)
    ensures zero <==> IsDefault(f, c)
    decreases f, 3
  {
    if f.htype.Required? {
      return false;
    } else if f.htype.Repeated? {
      if f.HasSize() { return c.count == 0; } else { return false; }
    } else if f.htype.OneOf? {
      return c.which == 0;
    } else if f.HasSize() {
      return !c.has;
    }
    zero := CheckZeroDatum(f, c.v);
  }

  method CheckZeroDatum(f: Field, v: Value) returns (zero: bool)
    requires StoredValue(f, v)
    ensures zero <==> IsZero(f, v)
    decreases f, 2
  {
    match f.ltype {
      case LBytes => return |v.b| == 0;
      case LString => return v.b == [] || v.b[0] == 0;
      case LFixedLength => return f.dataSize == 0;
      case LSubmessage => zero := CheckMessageDefault(f.sub, v.cells);
      case _ => return v.n == 0;
    }
  }

  method CheckMessageDefault(fields: seq<Field>, cells: seq<Cell>) returns (zero: bool)
    requires StoredCells(fields, cells)
    ensures zero <==> AllDefault(fields, cells, 0)
    decreases fields, 4
  {
    hide IsDefault, StoredCell, StoredCells, AllDefault, SlotOf, DataAt, SizeAt, RequiredIndex;
    var iter := new FieldIter(fields);
    if fields == [] {
      AllDefaultStep(fields, cells, 0);
      return true;
    }
    var more := true;
    while more
      invariant iter.Valid() && iter.fields == fields && fresh(iter)
      invariant more ==> (AllDefault(fields, cells, 0) <==> AllDefault(fields, cells, iter.pos))
      invariant !more ==> AllDefault(fields, cells, 0)
      decreases if more then |fields| - iter.pos else 0
    {
      StoredAt(fields, cells, iter.pos);
      AllDefaultStep(fields, cells, iter.pos);
      AllDefaultStep(fields, cells, |fields|);
      var isDefault := CheckProto3Default(fields[iter.pos], cells[SlotOf(fields, iter.pos)]);
      if !isDefault {
        return false;
      }
      more := iter.Next();
    }
    return true;
  }

  lemma StoredAt(fields: seq<Field>, cells: seq<Cell>, i: nat)
    requires StoredCells(fields, cells) && i < |fields|
    ensures SlotOf(fields, i) < |cells| && StoredCell(fields[i], cells[SlotOf(fields, i)])
  {
  }

  lemma AllDefaultStep(fields: seq<Field>, cells: seq<Cell>, i: nat)
    requires i <= |fields|
    ensures i == |fields| ==> AllDefault(fields, cells, i)
    ensures i < |fields| ==>
      (AllDefault(fields, cells, i) <==>
        SlotOf(fields, i) < |cells| && IsDefault(fields[i], cells[SlotOf(fields, i)]) && AllDefault(fields, cells, i + 1))
  {
  }

  // ---------- Data ----------

  method EncodeScalar(stream: OStream, f: Field, n: int) returns (ok: bool)
    requires stream.Valid() && Packable(f.ltype)
    modifies stream, stream.buf
    ensures stream.Valid()
    ensures Emits(old(stream.St()), stream.St(), ok, EncScalar(f, n))
  {
    match f.ltype {
      case LBool =>
        ok := EncodeVarint(stream, if n != 0 then 1 else 0);
      case LVarint =>
        if !IntSize(f.dataSize) { return false; }
        ok := EncodeVarint(stream, Unsigned(ReadSigned(n, f.dataSize), TWO64));
      case LUVarint =>
        if !IntSize(f.dataSize) { return false; }
        ok := EncodeVarint(stream, ReadUnsigned(n, f.dataSize));
      case LSVarint =>
        if !IntSize(f.dataSize) { return false; }
        SignedRange(ReadUnsigned(n, f.dataSize), f.dataSize);
        ok := EncodeSVarint(stream, ReadSigned(n, f.dataSize));
      case LFixed32 =>
        ok := EncodeFixed32(stream, Unsigned(n, TWO32));
      case LFixed64 =>
        ok := EncodeFixed64(stream, Unsigned(n, TWO64));
    }
  }

  lemma SignedRange(u: nat, size: nat)
    ensures InSigned(Signed(u, Modulus(size)), Modulus(size)) && InSigned(Signed(u, Modulus(size)), TWO64)
  {
  }

  method EncodeBlob(stream: OStream, f: Field, b: seq<Byte>) returns (ok: bool)
    requires stream.Valid() && StoredValue(f, Blob(b))
    modifies stream, stream.buf
    ensures stream.Valid()
    ensures Emits(old(stream.St()), stream.St(), ok, EncBlob(f, b))
  {
    hide LengthPrefixed, EncVarint;
    match f.ltype {
      case LBytes =>
        if |b| + BYTES_HEADER > f.dataSize { return false; }
        ok := EncodeString(stream, b);
      case LString =>
        var size := 0;
        while size < f.dataSize && size < |b| && b[size] != 0
          invariant size <= StrLen(b)
        {
          size := size + 1;
        }
        ok := EncodeString(stream, b[..size]);
      case LFixedLength =>
        ok := EncodeString(stream, b);
    }
  }

  /** Dispatch on the field's data type. */
  method EncodeValue(stream: OStream, f: Field, v: Value) returns (ok: bool)
    requires stream.Valid() && StoredValue(f, v) && Tagged(f)
    modifies stream, stream.buf
    ensures stream.Valid()
    ensures Emits(old(stream.St()), stream.St(), ok, EncValue(f, v))
    decreases f, 0
  {
    hide EncScalar, EncBlob, LengthPrefixed, WellFormed, StoredCells;
    if Packable(f.ltype) {
      ok := EncodeScalar(stream, f, v.n);
    } else if f.ltype.LSubmessage? {
      ok := EncodeSubmessage(stream, f.sub, v.cells);
    } else {
      ok := EncodeBlob(stream, f, v.b);
    }
  }

  /** Field numbers fit 32 bits, at every depth. */
  predicate Tagged(f: Field)
    decreases f
  {
    f.tag < TWO32 && (f.ltype.LSubmessage? ==> AllTagged(f.sub))
  }

  predicate AllTagged(fields: seq<Field>)
    decreases fields
  {
    forall i | 0 <= i < |fields| :: Tagged(fields[i])
  }

  /** A submessage is measured on a sizing stream, and encoded on a stream limited to the
      measured size. */
  method EncodeSubmessage(stream: OStream, fields: seq<Field>, cells: seq<Cell>) returns (ok: bool)
    requires stream.Valid() && StoredCells(fields, cells) && AllTagged(fields)
    modifies stream, stream.buf
    ensures stream.Valid()
    ensures Emits(old(stream.St()), stream.St(), ok,
      match EncFields(fields, cells, 0) case Failed => Failed case Out(e) => Out(LengthPrefixed(e)))
    decreases fields, |fields| + 2
  {
    hide EncFields, EncVarint, StoredCells, AllTagged;
    ghost var start := stream.St();
    var measure := new OStream.Sizing();
    var measured := EncodeMessage(measure, fields, cells);
    if !measured {
      return false;
    }
    ghost var e := EncFields(fields, cells, 0).bytes;
    var size := measure.bytesWritten;
    assert size == |e|;
    ghost var prefix := EncVarint(size % TWO64);
    ok := EncodeVarint(stream, size % TWO64);
    ghost var mid := stream.St();
    if !ok {
      EmitsFails(start, mid, mid, Out(prefix), Out(e));
      return false;
    }
    if stream.sizing {
      ok := stream.Count(size);
    } else {
      ok := EncodeMeasured(stream, fields, cells, size);
    }
    EmitsBoth(start, mid, stream.St(), Out(prefix), ok, Out(e));
  }

  /** The second pass, on a stream limited to the measured size: it cannot come out at
      another size. */
  method EncodeMeasured(stream: OStream, fields: seq<Field>, cells: seq<Cell>, size: nat) returns (ok: bool)
    requires stream.Valid() && !stream.sizing && StoredCells(fields, cells) && AllTagged(fields)
    requires Encode(fields, cells).Out? && size == |Encode(fields, cells).bytes|
    modifies stream, stream.buf
    ensures stream.Valid()
    ensures Emits(old(stream.St()), stream.St(), ok, Encode(fields, cells))
    decreases fields, |fields| + 2, 0
  {
    hide EncFields, StoredCells, AllTagged;
    if stream.bytesWritten + size > stream.maxSize {
      return false;
    }
    var substream := new OStream.Limited(stream, size);
    var status := EncodeMessage(substream, fields, cells);
    assert status && substream.bytesWritten == size;
    stream.bytesWritten := stream.bytesWritten + substream.bytesWritten;
    stream.state := substream.state;
    if substream.bytesWritten != size {
      return false;
    }
    return status;
  }

  // ---------- Arrays ----------

  /** Encodes array data back to back. */
  method EncodeItems(stream: OStream, f: Field, items: seq<Value>) returns (ok: bool)
    requires stream.Valid() && Tagged(f) && forall k | 0 <= k < |items| :: StoredValue(f, items[k])
    modifies stream, stream.buf
    ensures stream.Valid()
    ensures Emits(old(stream.St()), stream.St(), ok, EncItems(f, items))
    decreases f, 1
  {
    hide StoredValue, EncValue, Tagged;
    ghost var start := stream.St();
    ghost var done: Emitted := Out([]);
    EmitsNothing(start);
    for i := 0 to |items|
      invariant stream.Valid() && Emits(start, stream.St(), true, done)
      invariant EncItems(f, items) == Cat(done, EncItems(f, items[i..]))
    {
      ghost var mid := stream.St();
      ok := EncodeValue(stream, f, items[i]);
      ghost var next := EncValue(f, items[i]);
      ItemsStep(f, items, i, done, next);
      if !ok {
        EmitsBoth(start, mid, stream.St(), done, false, next);
        EmitsFails(start, stream.St(), stream.St(), Cat(done, next), EncItems(f, items[i + 1..]));
        return false;
      }
      EmitsBoth(start, mid, stream.St(), done, true, next);
      done := Cat(done, next);
    }
    assert items[|items|..] == [];
    CatNothing(done);
    return true;
  }

  lemma ItemsStep(f: Field, items: seq<Value>, i: nat, done: Emitted, next: Emitted)
    requires i < |items| && next == EncValue(f, items[i])
    ensures Cat(done, EncItems(f, items[i..])) == Cat(Cat(done, next), EncItems(f, items[i + 1..]))
  {
    hide EncValue;
    assert items[i..][0] == items[i] && items[i..][1..] == items[i + 1..];
    assert EncItems(f, items[i..]) == Cat(next, EncItems(f, items[i + 1..]));
    CatAssociates(done, next, EncItems(f, items[i + 1..]));
  }

  lemma CatAssociates(a: Emitted, b: Emitted, c: Emitted)
    ensures Cat(a, Cat(b, c)) == Cat(Cat(a, b), c)
  {
    if a.Out? && b.Out? && c.Out? { assert a.bytes + (b.bytes + c.bytes) == a.bytes + b.bytes + c.bytes; }
  }

  lemma CatNothing(a: Emitted)
    ensures Cat(a, Out([])) == a == Cat(Out([]), a)
  {
    if a.Out? { assert a.bytes + [] == a.bytes == [] + a.bytes; }
  }

  /** Encodes one datum under its tag. */
  method EncodeTagged(stream: OStream, f: Field, v: Value) returns (ok: bool)
    requires stream.Valid() && StoredValue(f, v) && Tagged(f)
    modifies stream, stream.buf
    ensures stream.Valid()
    ensures Emits(old(stream.St()), stream.St(), ok, EncTagged(f, v))
    decreases f, 1
  {
    hide StoredValue, EncValue, AllTagged, FieldTag;
    ghost var start := stream.St();
    ok := EncodeTagForField(stream, f);
    ghost var mid := stream.St();
    if !ok {
      EmitsFails(start, mid, mid, Out(FieldTag(f)), EncValue(f, v));
      return false;
    }
    ok := EncodeValue(stream, f, v);
    EmitsBoth(start, mid, stream.St(), Out(FieldTag(f)), ok, EncValue(f, v));
  }

  /** Encodes every entry under its own tag. */
  method EncodeTaggedItems(stream: OStream, f: Field, items: seq<Value>) returns (ok: bool)
    requires stream.Valid() && Tagged(f) && forall k | 0 <= k < |items| :: StoredValue(f, items[k])
    modifies stream, stream.buf
    ensures stream.Valid()
    ensures Emits(old(stream.St()), stream.St(), ok, EncTaggedItems(f, items))
    decreases f, 2
  {
    hide StoredValue, EncTagged, Tagged;
    ghost var start := stream.St();
    ghost var done: Emitted := Out([]);
    EmitsNothing(start);
    for i := 0 to |items|
      invariant stream.Valid() && Emits(start, stream.St(), true, done)
      invariant EncTaggedItems(f, items) == Cat(done, EncTaggedItems(f, items[i..]))
    {
      ghost var mid := stream.St();
      ok := EncodeTagged(stream, f, items[i]);
      ghost var next := EncTagged(f, items[i]);
      TaggedStep(f, items, i, done, next);
      if !ok {
        EmitsBoth(start, mid, stream.St(), done, false, next);
        EmitsFails(start, stream.St(), stream.St(), Cat(done, next), EncTaggedItems(f, items[i + 1..]));
        return false;
      }
      EmitsBoth(start, mid, stream.St(), done, true, next);
      done := Cat(done, next);
    }
    assert items[|items|..] == [];
    CatNothing(done);
    return true;
  }

  lemma TaggedStep(f: Field, items: seq<Value>, i: nat, done: Emitted, next: Emitted)
    requires i < |items| && next == EncTagged(f, items[i])
    ensures Cat(done, EncTaggedItems(f, items[i..])) == Cat(Cat(done, next), EncTaggedItems(f, items[i + 1..]))
  {
    hide EncTagged;
    assert items[i..][0] == items[i] && items[i..][1..] == items[i + 1..];
    assert EncTaggedItems(f, items[i..]) == Cat(next, EncTaggedItems(f, items[i + 1..]));
    CatAssociates(done, next, EncTaggedItems(f, items[i + 1..]));
  }

  /** The size of packed data: known for fixed-width numbers, else measured. */
  method PackedSize(f: Field, items: seq<Value>) returns (ok: bool, size: nat)
    requires Tagged(f) && Packable(f.ltype) && forall k | 0 <= k < |items| :: StoredValue(f, items[k])
    ensures ok <==> EncItems(f, items).Out?
    ensures ok ==> size == |EncItems(f, items).bytes|
    decreases f, 2, 0
  {
    if f.ltype.LFixed32? {
      FixedItemsSize(f, items, 4);
      return true, 4 * |items|;
    } else if f.ltype.LFixed64? {
      FixedItemsSize(f, items, 8);
      return true, 8 * |items|;
    }
    hide EncItems, StoredValue, Tagged;
    var sizestream := new OStream.Sizing();
    ok := EncodeItems(sizestream, f, items);
    size := sizestream.bytesWritten;
  }

  lemma {:induction false} FixedItemsSize(f: Field, items: seq<Value>, width: nat)
    requires (f.ltype.LFixed32? && width == 4) || (f.ltype.LFixed64? && width == 8)
    requires forall k | 0 <= k < |items| :: StoredValue(f, items[k])
    ensures EncItems(f, items).Out? && |EncItems(f, items).bytes| == width * |items|
    decreases |items|
  {
    if items != [] {
      assert StoredValue(f, items[0]);
      FixedItemsSize(f, items[1..], width);
      assert EncItems(f, items) == Cat(EncValue(f, items[0]), EncItems(f, items[1..]));
    }
  }

  method EncodePacked(stream: OStream, f: Field, items: seq<Value>) returns (ok: bool)
    requires stream.Valid() && Tagged(f) && Packable(f.ltype)
    requires forall k | 0 <= k < |items| :: StoredValue(f, items[k])
    modifies stream, stream.buf
    ensures stream.Valid()
    ensures Emits(old(stream.St()), stream.St(), ok,
      match EncItems(f, items) case Failed => Failed case Out(e) => Out(EncTag(WT_STRING, f.tag) + LengthPrefixed(e)))
    decreases f, 3
  {
    hide EncItems, EncVarint, EncTag, StoredValue, AllTagged, Packable;
    ghost var start := stream.St();
    ghost var tag := EncTag(WT_STRING, f.tag);
    ghost var all := EncItems(f, items);
    ghost var body := if all.Out? then Out(LengthPrefixed(all.bytes)) else Failed;
    ok := EncodeTag(stream, WT_STRING, f.tag);
    ghost var mid := stream.St();
    if !ok {
      EmitsFails(start, mid, mid, Out(tag), body);
      return false;
    }
    ok := EncodePackedBody(stream, f, items);
    EmitsBoth(start, mid, stream.St(), Out(tag), ok, body);
  }

  method EncodePackedBody(stream: OStream, f: Field, items: seq<Value>) returns (ok: bool)
    requires stream.Valid() && Tagged(f) && Packable(f.ltype)
    requires forall k | 0 <= k < |items| :: StoredValue(f, items[k])
    modifies stream, stream.buf
    ensures stream.Valid()
    ensures Emits(old(stream.St()), stream.St(), ok,
      match EncItems(f, items) case Failed => Failed case Out(e) => Out(LengthPrefixed(e)))
    decreases f, 2, 1
  {
    hide EncItems, EncVarint, StoredValue, Tagged, Packable;
    ghost var start := stream.St();
    var size;
    ok, size := PackedSize(f, items);
    if !ok {
      return false;
    }
    ghost var e := EncItems(f, items).bytes;
    ghost var prefix := EncVarint(size % TWO64);
    ok := EncodeVarint(stream, size % TWO64);
    ghost var mid := stream.St();
    if !ok {
      EmitsFails(start, mid, mid, Out(prefix), Out(e));
      return false;
    }
    if stream.sizing {
      ok := stream.Count(size);
    } else {
      ok := EncodeItems(stream, f, items);
    }
    EmitsBoth(start, mid, stream.St(), Out(prefix), ok, Out(e));
  }

  method EncodeArray(stream: OStream, f: Field, items: seq<Value>, count: nat) returns (ok: bool)
    requires stream.Valid() && Tagged(f)
    requires forall k | 0 <= k < |items| && k < count :: StoredValue(f, items[k])
    requires count <= f.arraySize ==> count <= |items|
    modifies stream, stream.buf
    ensures stream.Valid()
    ensures Emits(old(stream.St()), stream.St(), ok,
      if |items| < count then Failed else EncArray(f, items[..count]))
    decreases f, 4
  {
    hide StoredValue, Tagged, EncItems, EncTaggedItems, LengthPrefixed, EncTag;
    if count == 0 {
      EmitsNothing(stream.St());
      return true;
    }
    if count > f.arraySize {
      return false;
    }
    if Packable(f.ltype) {
      ok := EncodePacked(stream, f, items[..count]);
    } else {
      ok := EncodeTaggedItems(stream, f, items[..count]);
    }
  }

  // ---------- Fields and messages ----------

  method EncodeBasicField(stream: OStream, f: Field, c: Cell) returns (ok: bool)
    requires stream.Valid() && Tagged(f) && StoredCell(f, c)
    modifies stream, stream.buf
    ensures stream.Valid()
    ensures Emits(old(stream.St()), stream.St(), ok, EncField(f, c))
    decreases f, 5
  {
    hide StoredValue, Tagged, EncTagged, EncArray, IsZero;
    var implicitHas := true;
    if f.HasSize() {
      implicitHas := c.Opt? && c.has;
    } else if f.htype.Optional? {
      var zero := CheckProto3Default(f, c);
      implicitHas := !zero;
    }
    match f.htype {
      case Required =>
        ok := EncodeTagged(stream, f, c.v);
      case Optional =>
        if implicitHas {
          ok := EncodeTagged(stream, f, c.v);
        } else {
          EmitsNothing(stream.St());
          ok := true;
        }
      case Repeated =>
        ok := EncodeArray(stream, f, c.items, if f.HasSize() then c.count else f.arraySize);
      case OneOf =>
        if c.which == f.tag {
          ok := EncodeTagged(stream, f, c.v);
        } else {
          EmitsNothing(stream.St());
          ok := true;
        }
    }
  }

  /** The whole message. It succeeds exactly when the message has an encoding and that
      fits; then exactly the encoding is appended. */
  method EncodeMessage(stream: OStream, fields: seq<Field>, cells: seq<Cell>) returns (ok: bool)
    requires stream.Valid() && StoredCells(fields, cells) && AllTagged(fields)
    modifies stream, stream.buf
    ensures stream.Valid()
    ensures Emits(old(stream.St()), stream.St(), ok, Encode(fields, cells))
    decreases fields, |fields| + 1
  {
    hide StoredCell, StoredCells, EncField, SlotOf, EncFields, DataAt, SizeAt, RequiredIndex, Tagged;
    ghost var start := stream.St();
    EmitsNothing(start);
    var iter := new FieldIter(fields);
    FieldsEnd(fields, cells);
    if fields == [] {
      return true;
    }
    ghost var done: Emitted := Out([]);
    CatNothing(EncFields(fields, cells, 0));
    var more := true;
    while more
      invariant iter.Valid() && iter.fields == fields && fresh(iter)
      invariant stream.Valid() && Emits(start, stream.St(), true, done)
      invariant more ==> EncFields(fields, cells, 0) == Cat(done, EncFields(fields, cells, iter.pos))
      invariant !more ==> EncFields(fields, cells, 0) == Cat(done, Out([]))
      decreases if more then |fields| - iter.pos else 0
    {
      ghost var i := iter.pos;
      StoredAt(fields, cells, i);
      var c := cells[SlotOf(fields, iter.pos)];
      ghost var mid := stream.St();
      ghost var next := EncField(fields[i], c);
      ok := EncodeBasicField(stream, fields[iter.pos], c);
      FieldsNext(fields, cells, i, done, next);
      if !ok {
        EmitsBoth(start, mid, stream.St(), done, false, next);
        EmitsFails(start, stream.St(), stream.St(), Cat(done, next), EncFields(fields, cells, i + 1));
        return false;
      }
      EmitsBoth(start, mid, stream.St(), done, true, next);
      done := Cat(done, next);
      more := iter.Next();
    }
    CatNothing(done);
    return true;
  }

  lemma FieldsEnd(fields: seq<Field>, cells: seq<Cell>)
    ensures EncFields(fields, cells, |fields|) == Out([])
  {
  }

  lemma FieldsNext(fields: seq<Field>, cells: seq<Cell>, i: nat, done: Emitted, next: Emitted)
    requires i < |fields| && SlotOf(fields, i) < |cells| && next == EncField(fields[i], cells[SlotOf(fields, i)])
    ensures Cat(done, EncFields(fields, cells, i)) == Cat(Cat(done, next), EncFields(fields, cells, i + 1))
  {
    hide EncField, SlotOf;
    assert EncFields(fields, cells, i) == Cat(next, EncFields(fields, cells, i + 1));
    CatAssociates(done, next, EncFields(fields, cells, i + 1));
  }

  /** The size a message will have; it is what encoding it into a buffer will advance the
      stream by. */
  method GetEncodedSize(fields: seq<Field>, cells: seq<Cell>) returns (ok: bool, size: nat)
    requires StoredCells(fields, cells) && AllTagged(fields)
    ensures ok <==> Encode(fields, cells).Out?
    ensures ok ==> size == |Encode(fields, cells).bytes|
  {
    hide StoredCells, AllTagged, EncFields;
    var stream := new OStream.Sizing();
    ok := EncodeMessage(stream, fields, cells);
    size := stream.bytesWritten;
  }
}

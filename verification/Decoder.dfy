/** The decoder: loops, streams, iterator and bitmap, proved against `DecodeSpec`.
    Each method that reads promises that it never moves the end of its stream outward,
    and that a successful one keeps it: what the cursor gains, the budget loses. */
module Decoder {
  import opened Bits
  import opened Parse
  import opened Varint
  import opened Descriptor
  import opened EncodeSpec
  import opened DecodeSpec
  import opened Streams
  import opened Iterator
  import opened RequiredBitmap

  // ---------- Varints ----------

  method DecodeVarint32Eof(stream: IStream) returns (ok: bool, value: nat, eof: bool)
    requires stream.Valid()
    modifies stream
    ensures stream.Valid() && stream.End() <= old(stream.End())
    ensures var p := DecVarint32(old(stream.Remaining()));
      && ok == p.Ok?
      && (ok ==> value == p.val && stream.Remaining() == p.rest && stream.End() == old(stream.End()))
    ensures eof <==> old(stream.Remaining()) == []
  {
    hide Or32, DecVarint32, Var32Loop;
    ghost var whole := stream.Remaining();
    ghost var p := DecVarint32(whole);
    Var32First(whole);
    value := 0;
    var byte: Byte;
    ok, byte := stream.ReadByte();
    if !ok {
      return false, 0, stream.bytesLeft == 0;
    }
    if byte < 0x80 {
      return true, byte, false;
    }
    var bitpos: nat := 7;
    var result: nat := byte % 128;
    var more := true;
    while more
      invariant stream.Valid() && stream.End() == old(stream.End()) && result < TWO32
      invariant more ==> p == Var32Loop(stream.Remaining(), result, bitpos)
      invariant !more ==> byte < 128 && p == if bitpos == 35 && byte >= 16 then Fail else Ok(result, stream.Remaining())
      decreases if more then stream.bytesLeft + 1 else 0
    {
      Var32Turn(stream.Remaining(), result, bitpos);
      var read;
      read, byte := stream.ReadByte();
      if !read {
        return false, 0, false;
      }
      if bitpos >= 32 {
        var signExtension := if bitpos < 63 then 0xFF else 0x01;
        if byte % 128 != 0 && (result / TWO31 == 0 || byte != signExtension) {
          return false, 0, false;
        }
      } else {
        result := Or32(result, byte % 128, bitpos);
      }
      bitpos := (bitpos + 7) % 256;
      more := byte >= 128;
    }
    if bitpos == 35 && byte / 16 % 8 != 0 {
      return false, 0, false;
    }
    return true, result, false;
  }

  lemma Var32First(s: seq<Byte>)
    ensures DecVarint32(s)
         == if s == [] then Fail else if s[0] < 128 then Ok(s[0], s[1..]) else Var32Loop(s[1..], s[0] - 128, 7)
  {
    hide Or32;
  }

  lemma Var32Turn(s: seq<Byte>, result: nat, bitpos: nat)
    requires result < TWO32
    ensures s == [] ==> Var32Loop(s, result, bitpos).Fail?
    ensures s != [] ==>
      var r := if bitpos >= 32 then result else Or32(result, s[0] % 128, bitpos);
      var refused := bitpos >= 32 && s[0] % 128 != 0 && (result < TWO31 || s[0] != SignByte(bitpos));
      var next := (bitpos + 7) % 256;
      Var32Loop(s, result, bitpos)
      == if refused then Fail
         else if s[0] >= 128 then Var32Loop(s[1..], r, next)
         else if next == 35 && s[0] >= 16 then Fail
         else Ok(r, s[1..])
  {
    hide Or32;
  }

  method DecodeVarint32(stream: IStream) returns (ok: bool, value: nat)
    requires stream.Valid()
    modifies stream
    ensures stream.Valid() && stream.End() <= old(stream.End())
    ensures var p := DecVarint32(old(stream.Remaining()));
      && ok == p.Ok?
      && (ok ==> value == p.val && stream.Remaining() == p.rest && stream.End() == old(stream.End()))
  {
    var eof;
    ok, value, eof := DecodeVarint32Eof(stream);
  }

  /** Or-s seven shifted bits into the 64-bit accumulator; bits shifted past it are lost. */
  function Or64(result: nat, chunk: nat, bitpos: nat): nat {
    BitOr(result, chunk * Pow2(bitpos) % TWO64) % TWO64
  }

  lemma Or64Adds(result: nat, chunk: nat, k: nat)
    requires k <= 9 && result < Shift(1, k) && chunk < 128
    ensures Or64(result, chunk, 7 * k) == (result + Shift(chunk, k)) % TWO64
    ensures k < 9 ==> (result + Shift(chunk, k)) % TWO64 < Shift(1, k + 1)
  {
    hide BitOr, Pow2, Shift;
    var c := if k == 9 then chunk % 2 else chunk;
    ShiftIsPow2(1, k);
    ShiftIsPow2(1, k + 1);
    ShiftIsPow2(c, k);
    ShiftIsPow2(chunk, k);
    CutChunk64(result, chunk, c, k, Pow2(7 * k));
    OrAboveIsAdd(result, c, 7 * k);
    assert 7 * (k + 1) == 7 + 7 * k;
    PowAdd(7, 7 * k);
    PowValues();
  }

  lemma CutChunk64(result: nat, chunk: nat, c: nat, k: nat, p: nat)
    requires k <= 9 && p == Pow2(7 * k) && result < p && chunk < 128 && c == if k == 9 then chunk % 2 else chunk
    ensures chunk * p % TWO64 == c * p && (result + chunk * p) % TWO64 == result + c * p < TWO64
    ensures result + c * p < 128 * p
  {
    hide Pow2;
    PowValues();
    if k == 9 {
      assert chunk * p == TWO64 * (chunk / 2) + c * p;
      assert result + chunk * p == TWO64 * (chunk / 2) + (result + c * p);
    } else {
      PowAdd(7 * k, 63 - 7 * k);
      assert p * Pow2(63 - 7 * k) == TWO63;
      ChunkBelow(p, Pow2(63 - 7 * k), k);
      assert c * p <= 127 * p;
    }
  }

  lemma ChunkBelow(p: nat, q: nat, k: nat)
    requires k < 9 && p * q == TWO63 && q == Pow2(63 - 7 * k)
    ensures 128 * p <= TWO63
  {
    PowAdd(7, 56 - 7 * k);
    PowValues();
    AtMostProduct(p, Pow2(56 - 7 * k));
  }

  lemma AtMostProduct(p: nat, r: nat)
    requires r >= 1
    ensures 128 * p <= p * (128 * r)
  {
    MulMono(128 * p, 1, r);
    assert p * (128 * r) == 128 * p * r;
  }

  /** The 64-bit reader. Its accumulator holds the groups read so far. */
  method DecodeVarint(stream: IStream) returns (ok: bool, value: nat)
    requires stream.Valid()
    modifies stream
    ensures stream.Valid() && stream.End() <= old(stream.End())
    ensures var p := DecVarint(old(stream.Remaining()));
      && ok == p.Ok?
      && (ok ==> value == p.val && stream.Remaining() == p.rest && stream.End() == old(stream.End()))
  {
    hide Or64, Shift, Continue, DecVarint;
    var bitpos: nat := 0;
    var result: nat := 0;
    var more := true;
    ghost var p := DecVarint(old(stream.Remaining()));
    ghost var k: nat := 0;
    assert Shift(1, 0) == 1 by { ShiftZero(1); }
    NothingRead(old(stream.Remaining()));
    while more
      invariant stream.Valid() && stream.End() == old(stream.End())
      invariant more ==> bitpos == 7 * k && k <= 10 && (k <= 9 ==> result < Shift(1, k))
      invariant more ==> p == Continue(stream.Remaining(), result, k)
      invariant !more ==> p == Ok(result, stream.Remaining())
      decreases if more then stream.bytesLeft + 1 else 0
    {
      ContinueEnds(stream.Remaining(), result, k);
      if bitpos >= 64 {
        return false, 0;
      }
      ghost var s := stream.Remaining();
      var read, byte := stream.ReadByte();
      if !read {
        return false, 0;
      }
      Or64Adds(result, byte % 128, k);
      ContinueStep(s, result, k);
      result := Or64(result, byte % 128, bitpos);
      bitpos := bitpos + 7;
      more := byte >= 128;
      k := k + 1;
    }
    return true, result;
  }

  /** What remains to be read of a varint of which `k` groups, `result`, have been. */
  ghost function Continue(s: seq<Byte>, result: nat, k: nat): Parse<nat> {
    match RawVarint(s, k)
    case Fail => Fail
    case Ok(v, r) => Ok((result + Shift(v, k)) % TWO64, r)
  }

  lemma ShiftZero(w: nat)
    ensures Shift(w, 0) == w
  {
  }

  lemma NothingRead(s: seq<Byte>)
    ensures DecVarint(s) == Continue(s, 0, 0)
  {
    hide RawVarint;
  }

  lemma ContinueEnds(s: seq<Byte>, result: nat, k: nat)
    ensures k >= 10 || s == [] ==> Continue(s, result, k) == Fail
  {
    hide Shift;
  }

  lemma ContinueStep(s: seq<Byte>, result: nat, k: nat)
    requires k <= 9 && s != []
    ensures var r := (result + Shift(s[0] % 128, k)) % TWO64;
      Continue(s, result, k) == if s[0] >= 128 then Continue(s[1..], r, k + 1) else Ok(r, s[1..])
  {
    hide Shift;
    if s[0] >= 128 && RawVarint(s[1..], k + 1).Ok? {
      var v := RawVarint(s[1..], k + 1).val;
      ShiftSum(s[0] - 128, v, k);
      AddCut(result + Shift(s[0] - 128, k), Shift(v, k + 1));
    }
  }

  lemma AddCut(x: nat, y: nat)
    ensures (x % TWO64 + y) % TWO64 == (x + y) % TWO64
  {
    assert x + y == TWO64 * (x / TWO64) + (x % TWO64 + y);
  }

  // ---------- Skipping ----------

  method SkipVarintBytes(stream: IStream) returns (ok: bool)
    requires stream.Valid()
    modifies stream
    ensures stream.Valid() && stream.End() <= old(stream.End())
    ensures var p := SkipVarint(old(stream.Remaining()));
      ok == p.Ok? && (ok ==> stream.Remaining() == p.rest && stream.End() == old(stream.End()))
  {
    var more := true;
    while more
      invariant stream.Valid() && stream.End() == old(stream.End())
      invariant SkipVarint(old(stream.Remaining())) == if more then SkipVarint(stream.Remaining()) else Ok((), stream.Remaining())
      decreases if more then stream.bytesLeft + 1 else 0
    {
      var read, data := stream.Read(1);
      if !read {
        return false;
      }
      more := data[0] >= 128;
    }
    return true;
  }

  method SkipString(stream: IStream) returns (ok: bool)
    requires stream.Valid()
    modifies stream
    ensures stream.Valid() && stream.End() <= old(stream.End())
    ensures var p := TakePrefixed(old(stream.Remaining()));
      ok == p.Ok? && (ok ==> stream.Remaining() == p.rest && stream.End() == old(stream.End()))
  {
    hide DecVarint32;
    var length, skipped;
    ok, length := DecodeVarint32(stream);
    if !ok {
      return false;
    }
    ok, skipped := stream.Read(length);
  }

  method DecodeTag(stream: IStream) returns (ok: bool, wireType: nat, tag: nat, eof: bool)
    requires stream.Valid()
    modifies stream
    ensures stream.Valid() && stream.End() <= old(stream.End())
    ensures var p := DecVarint32(old(stream.Remaining()));
      && ok == (p.Ok? && p.val != 0)
      && (p.Ok? ==> stream.Remaining() == p.rest && stream.End() == old(stream.End()))
      && (ok ==> tag == p.val / 8 && wireType == p.val % 8)
      && (eof <==> (p.Ok? && p.val == 0) || old(stream.Remaining()) == [])
  {
    hide DecVarint32;
    var temp;
    wireType, tag := 0, 0;
    ok, temp, eof := DecodeVarint32Eof(stream);
    if !ok {
      return;
    }
    if temp == 0 {
      return false, 0, 0, true;
    }
    NothingToRead();
    return true, temp % 8, temp / 8, false;
  }

  lemma NothingToRead()
    ensures DecVarint32([]).Fail?
  {
  }

  method SkipFieldBytes(stream: IStream, wireType: nat) returns (ok: bool)
    requires stream.Valid()
    modifies stream
    ensures stream.Valid() && stream.End() <= old(stream.End())
    ensures var p := SkipField(wireType, old(stream.Remaining()));
      ok == p.Ok? && (ok ==> stream.Remaining() == p.rest && stream.End() == old(stream.End()))
  {
    hide SkipVarint, TakePrefixed;
    var skipped;
    if wireType == WT_VARINT {
      ok := SkipVarintBytes(stream);
    } else if wireType == WT_64BIT {
      ok, skipped := stream.Read(8);
    } else if wireType == WT_STRING {
      ok := SkipString(stream);
    } else if wireType == WT_32BIT {
      ok, skipped := stream.Read(4);
    } else {
      ok := false;
    }
  }

  // ---------- Substreams ----------

  /** Splits a length-delimited part off the stream. Until the part is closed, the
      stream's cursor stays at the start of the part and its budget lacks the part. */
  method MakeSubstream(stream: IStream) returns (ok: bool, substream: IStream?)
    requires stream.Valid()
    modifies stream
    ensures stream.Valid() && stream.End() <= old(stream.End())
    ensures var p := TakePrefixed(old(stream.Remaining()));
      && ok == p.Ok?
      && (ok ==>
        && substream != null && fresh(substream) && substream.Valid() && substream.source == stream.source
        && substream.Remaining() == p.val && substream.state == stream.state
        && substream.End() + stream.bytesLeft == old(stream.End())
        && stream.source[substream.End()..old(stream.End())] == p.rest)
  {
    hide DecVarint32;
    substream := null;
    var size;
    ok, size := DecodeVarint32(stream);
    if !ok {
      return false, null;
    }
    if stream.bytesLeft < size {
      return false, null;
    }
    ghost var rest := stream.Remaining();
    substream := new IStream.Limited(stream, size);
    stream.bytesLeft := stream.bytesLeft - size;
    assert rest[..size] == stream.source[stream.state..stream.state + size];
    assert stream.source[substream.End()..old(stream.End())] == rest[size..];
    return true, substream;
  }

  /** Skips what the part still holds and moves the stream behind it: by exactly the
      declared length, whatever was read of the part. */
  method CloseSubstream(stream: IStream, substream: IStream) returns (ok: bool)
    requires stream.Valid() && substream.Valid() && stream != substream && substream.source == stream.source
    requires substream.End() + stream.bytesLeft <= stream.source.Length
    modifies stream, substream
    ensures ok && stream.Valid()
    ensures stream.state == old(substream.End()) && stream.bytesLeft == old(stream.bytesLeft)
  {
    if substream.bytesLeft != 0 {
      var read, _ := substream.Read(substream.bytesLeft);
      if !read {
        return false;
      }
    }
    stream.state := substream.state;
    return true;
  }

  // ---------- Data ----------

  method DecodeScalar(stream: IStream, f: Field) returns (ok: bool, v: Value)
    requires stream.Valid() && Packable(f.ltype)
    modifies stream
    ensures stream.Valid() && stream.End() <= old(stream.End())
    ensures var p := DecScalar(f, old(stream.Remaining()));
      ok == p.Ok? && (ok ==> v == p.val && stream.Remaining() == p.rest && stream.End() == old(stream.End()))
  {
    hide DecVarint, DecVarint32, DecFixed, Signed, InSigned;
    v := Num(0);
    var u: nat;
    match f.ltype {
      case LBool =>
        ok, u := DecodeVarint32(stream);
        v := Num(if u != 0 then 1 else 0);
      case LVarint =>
        ok, u := DecodeVarint(stream);
        if !ok { return; }
        ok, v := CastSigned(f, if f.dataSize == 8 then Signed(u, TWO64) else Signed(u, TWO32));
      case LUVarint =>
        ok, u := DecodeVarint(stream);
        if !ok { return; }
        ok, v := CastUnsigned(f, u);
      case LSVarint =>
        ok, u := DecodeVarint(stream);
        if !ok { return; }
        ok, v := CastSigned(f, if u % 2 == 1 then -(u / 2) - 1 else u / 2);
      case LFixed32 =>
        ok, u := DecodeFixed(stream, 4);
        v := Num(u);
      case LFixed64 =>
        ok, u := DecodeFixed(stream, 8);
        v := Num(u);
    }
  }

  /** Stores through a cast to the field's C type; a value changed by the cast is refused. */
  method CastSigned(f: Field, svalue: int) returns (ok: bool, v: Value)
    ensures ok <==> IntSize(f.dataSize) && InSigned(svalue, Modulus(f.dataSize))
    ensures ok ==> v == Num(svalue)
  {
    if !IntSize(f.dataSize) {
      return false, Num(0);
    }
    var m := Modulus(f.dataSize);
    var clamped := Signed(Unsigned(svalue, m), m);
    CastKeeps(svalue, f.dataSize);
    return clamped == svalue, Num(clamped);
  }

  lemma CastKeeps(n: int, size: nat)
    ensures Signed(Unsigned(n, Modulus(size)), Modulus(size)) == n <==> InSigned(n, Modulus(size))
  {
    if InSigned(n, Modulus(size)) {
      SignedUnsigned(n, Modulus(size));
    }
  }

  method CastUnsigned(f: Field, value: nat) returns (ok: bool, v: Value)
    ensures ok <==> IntSize(f.dataSize) && value < Modulus(f.dataSize)
    ensures ok ==> v == Num(value)
  {
    if !IntSize(f.dataSize) {
      return false, Num(0);
    }
    var clamped := value % Modulus(f.dataSize);
    ModKeeps(value, Modulus(f.dataSize));
    return clamped == value, Num(clamped);
  }

  lemma ModKeeps(n: nat, m: nat)
    requires m > 0
    ensures n % m == n <==> n < m
  {
    if n < m { ModOfSigned(n, m); }
  }

  /** Reads `width` bytes, least significant first. */
  method DecodeFixed(stream: IStream, width: nat) returns (ok: bool, value: nat)
    requires stream.Valid() && (width == 4 || width == 8)
    modifies stream
    ensures stream.Valid() && stream.End() <= old(stream.End())
    ensures var p := DecFixed(old(stream.Remaining()), width);
      ok == p.Ok? && (ok ==> value == p.val && stream.Remaining() == p.rest && stream.End() == old(stream.End()))
  {
    hide FixedValue;
    var bytes;
    value := 0;
    ok, bytes := stream.Read(width);
    if !ok {
      return;
    }
    var b: seq<int> := bytes;
    var low := b[0] + b[1] * 0x100 + b[2] * 0x1_0000 + b[3] * 0x100_0000;
    FixedFour(bytes);
    if width == 4 {
      assert FixedValue(bytes[4..]) == 0 by { assert bytes[4..] == []; NoBytes(); }
      value := low;
    } else {
      FixedFour(bytes[4..]);
      assert FixedValue(bytes[4..][4..]) == 0 by { assert bytes[4..][4..] == []; NoBytes(); }
      value := low + b[4] * TWO32 + b[5] * 0x100_0000_0000
        + b[6] * 0x1_0000_0000_0000 + b[7] * 0x100_0000_0000_0000;
    }
  }

  lemma NoBytes()
    ensures FixedValue([]) == 0
  {
  }

  lemma FixedFour(s: seq<Byte>)
    requires |s| >= 4
    ensures FixedValue(s) == s[0] + s[1] * 0x100 + s[2] * 0x1_0000 + s[3] * 0x100_0000 + TWO32 * FixedValue(s[4..])
  {
    assert FixedValue(s) == s[0] + 256 * FixedValue(s[1..]);
    assert s[1..][1..] == s[2..] && FixedValue(s[1..]) == s[1] + 256 * FixedValue(s[2..]);
    assert s[2..][1..] == s[3..] && FixedValue(s[2..]) == s[2] + 256 * FixedValue(s[3..]);
    assert s[3..][1..] == s[4..] && FixedValue(s[3..]) == s[3] + 256 * FixedValue(s[4..]);
  }

  method DecodeBlob(stream: IStream, f: Field) returns (ok: bool, v: Value)
    requires stream.Valid() && (f.ltype.LBytes? || f.ltype.LString? || f.ltype.LFixedLength?)
    modifies stream
    ensures stream.Valid() && stream.End() <= old(stream.End())
    ensures var p := DecBlob(f, old(stream.Remaining()));
      ok == p.Ok? && (ok ==> v == p.val && stream.Remaining() == p.rest && stream.End() == old(stream.End()))
  {
    hide DecVarint32;
    v := Num(0);
    var size, data;
    ok, size := DecodeVarint32(stream);
    if !ok {
      return;
    }
    match f.ltype {
      case LBytes =>
        if size + BYTES_HEADER > f.dataSize { return false, v; }
      case LString =>
        if size + 1 > f.dataSize { return false, v; }
      case LFixedLength =>
        if size == 0 {
          return true, Blob(Zeroes(f.dataSize));
        }
        if size != f.dataSize { return false, v; }
    }
    ok, data := stream.Read(size);
    v := Blob(data);
  }

  // ---------- Defaults ----------

  /** Sets a struct to its defaults, whatever it held. */
  method SetToDefaults(fields: seq<Field>, cells: seq<Cell>) returns (r: seq<Cell>)
    requires |cells| == NumSlots(fields)
    ensures r == DefaultCells(fields)
    decreases fields, 0
  {
    hide DefaultCell, DataAt, SizeAt, RequiredIndex, DefaultCells, SlotOf;
    r := cells;
    DefaultCellsLength(fields);
    var iter := new FieldIter(fields);
    if fields == [] {
      return;
    }
    var more := true;
    while more
      invariant iter.Valid() && iter.fields == fields && fresh(iter) && |r| == NumSlots(fields)
      invariant forall j | 0 <= j < if more then iter.pos else |fields| ::
        SlotOf(fields, j) < |r| && r[SlotOf(fields, j)] == DefaultCell(fields[j])
      decreases if more then |fields| - iter.pos else 0
    {
      ghost var i := iter.pos;
      SlotMonotone(fields, i, i);
      var c := SetFieldToDefault(fields[iter.pos], r[SlotOf(fields, iter.pos)]);
      DefaultShared(fields, i);
      r := r[SlotOf(fields, iter.pos) := c];
      more := iter.Next();
    }
    forall k | 0 <= k < |r| ensures r[k] == DefaultCells(fields)[k] {
      var j := SlotTaken(fields, |fields|, k);
      DefaultCellsAt(fields, j);
    }
  }

  /** Fields that share a cell share its default. */
  lemma DefaultShared(fields: seq<Field>, i: nat)
    requires i < |fields|
    ensures forall j | 0 <= j < i && SlotOf(fields, j) == SlotOf(fields, i) :: DefaultCell(fields[j]) == DefaultCell(fields[i])
  {
    hide SlotOf;
    forall j | 0 <= j < i && SlotOf(fields, j) == SlotOf(fields, i)
      ensures DefaultCell(fields[j]) == DefaultCell(fields[i])
    {
      SharedSlot(fields, j, i);
    }
  }

  /** Every cell belongs to a field. */
  lemma {:induction false} SlotTaken(fields: seq<Field>, n: nat, k: nat) returns (j: nat)
    requires 0 < n <= |fields| && k <= SlotOf(fields, n - 1)
    ensures j < n && SlotOf(fields, j) == k
    decreases n
  {
    if k == SlotOf(fields, n - 1) { j := n - 1; } else { j := SlotTaken(fields, n - 1, k); }
  }

  method SetFieldToDefault(f: Field, c: Cell) returns (r: Cell)
    ensures r == DefaultCell(f)
    decreases f, 0
  {
    if f.htype.Repeated? {
      return Arr(0, []);
    } else if f.htype.OneOf? {
      return Union(0, Num(0));
    }
    var v;
    if f.ltype.LSubmessage? {
      DefaultCellsLength(f.sub);
      assert DefaultValue(f) == Msg(DefaultCells(f.sub));
      var sub := SetToDefaults(f.sub, ValueCells(f, CellValue(c)));
      v := Msg(sub);
    } else if f.initial.Init? {
      v := f.initial.value;
    } else if Packable(f.ltype) {
      v := Num(0);
    } else {
      v := Blob(if f.ltype.LFixedLength? then Zeroes(f.dataSize) else []);
    }
    return if f.htype.Optional? && f.HasSize() then Opt(false, v) else Single(v);
  }

  // ---------- Messages ----------

  method DecodeValue(stream: IStream, f: Field, prior: Value) returns (ok: bool, v: Value)
    requires stream.Valid() && WellFormedField(f)
    modifies stream
    ensures stream.Valid() && stream.End() <= old(stream.End())
    ensures var p := DecValue(f, prior, old(stream.Remaining()));
      ok == p.Ok? && (ok ==> v == p.val && stream.Remaining() == p.rest && stream.End() == old(stream.End()))
    decreases f, 0
  {
    hide DecScalar, DecBlob, WellFormed, DecMsg, TakePrefixed;
    if Packable(f.ltype) {
      ok, v := DecodeScalar(stream, f);
    } else if f.ltype.LSubmessage? {
      ok, v := DecodeSubmessage(stream, f, prior);
    } else {
      ok, v := DecodeBlob(stream, f);
    }
  }

  method DecodeSubmessage(stream: IStream, f: Field, prior: Value) returns (ok: bool, v: Value)
    requires stream.Valid() && f.ltype.LSubmessage? && WellFormed(f.sub)
    modifies stream
    ensures stream.Valid() && stream.End() <= old(stream.End())
    ensures var p := DecValue(f, prior, old(stream.Remaining()));
      ok == p.Ok? && (ok ==> v == p.val && stream.Remaining() == p.rest && stream.End() == old(stream.End()))
    decreases f.sub, 4
  {
    hide WellFormed, DecMsg, TakePrefixed, DefaultCells, NumSlots;
    v := Num(0);
    DefaultCellsLength(f.sub);
    var substream;
    ok, substream := MakeSubstream(stream);
    if !ok {
      return false, v;
    }
    ghost var start := if f.htype.Repeated? then DefaultCells(f.sub) else ValueCells(f, prior);
    ghost var body := substream.Remaining();
    var status, cells;
    if f.htype.Repeated? {
      status, cells := DecodeMessage(substream, f.sub, ValueCells(f, prior));
    } else {
      status, cells := DecodeNoinit(substream, f.sub, ValueCells(f, prior));
    }
    ok := CloseSubstream(stream, substream);
    return status, Msg(cells);
  }

  /** Packed data, until the part is used up or the array is full. */
  method DecodePacked(stream: IStream, f: Field, items: seq<Value>, size: nat)
    returns (ok: bool, r: seq<Value>, n: nat)
    requires stream.Valid() && WellFormedField(f)
    modifies stream
    ensures stream.Valid() && stream.End() <= old(stream.End())
    ensures var p := DecPacked(f, items, size, old(stream.Remaining()));
      ok == p.Ok? && (ok ==> (r, n) == p.val && stream.Remaining() == [] && stream.End() == old(stream.End()))
    decreases f, 1
  {
    hide DecValue, WellFormedField, DecPacked;
    r, n := items, size;
    var status := true;
    ghost var p := DecPacked(f, items, size, stream.Remaining());
    while stream.bytesLeft > 0 && n < f.arraySize
      invariant stream.Valid() && stream.End() == old(stream.End())
      invariant p == DecPacked(f, r, n, stream.Remaining())
      decreases stream.bytesLeft
    {
      ghost var s := stream.Remaining();
      PackedTurn(f, r, n, s);
      var v;
      status, v := DecodeValue(stream, f, Num(0));
      if !status {
        return false, r, n;
      }
      assert stream.bytesLeft == |stream.Remaining()| < |s|;
      r := Put(r, n, v);
      n := n + 1;
    }
    PackedTurn(f, r, n, stream.Remaining());
    ok := stream.bytesLeft == 0;
  }

  lemma PackedTurn(f: Field, items: seq<Value>, size: nat, s: seq<Byte>)
    ensures DecPacked(f, items, size, s)
         == if s == [] then Ok((items, size), [])
            else if size >= f.arraySize then Fail
            else match DecValue(f, Num(0), s)
              case Fail => Fail
              case Ok(v, r) => DecPacked(f, Put(items, size, v), size + 1, r)
  {
    hide DecValue;
  }

  method DecodeArray(stream: IStream, f: Field, items: seq<Value>, size: nat, wireType: nat)
    returns (ok: bool, r: seq<Value>, n: nat)
    requires stream.Valid() && WellFormedField(f)
    modifies stream
    ensures stream.Valid() && stream.End() <= old(stream.End())
    ensures var p := DecArray(f, items, size, wireType, old(stream.Remaining()));
      ok == p.Ok? && (ok ==> (r, n) == p.val && stream.Remaining() == p.rest && stream.End() == old(stream.End()))
    decreases f, 2
  {
    hide DecValue, WellFormedField, DecPacked, TakePrefixed;
    r, n := items, size;
    if wireType == WT_STRING && Packable(f.ltype) {
      var substream;
      ok, substream := MakeSubstream(stream);
      if !ok {
        return;
      }
      ok, r, n := DecodePacked(substream, f, items, size);
      if !ok {
        return;
      }
      ok := CloseSubstream(stream, substream);
    } else {
      if size >= f.arraySize {
        return false, r, n;
      }
      var v;
      ok, v := DecodeValue(stream, f, Num(0));
      r, n := Put(items, size, v), size + 1;
    }
  }

  method DecodeStaticField(stream: IStream, f: Field, c: Cell, counter: nat, wireType: nat)
    returns (ok: bool, r: Cell, counter': nat)
    requires stream.Valid() && WellFormedField(f)
    modifies stream
    ensures stream.Valid() && stream.End() <= old(stream.End())
    ensures var p := DecField(f, c, counter, wireType, old(stream.Remaining()));
      ok == p.Ok? && (ok ==> (r, counter') == p.val && stream.Remaining() == p.rest && stream.End() == old(stream.End()))
    decreases f, 3
  {
    hide DecValue, DecArray, WellFormed, DefaultCells;
    counter' := counter;
    var v;
    match f.htype {
      case Required =>
        ok, v := DecodeValue(stream, f, CellValue(c));
        r := Single(v);
      case Optional =>
        ok, v := DecodeValue(stream, f, CellValue(c));
        r := if f.HasSize() then Opt(true, v) else Single(v);
      case Repeated =>
        var items, n;
        ok, items, n := DecodeArray(stream, f, CellItems(c), if f.HasSize() then CellCount(c) else counter, wireType);
        if f.HasSize() {
          r := Arr(n, items);
        } else {
          r, counter' := Arr(CellCount(c), items), n;
        }
      case OneOf =>
        var prior := Num(0);
        if f.ltype.LSubmessage? {
          DefaultCellsLength(f.sub);
          var cells := SetToDefaults(f.sub, ValueCells(f, CellValue(c)));
          prior := Msg(cells);
        }
        ok, v := DecodeValue(stream, f, prior);
        r := Union(f.tag, v);
    }
  }

  /** The decoder's variables stand for the state `st`: the struct, the bitmap of seen
      required fields, and the tracked count-less array (-1 when there is none). */
  ghost predicate Mirrors(
    fields: seq<Field>, st: State, cells: seq<Cell>, words: seq<nat>, fixedField: int, fixedSize: nat)
  {
    && st.cells == cells && |cells| == NumSlots(fields)
    && Tracked(fields, st.seen) && Holds(words, Marks(fields, st.seen))
    && (if fixedField == -1 then st.tracker == Idle
        else 0 <= fixedField < |fields| && fields[fixedField].IsFixedArray() && st.tracker == Filling(fixedField, fixedSize))
  }

  /** The iterator's size reference is the field's own, or the counter of the tracked array. */
  ghost predicate SizeOk(iter: FieldIter, fixedField: int)
    reads iter
  {
    && iter.At(iter.pos)
    && (iter.pSize.Counter? ==>
      iter.pos < |iter.fields| && iter.fields[iter.pos].IsFixedArray() && fixedField == iter.pos)
    && (!iter.pSize.Counter? ==> iter.SizeInStruct())
  }

  /** Makes the current field, when it is a count-less array, the tracked one; the array
      tracked before must be complete. */
  method TrackFixedArray(iter: FieldIter, fixedField: int, fixedSize: nat)
    returns (ok: bool, field': int, size': nat)
    requires SizeOk(iter, fixedField) && iter.fields != []
    requires fixedField == -1 || (0 <= fixedField < |iter.fields| && iter.fields[fixedField].IsFixedArray())
    modifies iter`pSize
    ensures SizeOk(iter, field') && iter.pos < |iter.fields|
    ensures iter.pSize.Counter? <==> iter.fields[iter.pos].IsFixedArray()
    ensures !iter.fields[iter.pos].IsFixedArray() ==> ok && field' == fixedField && size' == fixedSize
    ensures iter.fields[iter.pos].IsFixedArray() ==>
      && (ok <==> fixedField == iter.pos || fixedField == -1 || fixedSize == iter.fields[fixedField].arraySize)
      && (ok ==> field' == iter.pos && size' == if fixedField == iter.pos then fixedSize else 0)
  {
    hide DataAt, RequiredIndex;
    field', size' := fixedField, fixedSize;
    var f := iter.fields[iter.pos];
    SizeIsData(iter.fields, iter.pos);
    if f.htype.Repeated? && iter.pSize == InStruct(iter.pData) {
      if fixedField != iter.pos {
        if fixedField != -1 && fixedSize != iter.fields[fixedField].arraySize {
          field' := iter.pos;
          iter.pSize := Counter;
          return false, field', size';
        }
        field', size' := iter.pos, 0;
      }
      iter.pSize := Counter;
    }
    ok := true;
  }

  lemma SizeIsData(fields: seq<Field>, i: nat)
    requires i < |fields|
    ensures fields[i].htype.Repeated? ==> (SizeAt(fields, i) == DataAt(fields, i) <==> !fields[i].HasSize())
  {
    hide DataAt;
  }

  /** One record of the field the iterator found. */
  method DecodeKnownField(
    stream: IStream, fields: seq<Field>, iter: FieldIter, cells: seq<Cell>, words: seq<nat>,
    fixedField: int, fixedSize: nat, wireType: nat, ghost st: State)
    returns (ok: bool, cells': seq<Cell>, words': seq<nat>, field': int, size': nat, ghost st': State)
    requires stream.Valid() && WellFormed(fields) && fields != [] && iter.fields == fields
    requires Mirrors(fields, st, cells, words, fixedField, fixedSize) && SizeOk(iter, fixedField)
    modifies stream, iter`pSize
    ensures stream.Valid() && stream.End() <= old(stream.End())
    ensures iter.pos == old(iter.pos) && iter.pos < |fields|
    ensures var p := DecKnown(fields, st, iter.pos, wireType, old(stream.Remaining()));
      && ok == p.Next?
      && (ok ==>
        && p == Next(st', stream.Remaining()) && stream.End() == old(stream.End())
        && Mirrors(fields, st', cells', words', field', size') && SizeOk(iter, field'))
    decreases fields, 0
  {
    hide DecField, WellFormed, WellFormedField, Holds, RequiredIndex, SlotOf, NumSlots, Marks, DataAt, SizeAt;
    cells', words', st' := cells, words, st;
    var i := iter.pos;
    var f := fields[i];
    SlotMonotone(fields, i, i);
    assert WellFormedField(f) by { FieldIsWellFormed(fields, i); }
    ok, field', size' := TrackFixedArray(iter, fixedField, fixedSize);
    if !ok {
      return;
    }
    ghost var seen := st.seen;
    if f.htype.Required? && iter.requiredFieldIndex < PB_MAX_REQUIRED_FIELDS {
      words' := Mark(words, iter.requiredFieldIndex, Marks(fields, st.seen));
      MarksGrow(fields, st.seen, i);
      seen := st.seen + {i};
    }
    var c, counter;
    ok, c, counter := DecodeStaticField(stream, f, cells[SlotOf(fields, i)], if iter.pSize.Counter? then size' else 0, wireType);
    if !ok {
      return;
    }
    cells' := cells[SlotOf(fields, i) := c];
    if iter.pSize.Counter? {
      size' := counter;
    }
    st' := State(cells', seen, if f.IsFixedArray() then Filling(i, counter) else st.tracker);
  }

  lemma MarksGrow(fields: seq<Field>, seen: set<nat>, i: nat)
    requires Tracked(fields, seen) && i < |fields| && fields[i].htype.Required?
    requires RequiredIndex(fields, i) < PB_MAX_REQUIRED_FIELDS
    ensures Tracked(fields, seen + {i}) && Marks(fields, seen + {i}) == Marks(fields, seen) + {RequiredIndex(fields, i)}
  {
    hide RequiredIndex;
  }

  /** Counts the required fields by stepping the iterator to the end of the descriptor,
      and compares the bitmap. */
  method CheckRequired(fields: seq<Field>, iter: FieldIter, words: seq<nat>, ghost seen: set<nat>) returns (ok: bool)
    requires iter.fields == fields && iter.At(iter.pos) && Tracked(fields, seen) && Holds(words, Marks(fields, seen))
    requires iter.SizeInStruct() || (fields != [] && !fields[iter.pos].htype.OneOf?)
    modifies iter
    ensures ok <==> RequiredSeen(fields, seen)
  {
    hide Holds, DataAt, SizeAt, Marks;
    var reqFieldCount := iter.requiredFieldIndex;
    var lastRequired := fields == [] || fields[iter.pos].htype.Required?;
    var more := iter.Next();
    while more
      invariant iter.fields == fields && iter.Valid()
      invariant more ==> fields != []
      invariant !more ==> iter.pos == 0
      invariant !more && fields != [] ==>
        reqFieldCount == RequiredIndex(fields, |fields| - 1) && lastRequired == fields[|fields| - 1].htype.Required?
      invariant !more && fields == [] ==> reqFieldCount == 0
      decreases if more then |fields| - iter.pos else 0
    {
      reqFieldCount := iter.requiredFieldIndex;
      lastRequired := fields[iter.pos].htype.Required?;
      more := iter.Next();
    }
    if lastRequired && fields != [] {
      reqFieldCount := reqFieldCount + 1;
    }
    if reqFieldCount > PB_MAX_REQUIRED_FIELDS {
      reqFieldCount := PB_MAX_REQUIRED_FIELDS;
    }
    assert reqFieldCount == TrackedCount(fields);
    MarksCover(fields, seen);
    ok := AllSeen(words, reqFieldCount, Marks(fields, seen));
  }

  /** Decoding into a struct that already has values. */
  method DecodeNoinit(stream: IStream, fields: seq<Field>, dest: seq<Cell>) returns (ok: bool, cells: seq<Cell>)
    requires stream.Valid() && WellFormed(fields) && |dest| == NumSlots(fields)
    modifies stream
    ensures stream.Valid() && stream.End() <= old(stream.End())
    ensures var p := DecMsg(fields, dest, old(stream.Remaining()));
      ok == p.Ok? && (ok ==> cells == p.val && stream.Remaining() == p.rest && stream.End() == old(stream.End()))
    decreases fields, 2
  {
    hide DecLoop, DecTagged, WellFormed, Holds, Marks, NumSlots, RequiredSeen, DecVarint32;
    cells := dest;
    var words := [0, 0];
    var fixedField, fixedSize := -1, 0;
    var iter := new FieldIter(fields);
    ghost var st := Start(dest);
    NothingSeen(fields);
    ghost var all := DecLoop(fields, st, stream.Remaining());
    var ended := false;
    while !ended && stream.bytesLeft > 0
      invariant stream.Valid() && stream.End() == old(stream.End())
      invariant iter.fields == fields && fresh(iter) && SizeOk(iter, fixedField)
      invariant Mirrors(fields, st, cells, words, fixedField, fixedSize)
      invariant !ended ==> all == DecLoop(fields, st, stream.Remaining())
      invariant ended ==> all == Ok(st, stream.Remaining())
      decreases !ended, stream.bytesLeft
    {
      ghost var s := stream.Remaining();
      LoopTurn(fields, st, s);
      var tagged, wireType, tag, eof := DecodeTag(stream);
      if !tagged {
        if !eof {
          return false, cells;
        }
        ended := true;
      } else {
        ok, cells, words, fixedField, fixedSize, st :=
          DecodeTaggedField(stream, fields, iter, cells, words, fixedField, fixedSize, tag, wireType, st);
        if !ok {
          return false, cells;
        }
      }
    }
    LoopTurn(fields, st, []);
    if fixedField != -1 && fixedSize != fields[fixedField].arraySize {
      return false, cells;
    }
    ok := CheckRequired(fields, iter, words, st.seen);
  }

  lemma NothingSeen(fields: seq<Field>)
    ensures Tracked(fields, {}) && Holds([0, 0], Marks(fields, {}))
  {
    EmptyHolds();
    assert Marks(fields, {}) == {};
  }

  /** The outcome of the loop after a record that is not the zero tag. */
  ghost function GoOn(fields: seq<Field>, p: Step): Parse<State>
    requires p.Next? ==> |p.st.cells| == NumSlots(fields)
  {
    if p.Next? then DecLoop(fields, p.st, p.rest) else Fail
  }

  lemma LoopTurn(fields: seq<Field>, st: State, s: seq<Byte>)
    requires |st.cells| == NumSlots(fields)
    ensures s == [] ==> DecLoop(fields, st, s) == Ok(st, [])
    ensures s != [] ==>
      var key := DecVarint32(s);
      DecLoop(fields, st, s)
      == if key.Fail? then Fail
         else if key.val == 0 then Ok(st, key.rest)
         else GoOn(fields, DecTagged(fields, st, key.val / 8, key.val % 8, key.rest))
  {
    hide DecVarint32, DecTagged;
    if s != [] { assert DecRecord(fields, st, s) == DecRecord(fields, st, s); }
  }

  /** The record after its tag: known, unknown, or taken for the terminator. */
  method DecodeTaggedField(
    stream: IStream, fields: seq<Field>, iter: FieldIter, cells: seq<Cell>, words: seq<nat>,
    fixedField: int, fixedSize: nat, tag: nat, wireType: nat, ghost st: State)
    returns (ok: bool, cells': seq<Cell>, words': seq<nat>, field': int, size': nat, ghost st': State)
    requires stream.Valid() && WellFormed(fields) && iter.fields == fields
    requires Mirrors(fields, st, cells, words, fixedField, fixedSize) && SizeOk(iter, fixedField)
    modifies stream, iter
    ensures stream.Valid() && stream.End() <= old(stream.End())
    ensures var p := DecTagged(fields, st, tag, wireType, old(stream.Remaining()));
      && ok == p.Next?
      && (ok ==>
        && p == Next(st', stream.Remaining()) && stream.End() == old(stream.End())
        && Mirrors(fields, st', cells', words', field', size') && SizeOk(iter, field'))
    decreases fields, 1
  {
    hide DecKnown, SkipField, Holds, Marks, NumSlots, DecVarint32, DataAt, SizeAt, RequiredIndex, WellFormedField;
    cells', words', field', size', st' := cells, words, fixedField, fixedSize, st;
    var found := iter.Find(tag);
    assert fields != [] ==> (if found then FindTag(fields, tag) == iter.pos else FindTag(fields, tag) == |fields|) by {
      if fields != [] && found { FindTagAt(fields, iter.pos); }
    }
    if !found {
      ok := SkipFieldBytes(stream, wireType);
    } else if fields == [] {
      // The terminator reads as a required bool; the flag it sets is never looked at.
      var value;
      ok, value := DecodeVarint32(stream);
    } else {
      ok, cells', words', field', size', st' :=
        DecodeKnownField(stream, fields, iter, cells, words, fixedField, fixedSize, wireType, st);
    }
  }

  method DecodeMessage(stream: IStream, fields: seq<Field>, dest: seq<Cell>) returns (ok: bool, cells: seq<Cell>)
    requires stream.Valid() && WellFormed(fields) && |dest| == NumSlots(fields)
    modifies stream
    ensures stream.Valid() && stream.End() <= old(stream.End())
    ensures |DefaultCells(fields)| == NumSlots(fields)
    ensures var p := DecMsg(fields, DefaultCells(fields), old(stream.Remaining()));
      ok == p.Ok? && (ok ==> cells == p.val && stream.Remaining() == p.rest && stream.End() == old(stream.End()))
    decreases fields, 3
  {
    hide DecMsg, DefaultCells, WellFormed;
    DefaultCellsLength(fields);
    var start := SetToDefaults(fields, dest);
    ok, cells := DecodeNoinit(stream, fields, start);
  }
}

/** Decoding what was encoded gives the message back. */
module RoundTrip {
  import opened Bits
  import opened Parse
  import opened Varint
  import opened Descriptor
  import opened EncodeSpec
  import opened DecodeSpec

  // ---------- Valid messages ----------

  predicate Short(e: Emitted) {
    e.Out? && |e.bytes| < TWO32
  }

  predicate ValidScalar(f: Field, n: int) {
    match f.ltype
    case LBool => true
    case LVarint | LSVarint => IntSize(f.dataSize) && InSigned(n, Modulus(f.dataSize))
    case LUVarint => IntSize(f.dataSize) && 0 <= n < Modulus(f.dataSize)
    case LFixed32 => 0 <= n < TWO32
    case LFixed64 => 0 <= n < TWO64
    case _ => false
  }

  predicate ValidBlob(f: Field, b: seq<Byte>) {
    match f.ltype
    case LBytes => |b| + BYTES_HEADER <= f.dataSize
    case LString => StrLen(b) < f.dataSize && |b| <= f.dataSize
    case LFixedLength => |b| == f.dataSize
    case _ => false
  }

  /** A datum the field's C type holds: integers in range, a string with its NUL, bytes
      within the buffer, and submessages whose length fits 32 bits. */
  predicate ValidValue(f: Field, v: Value)
    decreases f, 0
  {
    match v
    case Num(n) => ValidScalar(f, n)
    case Blob(b) => ValidBlob(f, b)
    case Msg(cells) => f.ltype.LSubmessage? && ValidCells(f.sub, cells) && Short(EncFields(f.sub, cells, 0))
  }

  predicate ValidCell(f: Field, c: Cell)
    decreases f, 1
  {
    match f.htype
    case Required => c.Single? && ValidValue(f, c.v)
    case Optional =>
      if f.HasSize() then c.Opt? && (c.has ==> ValidValue(f, c.v)) else c.Single? && ValidValue(f, c.v)
    case Repeated =>
      && c.Arr?
      && SendCount(f, c) <= |c.items| && SendCount(f, c) <= f.arraySize
      && (forall k | 0 <= k < SendCount(f, c) :: ValidValue(f, c.items[k]))
      && (Packable(f.ltype) ==> Short(EncItems(f, c.items[..SendCount(f, c)])))
    case OneOf => c.Union? && (c.which == f.tag ==> ValidValue(f, c.v))
  }

  predicate ValidCells(fields: seq<Field>, cells: seq<Cell>)
    decreases fields
  {
    && |cells| == NumSlots(fields)
    && forall i | 0 <= i < |fields| ::
      SlotOf(fields, i) < |cells| && ValidCell(fields[i], cells[SlotOf(fields, i)])
  }

  // ---------- What the receiver holds ----------

  /** The datum the receiver holds: a bool is 0 or 1, a string ends at its NUL. */
  function NormValue(f: Field, v: Value): Value
    decreases f, 0
  {
    match v
    case Num(n) => if f.ltype.LBool? then Num(if n != 0 then 1 else 0) else v
    case Blob(b) => if f.ltype.LString? then Blob(b[..StrLen(b)]) else v
    case Msg(cells) => Msg(Normalize(f.sub, cells))
  }

  function NormItems(f: Field, items: seq<Value>): (r: seq<Value>)
    ensures |r| == |items|
    decreases f, 1, |items|
  {
    if items == [] then [] else [NormValue(f, items[0])] + NormItems(f, items[1..])
  }

  /** What sending `c` makes of the receiver's cell `d`: nothing, when nothing is sent. */
  function NormCell(f: Field, c: Cell, d: Cell): Cell
    decreases f, 2
  {
    match f.htype
    case Required => if c.Single? then Single(NormValue(f, c.v)) else d
    case Optional =>
      if IsDefault(f, c) then d
      else if c.Opt? then Opt(true, NormValue(f, c.v))
      else if c.Single? then Single(NormValue(f, c.v))
      else d
    case Repeated =>
      if c.Arr? && SendCount(f, c) <= |c.items| then
        Arr(if f.HasSize() then c.count else 0, NormItems(f, c.items[..SendCount(f, c)]))
      else d
    case OneOf => if c.Union? && c.which == f.tag then Union(f.tag, NormValue(f, c.v)) else d
  }

  /** The receiver's cells `dst` after the fields from number `i` on arrived. */
  function Received(fields: seq<Field>, src: seq<Cell>, dst: seq<Cell>, i: nat): (r: seq<Cell>)
    requires i <= |fields|
    ensures |r| == |dst|
    decreases fields, |fields| - i
  {
    if i == |fields| then dst
    else
      var k := SlotOf(fields, i);
      if k < |src| && k < |dst| then
        Received(fields, src, dst[k := NormCell(fields[i], src[k], dst[k])], i + 1)
      else
        Received(fields, src, dst, i + 1)
  }

  /** The message with what is not sent replaced by the descriptor's defaults. */
  function Normalize(fields: seq<Field>, cells: seq<Cell>): seq<Cell>
    decreases fields, |fields| + 1
  {
    Received(fields, cells, DefaultCells(fields), 0)
  }

  // ---------- Scalars and blobs ----------

  lemma ModulusDivides(x: nat, size: nat)
    requires IntSize(size)
    ensures x < Modulus(size) ==> x < TWO64
  {
  }

  lemma VarintField(f: Field, n: int, t: seq<Byte>)
    requires f.ltype.LVarint? && ValidScalar(f, n)
    ensures EncScalar(f, n).Out? && DecScalar(f, EncScalar(f, n).bytes + t) == Ok(Num(n), t)
  {
    hide DecVarint, EncVarint, Unsigned, Signed;
    var m := Modulus(f.dataSize);
    SignedUnsigned(n, m);
    var u := Unsigned(n, TWO64);
    assert u < TWO64 by { UnsignedBound(n); }
    VarintRoundTrip(u, t);
    if f.dataSize == 8 {
      SignedUnsigned(n, TWO64);
    } else {
      SignedOfWide(n);
    }
  }

  lemma UnsignedBound(n: int)
    ensures Unsigned(n, TWO64) < TWO64
  {
  }

  lemma SignedOfWide(n: int)
    requires InSigned(n, TWO32)
    ensures Signed(Unsigned(n, TWO64), TWO32) == n
  {
    ModOfSigned(n, TWO64);
    ModOfSigned(n, TWO32);
    var u := Unsigned(n, TWO64);
    if n < 0 {
      assert u == TWO32 * (TWO32 - 1) + (n + TWO32);
      assert u % TWO32 == n + TWO32;
    }
  }

  lemma UVarintField(f: Field, n: int, t: seq<Byte>)
    requires f.ltype.LUVarint? && ValidScalar(f, n)
    ensures EncScalar(f, n).Out? && DecScalar(f, EncScalar(f, n).bytes + t) == Ok(Num(n), t)
  {
    hide DecVarint, EncVarint;
    ModulusDivides(n, f.dataSize);
    VarintRoundTrip(n, t);
  }

  lemma SVarintField(f: Field, n: int, t: seq<Byte>)
    requires f.ltype.LSVarint? && ValidScalar(f, n)
    ensures EncScalar(f, n).Out? && DecScalar(f, EncScalar(f, n).bytes + t) == Ok(Num(n), t)
  {
    hide DecVarint, EncVarint, Unsigned, Signed;
    SignedUnsigned(n, Modulus(f.dataSize));
    ZigZagRoundTrip(n);
    assert ZigZag(n) < TWO64;
    VarintRoundTrip(ZigZag(n), t);
  }

  lemma FixedField(f: Field, n: int, t: seq<Byte>)
    requires (f.ltype.LFixed32? || f.ltype.LFixed64?) && ValidScalar(f, n)
    ensures EncScalar(f, n).Out? && DecScalar(f, EncScalar(f, n).bytes + t) == Ok(Num(n), t)
  {
    hide EncFixed, DecFixed, FixedValue, Pow2;
    PowValues();
    if f.ltype.LFixed32? {
      FixedRoundTrip(n, 4, t);
    } else {
      FixedRoundTrip(n, 8, t);
    }
  }

  lemma ScalarRoundTrip(f: Field, n: int, t: seq<Byte>)
    requires ValidScalar(f, n)
    ensures EncScalar(f, n).Out? && DecScalar(f, EncScalar(f, n).bytes + t) == Ok(NormValue(f, Num(n)), t)
  {
    match f.ltype
    case LBool =>
      hide DecVarint32, EncVarint;
      Varint32RoundTrip(if n != 0 then 1 else 0, t);
    case LVarint => hide EncScalar, DecScalar; VarintField(f, n, t);
    case LUVarint => hide EncScalar, DecScalar; UVarintField(f, n, t);
    case LSVarint => hide EncScalar, DecScalar; SVarintField(f, n, t);
    case _ => hide EncScalar, DecScalar; FixedField(f, n, t);
  }

  lemma PrefixedRoundTrip(b: seq<Byte>, t: seq<Byte>)
    requires |b| < TWO32
    ensures TakePrefixed(LengthPrefixed(b) + t) == Ok(b, t)
    ensures DecVarint32(LengthPrefixed(b) + t) == Ok(|b|, b + t)
  {
    hide DecVarint32, EncVarint;
    assert |b| % TWO64 == |b|;
    assert LengthPrefixed(b) + t == EncVarint(|b|) + (b + t);
    Varint32RoundTrip(|b|, b + t);
    assert (b + t)[..|b|] == b && (b + t)[|b|..] == t;
  }

  lemma BlobRoundTrip(f: Field, b: seq<Byte>, t: seq<Byte>)
    requires ValidBlob(f, b) && f.dataSize <= PB_SIZE_MAX
    ensures EncBlob(f, b).Out? && DecBlob(f, EncBlob(f, b).bytes + t) == Ok(NormValue(f, Blob(b)), t)
  {
    hide DecVarint32, EncVarint, LengthPrefixed, StrLen;
    var sent := if f.ltype.LString? then b[..StrLen(b)] else b;
    PrefixedRoundTrip(sent, t);
    assert (sent + t)[..|sent|] == sent && (sent + t)[|sent|..] == t;
    if f.ltype.LFixedLength? && |b| == 0 {
      assert Zeroes(f.dataSize) == b && t == sent + t;
    }
  }

  // ---------- Messages ----------

  /** The states decoding passes through when field `i` with cell `c` arrives. */
  function After(fields: seq<Field>, st: State, i: nat, c: Cell): (r: State)
    requires i < |fields| && |st.cells| == NumSlots(fields)
    ensures |r.cells| == NumSlots(fields)
  {
    var f := fields[i];
    SlotMonotone(fields, i, i);
    var k := SlotOf(fields, i);
    State(
      st.cells[k := NormCell(f, c, st.cells[k])],
      Seen(fields, st.seen, i),
      if f.IsFixedArray() && f.arraySize > 0 then Filling(i, f.arraySize) else st.tracker)
  }

  function Seen(fields: seq<Field>, seen: set<nat>, i: nat): set<nat>
    requires i < |fields|
  {
    if fields[i].htype.Required? && RequiredIndex(fields, i) < PB_MAX_REQUIRED_FIELDS then seen + {i} else seen
  }

  /** A struct cell that field `f` has not been received into. */
  predicate Fresh(f: Field, d: Cell) {
    f.htype.OneOf? || d == DefaultCell(f)
  }

  /** No field from number `i` on has been received. */
  predicate Untouched(fields: seq<Field>, st: State, i: nat)
    requires |st.cells| == NumSlots(fields)
  {
    && (forall j | i <= j < |fields| ::
      SlotOf(fields, j) < |st.cells| && Fresh(fields[j], st.cells[SlotOf(fields, j)]))
    && (st.tracker.Filling? ==> st.tracker.at < i)
  }

  lemma {:induction false} ValueRoundTrip(f: Field, v: Value, prior: Value, t: seq<Byte>)
    requires WellFormedField(f) && ValidValue(f, v)
    requires f.ltype.LSubmessage? && !f.htype.Repeated? ==> ValueCells(f, prior) == DefaultCells(f.sub)
    ensures EncValue(f, v).Out?
    ensures DecValue(f, prior, EncValue(f, v).bytes + t) == Ok(NormValue(f, v), t)
    decreases f, 0
  {
    match v
    case Num(n) => ScalarRoundTrip(f, n, t);
    case Blob(b) => BlobRoundTrip(f, b, t);
    case Msg(cells) =>
      MessageRoundTrip(f.sub, cells);
      PrefixedRoundTrip(EncFields(f.sub, cells, 0).bytes, t);
  }

  lemma {:induction false} PackedRoundTrip(f: Field, items: seq<Value>, got: seq<Value>)
    requires WellFormedField(f) && Packable(f.ltype)
    requires forall k | 0 <= k < |items| :: ValidValue(f, items[k])
    requires |got| + |items| <= f.arraySize
    ensures EncItems(f, items).Out?
    ensures DecPacked(f, got, |got|, EncItems(f, items).bytes)
         == Ok((got + NormItems(f, items), |got| + |items|), [])
    decreases f, 1, |items|
  {
    hide EncItems, NormItems, NormValue, DecValue, EncValue, ValidValue, WellFormedField;
    if items == [] {
      NoItems(f);
      assert got + [] == got;
    } else {
      var v := NormValue(f, items[0]);
      PackedRoundTrip(f, items[1..], got + [v]);
      var rest := EncItems(f, items[1..]).bytes;
      ValueRoundTrip(f, items[0], Num(0), rest);
      SplitItems(f, items);
      assert got + [v] + NormItems(f, items[1..]) == got + NormItems(f, items);
    }
  }

  /** A record with the tag of field `i` is received as that field. */
  lemma TagRoundTrip(fields: seq<Field>, st: State, i: nat, wireType: nat, s: seq<Byte>)
    requires WellFormed(fields) && i < |fields| && wireType < 8 && |st.cells| == NumSlots(fields)
    ensures DecRecord(fields, st, EncTag(wireType, fields[i].tag) + s) == DecKnown(fields, st, i, wireType, s)
  {
    hide DecVarint32, EncVarint, DecKnown;
    var tag := fields[i].tag;
    assert WellFormedField(fields[i]);
    Varint32RoundTrip(8 * tag + wireType, s);
    FindTagAt(fields, i);
  }

  lemma LoopStep(fields: seq<Field>, st: State, s: seq<Byte>)
    requires |st.cells| == NumSlots(fields) && DecRecord(fields, st, s).Next?
    ensures DecLoop(fields, st, s) == DecLoop(fields, DecRecord(fields, st, s).st, DecRecord(fields, st, s).rest)
  {
    hide DecRecord;
  }

  // ---------- One record ----------

  /** The state after field `i` took the single datum `v`. */
  function Took(fields: seq<Field>, st: State, i: nat, v: Value): (r: State)
    requires i < |fields| && |st.cells| == NumSlots(fields)
    ensures |r.cells| == NumSlots(fields)
  {
    var f := fields[i];
    SlotMonotone(fields, i, i);
    var cell :=
      match f.htype
      case Optional => if f.HasSize() then Opt(true, v) else Single(v)
      case OneOf => Union(f.tag, v)
      case _ => Single(v);
    State(st.cells[SlotOf(fields, i) := cell], Seen(fields, st.seen, i), st.tracker)
  }

  /** The datum that a record of the singular field `f` is merged into. */
  function Prior(f: Field, c: Cell): Value {
    if f.htype.OneOf? then (if f.ltype.LSubmessage? then Msg(DefaultCells(f.sub)) else Num(0)) else CellValue(c)
  }

  lemma PriorIsDefault(f: Field, c: Cell)
    requires !f.htype.Repeated? && Fresh(f, c)
    ensures f.ltype.LSubmessage? ==> ValueCells(f, Prior(f, c)) == DefaultCells(f.sub)
  {
    DefaultCellsLength(f.sub);
    assert f.ltype.LSubmessage? ==> DefaultValue(f) == Msg(DefaultCells(f.sub));
  }

  lemma {:induction false} SingleStep(fields: seq<Field>, st: State, i: nat, v: Value, t: seq<Byte>)
    requires WellFormed(fields) && i < |fields| && |st.cells| == NumSlots(fields)
    requires !fields[i].htype.Repeated? && ValidValue(fields[i], v)
    requires SlotOf(fields, i) < |st.cells| && Fresh(fields[i], st.cells[SlotOf(fields, i)])
    ensures EncTagged(fields[i], v).Out?
    ensures DecRecord(fields, st, EncTagged(fields[i], v).bytes + t) == Next(Took(fields, st, i, NormValue(fields[i], v)), t)
    decreases fields, 0, 0
  {
    hide EncValue, DecValue, EncTag, DecRecord, NormValue, RequiredIndex, SlotOf, DefaultCells;
    var f := fields[i];
    var c := st.cells[SlotOf(fields, i)];
    assert WellFormedField(f);
    var prior := Prior(f, c);
    PriorIsDefault(f, c);
    ValueRoundTrip(f, v, prior, t);
    var e := EncValue(f, v).bytes;
    assert EncTagged(f, v).bytes + t == EncTag(WireTypeOf(f.ltype), f.tag) + (e + t);
    TagRoundTrip(fields, st, i, WireTypeOf(f.ltype), e + t);
  }

  // ---------- Arrays ----------

  function ArrayCell(f: Field, d: Cell, items: seq<Value>): Cell {
    Arr(if f.HasSize() then |items| else CellCount(d), items)
  }

  /** The state after the entries of array field `i` became `items`. */
  function Filled(fields: seq<Field>, st: State, i: nat, items: seq<Value>): (r: State)
    requires i < |fields| && |st.cells| == NumSlots(fields)
    ensures |r.cells| == NumSlots(fields)
  {
    var f := fields[i];
    SlotMonotone(fields, i, i);
    var k := SlotOf(fields, i);
    State(st.cells[k := ArrayCell(f, st.cells[k], items)], st.seen,
      if f.IsFixedArray() && items != [] then Filling(i, |items|) else st.tracker)
  }

  /** Array field `i` holds exactly the entries `got`, and may take more. */
  predicate Holding(fields: seq<Field>, st: State, i: nat, got: seq<Value>)
    requires i < |fields| && |st.cells| == NumSlots(fields)
  {
    var f := fields[i];
    SlotMonotone(fields, i, i);
    var c := st.cells[SlotOf(fields, i)];
    && f.htype.Repeated?
    && c.Arr? && c == ArrayCell(f, c, got)
    && (f.IsFixedArray() ==>
      if got == [] then TrackerDone(fields, st.tracker) && !(st.tracker.Filling? && st.tracker.at == i)
      else st.tracker == Filling(i, |got|))
  }

  lemma FilledTwice(fields: seq<Field>, st: State, i: nat, a: seq<Value>, b: seq<Value>)
    requires i < |fields| && |st.cells| == NumSlots(fields) && a != [] && b != []
    ensures Filled(fields, Filled(fields, st, i, a), i, b) == Filled(fields, st, i, b)
  {
    hide SlotOf;
    SlotMonotone(fields, i, i);
  }

  lemma FilledWithGot(fields: seq<Field>, st: State, i: nat, got: seq<Value>)
    requires i < |fields| && |st.cells| == NumSlots(fields) && Holding(fields, st, i, got)
    ensures Filled(fields, st, i, got) == st
  {
    hide SlotOf;
    SlotMonotone(fields, i, i);
    var k := SlotOf(fields, i);
    assert st.cells[k := st.cells[k]] == st.cells;
  }

  lemma HoldingIsArray(fields: seq<Field>, st: State, i: nat, got: seq<Value>)
    requires i < |fields| && |st.cells| == NumSlots(fields) && Holding(fields, st, i, got)
    ensures fields[i].htype.Repeated?
  {
  }

  lemma HoldingFilled(fields: seq<Field>, st: State, i: nat, items: seq<Value>)
    requires i < |fields| && |st.cells| == NumSlots(fields) && fields[i].htype.Repeated? && items != []
    ensures Holding(fields, Filled(fields, st, i, items), i, items)
  {
    hide SlotOf;
    SlotMonotone(fields, i, i);
  }

  /** An entry under its own tag, whether or not its type could be packed. */
  lemma {:induction false} ItemStep(fields: seq<Field>, st: State, i: nat, got: seq<Value>, v: Value, t: seq<Byte>)
    requires WellFormed(fields) && i < |fields| && |st.cells| == NumSlots(fields)
    requires Holding(fields, st, i, got) && |got| < fields[i].arraySize && ValidValue(fields[i], v)
    ensures EncTagged(fields[i], v).Out?
    ensures DecRecord(fields, st, EncTagged(fields[i], v).bytes + t)
         == Next(Filled(fields, st, i, got + [NormValue(fields[i], v)]), t)
    decreases fields, 0, 0
  {
    hide EncValue, DecValue, EncTag, DecRecord, NormValue, RequiredIndex, SlotOf;
    var f := fields[i];
    assert WellFormedField(f);
    SlotMonotone(fields, i, i);
    ValueRoundTrip(f, v, Num(0), t);
    var e := EncValue(f, v).bytes;
    assert EncTagged(f, v).bytes + t == EncTag(WireTypeOf(f.ltype), f.tag) + (e + t);
    TagRoundTrip(fields, st, i, WireTypeOf(f.ltype), e + t);
    assert DecArray(f, got, |got|, WireTypeOf(f.ltype), e + t) == Ok((got + [NormValue(f, v)], |got| + 1), t);
  }

  lemma {:induction false} TaggedItemsRoundTrip(
    fields: seq<Field>, st: State, i: nat, got: seq<Value>, items: seq<Value>, t: seq<Byte>)
    requires WellFormed(fields) && i < |fields| && |st.cells| == NumSlots(fields)
    requires Holding(fields, st, i, got) && |got| + |items| <= fields[i].arraySize
    requires !Packable(fields[i].ltype)
    requires forall k | 0 <= k < |items| :: ValidValue(fields[i], items[k])
    ensures EncTaggedItems(fields[i], items).Out?
    ensures DecLoop(fields, st, EncTaggedItems(fields[i], items).bytes + t)
         == DecLoop(fields, Filled(fields, st, i, got + NormItems(fields[i], items)), t)
    decreases fields, 0, 1, |items|
  {
    hide DecLoop, EncTagged, DecRecord, Filled, Holding, NormValue, EncTaggedItems, NormItems;
    var f := fields[i];
    if items == [] {
      NoItems(f);
      assert got + [] == got;
      FilledWithGot(fields, st, i, got);
      assert [] + t == t;
    } else {
      var v := NormValue(f, items[0]);
      var all := got + NormItems(f, items);
      var st' := Filled(fields, st, i, got + [v]);
      assert f.htype.Repeated? by { HoldingIsArray(fields, st, i, got); }
      HoldingFilled(fields, st, i, got + [v]);
      TaggedItemsRoundTrip(fields, st', i, got + [v], items[1..], t);
      var rest := EncTaggedItems(f, items[1..]).bytes + t;
      ItemStep(fields, st, i, got, items[0], rest);
      LoopStep(fields, st, EncTagged(f, items[0]).bytes + rest);
      SplitItems(f, items);
      assert EncTaggedItems(f, items).bytes + t == EncTagged(f, items[0]).bytes + rest;
      assert got + [v] + NormItems(f, items[1..]) == all;
      FilledTwice(fields, st, i, got + [v], all);
    }
  }

  lemma NoItems(f: Field)
    ensures NormItems(f, []) == [] && EncTaggedItems(f, []) == EncItems(f, []) == Out([])
  {
  }

  lemma SplitItems(f: Field, items: seq<Value>)
    requires items != []
    ensures NormItems(f, items) == [NormValue(f, items[0])] + NormItems(f, items[1..])
    ensures EncTaggedItems(f, items) == Cat(EncTagged(f, items[0]), EncTaggedItems(f, items[1..]))
    ensures EncItems(f, items) == Cat(EncValue(f, items[0]), EncItems(f, items[1..]))
  {
    hide EncTagged, EncValue, NormValue;
  }

  /** A packed record of field `f`. */
  function PackedRecord(f: Field, items: seq<Value>): seq<Byte>
    requires EncItems(f, items).Out?
  {
    EncTag(WT_STRING, f.tag) + LengthPrefixed(EncItems(f, items).bytes)
  }

  predicate PackedOk(f: Field, got: seq<Value>, items: seq<Value>) {
    && Packable(f.ltype) && |got| + |items| <= f.arraySize
    && (forall k | 0 <= k < |items| :: ValidValue(f, items[k]))
    && Short(EncItems(f, items))
    && (f.IsFixedArray() ==> items != [])
  }

  lemma {:induction false} PackedStep(fields: seq<Field>, st: State, i: nat, got: seq<Value>, items: seq<Value>, t: seq<Byte>)
    requires WellFormed(fields) && i < |fields| && |st.cells| == NumSlots(fields)
    requires Holding(fields, st, i, got) && PackedOk(fields[i], got, items)
    ensures DecRecord(fields, st, PackedRecord(fields[i], items) + t)
         == Next(Filled(fields, st, i, got + NormItems(fields[i], items)), t)
    decreases fields, 0, 1
  {
    hide EncItems, EncTag, DecRecord, NormItems, LengthPrefixed, Filled, DecKnown, Holding, ValidValue;
    var f := fields[i];
    var e := EncItems(f, items).bytes;
    assert PackedRecord(f, items) + t == EncTag(WT_STRING, f.tag) + (LengthPrefixed(e) + t);
    PackedKnown(fields, st, i, got, items, t);
    TagRoundTrip(fields, st, i, WT_STRING, LengthPrefixed(e) + t);
  }

  lemma {:induction false} PackedKnown(fields: seq<Field>, st: State, i: nat, got: seq<Value>, items: seq<Value>, t: seq<Byte>)
    requires WellFormed(fields) && i < |fields| && |st.cells| == NumSlots(fields)
    requires Holding(fields, st, i, got) && PackedOk(fields[i], got, items)
    ensures DecKnown(fields, st, i, WT_STRING, LengthPrefixed(EncItems(fields[i], items).bytes) + t)
         == Next(Filled(fields, st, i, got + NormItems(fields[i], items)), t)
    decreases fields, 0, 0
  {
    hide EncItems, DecPacked, NormItems, RequiredIndex, SlotOf, LengthPrefixed, TakePrefixed, ValidValue, WellFormed;
    var f := fields[i];
    SlotMonotone(fields, i, i);
    assert WellFormedField(f) by { FieldIsWellFormed(fields, i); }
    PackedRoundTrip(f, items, got);
    PrefixedRoundTrip(EncItems(f, items).bytes, t);
    assert DecArray(f, got, |got|, WT_STRING, LengthPrefixed(EncItems(f, items).bytes) + t)
        == Ok((got + NormItems(f, items), |got| + |items|), t);
  }

  // ---------- One field ----------

  lemma {:induction false} ArrayFieldRoundTrip(fields: seq<Field>, st: State, i: nat, c: Cell, t: seq<Byte>)
    requires WellFormed(fields) && i < |fields| && |st.cells| == NumSlots(fields)
    requires fields[i].htype.Repeated? && ValidCell(fields[i], c)
    requires Holding(fields, st, i, []) && SlotOf(fields, i) < |st.cells| && st.cells[SlotOf(fields, i)] == Arr(0, [])
    ensures EncField(fields[i], c).Out?
    ensures DecLoop(fields, st, EncField(fields[i], c).bytes + t) == DecLoop(fields, After(fields, st, i, c), t)
    decreases fields, 0, 2
  {
    hide DecLoop, EncTaggedItems, EncItems, NormItems, SlotOf;
    var f := fields[i];
    var items := c.items[..SendCount(f, c)];
    SlotMonotone(fields, i, i);
    assert Filled(fields, st, i, NormItems(f, items)) == After(fields, st, i, c);
    if items == [] {
      NormItemsEmpty(f);
      FilledWithGot(fields, st, i, []);
      assert [] + t == t;
    } else if Packable(f.ltype) {
      hide Filled, Holding, After, PackedRecord, DecRecord;
      PackedStep(fields, st, i, [], items, t);
      assert [] + NormItems(f, items) == NormItems(f, items);
      assert EncArray(f, items) == Out(PackedRecord(f, items)) by { PackedArray(f, items); }
      LoopStep(fields, st, PackedRecord(f, items) + t);
    } else {
      hide Filled, Holding, After;
      TaggedItemsRoundTrip(fields, st, i, [], items, t);
      assert [] + NormItems(f, items) == NormItems(f, items);
    }
  }

  lemma PackedArray(f: Field, items: seq<Value>)
    requires Packable(f.ltype) && EncItems(f, items).Out? && 0 < |items| <= f.arraySize
    ensures EncArray(f, items) == Out(PackedRecord(f, items))
  {
    hide EncItems;
  }

  lemma NormItemsEmpty(f: Field)
    ensures NormItems(f, []) == []
  {
  }

  lemma {:induction false} FieldRoundTrip(fields: seq<Field>, st: State, i: nat, c: Cell, t: seq<Byte>)
    requires WellFormed(fields) && i < |fields| && |st.cells| == NumSlots(fields)
    requires ValidCell(fields[i], c) && Untouched(fields, st, i) && TrackerDone(fields, st.tracker)
    ensures EncField(fields[i], c).Out?
    ensures DecLoop(fields, st, EncField(fields[i], c).bytes + t) == DecLoop(fields, After(fields, st, i, c), t)
    decreases fields, 0, 3
  {
    var f := fields[i];
    var k := SlotOf(fields, i);
    if f.htype.Repeated? {
      hide DecLoop, EncField, SlotOf, After;
      ArrayFieldRoundTrip(fields, st, i, c, t);
    } else if (f.htype.Required? || (f.htype.OneOf? && c.which == f.tag) || (f.htype.Optional? && !IsDefault(f, c))) {
      hide DecLoop, EncTagged, SlotOf, DecRecord, RequiredIndex, NormValue, ValidValue, IsZero;
      SingleStep(fields, st, i, c.v, t);
      LoopStep(fields, st, EncTagged(f, c.v).bytes + t);
      assert Took(fields, st, i, NormValue(f, c.v)) == After(fields, st, i, c);
    } else {
      hide DecLoop, SlotOf, IsZero;
      assert st.cells[k := st.cells[k]] == st.cells;
      assert After(fields, st, i, c) == st;
      assert [] + t == t;
    }
  }

  // ---------- Whole messages ----------

  function AfterAll(fields: seq<Field>, src: seq<Cell>, st: State, i: nat): (r: State)
    requires i <= |fields| && |st.cells| == |src| == NumSlots(fields)
    ensures |r.cells| == NumSlots(fields)
    decreases |fields| - i
  {
    if i == |fields| then st
    else
      SlotMonotone(fields, i, i);
      AfterAll(fields, src, After(fields, st, i, src[SlotOf(fields, i)]), i + 1)
  }

  lemma AfterUntouched(fields: seq<Field>, st: State, i: nat, c: Cell)
    requires i < |fields| && |st.cells| == NumSlots(fields) && Untouched(fields, st, i)
    requires TrackerDone(fields, st.tracker)
    ensures Untouched(fields, After(fields, st, i, c), i + 1)
    ensures TrackerDone(fields, After(fields, st, i, c).tracker)
  {
    hide NormCell, RequiredIndex;
    var st' := After(fields, st, i, c);
    forall j | i + 1 <= j < |fields|
      ensures SlotOf(fields, j) < |st'.cells| && Fresh(fields[j], st'.cells[SlotOf(fields, j)])
    {
      if SlotOf(fields, j) == SlotOf(fields, i) {
        SharedSlot(fields, i, j);
      }
    }
  }

  lemma {:induction false} FieldsRoundTrip(fields: seq<Field>, src: seq<Cell>, st: State, i: nat, t: seq<Byte>)
    requires WellFormed(fields) && ValidCells(fields, src) && i <= |fields|
    requires |st.cells| == NumSlots(fields) && Untouched(fields, st, i) && TrackerDone(fields, st.tracker)
    ensures EncFields(fields, src, i).Out?
    ensures DecLoop(fields, st, EncFields(fields, src, i).bytes + t) == DecLoop(fields, AfterAll(fields, src, st, i), t)
    ensures TrackerDone(fields, AfterAll(fields, src, st, i).tracker)
    decreases fields, |fields| - i
  {
    hide After, EncField, Untouched, TrackerDone, ValidCell, NumSlots, DecLoop, EncFields, AfterAll, WellFormed;
    FieldsStep(fields, src, st, i);
    if i == |fields| {
      assert [] + t == t;
    } else {
      var c := src[SlotOf(fields, i)];
      var st' := After(fields, st, i, c);
      AfterUntouched(fields, st, i, c);
      FieldsRoundTrip(fields, src, st', i + 1, t);
      var tail := EncFields(fields, src, i + 1).bytes;
      FieldRoundTrip(fields, st, i, c, tail + t);
      assert EncField(fields[i], c).bytes + tail + t == EncField(fields[i], c).bytes + (tail + t);
    }
  }

  lemma FieldsStep(fields: seq<Field>, src: seq<Cell>, st: State, i: nat)
    requires ValidCells(fields, src) && i <= |fields| && |st.cells| == NumSlots(fields)
    ensures i == |fields| ==>
      EncFields(fields, src, i) == Out([]) && AfterAll(fields, src, st, i) == st
    ensures i < |fields| ==>
      && SlotOf(fields, i) < |src|
      && ValidCell(fields[i], src[SlotOf(fields, i)])
      && EncFields(fields, src, i) == Cat(EncField(fields[i], src[SlotOf(fields, i)]), EncFields(fields, src, i + 1))
      && AfterAll(fields, src, st, i) == AfterAll(fields, src, After(fields, st, i, src[SlotOf(fields, i)]), i + 1)
  {
    hide After, EncField, ValidCell, NumSlots, DecRecord;
  }

  lemma {:induction false} AfterAllIs(fields: seq<Field>, src: seq<Cell>, st: State, i: nat)
    requires i <= |fields| && |st.cells| == |src| == NumSlots(fields)
    ensures AfterAll(fields, src, st, i).cells == Received(fields, src, st.cells, i)
    ensures st.seen <= AfterAll(fields, src, st, i).seen
    ensures forall j | i <= j < |fields| && fields[j].htype.Required? && RequiredIndex(fields, j) < PB_MAX_REQUIRED_FIELDS ::
      j in AfterAll(fields, src, st, i).seen
    decreases |fields| - i
  {
    if i < |fields| {
      hide NormCell;
      SlotMonotone(fields, i, i);
      AfterAllIs(fields, src, After(fields, st, i, src[SlotOf(fields, i)]), i + 1);
    }
  }

  lemma {:induction false} MessageRoundTrip(fields: seq<Field>, cells: seq<Cell>)
    requires WellFormed(fields) && ValidCells(fields, cells)
    ensures EncFields(fields, cells, 0).Out?
    ensures Decode(fields, EncFields(fields, cells, 0).bytes) == Ok(Normalize(fields, cells), [])
    decreases fields, |fields| + 2
  {
    hide DecLoop, EncFields, DefaultCells, AfterAll, Received, TrackerDone;
    DefaultCellsLength(fields);
    MessageLoop(fields, cells, []);
    var e := EncFields(fields, cells, 0).bytes;
    assert e + [] == e;
    LoopEnds(fields, AfterAll(fields, cells, Start(DefaultCells(fields)), 0));
  }

  lemma LoopEnds(fields: seq<Field>, st: State)
    requires |st.cells| == NumSlots(fields)
    ensures DecLoop(fields, st, []) == Ok(st, [])
  {
  }

  /** The state in which a message leaves a receiver that started from defaults. */
  lemma {:induction false} MessageLoop(fields: seq<Field>, cells: seq<Cell>, t: seq<Byte>)
    requires WellFormed(fields) && ValidCells(fields, cells)
    ensures EncFields(fields, cells, 0).Out? && |DefaultCells(fields)| == NumSlots(fields)
    ensures
      var st := AfterAll(fields, cells, Start(DefaultCells(fields)), 0);
      && DecLoop(fields, Start(DefaultCells(fields)), EncFields(fields, cells, 0).bytes + t) == DecLoop(fields, st, t)
      && st.cells == Normalize(fields, cells) && TrackerDone(fields, st.tracker) && RequiredSeen(fields, st.seen)
    decreases fields, |fields| + 1
  {
    hide DecLoop, EncFields, DefaultCells, AfterAll, Received, TrackerDone;
    DefaultCellsLength(fields);
    var st := Start(DefaultCells(fields));
    StartUntouched(fields);
    assert TrackerDone(fields, Idle) by { IdleDone(fields); }
    FieldsRoundTrip(fields, cells, st, 0, t);
    AfterAllIs(fields, cells, st, 0);
  }

  lemma StartUntouched(fields: seq<Field>)
    ensures |DefaultCells(fields)| == NumSlots(fields) && Untouched(fields, Start(DefaultCells(fields)), 0)
  {
    hide DefaultCells;
    DefaultCellsLength(fields);
    var st := Start(DefaultCells(fields));
    forall j | 0 <= j < |fields|
      ensures SlotOf(fields, j) < |st.cells| && Fresh(fields[j], st.cells[SlotOf(fields, j)])
    {
      DefaultCellsAt(fields, j);
    }
  }

  /** A message followed by a zero byte ends there, whatever follows. */
  lemma NullTerminatedRoundTrip(fields: seq<Field>, cells: seq<Cell>, t: seq<Byte>)
    requires WellFormed(fields) && ValidCells(fields, cells)
    ensures Encode(fields, cells).Out?
    ensures Decode(fields, Encode(fields, cells).bytes + [0] + t) == Ok(Normalize(fields, cells), t)
  {
    hide EncFields, DefaultCells, AfterAll, Received, TrackerDone, DecLoop;
    DefaultCellsLength(fields);
    MessageLoop(fields, cells, [0] + t);
    var e := EncFields(fields, cells, 0).bytes;
    assert e + [0] + t == e + ([0] + t);
    LoopStops(fields, AfterAll(fields, cells, Start(DefaultCells(fields)), 0), t);
  }

  lemma LoopStops(fields: seq<Field>, st: State, t: seq<Byte>)
    requires |st.cells| == NumSlots(fields)
    ensures DecLoop(fields, st, [0] + t) == Ok(st, t)
  {
    hide DecTagged;
    assert ([0] + t)[0] == 0 && ([0] + t)[1..] == t;
    assert DecRecord(fields, st, [0] + t) == Stop(t);
  }

  lemma IdleDone(fields: seq<Field>)
    ensures TrackerDone(fields, Idle)
  {
  }
}

/** What any accepted byte string decodes to: a struct whose contents keep to their C types
    and buffers, which can be sent on. */
module Accepted {
  import opened Bits
  import opened Varint
  import opened Descriptor
  import opened EncodeSpec
  import opened DecodeSpec
  import opened RoundTrip
  import opened Elision
  import opened Meaning

  // ---------- Structs within bounds ----------

  predicate HeldValue(f: Field, v: Value)
    decreases f, 0
  {
    match v
    case Num(n) => ValidScalar(f, n)
    case Blob(b) => ValidBlob(f, b)
    case Msg(cells) => f.ltype.LSubmessage? && HeldCells(f.sub, cells)
  }

  /** The cell is of its field's kind, its data are within range and buffer, and an array
      knows the entries it counts and no more than it has room for. */
  predicate HeldCell(f: Field, c: Cell)
    decreases f, 1
  {
    match f.htype
    case Required => c.Single? && HeldValue(f, c.v)
    case Optional => if f.HasSize() then c.Opt? && HeldValue(f, c.v) else c.Single? && HeldValue(f, c.v)
    case Repeated =>
      && c.Arr?
      && (f.HasSize() ==> c.count <= |c.items|) && |c.items| <= f.arraySize
      && (forall k | 0 <= k < |c.items| :: HeldValue(f, c.items[k]))
    case OneOf => c.Union? && (c.which == f.tag ==> HeldValue(f, c.v))
  }

  predicate HeldCells(fields: seq<Field>, cells: seq<Cell>)
    decreases fields
  {
    && |cells| == NumSlots(fields)
    && forall i | 0 <= i < |fields| ::
      SlotOf(fields, i) < |cells| && HeldCell(fields[i], cells[SlotOf(fields, i)])
  }

  /** Every default fits the type and the buffer of its field, at every depth. */
  predicate HeldDefaults(fields: seq<Field>)
    decreases fields
  {
    forall i | 0 <= i < |fields| :: HeldDefault(fields[i])
  }

  predicate HeldDefault(f: Field)
    decreases f
  {
    && (f.ltype.LSubmessage? ==> HeldDefaults(f.sub))
    && ((f.htype.Required? || f.htype.Optional?) && !f.ltype.LSubmessage? ==> HeldValue(f, DefaultValue(f)))
  }

  lemma {:induction false} DefaultsAreHeld(fields: seq<Field>)
    requires WellFormed(fields) && HeldDefaults(fields)
    ensures HeldCells(fields, DefaultCells(fields))
    decreases fields
  {
    DefaultCellsLength(fields);
    forall i | 0 <= i < |fields|
      ensures SlotOf(fields, i) < |DefaultCells(fields)| && HeldCell(fields[i], DefaultCells(fields)[SlotOf(fields, i)])
    {
      hide DefaultCells, SlotOf, ValidScalar, ValidBlob;
      var f := fields[i];
      DefaultCellsAt(fields, i);
      assert WellFormedField(f) && HeldDefault(f);
      if f.ltype.LSubmessage? {
        DefaultsAreHeld(f.sub);
        assert DefaultValue(f) == Msg(DefaultCells(f.sub));
      }
    }
  }

  // ---------- Decoding keeps them within bounds ----------

  lemma {:induction false} FixedBound(s: seq<Byte>)
    ensures FixedValue(s) < Pow2(8 * |s|)
  {
    if s == [] {
      assert Pow2(0) == 1;
    } else {
      FixedBound(s[1..]);
      assert Pow2(8) == 256;
      assert 8 * |s| == 8 + 8 * |s[1..]|;
      PowAdd(8, 8 * |s[1..]|);
    }
  }

  lemma ScalarHeld(f: Field, s: seq<Byte>)
    requires DecScalar(f, s).Ok?
    ensures HeldValue(f, DecScalar(f, s).val)
  {
    hide DecVarint, DecVarint32, FixedValue, Pow2, Signed, Modulus;
    PowValues();
    if f.ltype.LFixed32? { FixedBound(s[..4]); }
    if f.ltype.LFixed64? { FixedBound(s[..8]); }
  }

  lemma BlobHeld(f: Field, s: seq<Byte>)
    requires DecBlob(f, s).Ok?
    ensures HeldValue(f, DecBlob(f, s).val)
  {
    hide DecVarint32, StrLen;
  }

  /** The struct a datum is merged into, if there is one, is within bounds. */
  predicate HeldPrior(f: Field, prior: Value) {
    f.ltype.LSubmessage? && prior.Msg? && |prior.cells| == NumSlots(f.sub) ==> HeldCells(f.sub, prior.cells)
  }

  lemma {:induction false} ValueHeld(f: Field, prior: Value, s: seq<Byte>)
    requires WellFormedField(f) && HeldDefault(f) && HeldPrior(f, prior) && DecValue(f, prior, s).Ok?
    ensures HeldValue(f, DecValue(f, prior, s).val)
    decreases f, 0
  {
    hide DecScalar, DecBlob, TakePrefixed, DecMsg, DefaultCells, WellFormed, HeldDefaults, HeldCells;
    if Packable(f.ltype) {
      ScalarHeld(f, s);
    } else if !f.ltype.LSubmessage? {
      BlobHeld(f, s);
    } else {
      DefaultCellsLength(f.sub);
      DefaultsAreHeld(f.sub);
      var start := if f.htype.Repeated? then DefaultCells(f.sub) else ValueCells(f, prior);
      MessageHeld(f.sub, start, TakePrefixed(s).val);
    }
  }

  predicate HeldItems(f: Field, items: seq<Value>) {
    |items| <= f.arraySize && forall k | 0 <= k < |items| :: HeldValue(f, items[k])
  }

  lemma {:induction false} PackedHeld(f: Field, items: seq<Value>, size: nat, s: seq<Byte>)
    requires WellFormedField(f) && HeldDefault(f) && HeldItems(f, items) && DecPacked(f, items, size, s).Ok?
    ensures var r := DecPacked(f, items, size, s).val;
      HeldItems(f, r.0) && (size <= |items| ==> r.1 <= |r.0|)
    decreases f, 1, |s|
  {
    hide DecValue, HeldValue, WellFormedField, HeldDefault;
    if s != [] {
      ValueHeld(f, Num(0), s);
      var v := DecValue(f, Num(0), s);
      PackedHeld(f, Put(items, size, v.val), size + 1, v.rest);
    }
  }

  lemma {:induction false} ArrayHeld(f: Field, items: seq<Value>, size: nat, wireType: nat, s: seq<Byte>)
    requires WellFormedField(f) && HeldDefault(f) && HeldItems(f, items) && DecArray(f, items, size, wireType, s).Ok?
    ensures var r := DecArray(f, items, size, wireType, s).val;
      HeldItems(f, r.0) && (size <= |items| ==> r.1 <= |r.0|)
    decreases f, 2
  {
    hide DecValue, DecPacked, HeldValue, WellFormedField, HeldDefault, TakePrefixed, Packable;
    if wireType == WT_STRING && Packable(f.ltype) {
      PackedHeld(f, items, size, TakePrefixed(s).val);
    } else {
      ValueHeld(f, Num(0), s);
    }
  }

  lemma {:induction false} FieldHeld(f: Field, c: Cell, size: nat, wireType: nat, s: seq<Byte>)
    requires WellFormedField(f) && HeldDefault(f) && HeldCell(f, c) && DecField(f, c, size, wireType, s).Ok?
    ensures HeldCell(f, DecField(f, c, size, wireType, s).val.0)
    ensures f.htype.OneOf? ==> DecField(f, c, size, wireType, s).val.0.Union? && DecField(f, c, size, wireType, s).val.0.which == f.tag
    decreases f, 3
  {
    hide DecValue, DecArray, DefaultCells, HeldCells, HeldDefaults, WellFormed, ValidScalar, ValidBlob;
    match f.htype
    case Required => ValueHeld(f, CellValue(c), s);
    case Optional => ValueHeld(f, CellValue(c), s);
    case Repeated => ArrayHeld(f, CellItems(c), if f.HasSize() then CellCount(c) else size, wireType, s);
    case OneOf =>
      if f.ltype.LSubmessage? { DefaultsAreHeld(f.sub); }
      ValueHeld(f, if f.ltype.LSubmessage? then Msg(DefaultCells(f.sub)) else Num(0), s);
  }

  /** Storing the cell of one field keeps the others within bounds, union members included. */
  lemma StoringHolds(fields: seq<Field>, cells: seq<Cell>, i: nat, c: Cell)
    requires WellFormed(fields) && HeldCells(fields, cells) && i < |fields| && HeldCell(fields[i], c)
    requires fields[i].htype.OneOf? ==> c.Union? && c.which == fields[i].tag
    ensures SlotOf(fields, i) < |cells| && HeldCells(fields, cells[SlotOf(fields, i) := c])
  {
    hide SlotOf, HeldValue;
    var r := cells[SlotOf(fields, i) := c];
    forall j | 0 <= j < |fields| ensures SlotOf(fields, j) < |r| && HeldCell(fields[j], r[SlotOf(fields, j)]) {
      if j != i && SlotOf(fields, i) == SlotOf(fields, j) {
        SharedSlot(fields, if i < j then i else j, if i < j then j else i);
        assert fields[i].tag != fields[j].tag;
      }
    }
  }

  lemma {:induction false} RecordHeld(fields: seq<Field>, st: State, s: seq<Byte>)
    requires WellFormed(fields) && HeldDefaults(fields) && HeldCells(fields, st.cells)
    requires DecRecord(fields, st, s).Next?
    ensures HeldCells(fields, DecRecord(fields, st, s).st.cells)
    decreases fields, 0
  {
    hide DecVarint32, SkipField, DecField, TrackerDone, RequiredIndex, SlotOf, WellFormed, HeldCell, HeldDefault;
    var (key, r) := (DecVarint32(s).val, DecVarint32(s).rest);
    assert DecTagged(fields, st, key / 8, key % 8, r).Next?;
    var i := FindTag(fields, key / 8);
    if i < |fields| {
      SlotMonotone(fields, i, i);
      assert DecKnown(fields, st, i, key % 8, r).Next?;
      FieldIsWellFormed(fields, i);
      var same := st.tracker.Filling? && st.tracker.at == i;
      var size := if same then st.tracker.size else 0;
      FieldHeld(fields[i], st.cells[SlotOf(fields, i)], size, key % 8, r);
      StoringHolds(fields, st.cells, i, DecField(fields[i], st.cells[SlotOf(fields, i)], size, key % 8, r).val.0);
    }
  }

  lemma {:induction false} LoopHeld(fields: seq<Field>, st: State, s: seq<Byte>)
    requires WellFormed(fields) && HeldDefaults(fields) && HeldCells(fields, st.cells)
    requires DecLoop(fields, st, s).Ok?
    ensures HeldCells(fields, DecLoop(fields, st, s).val.cells)
    decreases fields, 1, |s|
  {
    hide DecRecord, WellFormed, HeldDefaults;
    if s != [] && DecRecord(fields, st, s).Next? {
      RecordHeld(fields, st, s);
      LoopHeld(fields, DecRecord(fields, st, s).st, DecRecord(fields, st, s).rest);
    }
  }

  lemma {:induction false} MessageHeld(fields: seq<Field>, cells: seq<Cell>, s: seq<Byte>)
    requires WellFormed(fields) && HeldDefaults(fields) && HeldCells(fields, cells) && DecMsg(fields, cells, s).Ok?
    ensures HeldCells(fields, DecMsg(fields, cells, s).val)
    decreases fields, 2
  {
    hide DecLoop, WellFormed, HeldDefaults;
    LoopHeld(fields, Start(cells), s);
  }

  // ---------- Sending it on ----------

  /** Every count-less array that is present, at any depth, has been received. */
  predicate CompleteCells(fields: seq<Field>, cells: seq<Cell>)
    decreases fields
  {
    forall i | 0 <= i < |fields| ::
      SlotOf(fields, i) < |cells| && CompleteCell(fields[i], cells[SlotOf(fields, i)])
  }

  predicate CompleteCell(f: Field, c: Cell)
    decreases f, 1
  {
    match f.htype
    case Required => c.Single? && CompleteValue(f, c.v)
    case Optional =>
      if f.HasSize() then c.Opt? && (c.has ==> CompleteValue(f, c.v)) else c.Single? && CompleteValue(f, c.v)
    case Repeated =>
      && c.Arr? && (!f.HasSize() ==> |c.items| == f.arraySize)
      && forall k | 0 <= k < |c.items| && k < SendCount(f, c) :: CompleteValue(f, c.items[k])
    case OneOf => c.Union? && (c.which == f.tag ==> CompleteValue(f, c.v))
  }

  predicate CompleteValue(f: Field, v: Value)
    decreases f, 0
  {
    v.Msg? ==> CompleteCells(f.sub, v.cells)
  }

  lemma {:induction false} ValueIsStored(f: Field, v: Value)
    requires HeldValue(f, v)
    ensures StoredValue(f, v) <==> CompleteValue(f, v)
    decreases f, 0
  {
    if v.Msg? { HeldIsStored(f.sub, v.cells); }
  }

  lemma {:induction false} CellIsStored(f: Field, c: Cell)
    requires HeldCell(f, c)
    ensures StoredCell(f, c) <==> CompleteCell(f, c)
    decreases f, 1
  {
    hide HeldValue, StoredValue, CompleteValue;
    if f.htype.Repeated? {
      forall k | 0 <= k < |c.items| ensures StoredValue(f, c.items[k]) <==> CompleteValue(f, c.items[k]) {
        ValueIsStored(f, c.items[k]);
      }
    } else if !f.htype.OneOf? || c.which == f.tag {
      ValueIsStored(f, c.v);
    }
  }

  lemma {:induction false} HeldIsStored(fields: seq<Field>, cells: seq<Cell>)
    requires HeldCells(fields, cells)
    ensures StoredCells(fields, cells) <==> CompleteCells(fields, cells)
    decreases fields, 2
  {
    hide SlotOf, HeldCell, StoredCell, CompleteCell;
    forall i | 0 <= i < |fields|
      ensures StoredCell(fields[i], cells[SlotOf(fields, i)]) <==> CompleteCell(fields[i], cells[SlotOf(fields, i)])
    {
      CellIsStored(fields[i], cells[SlotOf(fields, i)]);
    }
  }

  lemma {:induction false} ValueIsSent(f: Field, v: Value)
    requires HeldValue(f, v) && CompleteValue(f, v)
    ensures EncValue(f, v).Out?
    decreases f, 0
  {
    hide EncVarint, LengthPrefixed, StrLen;
    match v
    case Num(n) =>
    case Blob(b) =>
    case Msg(cells) => MessageIsSent(f.sub, cells, 0);
  }

  lemma {:induction false} ItemsAreSent(f: Field, items: seq<Value>)
    requires forall k | 0 <= k < |items| :: HeldValue(f, items[k]) && CompleteValue(f, items[k])
    ensures EncItems(f, items).Out? && EncTaggedItems(f, items).Out?
    decreases f, 1, |items|
  {
    hide EncValue, HeldValue, CompleteValue, EncItems, EncTaggedItems;
    if items == [] {
      NoItems(f);
    } else {
      ValueIsSent(f, items[0]);
      ItemsAreSent(f, items[1..]);
      SplitItems(f, items);
    }
  }

  lemma {:induction false} FieldIsSent(f: Field, c: Cell)
    requires HeldCell(f, c) && CompleteCell(f, c)
    ensures EncField(f, c).Out?
    decreases f, 2
  {
    hide EncValue, HeldValue, CompleteValue, EncItems, EncTaggedItems, IsZero;
    if f.htype.Repeated? {
      ItemsAreSent(f, c.items[..SendCount(f, c)]);
    } else if (f.htype.Optional? && f.HasSize() ==> c.has) && (f.htype.OneOf? ==> c.which == f.tag) {
      ValueIsSent(f, c.v);
    }
  }

  lemma CellAt(fields: seq<Field>, cells: seq<Cell>, i: nat)
    requires HeldCells(fields, cells) && CompleteCells(fields, cells) && i < |fields|
    ensures SlotOf(fields, i) < |cells|
    ensures HeldCell(fields[i], cells[SlotOf(fields, i)]) && CompleteCell(fields[i], cells[SlotOf(fields, i)])
  {
    hide HeldCell, CompleteCell, SlotOf;
  }

  lemma {:induction false} MessageIsSent(fields: seq<Field>, cells: seq<Cell>, i: nat)
    requires HeldCells(fields, cells) && CompleteCells(fields, cells) && i <= |fields|
    ensures EncFields(fields, cells, i).Out?
    decreases fields, 3, |fields| - i
  {
    hide EncField, HeldCell, CompleteCell, HeldCells, CompleteCells, SlotOf;
    if i < |fields| {
      CellAt(fields, cells, i);
      FieldIsSent(fields[i], cells[SlotOf(fields, i)]);
      MessageIsSent(fields, cells, i + 1);
    }
  }

  // ---------- Short messages are valid throughout ----------

  lemma {:induction false} ValueIsValid(f: Field, v: Value)
    requires WellFormedField(f) && HeldValue(f, v) && CompleteValue(f, v) && Short(EncValue(f, v))
    ensures ValidValue(f, v)
    decreases f, 0
  {
    hide EncVarint, EncFields, WellFormed, HeldCells, CompleteCells, ValidCells;
    if v.Msg? { MessageIsValid(f.sub, v.cells); }
  }

  lemma {:induction false} ItemsAreValid(f: Field, items: seq<Value>)
    requires WellFormedField(f) && forall k | 0 <= k < |items| :: HeldValue(f, items[k]) && CompleteValue(f, items[k])
    requires Short(EncTaggedItems(f, items))
    ensures forall k | 0 <= k < |items| :: ValidValue(f, items[k])
    decreases f, 1, |items|
  {
    hide EncValue, HeldValue, CompleteValue, EncTaggedItems, EncItems, ValidValue, WellFormedField;
    if items != [] {
      SplitItems(f, items);
      ValueIsValid(f, items[0]);
      ItemsAreValid(f, items[1..]);
      assert forall k | 1 <= k < |items| :: items[k] == items[1..][k - 1];
    }
  }

  lemma NumbersAreValid(f: Field, items: seq<Value>)
    requires Packable(f.ltype) && forall k | 0 <= k < |items| :: HeldValue(f, items[k])
    ensures forall k | 0 <= k < |items| :: ValidValue(f, items[k])
  {
    hide HeldCells, ValidCells;
  }

  lemma {:induction false} ArrayIsValid(f: Field, c: Cell)
    requires WellFormedField(f) && f.htype.Repeated? && HeldCell(f, c) && CompleteCell(f, c) && Short(EncField(f, c))
    ensures ValidCell(f, c)
    decreases f, 2
  {
    hide EncValue, HeldValue, CompleteValue, EncItems, EncTaggedItems, ValidValue, WellFormedField, EncVarint;
    var items := c.items[..SendCount(f, c)];
    NoItems(f);
    if Packable(f.ltype) {
      NumbersAreValid(f, items);
    } else {
      assert EncField(f, c) == EncArray(f, items);
      ItemsAreValid(f, items);
    }
    assert forall k | 0 <= k < |items| :: items[k] == c.items[k];
  }

  /** A has-less datum that is not sent is valid too: nothing of it would be sent. */
  lemma {:induction false} ZeroIsValid(f: Field, v: Value)
    requires WellFormedField(f) && HeldValue(f, v) && CompleteValue(f, v) && IsZero(f, v)
    ensures ValidValue(f, v)
    decreases f, 1
  {
    hide EncFields, WellFormed, HeldCells, CompleteCells, ValidCells, AllDefault;
    if v.Msg? {
      HeldIsStored(f.sub, v.cells);
      CheckIsExact(f.sub, v.cells, 0);
      MessageIsValid(f.sub, v.cells);
    }
  }

  lemma {:induction false} CellIsValid(f: Field, c: Cell)
    requires WellFormedField(f) && HeldCell(f, c) && CompleteCell(f, c) && Short(EncField(f, c))
    ensures ValidCell(f, c)
    decreases f, 3
  {
    hide EncValue, HeldValue, CompleteValue, ValidValue, WellFormed, IsZero, EncArray;
    if f.htype.Repeated? {
      ArrayIsValid(f, c);
    } else if IsDefault(f, c) {
      if f.htype.Optional? && !f.HasSize() { ZeroIsValid(f, c.v); }
    } else if f.htype.OneOf? && c.which != f.tag {
    } else {
      ValueIsValid(f, c.v);
    }
  }

  lemma {:induction false} FieldWithin(fields: seq<Field>, cells: seq<Cell>, i: nat, j: nat)
    requires i <= j < |fields| && Short(EncFields(fields, cells, i))
    ensures SlotOf(fields, j) < |cells| && Short(EncField(fields[j], cells[SlotOf(fields, j)]))
    decreases j - i
  {
    hide EncField, SlotOf;
    if i < j { FieldWithin(fields, cells, i + 1, j); }
  }

  lemma {:induction false} MessageIsValid(fields: seq<Field>, cells: seq<Cell>)
    requires WellFormed(fields) && HeldCells(fields, cells) && CompleteCells(fields, cells)
    requires Short(EncFields(fields, cells, 0))
    ensures ValidCells(fields, cells)
    decreases fields, 4
  {
    forall i | 0 <= i < |fields|
      ensures SlotOf(fields, i) < |cells| && ValidCell(fields[i], cells[SlotOf(fields, i)])
    {
      hide EncFields, EncField, HeldCell, CompleteCell, SlotOf, ValidCell, WellFormed;
      CellAt(fields, cells, i);
      FieldIsWellFormed(fields, i);
      FieldWithin(fields, cells, 0, i);
      CellIsValid(fields[i], cells[SlotOf(fields, i)]);
    }
  }

  // ---------- Any accepted byte string ----------

  /** Whatever bytes are accepted, the struct they leave keeps to its types and buffers, and
      holds all that the encoder reads exactly when its count-less arrays were received. */
  lemma AcceptedIsHeld(fields: seq<Field>, s: seq<Byte>)
    requires WellFormed(fields) && HeldDefaults(fields) && Decode(fields, s).Ok?
    ensures HeldCells(fields, Decode(fields, s).val)
    ensures StoredCells(fields, Decode(fields, s).val) <==> CompleteCells(fields, Decode(fields, s).val)
  {
    hide WellFormed, HeldDefaults, DecMsg, HeldCells, StoredCells, CompleteCells, DefaultCells;
    DefaultCellsLength(fields);
    DefaultsAreHeld(fields);
    MessageHeld(fields, DefaultCells(fields), s);
    HeldIsStored(fields, Decode(fields, s).val);
  }

  /** Such a struct has an encoding. If that is shorter than 2^32 bytes it is accepted
      again, to its last byte, and gives the same message exactly when no zero datum is
      hidden by a default. */
  lemma AcceptedIsSentOn(fields: seq<Field>, s: seq<Byte>)
    requires WellFormed(fields) && HeldDefaults(fields) && Decode(fields, s).Ok?
    requires CompleteCells(fields, Decode(fields, s).val)
    ensures var m := Decode(fields, s).val;
      && Encode(fields, m).Out?
      && (Short(Encode(fields, m)) ==>
        var p := Decode(fields, Encode(fields, m).bytes);
        p.Ok? && p.rest == [] && (SameMessage(fields, m, p.val) <==> Restorable(fields, m)))
  {
    hide WellFormed, HeldDefaults, Decode, HeldCells, StoredCells, CompleteCells, EncFields, Restorable, SameMessage, ValidCells;
    var m := Decode(fields, s).val;
    AcceptedIsHeld(fields, s);
    MessageIsSent(fields, m, 0);
    if Short(Encode(fields, m)) {
      MessageIsValid(fields, m);
      EncodeDecode(fields, m);
    }
  }
}

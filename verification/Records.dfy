/** An encoded message is a series of whole records: where it may be cut, and where
    foreign records may stand. */
module Records {
  import opened Bits
  import opened Parse
  import opened Descriptor
  import opened EncodeSpec
  import opened DecodeSpec
  import opened RoundTrip
  import opened Merge

  function ItemRecords(f: Field, items: seq<Value>): seq<seq<Byte>>
    requires EncTaggedItems(f, items).Out?
    decreases |items|
  {
    if items == [] then [] else [EncTagged(f, items[0]).bytes] + ItemRecords(f, items[1..])
  }

  /** The records of one field: one for each entry of an array that cannot be packed,
      one for anything else that is sent. */
  function FieldRecords(f: Field, c: Cell): seq<seq<Byte>>
    requires EncField(f, c).Out?
  {
    if f.htype.Repeated? && !Packable(f.ltype) then
      ArrayIsTagged(f, c);
      ItemRecords(f, c.items[..SendCount(f, c)])
    else if EncField(f, c).bytes == [] then []
    else [EncField(f, c).bytes]
  }

  lemma ArrayIsTagged(f: Field, c: Cell)
    requires EncField(f, c).Out? && f.htype.Repeated? && !Packable(f.ltype)
    ensures EncTaggedItems(f, c.items[..SendCount(f, c)]) == EncField(f, c)
  {
    hide EncTagged;
    assert EncField(f, c) == EncArray(f, c.items[..SendCount(f, c)]);
    NoItems(f);
  }

  function MessageRecords(fields: seq<Field>, cells: seq<Cell>, i: nat): seq<seq<Byte>>
    requires i <= |fields| && EncFields(fields, cells, i).Out?
    decreases |fields| - i
  {
    if i == |fields| then []
    else FieldRecords(fields[i], cells[SlotOf(fields, i)]) + MessageRecords(fields, cells, i + 1)
  }

  // ---------- They make up the message ----------

  lemma {:induction false} FlattenCat(a: seq<seq<Byte>>, b: seq<seq<Byte>>)
    ensures Flatten(a + b) == Flatten(a) + Flatten(b)
  {
    if a == [] {
      assert a + b == b;
    } else {
      assert (a + b)[0] == a[0] && (a + b)[1..] == a[1..] + b;
      FlattenCat(a[1..], b);
    }
  }

  lemma FlattenOne(r: seq<Byte>)
    ensures Flatten([r]) == r && Flatten([]) == []
  {
    assert [r][1..] == [];
  }

  lemma {:induction false} FlattenItems(f: Field, items: seq<Value>)
    requires EncTaggedItems(f, items).Out?
    ensures Flatten(ItemRecords(f, items)) == EncTaggedItems(f, items).bytes
    decreases |items|
  {
    hide EncTagged;
    if items != [] { FlattenItems(f, items[1..]); }
  }

  lemma FlattenField(f: Field, c: Cell)
    requires EncField(f, c).Out?
    ensures Flatten(FieldRecords(f, c)) == EncField(f, c).bytes
  {
    hide EncTagged, EncTaggedItems, EncItems, Flatten, ItemRecords;
    if f.htype.Repeated? && !Packable(f.ltype) {
      var items := c.items[..SendCount(f, c)];
      NoItems(f);
      FlattenItems(f, items);
    } else {
      FlattenOne(EncField(f, c).bytes);
    }
  }

  lemma {:induction false} FlattenMessage(fields: seq<Field>, cells: seq<Cell>, i: nat)
    requires i <= |fields| && EncFields(fields, cells, i).Out?
    ensures Flatten(MessageRecords(fields, cells, i)) == EncFields(fields, cells, i).bytes
    decreases |fields| - i
  {
    hide EncField, FieldRecords;
    if i < |fields| {
      FlattenMessage(fields, cells, i + 1);
      FlattenField(fields[i], cells[SlotOf(fields, i)]);
      FlattenCat(FieldRecords(fields[i], cells[SlotOf(fields, i)]), MessageRecords(fields, cells, i + 1));
    }
  }

  // ---------- Each is whole ----------

  lemma {:induction false} WholeCat(fields: seq<Field>, st: State, a: seq<seq<Byte>>, b: seq<seq<Byte>>)
    requires |st.cells| == NumSlots(fields) && Whole(fields, st, a) && Whole(fields, Run(fields, st, a), b)
    ensures Whole(fields, st, a + b) && Run(fields, st, a + b) == Run(fields, Run(fields, st, a), b)
    decreases |a|
  {
    hide DecRecord, NumSlots;
    if a == [] {
      assert a + b == b;
    } else {
      assert (a + b)[0] == a[0] && (a + b)[1..] == a[1..] + b;
      WholeCat(fields, DecRecord(fields, st, a[0]).st, a[1..], b);
    }
  }

  lemma WholeOne(fields: seq<Field>, st: State, r: seq<Byte>, st': State)
    requires |st.cells| == |st'.cells| == NumSlots(fields) && DecRecord(fields, st, r + []) == Next(st', [])
    ensures Whole(fields, st, [r]) && Run(fields, st, [r]) == st'
  {
    hide DecRecord, NumSlots;
    assert r + [] == r;
    assert [r][1..] == [];
  }

  lemma {:induction false} ItemsWhole(fields: seq<Field>, st: State, i: nat, got: seq<Value>, items: seq<Value>)
    requires WellFormed(fields) && i < |fields| && |st.cells| == NumSlots(fields)
    requires Holding(fields, st, i, got) && |got| + |items| <= fields[i].arraySize
    requires forall k | 0 <= k < |items| :: ValidValue(fields[i], items[k])
    ensures EncTaggedItems(fields[i], items).Out?
    ensures Whole(fields, st, ItemRecords(fields[i], items))
    ensures Run(fields, st, ItemRecords(fields[i], items)) == Filled(fields, st, i, got + NormItems(fields[i], items))
    decreases |items|
  {
    hide EncTagged, DecRecord, Filled, Holding, NormValue, EncTaggedItems, NormItems, NumSlots, WellFormed, Whole, Run;
    var f := fields[i];
    if items == [] {
      NoItems(f);
      assert got + [] == got;
      FilledWithGot(fields, st, i, got);
      NoneWhole(fields, st);
    } else {
      var v := NormValue(f, items[0]);
      var all := got + NormItems(f, items);
      var st' := Filled(fields, st, i, got + [v]);
      ItemStep(fields, st, i, got, items[0], []);
      assert f.htype.Repeated? by { HoldingIsArray(fields, st, i, got); }
      HoldingFilled(fields, st, i, got + [v]);
      ItemsWhole(fields, st', i, got + [v], items[1..]);
      SplitItems(f, items);
      WholeOne(fields, st, EncTagged(f, items[0]).bytes, st');
      WholeCat(fields, st, [EncTagged(f, items[0]).bytes], ItemRecords(f, items[1..]));
      assert got + [v] + NormItems(f, items[1..]) == all;
      FilledTwice(fields, st, i, got + [v], all);
    }
  }

  lemma NoneWhole(fields: seq<Field>, st: State)
    requires |st.cells| == NumSlots(fields)
    ensures Whole(fields, st, []) && Run(fields, st, []) == st
  {
  }

  lemma ArrayWhole(fields: seq<Field>, st: State, i: nat, c: Cell)
    requires WellFormed(fields) && i < |fields| && |st.cells| == NumSlots(fields)
    requires fields[i].htype.Repeated? && ValidCell(fields[i], c) && Holding(fields, st, i, [])
    requires SlotOf(fields, i) < |st.cells| && st.cells[SlotOf(fields, i)] == Arr(0, [])
    ensures EncField(fields[i], c).Out?
    ensures Whole(fields, st, FieldRecords(fields[i], c))
    ensures Run(fields, st, FieldRecords(fields[i], c)) == After(fields, st, i, c)
  {
    hide EncTaggedItems, EncItems, NormItems, SlotOf, Whole, Run, ItemRecords, WellFormed, DecRecord, EncTag, LengthPrefixed;
    var f := fields[i];
    var items := c.items[..SendCount(f, c)];
    SlotMonotone(fields, i, i);
    assert Filled(fields, st, i, NormItems(f, items)) == After(fields, st, i, c);
    assert [] + NormItems(f, items) == NormItems(f, items);
    ArrayFieldRoundTrip(fields, st, i, c, []);
    if !Packable(f.ltype) {
      hide Filled, Holding, After;
      ItemsWhole(fields, st, i, [], items);
    } else if items == [] {
      NormItemsEmpty(f);
      FilledWithGot(fields, st, i, []);
      NoneWhole(fields, st);
    } else {
      PackedArray(f, items);
      PackedStep(fields, st, i, [], items, []);
      PackedBytes(f, items);
      WholeOne(fields, st, PackedRecord(f, items), After(fields, st, i, c));
    }
  }

  lemma FieldWhole(fields: seq<Field>, st: State, i: nat, c: Cell)
    requires WellFormed(fields) && i < |fields| && |st.cells| == NumSlots(fields)
    requires ValidCell(fields[i], c) && Untouched(fields, st, i) && TrackerDone(fields, st.tracker)
    ensures EncField(fields[i], c).Out?
    ensures Whole(fields, st, FieldRecords(fields[i], c))
    ensures Run(fields, st, FieldRecords(fields[i], c)) == After(fields, st, i, c)
  {
    var f := fields[i];
    var k := SlotOf(fields, i);
    FieldRoundTrip(fields, st, i, c, []);
    if f.htype.Repeated? {
      hide EncField, SlotOf, After, DecRecord, Whole, Run, FieldRecords, ValidCell;
      ArrayWhole(fields, st, i, c);
    } else if f.htype.Required? || (f.htype.OneOf? && c.which == f.tag) || (f.htype.Optional? && !IsDefault(f, c)) {
      hide EncTagged, SlotOf, DecRecord, RequiredIndex, NormValue, ValidValue, IsZero, Whole, Run;
      SingleStep(fields, st, i, c.v, []);
      assert Took(fields, st, i, NormValue(f, c.v)) == After(fields, st, i, c);
      assert EncTagged(f, c.v).bytes != [] by { TaggedBytes(f, c.v); }
      WholeOne(fields, st, EncTagged(f, c.v).bytes, After(fields, st, i, c));
    } else {
      hide SlotOf, IsZero, Whole, Run;
      assert st.cells[k := st.cells[k]] == st.cells;
      assert After(fields, st, i, c) == st;
      NoneWhole(fields, st);
    }
  }

  lemma PackedBytes(f: Field, items: seq<Value>)
    requires EncItems(f, items).Out?
    ensures PackedRecord(f, items) != []
  {
    hide EncItems;
    assert |EncTag(WT_STRING, f.tag)| >= 1;
  }

  lemma TaggedBytes(f: Field, v: Value)
    requires EncTagged(f, v).Out?
    ensures EncTagged(f, v).bytes != []
  {
    hide EncValue;
    assert |FieldTag(f)| >= 1;
  }

  lemma {:induction false} FieldsWhole(fields: seq<Field>, src: seq<Cell>, st: State, i: nat)
    requires WellFormed(fields) && ValidCells(fields, src) && i <= |fields|
    requires |st.cells| == NumSlots(fields) && Untouched(fields, st, i) && TrackerDone(fields, st.tracker)
    ensures EncFields(fields, src, i).Out?
    ensures Whole(fields, st, MessageRecords(fields, src, i))
    ensures Run(fields, st, MessageRecords(fields, src, i)) == AfterAll(fields, src, st, i)
    decreases |fields| - i
  {
    hide After, EncField, Untouched, TrackerDone, ValidCell, NumSlots, EncFields, AfterAll, WellFormed, Whole, Run, FieldRecords;
    FieldsStep(fields, src, st, i);
    if i == |fields| {
      NoneWhole(fields, st);
    } else {
      var c := src[SlotOf(fields, i)];
      var st' := After(fields, st, i, c);
      AfterUntouched(fields, st, i, c);
      FieldsWhole(fields, src, st', i + 1);
      FieldWhole(fields, st, i, c);
      WholeCat(fields, st, FieldRecords(fields[i], c), MessageRecords(fields, src, i + 1));
    }
  }

  /** The records of a message add up to its encoding, and each is whole when it arrives. */
  lemma MessageIsRecords(fields: seq<Field>, cells: seq<Cell>)
    requires WellFormed(fields) && ValidCells(fields, cells)
    ensures Encode(fields, cells).Out? && |DefaultCells(fields)| == NumSlots(fields)
    ensures Flatten(MessageRecords(fields, cells, 0)) == Encode(fields, cells).bytes
    ensures Whole(fields, Start(DefaultCells(fields)), MessageRecords(fields, cells, 0))
  {
    hide EncFields, DefaultCells, MessageRecords, Whole, Run, Flatten, TrackerDone, Untouched;
    StartUntouched(fields);
    assert TrackerDone(fields, Idle) by { IdleDone(fields); }
    FieldsWhole(fields, cells, Start(DefaultCells(fields)), 0);
    FlattenMessage(fields, cells, 0);
  }

  /** An encoded message cut strictly inside any of its top-level records does not decode. */
  lemma CutMessageFails(
    fields: seq<Field>, cells: seq<Cell>, before: seq<seq<Byte>>, r: seq<Byte>, after: seq<seq<Byte>>, k: nat)
    requires WellFormed(fields) && ValidCells(fields, cells) && Encode(fields, cells).Out?
    requires MessageRecords(fields, cells, 0) == before + [r] + after && 0 < k < |r|
    ensures Flatten(before) + r[..k] <= Encode(fields, cells).bytes
    ensures Decode(fields, Flatten(before) + r[..k]).Fail?
  {
    hide EncFields, DefaultCells, MessageRecords, Whole, Run, Flatten, DecMsg;
    MessageIsRecords(fields, cells);
    var st := Start(DefaultCells(fields));
    WholeFront(fields, st, before + [r], after);
    TruncationFails(fields, DefaultCells(fields), before, r, k);
    FlattenCat(before + [r], after);
    FlattenCat(before, [r]);
    FlattenOne(r);
    var e := Encode(fields, cells).bytes;
    assert e == Flatten(before) + r + Flatten(after);
    assert e[..|Flatten(before)| + k] == Flatten(before) + r[..k];
  }

  lemma {:induction false} WholeFront(fields: seq<Field>, st: State, a: seq<seq<Byte>>, b: seq<seq<Byte>>)
    requires |st.cells| == NumSlots(fields) && Whole(fields, st, a + b)
    ensures Whole(fields, st, a)
    decreases |a|
  {
    hide DecRecord, NumSlots;
    if a != [] {
      assert (a + b)[0] == a[0] && (a + b)[1..] == a[1..] + b;
      WholeFront(fields, DecRecord(fields, st, a[0]).st, a[1..], b);
    }
  }

  /** A valid message still arrives when a newer sender puts records of fields that this
      descriptor does not list between its records, however many and wherever. */
  lemma NewerSenderIsUnderstood(fields: seq<Field>, cells: seq<Cell>, recs: seq<seq<Byte>>)
    requires WellFormed(fields) && ValidCells(fields, cells) && Encode(fields, cells).Out?
    requires Known(fields, recs) == MessageRecords(fields, cells, 0)
    ensures Decode(fields, Flatten(recs)) == Ok(Normalize(fields, cells), [])
  {
    hide EncFields, DefaultCells, MessageRecords, Whole, Run, Flatten, DecMsg, Known, Normalize;
    MessageIsRecords(fields, cells);
    UnknownFieldsIgnored(fields, DefaultCells(fields), recs);
    MessageRoundTrip(fields, cells);
  }
}

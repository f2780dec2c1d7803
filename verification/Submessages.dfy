/** A submessage that arrives in several records: merged for a required or optional field,
    an entry each for an array, the last one alone for a union. */
module Submessages {
  import opened Bits
  import opened Parse
  import opened Varint
  import opened Descriptor
  import opened EncodeSpec
  import opened DecodeSpec
  import opened RoundTrip
  import opened Merge
  import opened Concatenation

  /** The record of field `f` with contents `x`: its number and wire type 2, the length of
      the contents, and the contents. */
  function Record(f: Field, x: seq<Byte>): seq<Byte> {
    EncVarint(8 * f.tag + 2) + (EncVarint(|x|) + x)
  }

  lemma RecordKnown(fields: seq<Field>, st: State, i: nat, x: seq<Byte>, t: seq<Byte>)
    requires WellFormed(fields) && i < |fields| && |st.cells| == NumSlots(fields) && |x| < TWO32
    ensures DecRecord(fields, st, Record(fields[i], x) + t) == DecKnown(fields, st, i, 2, LengthPrefixed(x) + t)
    ensures TakePrefixed(LengthPrefixed(x) + t) == Ok(x, t)
  {
    hide EncVarint, DecRecord, DecKnown, TakePrefixed, WellFormed;
    PrefixedRoundTrip(x, t);
    assert LengthPrefixed(x) == EncVarint(|x|) + x;
    assert Record(fields[i], x) + t == EncTag(2, fields[i].tag) + (LengthPrefixed(x) + t);
    TagRoundTrip(fields, st, i, 2, LengthPrefixed(x) + t);
  }

  // ---------- Required and optional fields ----------

  predicate IsSub(fields: seq<Field>, i: nat) {
    i < |fields| && fields[i].ltype.LSubmessage?
  }

  /** The cell of field `i` holds the submessage `cells`. */
  predicate Holds(fields: seq<Field>, st: State, i: nat, cells: seq<Cell>)
    requires i < |fields|
  {
    && |st.cells| == NumSlots(fields) && SlotOf(fields, i) < |st.cells| && |cells| == NumSlots(fields[i].sub)
    && !st.cells[SlotOf(fields, i)].Arr? && st.cells[SlotOf(fields, i)].v == Msg(cells)
  }

  /** One record is merged into what the field held before. */
  lemma MergedInto(fields: seq<Field>, st: State, i: nat, cells: seq<Cell>, x: seq<Byte>, t: seq<Byte>)
    requires WellFormed(fields) && IsSub(fields, i) && Holds(fields, st, i, cells) && |x| < TWO32
    requires fields[i].htype.Required? || fields[i].htype.Optional?
    ensures DecRecord(fields, st, Record(fields[i], x) + t)
         == var p := DecMsg(fields[i].sub, cells, x);
            if p.Fail? then Bad else Next(Took(fields, st, i, Msg(p.val)), t)
    ensures DecMsg(fields[i].sub, cells, x).Ok? ==>
      Holds(fields, Took(fields, st, i, Msg(DecMsg(fields[i].sub, cells, x).val)), i, DecMsg(fields[i].sub, cells, x).val)
  {
    hide DecRecord, DecMsg, TakePrefixed, RequiredIndex, SlotOf, Record, NumSlots, WellFormed;
    RecordKnown(fields, st, i, x, t);
    var f := fields[i];
    SlotMonotone(fields, i, i);
    var s := LengthPrefixed(x) + t;
    var p := DecMsg(f.sub, cells, x);
    assert ValueCells(f, Msg(cells)) == cells;
    assert DecValue(f, Msg(cells), s) == if p.Fail? then Fail else Ok(Msg(p.val), t);
  }

  lemma TookTwice(fields: seq<Field>, st: State, i: nat, v: Value, w: Value)
    requires i < |fields| && |st.cells| == NumSlots(fields)
    ensures Took(fields, Took(fields, st, i, v), i, w) == Took(fields, st, i, w)
  {
    hide SlotOf, RequiredIndex, NumSlots;
    SlotMonotone(fields, i, i);
  }

  /** A submessage sent in two records, `x` read to its end and `y`, is the one that the
      second leaves when read into the first; and one record with the contents of both says
      the same if and only if `y` does not take up again the count-less array that `x`
      ended with. */
  lemma SubmessagesMerge(fields: seq<Field>, st: State, i: nat, cells: seq<Cell>, x: seq<Byte>, y: seq<Byte>, t: seq<Byte>)
    requires WellFormed(fields) && IsSub(fields, i) && Holds(fields, st, i, cells) && |x| + |y| < TWO32
    requires fields[i].htype.Required? || fields[i].htype.Optional?
    requires DecMsg(fields[i].sub, cells, x).Ok? && Clean(fields[i].sub, Start(cells), x)
    requires DecMsg(fields[i].sub, DecMsg(fields[i].sub, cells, x).val, y).Ok?
    ensures
      var f := fields[i];
      var both := DecMsg(f.sub, DecMsg(f.sub, cells, x).val, y).val;
      var st' := Took(fields, st, i, Msg(both));
      && Holds(fields, st', i, both)
      && DecLoop(fields, st, Record(f, x) + (Record(f, y) + t)) == DecLoop(fields, st', t)
      && (DecRecord(fields, st, Record(f, x + y) + t) == Next(st', t) <==> !TakenUpAgain(f.sub, cells, x, y))
      && (TakenUpAgain(f.sub, cells, x, y) ==> DecRecord(fields, st, Record(f, x + y) + t) == Bad)
  {
    hide DecLoop, DecMsg, DecRecord, Record, Took, Holds, Clean, NumSlots, TakenUpAgain, WellFormed;
    var f := fields[i];
    assert |cells| == NumSlots(f.sub) && |st.cells| == NumSlots(fields) by { HoldsCells(fields, st, i, cells); }
    var first := DecMsg(f.sub, cells, x).val;
    var both := DecMsg(f.sub, first, y).val;
    var st1 := Took(fields, st, i, Msg(first));
    MergedInto(fields, st, i, cells, x, Record(f, y) + t);
    LoopStep(fields, st, Record(f, x) + (Record(f, y) + t));
    MergedInto(fields, st1, i, first, y, t);
    LoopStep(fields, st1, Record(f, y) + t);
    TookTwice(fields, st, i, Msg(first), Msg(both));
    MergesExactly(f.sub, cells, x, y);
    MergedInto(fields, st, i, cells, x + y, t);
  }

  lemma HoldsCells(fields: seq<Field>, st: State, i: nat, cells: seq<Cell>)
    requires i < |fields| && Holds(fields, st, i, cells)
    ensures |cells| == NumSlots(fields[i].sub) && |st.cells| == NumSlots(fields)
  {
  }

  // ---------- Unions and arrays ----------

  /** Received into a union, a submessage starts from defaults, whatever the union held. */
  lemma UnionStartsAnew(fields: seq<Field>, st: State, i: nat, x: seq<Byte>, t: seq<Byte>)
    requires WellFormed(fields) && IsSub(fields, i) && |st.cells| == NumSlots(fields) && |x| < TWO32
    requires fields[i].htype.OneOf?
    ensures DecRecord(fields, st, Record(fields[i], x) + t)
         == var p := Decode(fields[i].sub, x);
            if p.Fail? then Bad else Next(Took(fields, st, i, Msg(p.val)), t)
  {
    hide DecRecord, DecMsg, TakePrefixed, RequiredIndex, SlotOf, Record, NumSlots, DefaultCells, WellFormed;
    RecordKnown(fields, st, i, x, t);
    var f := fields[i];
    SlotMonotone(fields, i, i);
    DefaultCellsLength(f.sub);
    var s := LengthPrefixed(x) + t;
    var p := Decode(f.sub, x);
    assert DecValue(f, Msg(DefaultCells(f.sub)), s) == if p.Fail? then Fail else Ok(Msg(p.val), t);
  }

  /** Received into an array, it is one more entry, and starts from defaults. */
  lemma EntryStartsAnew(fields: seq<Field>, st: State, i: nat, got: seq<Value>, x: seq<Byte>, t: seq<Byte>)
    requires WellFormed(fields) && IsSub(fields, i) && |st.cells| == NumSlots(fields) && |x| < TWO32
    requires Holding(fields, st, i, got) && |got| < fields[i].arraySize
    ensures DecRecord(fields, st, Record(fields[i], x) + t)
         == var p := Decode(fields[i].sub, x);
            if p.Fail? then Bad else Next(Filled(fields, st, i, got + [Msg(p.val)]), t)
  {
    hide DecRecord, DecMsg, TakePrefixed, RequiredIndex, SlotOf, Record, NumSlots, DefaultCells, WellFormed;
    RecordKnown(fields, st, i, x, t);
    var f := fields[i];
    SlotMonotone(fields, i, i);
    DefaultCellsLength(f.sub);
    var s := LengthPrefixed(x) + t;
    var p := Decode(f.sub, x);
    assert DecValue(f, Num(0), s) == if p.Fail? then Fail else Ok(Msg(p.val), t);
    assert p.Ok? ==> DecArray(f, got, |got|, 2, s) == Ok((got + [Msg(p.val)], |got| + 1), t);
    assert p.Fail? ==> DecArray(f, got, |got|, 2, s) == Fail;
  }

  /** Two records are two entries, neither of which knows of the other. */
  lemma EntriesStartAnew(fields: seq<Field>, st: State, i: nat, got: seq<Value>, x: seq<Byte>, y: seq<Byte>, t: seq<Byte>)
    requires WellFormed(fields) && IsSub(fields, i) && |st.cells| == NumSlots(fields)
    requires |x| < TWO32 && |y| < TWO32
    requires Holding(fields, st, i, got) && |got| + 2 <= fields[i].arraySize
    requires Decode(fields[i].sub, x).Ok? && Decode(fields[i].sub, y).Ok?
    ensures
      var f := fields[i];
      var all := got + [Msg(Decode(f.sub, x).val)] + [Msg(Decode(f.sub, y).val)];
      DecLoop(fields, st, Record(f, x) + (Record(f, y) + t)) == DecLoop(fields, Filled(fields, st, i, all), t)
  {
    hide DecLoop, Decode, DecRecord, Record, Filled, Holding, NumSlots, WellFormed;
    var f := fields[i];
    var one := got + [Msg(Decode(f.sub, x).val)];
    var st1 := Filled(fields, st, i, one);
    EntryStartsAnew(fields, st, i, got, x, Record(f, y) + t);
    LoopStep(fields, st, Record(f, x) + (Record(f, y) + t));
    HoldingIsArray(fields, st, i, got);
    HoldingFilled(fields, st, i, one);
    EntryStartsAnew(fields, st1, i, one, y, t);
    LoopStep(fields, st1, Record(f, y) + t);
    FilledTwice(fields, st, i, one, one + [Msg(Decode(f.sub, y).val)]);
  }

  // ---------- Other fields ----------

  /** A singular field that is no submessage takes the last datum it is sent: what its cell
      held before is of no account. */
  lemma LastOneWins(fields: seq<Field>, st: State, i: nat, c: Cell, s: seq<Byte>)
    requires |st.cells| == NumSlots(fields) && i < |fields| && SlotOf(fields, i) < |st.cells|
    requires !fields[i].htype.Repeated? && !fields[i].ltype.LSubmessage?
    requires DecVarint32(s).Ok? && DecVarint32(s).val != 0 && FindTag(fields, DecVarint32(s).val / 8) == i
    ensures DecRecord(fields, st.(cells := st.cells[SlotOf(fields, i) := c]), s) == DecRecord(fields, st, s)
  {
    hide DecVarint32, DecScalar, DecBlob, RequiredIndex, SlotOf, NumSlots, TrackerDone;
    var f := fields[i];
    var st' := st.(cells := st.cells[SlotOf(fields, i) := c]);
    var (key, r) := (DecVarint32(s).val, DecVarint32(s).rest);
    var d := st.cells[SlotOf(fields, i)];
    SlotMonotone(fields, i, i);
    assert DecValue(f, CellValue(c), r) == DecValue(f, CellValue(d), r);
    assert DecTagged(fields, st, key / 8, key % 8, r) == DecKnown(fields, st, i, key % 8, r);
    assert DecTagged(fields, st', key / 8, key % 8, r) == DecKnown(fields, st', i, key % 8, r);
    var same := st.tracker.Filling? && st.tracker.at == i;
    var size := if same then st.tracker.size else 0;
    assert DecField(f, c, size, key % 8, r) == DecField(f, d, size, key % 8, r);
  }
}

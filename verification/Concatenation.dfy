/** Decoding a concatenation is decoding one part after the other into the same struct,
    except where the second part takes up a count-less array that the first one filled. */
module Concatenation {
  import opened Bits
  import opened Wrappers
  import opened Parse
  import opened Varint
  import opened Descriptor
  import opened EncodeSpec
  import opened DecodeSpec
  import opened Merge

  // ---------- Records and the tracker ----------

  /** The count-less array that the record at the front of `s` is for, if it is for one. */
  function Countless(fields: seq<Field>, s: seq<Byte>): (r: Option<nat>)
    ensures r.Some? ==> r.value < |fields| && fields[r.value].IsFixedArray()
  {
    match DecVarint32(s)
    case Fail => None
    case Ok(key, _) =>
      var i := FindTag(fields, key / 8);
      if key != 0 && i < |fields| && fields[i].IsFixedArray() then Some(i) else None
  }

  /** The first count-less array that the records of `s` are for. */
  function FirstCountless(fields: seq<Field>, st: State, s: seq<Byte>): Option<nat>
    requires |st.cells| == NumSlots(fields)
    decreases |s|
  {
    if s == [] || Countless(fields, s).Some? then Countless(fields, s)
    else
      match DecRecord(fields, st, s)
      case Next(st', r) => FirstCountless(fields, st', r)
      case _ => None
  }

  /** Whether a record of array `i` is admitted after the tracker `t`, and how many of its
      entries have arrived. */
  predicate Admits(fields: seq<Field>, t: Tracker, i: nat) {
    (t.Filling? && t.at == i) || TrackerDone(fields, t)
  }

  function SizeBefore(t: Tracker, i: nat): nat {
    if t.Filling? && t.at == i then t.size else 0
  }

  lemma SizeIsIdle(f: Field, c: Cell, n: nat, m: nat, wireType: nat, s: seq<Byte>)
    requires !f.IsFixedArray()
    ensures var p, q := DecField(f, c, n, wireType, s), DecField(f, c, m, wireType, s);
      (p.Ok? <==> q.Ok?) && (p.Ok? ==> p.val.0 == q.val.0 && p.rest == q.rest)
  {
    hide DecValue, DecArray, DefaultCells;
  }

  /** A record does the same in two states with the same cells, if it is for no count-less
      array, or both trackers admit it alike; else it leaves each tracker as it is. */
  lemma RecordAlike(fields: seq<Field>, a: State, b: State, s: seq<Byte>)
    requires |a.cells| == NumSlots(fields) && a.cells == b.cells
    requires Countless(fields, s).Some? ==>
      var i := Countless(fields, s).value;
      Admits(fields, a.tracker, i) == Admits(fields, b.tracker, i) && SizeBefore(a.tracker, i) == SizeBefore(b.tracker, i)
    ensures var p, q := DecRecord(fields, a, s), DecRecord(fields, b, s);
      && (p.Bad? <==> q.Bad?)
      && (p.Stop? <==> q.Stop?)
      && (p.Stop? ==> p.end == q.end)
      && (p.Next? ==> p.st.cells == q.st.cells && p.rest == q.rest)
      && (p.Next? ==> if Countless(fields, s).Some? then p.st.tracker == q.st.tracker
                      else p.st.tracker == a.tracker && q.st.tracker == b.tracker)
  {
    hide DecVarint32, SkipField, DecField, TrackerDone, RequiredIndex, SlotOf;
    if DecVarint32(s).Ok? && DecVarint32(s).val != 0 {
      var (key, r) := (DecVarint32(s).val, DecVarint32(s).rest);
      var p := DecTagged(fields, a, key / 8, key % 8, r);
      var q := DecTagged(fields, b, key / 8, key % 8, r);
      var i := FindTag(fields, key / 8);
      if i < |fields| {
        SlotMonotone(fields, i, i);
        if !fields[i].IsFixedArray() {
          SizeIsIdle(fields[i], a.cells[SlotOf(fields, i)], SizeBefore(a.tracker, i), SizeBefore(b.tracker, i), key % 8, r);
        }
        assert p == DecKnown(fields, a, i, key % 8, r) && q == DecKnown(fields, b, i, key % 8, r);
      }
    }
  }

  lemma RecordSees(fields: seq<Field>, st: State, s: seq<Byte>)
    requires |st.cells| == NumSlots(fields) && DecRecord(fields, st, s).Next?
    ensures st.seen <= DecRecord(fields, st, s).st.seen
  {
    hide DecVarint32, SkipField, DecField, TrackerDone, RequiredIndex, SlotOf;
    var (key, r) := (DecVarint32(s).val, DecVarint32(s).rest);
    assert DecTagged(fields, st, key / 8, key % 8, r).Next?;
    var i := FindTag(fields, key / 8);
    if i < |fields| {
      assert DecKnown(fields, st, i, key % 8, r).Next?;
    }
  }

  lemma {:induction false} LoopSees(fields: seq<Field>, st: State, s: seq<Byte>)
    requires |st.cells| == NumSlots(fields) && DecLoop(fields, st, s).Ok?
    ensures st.seen <= DecLoop(fields, st, s).val.seen
    decreases |s|
  {
    hide DecRecord, NumSlots;
    if s != [] && DecRecord(fields, st, s).Next? {
      var p := DecRecord(fields, st, s);
      RecordSees(fields, st, s);
      LoopSees(fields, p.st, p.rest);
    }
  }

  // ---------- Where merging works ----------

  /** A state that has filled a count-less array, and one that knows of none. */
  predicate Beside(fields: seq<Field>, a: Tracker, b: Tracker) {
    a == b || (b == Idle && TrackerDone(fields, a))
  }

  /** The first count-less array of `s` is the nonempty one that `t` is at. */
  predicate Again(fields: seq<Field>, t: Tracker, st: State, s: seq<Byte>)
    requires |st.cells| == NumSlots(fields)
  {
    t.Filling? && t.at < |fields| && fields[t.at].arraySize > 0 && FirstCountless(fields, st, s) == Some(t.at)
  }

  lemma {:induction false} LoopAlike(fields: seq<Field>, a: State, b: State, s: seq<Byte>)
    requires |a.cells| == NumSlots(fields) && a.cells == b.cells && Beside(fields, a.tracker, b.tracker)
    requires a.tracker == b.tracker || !Again(fields, a.tracker, b, s)
    ensures var p, q := DecLoop(fields, a, s), DecLoop(fields, b, s);
      && (p.Ok? <==> q.Ok?)
      && (p.Ok? ==> p.val.cells == q.val.cells && p.rest == q.rest)
      && (p.Ok? ==> Beside(fields, p.val.tracker, q.val.tracker))
    decreases |s|
  {
    hide DecRecord, NumSlots, Countless;
    if s != [] {
      RecordAlike(fields, a, b, s);
      var p, q := DecRecord(fields, a, s), DecRecord(fields, b, s);
      if p.Next? {
        LoopAlike(fields, p.st, q.st, p.rest);
      }
    }
  }

  // ---------- Where it fails ----------

  /** A record of a nonempty count-less array that is full already: an error, or an empty
      packed one, which leaves a full array full and one not begun at none. */
  lemma FullRecord(fields: seq<Field>, a: State, b: State, i: nat, s: seq<Byte>)
    requires |a.cells| == NumSlots(fields) && a.cells == b.cells
    requires Countless(fields, s) == Some(i) && fields[i].arraySize > 0
    requires a.tracker == Filling(i, fields[i].arraySize) && (b.tracker == Idle || b.tracker == Filling(i, 0))
    ensures var p, q := DecRecord(fields, a, s), DecRecord(fields, b, s);
      p.Bad? || (p.Next? && q.Next? && p.st.cells == q.st.cells && p.rest == q.rest
                 && p.st.tracker == a.tracker && q.st.tracker == Filling(i, 0))
  {
    hide DecVarint32, DecField, RequiredIndex, SlotOf;
    var (key, r) := (DecVarint32(s).val, DecVarint32(s).rest);
    SlotMonotone(fields, i, i);
    FullField(fields[i], a.cells[SlotOf(fields, i)], key % 8, r);
    assert DecTagged(fields, a, key / 8, key % 8, r) == DecKnown(fields, a, i, key % 8, r);
    assert DecTagged(fields, b, key / 8, key % 8, r) == DecKnown(fields, b, i, key % 8, r);
  }

  lemma FullField(f: Field, c: Cell, wireType: nat, s: seq<Byte>)
    requires f.IsFixedArray() && f.arraySize > 0
    ensures var p, q := DecField(f, c, f.arraySize, wireType, s), DecField(f, c, 0, wireType, s);
      p.Ok? ==> q.Ok? && p.val == (q.val.0, f.arraySize) && q.val.1 == 0 && p.rest == q.rest
  {
    hide DecValue, TakePrefixed, Packable;
    var items := CellItems(c);
    if wireType == WT_STRING && Packable(f.ltype) && TakePrefixed(s).Ok? {
      var body := TakePrefixed(s).val;
      assert DecPacked(f, items, f.arraySize, body).Ok? ==> body == [];
      assert DecPacked(f, items, 0, []) == Ok((items, 0), []);
    }
    assert DecArray(f, items, f.arraySize, wireType, s).Ok? ==>
      DecArray(f, items, f.arraySize, wireType, s).val == (items, f.arraySize)
      && DecArray(f, items, 0, wireType, s) == Ok((items, 0), DecArray(f, items, f.arraySize, wireType, s).rest);
  }

  /** A full array that is taken up again: what can be read into a state that knows of no
      array, and fills this one, cannot be read any more. */
  lemma {:induction false} LoopRefuses(fields: seq<Field>, a: State, b: State, i: nat, s: seq<Byte>)
    requires |a.cells| == NumSlots(fields) && a.cells == b.cells && i < |fields| && fields[i].arraySize > 0
    requires a.tracker == Filling(i, fields[i].arraySize)
    requires b.tracker == Filling(i, 0) || (b.tracker == Idle && FirstCountless(fields, b, s) == Some(i))
    requires DecLoop(fields, b, s).Ok? && TrackerDone(fields, DecLoop(fields, b, s).val.tracker)
    ensures DecLoop(fields, a, s).Fail?
    decreases |s|
  {
    hide DecRecord, NumSlots, Countless;
    assert s != [] by { NothingCountless(fields); }
    var p, q := DecRecord(fields, a, s), DecRecord(fields, b, s);
    if Countless(fields, s) == Some(i) {
      FullRecord(fields, a, b, i, s);
    } else if Countless(fields, s).Some? {
      OtherRefused(fields, b, i, Countless(fields, s).value, s);
      assert false;
    } else {
      RecordAlike(fields, a, b, s);
    }
    if p.Next? { LoopRefuses(fields, p.st, q.st, i, p.rest); }
  }

  lemma NothingCountless(fields: seq<Field>)
    ensures Countless(fields, []) == None
  {
  }

  /** An array not begun must be filled before another count-less one. */
  lemma OtherRefused(fields: seq<Field>, st: State, i: nat, j: nat, s: seq<Byte>)
    requires |st.cells| == NumSlots(fields) && i < |fields| && fields[i].arraySize > 0 && st.tracker == Filling(i, 0)
    requires Countless(fields, s) == Some(j) && j != i
    ensures DecRecord(fields, st, s).Bad?
  {
    hide DecVarint32, DecField, RequiredIndex, SlotOf;
    var (key, r) := (DecVarint32(s).val, DecVarint32(s).rest);
    assert DecTagged(fields, st, key / 8, key % 8, r) == DecKnown(fields, st, j, key % 8, r);
  }

  // ---------- Exactly when ----------

  /** `x` ends with a nonempty count-less array, and the first record of `y` that is for any
      such array is for that one. */
  predicate TakenUpAgain(fields: seq<Field>, cells: seq<Cell>, x: seq<Byte>, y: seq<Byte>)
    requires |cells| == NumSlots(fields) && DecMsg(fields, cells, x).Ok?
  {
    Again(fields, DecLoop(fields, Start(cells), x).val.tracker, Start(DecMsg(fields, cells, x).val), y)
  }

  /** If `x` decodes into a struct and is read to its end, and `y` does not take up again
      the count-less array that `x` ended with, then decoding `x + y` is decoding `x` and
      then `y`: it succeeds exactly when the records of `y` can be read into the result of
      `x` and complete their last count-less array, and leaves that struct. */
  lemma ConcatenationMerges(fields: seq<Field>, cells: seq<Cell>, x: seq<Byte>, y: seq<Byte>)
    requires |cells| == NumSlots(fields) && DecMsg(fields, cells, x).Ok? && Clean(fields, Start(cells), x)
    requires !TakenUpAgain(fields, cells, x, y)
    ensures
      var second := DecLoop(fields, Start(DecMsg(fields, cells, x).val), y);
      DecMsg(fields, cells, x + y) ==
        if second.Ok? && TrackerDone(fields, second.val.tracker) then Ok(second.val.cells, second.rest) else Fail
  {
    hide DecLoop, Clean, NumSlots, Again;
    CleanLoop(fields, Start(cells), x, y);
    var st := DecLoop(fields, Start(cells), x).val;
    LoopAlike(fields, st, Start(st.cells), y);
    if DecLoop(fields, st, y).Ok? {
      LoopSees(fields, st, y);
    }
  }

  /** Two decodings in a row agree with one decoding of both, if and only if the count-less
      array that the first ended with is not taken up again. */
  lemma MergesExactly(fields: seq<Field>, cells: seq<Cell>, x: seq<Byte>, y: seq<Byte>)
    requires |cells| == NumSlots(fields) && DecMsg(fields, cells, x).Ok? && Clean(fields, Start(cells), x)
    requires DecMsg(fields, DecMsg(fields, cells, x).val, y).Ok?
    ensures DecMsg(fields, cells, x + y) == DecMsg(fields, DecMsg(fields, cells, x).val, y)
       <==> !TakenUpAgain(fields, cells, x, y)
    ensures TakenUpAgain(fields, cells, x, y) ==> DecMsg(fields, cells, x + y).Fail?
  {
    hide DecLoop, Clean, NumSlots, FirstCountless;
    if TakenUpAgain(fields, cells, x, y) {
      CleanLoop(fields, Start(cells), x, y);
      var st := DecLoop(fields, Start(cells), x).val;
      LoopRefuses(fields, st, Start(st.cells), st.tracker.at, y);
    } else {
      ConcatenationMerges(fields, cells, x, y);
    }
  }

  predicate NoFixedArrays(fields: seq<Field>) {
    forall i | 0 <= i < |fields| :: !fields[i].IsFixedArray()
  }

  /** In particular they always agree for descriptors without count-less arrays. */
  lemma CountedArraysMerge(fields: seq<Field>, cells: seq<Cell>, x: seq<Byte>, y: seq<Byte>)
    requires |cells| == NumSlots(fields) && NoFixedArrays(fields)
    requires DecMsg(fields, cells, x).Ok? && Clean(fields, Start(cells), x)
    requires DecMsg(fields, DecMsg(fields, cells, x).val, y).Ok?
    ensures DecMsg(fields, cells, x + y) == DecMsg(fields, DecMsg(fields, cells, x).val, y)
  {
    hide DecLoop, DecRecord, DecMsg, Clean, NumSlots, Countless;
    MergesExactly(fields, cells, x, y);
    FirstIsCountless(fields, Start(DecMsg(fields, cells, x).val), y);
  }

  lemma {:induction false} FirstIsCountless(fields: seq<Field>, st: State, s: seq<Byte>)
    requires |st.cells| == NumSlots(fields)
    ensures var r := FirstCountless(fields, st, s); r.Some? ==> r.value < |fields| && fields[r.value].IsFixedArray()
    decreases |s|
  {
    hide DecRecord, NumSlots, Countless;
    if s != [] && Countless(fields, s).None? && DecRecord(fields, st, s).Next? {
      FirstIsCountless(fields, DecRecord(fields, st, s).st, DecRecord(fields, st, s).rest);
    }
  }

  // ---------- An instance ----------

  const ONE_ENTRY := Field(1, LUVarint, Repeated, 0, 0, 1, 1, Zeros, [])
  const ENTRY_RECORD: seq<Byte> := [8, 5]

  /** The record of the one entry, when none was received before. */
  lemma EntryArrives(items: seq<Value>)
    ensures NumSlots([ONE_ENTRY]) == 1
    ensures DecRecord([ONE_ENTRY], Start([Arr(0, items)]), ENTRY_RECORD)
         == Next(State([Arr(0, Put(items, 0, Num(5)))], {}, Filling(0, 1)), [])
    ensures Countless([ONE_ENTRY], ENTRY_RECORD) == Some(0)
  {
    var fields, st, s: seq<Byte> := [ONE_ENTRY], Start([Arr(0, items)]), [5];
    assert SlotOf(fields, 0) == 0 && RequiredIndex(fields, 0) == 0;
    assert ENTRY_RECORD[1..] == s && s[1..] == [];
    assert DecVarint32(ENTRY_RECORD) == Ok(8, s);
    assert RawVarint(s, 0) == Ok(5, []);
    assert DecValue(ONE_ENTRY, Num(0), s) == DecScalar(ONE_ENTRY, s) == Ok(Num(5), []);
    assert DecArray(ONE_ENTRY, items, 0, 0, s) == Ok((Put(items, 0, Num(5)), 1), []);
    assert DecField(ONE_ENTRY, Arr(0, items), 0, 0, s) == Ok((Arr(0, Put(items, 0, Num(5))), 1), []);
    assert DecTagged(fields, st, 1, 0, s) == DecKnown(fields, st, 0, 0, s);
    assert [Arr(0, items)][0 := Arr(0, Put(items, 0, Num(5)))] == [Arr(0, Put(items, 0, Num(5)))];
  }

  /** The array of one entry can be decoded twice in a row, but not from both byte strings
      at once. */
  lemma CountlessArraysDoNotMerge()
    ensures NumSlots([ONE_ENTRY]) == 1
    ensures var cells := [Arr(0, [])];
      && DecMsg([ONE_ENTRY], cells, ENTRY_RECORD).Ok? && Clean([ONE_ENTRY], Start(cells), ENTRY_RECORD)
      && DecMsg([ONE_ENTRY], DecMsg([ONE_ENTRY], cells, ENTRY_RECORD).val, ENTRY_RECORD).Ok?
      && TakenUpAgain([ONE_ENTRY], cells, ENTRY_RECORD, ENTRY_RECORD)
      && DecMsg([ONE_ENTRY], cells, ENTRY_RECORD + ENTRY_RECORD).Fail?
  {
    hide DecRecord, Countless;
    var fields, cells, after := [ONE_ENTRY], [Arr(0, [])], [Arr(0, [Num(5)])];
    var full := State(after, {}, Filling(0, 1));
    EntryArrives([]);
    EntryArrives([Num(5)]);
    assert Put([], 0, Num(5)) == [Num(5)] == Put([Num(5)], 0, Num(5));
    assert DecLoop(fields, full, []) == Ok(full, []);
    assert DecLoop(fields, Start(cells), ENTRY_RECORD) == DecLoop(fields, full, []);
    assert DecLoop(fields, Start(after), ENTRY_RECORD) == DecLoop(fields, full, []);
    assert Clean(fields, full, []);
    MergesExactly(fields, cells, ENTRY_RECORD, ENTRY_RECORD);
  }
}

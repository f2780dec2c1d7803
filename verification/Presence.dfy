/** Which records a message must have, and what it leaves of the fields it has none for. */
module Presence {
  import opened Bits
  import opened Varint
  import opened Descriptor
  import opened DecodeSpec
  import opened RoundTrip
  import opened Merge

  /** The required fields before field `i`. */
  function RequiredBefore(fields: seq<Field>, i: nat): set<nat>
    requires i <= |fields|
  {
    set j | 0 <= j < i && fields[j].htype.Required?
  }

  /** One of the first 64 required fields. */
  predicate Demanded(fields: seq<Field>, i: nat)
    requires i < |fields|
  {
    fields[i].htype.Required? && |RequiredBefore(fields, i)| < 64
  }

  lemma {:induction false} IndexIsCount(fields: seq<Field>, i: nat)
    requires i <= |fields|
    ensures RequiredIndex(fields, i) == |RequiredBefore(fields, i)|
  {
    if i == 0 {
      assert RequiredBefore(fields, 0) == {};
    } else {
      IndexIsCount(fields, i - 1);
      var before := RequiredBefore(fields, i - 1);
      assert RequiredBefore(fields, i) == if fields[i - 1].htype.Required? then before + {i - 1} else before;
    }
  }

  /** The field number of a record. */
  function NumberOf(s: seq<Byte>): nat {
    if DecVarint32(s).Ok? then DecVarint32(s).val / 8 else 0
  }

  lemma RecordMarks(fields: seq<Field>, st: State, s: seq<Byte>, i: nat)
    requires |st.cells| == NumSlots(fields) && DistinctTags(fields) && DecRecord(fields, st, s).Next?
    requires i < |fields| && Demanded(fields, i)
    ensures i in DecRecord(fields, st, s).st.seen <==> i in st.seen || NumberOf(s) == fields[i].tag
  {
    hide DecVarint32, SkipField, DecField, TrackerDone, RequiredIndex, SlotOf, NumSlots;
    IndexIsCount(fields, i);
    FindTagAt(fields, i);
    var (key, r) := (DecVarint32(s).val, DecVarint32(s).rest);
    var j := FindTag(fields, key / 8);
    assert DecRecord(fields, st, s) == DecTagged(fields, st, key / 8, key % 8, r);
    if j < |fields| {
      assert DecTagged(fields, st, key / 8, key % 8, r) == DecKnown(fields, st, j, key % 8, r);
    }
  }

  predicate SomeNumbered(recs: seq<seq<Byte>>, tag: nat) {
    exists k | 0 <= k < |recs| :: NumberOf(recs[k]) == tag
  }

  lemma {:induction false} RunMarks(fields: seq<Field>, st: State, recs: seq<seq<Byte>>, i: nat)
    requires |st.cells| == NumSlots(fields) && DistinctTags(fields) && Whole(fields, st, recs)
    requires i < |fields| && Demanded(fields, i)
    ensures i in Run(fields, st, recs).seen <==> i in st.seen || SomeNumbered(recs, fields[i].tag)
    decreases |recs|
  {
    hide DecRecord, NumSlots, NumberOf, DistinctTags, Demanded;
    if recs != [] {
      var st' := DecRecord(fields, st, recs[0]).st;
      RecordMarks(fields, st, recs[0], i);
      RunMarks(fields, st', recs[1..], i);
      assert SomeNumbered(recs, fields[i].tag) <==> NumberOf(recs[0]) == fields[i].tag || SomeNumbered(recs[1..], fields[i].tag) by {
        SomeOfRest(recs, fields[i].tag);
      }
    }
  }

  lemma SomeOfRest(recs: seq<seq<Byte>>, tag: nat)
    requires recs != []
    ensures SomeNumbered(recs, tag) <==> NumberOf(recs[0]) == tag || SomeNumbered(recs[1..], tag)
  {
    hide NumberOf;
    assert forall k | 1 <= k < |recs| :: recs[k] == recs[1..][k - 1];
    assert forall k | 0 <= k < |recs| - 1 :: recs[1..][k] == recs[k + 1];
  }

  /** A series of whole records decodes if and only if its last count-less array is complete
      and each of the first 64 required fields has a record. */
  lemma RequiredExactly(fields: seq<Field>, cells: seq<Cell>, recs: seq<seq<Byte>>)
    requires |cells| == NumSlots(fields) && DistinctTags(fields) && Whole(fields, Start(cells), recs)
    ensures DecMsg(fields, cells, Flatten(recs)).Ok? <==>
      && TrackerDone(fields, Run(fields, Start(cells), recs).tracker)
      && forall i | 0 <= i < |fields| && Demanded(fields, i) :: SomeNumbered(recs, fields[i].tag)
  {
    hide DecLoop, NumSlots, Whole, Run, Flatten, TrackerDone, SomeNumbered, DistinctTags, RequiredBefore;
    var st := Run(fields, Start(cells), recs);
    assert Flatten(recs) + [] == Flatten(recs);
    WholeLoop(fields, Start(cells), recs, []);
    LoopEnds(fields, st);
    forall i | 0 <= i < |fields| && Demanded(fields, i)
      ensures i in st.seen <==> SomeNumbered(recs, fields[i].tag)
    {
      RunMarks(fields, Start(cells), recs, i);
    }
    forall i | 0 <= i < |fields|
      ensures Demanded(fields, i) <==> fields[i].htype.Required? && RequiredIndex(fields, i) < 64
    {
      IndexIsCount(fields, i);
    }
  }

  // ---------- Fields without a record ----------

  /** No field in the cell of field `i` is numbered as the record `s`. */
  predicate Elsewhere(fields: seq<Field>, i: nat, s: seq<Byte>)
    requires i < |fields|
  {
    forall j | 0 <= j < |fields| && SlotOf(fields, j) == SlotOf(fields, i) :: fields[j].tag != NumberOf(s)
  }

  lemma RecordLeaves(fields: seq<Field>, st: State, s: seq<Byte>, i: nat)
    requires |st.cells| == NumSlots(fields) && DecRecord(fields, st, s).Next?
    requires i < |fields| && SlotOf(fields, i) < |st.cells| && Elsewhere(fields, i, s)
    ensures DecRecord(fields, st, s).st.cells[SlotOf(fields, i)] == st.cells[SlotOf(fields, i)]
  {
    hide DecVarint32, SkipField, DecField, TrackerDone, RequiredIndex, SlotOf, NumSlots;
    var (key, r) := (DecVarint32(s).val, DecVarint32(s).rest);
    var j := FindTag(fields, key / 8);
    assert DecRecord(fields, st, s) == DecTagged(fields, st, key / 8, key % 8, r);
    if j < |fields| {
      SlotMonotone(fields, j, j);
      assert DecTagged(fields, st, key / 8, key % 8, r) == DecKnown(fields, st, j, key % 8, r);
    }
  }

  /** Records leave the cells of other fields as they are. */
  lemma {:induction false} RecordsLeave(fields: seq<Field>, st: State, recs: seq<seq<Byte>>, i: nat)
    requires |st.cells| == NumSlots(fields) && Whole(fields, st, recs)
    requires i < |fields| && forall k | 0 <= k < |recs| :: Elsewhere(fields, i, recs[k])
    ensures SlotOf(fields, i) < |st.cells| && Run(fields, st, recs).cells[SlotOf(fields, i)] == st.cells[SlotOf(fields, i)]
    decreases |recs|
  {
    hide DecRecord, NumSlots, Elsewhere, SlotOf;
    SlotMonotone(fields, i, i);
    if recs != [] {
      assert Elsewhere(fields, i, recs[0]);
      RecordLeaves(fields, st, recs[0], i);
      RecordsLeave(fields, DecRecord(fields, st, recs[0]).st, recs[1..], i);
    }
  }

  /** The default that the descriptor gives, or zeros; of a submessage, those of its fields. */
  predicate InitialDatum(f: Field, v: Value)
    decreases f, 0
  {
    if f.ltype.LSubmessage? then
      && v.Msg?
      && forall i | 0 <= i < |f.sub| :: SlotOf(f.sub, i) < |v.cells| && InitialCell(f.sub[i], v.cells[SlotOf(f.sub, i)])
    else
      match f.initial
      case Init(d) => v == d
      case Zeros =>
        if Packable(f.ltype) then v == Num(0)
        else v.Blob? && |v.b| == (if f.ltype.LFixedLength? then f.dataSize else 0) && forall k | 0 <= k < |v.b| :: v.b[k] == 0
  }

  /** Flags off, counts and selectors zero, and everything else at its default. */
  predicate InitialCell(f: Field, c: Cell)
    decreases f, 1
  {
    match f.htype
    case Required => c.Single? && InitialDatum(f, c.v)
    case Optional => if f.HasSize() then c.Opt? && !c.has && InitialDatum(f, c.v) else c.Single? && InitialDatum(f, c.v)
    case Repeated => c.Arr? && c.count == 0
    case OneOf => c.Union? && c.which == 0
  }

  lemma {:induction false} DefaultIsInitial(f: Field)
    ensures InitialDatum(f, DefaultValue(f)) && InitialCell(f, DefaultCell(f))
    decreases f
  {
    if f.ltype.LSubmessage? {
      hide SlotOf;
      forall i | 0 <= i < |f.sub|
        ensures SlotOf(f.sub, i) < |DefaultCells(f.sub)| && InitialCell(f.sub[i], DefaultCells(f.sub)[SlotOf(f.sub, i)])
      {
        hide DefaultCells;
        DefaultCellsAt(f.sub, i);
        DefaultIsInitial(f.sub[i]);
      }
    }
  }

  /** In a decoded message a field without a record is at the default of its descriptor. */
  lemma AbsentIsInitial(fields: seq<Field>, recs: seq<seq<Byte>>, i: nat)
    requires |DefaultCells(fields)| == NumSlots(fields) && Whole(fields, Start(DefaultCells(fields)), recs)
    requires i < |fields| && forall k | 0 <= k < |recs| :: Elsewhere(fields, i, recs[k])
    ensures var p := Decode(fields, Flatten(recs));
      p.Ok? ==> SlotOf(fields, i) < |p.val| && InitialCell(fields[i], p.val[SlotOf(fields, i)])
  {
    hide DecLoop, NumSlots, Whole, Run, Flatten, TrackerDone, DefaultCells, RequiredSeen, SlotOf, InitialCell, Elsewhere;
    var st := Start(DefaultCells(fields));
    assert Flatten(recs) + [] == Flatten(recs);
    WholeLoop(fields, st, recs, []);
    LoopEnds(fields, Run(fields, st, recs));
    RecordsLeave(fields, st, recs, i);
    DefaultCellsAt(fields, i);
    DefaultIsInitial(fields[i]);
  }
}

/** Field descriptors, the values a message struct holds, and default messages. */
module Descriptor {
  import opened Bits

  /** The widest value of pb_size_t (PB_FIELD_32BIT build), also the mark of a union member,
      and the number of size bytes in front of a bytes array. */
  const PB_SIZE_MAX: nat := 0xFFFF_FFFF
  const BYTES_HEADER: nat := 4
  const PB_MAX_REQUIRED_FIELDS: nat := 64

  datatype LType =
    | LBool | LVarint | LUVarint | LSVarint | LFixed32 | LFixed64
    | LBytes | LString | LSubmessage | LFixedLength
  datatype HType = Required | Optional | Repeated | OneOf

  /** What the library knows of a stored datum. A string's `Blob` stops where its known
      bytes stop; one NUL follows it where the buffer has room. */
  datatype Value = Num(n: int) | Blob(b: seq<Byte>) | Msg(cells: seq<Cell>)

  /** The storage of one field, or of one union: its datum, with its has-flag, count or
      selector when it has one. Contents the library leaves unspecified are not kept:
      array entries beyond the known ones, and the datum of a union with no member set. */
  datatype Cell =
    | Single(v: Value)
    | Opt(has: bool, v: Value)
    | Arr(count: nat, items: seq<Value>)
    | Union(which: nat, v: Value)

  datatype Initial = Zeros | Init(value: Value)

  datatype Field = Field(
    tag: nat,
    ltype: LType,
    htype: HType,
    dataOffset: nat,
    sizeOffset: int,
    dataSize: nat,
    arraySize: nat,
    initial: Initial,
    sub: seq<Field>)
  {
    predicate HasSize() { sizeOffset != 0 }
    predicate IsFixedArray() { htype.Repeated? && !HasSize() }
  }

  predicate Packable(t: LType) {
    t.LBool? || t.LVarint? || t.LUVarint? || t.LSVarint? || t.LFixed32? || t.LFixed64?
  }

  // ---------- Layout ----------

  /** `f` shares its storage with the union member `prev` listed before it. */
  predicate Continues(prev: Field, f: Field) {
    prev.htype.OneOf? && f.htype.OneOf? && f.dataOffset == PB_SIZE_MAX
  }

  /** The cell of a struct in which field `i` is stored. */
  function SlotOf(fields: seq<Field>, i: nat): nat
    requires i < |fields|
  {
    if i == 0 then 0
    else SlotOf(fields, i - 1) + (if Continues(fields[i - 1], fields[i]) then 0 else 1)
  }

  function NumSlots(fields: seq<Field>): nat {
    if fields == [] then 0 else SlotOf(fields, |fields| - 1) + 1
  }

  lemma {:induction false} SlotMonotone(fields: seq<Field>, i: nat, j: nat)
    requires i <= j < |fields|
    ensures SlotOf(fields, i) <= SlotOf(fields, j) < NumSlots(fields)
    decreases |fields| - i
  {
    if i < j {
      SlotMonotone(fields, i + 1, j);
    } else {
      if j + 1 < |fields| { SlotMonotone(fields, j + 1, |fields| - 1); }
    }
  }

  /** Two fields share a slot only inside one union. */
  lemma {:induction false} SharedSlot(fields: seq<Field>, i: nat, j: nat)
    requires i < j < |fields| && SlotOf(fields, i) == SlotOf(fields, j)
    ensures fields[i].htype.OneOf? && fields[j].htype.OneOf?
    decreases j - i
  {
    SlotMonotone(fields, i, j - 1);
    if i < j - 1 {
      SharedSlot(fields, i, j - 1);
    }
  }

  /** How many required fields come before field `i`. */
  function RequiredIndex(fields: seq<Field>, i: nat): nat
    requires i <= |fields|
  {
    if i == 0 then 0
    else RequiredIndex(fields, i - 1) + (if fields[i - 1].htype.Required? then 1 else 0)
  }

  // ---------- Well-formed descriptors ----------

  predicate DistinctTags(fields: seq<Field>) {
    forall i, j | 0 <= i < j < |fields| :: fields[i].tag != fields[j].tag
  }

  /** What the protobuf compiler guarantees of the tables it generates. */
  predicate WellFormed(fields: seq<Field>)
    decreases fields
  {
    && DistinctTags(fields)
    && (forall i | 0 <= i < |fields| :: WellFormedField(fields[i]))
  }

  predicate WellFormedField(f: Field)
    decreases f
  {
    && 1 <= f.tag < 0x2000_0000
    && f.dataSize <= PB_SIZE_MAX
    && f.arraySize <= PB_SIZE_MAX
    && (f.htype.OneOf? ==> f.HasSize())
    && (f.ltype.LSubmessage? ==> WellFormed(f.sub))
  }

  lemma FieldIsWellFormed(fields: seq<Field>, i: nat)
    requires WellFormed(fields) && i < |fields|
    ensures WellFormedField(fields[i])
  {
  }

  /** The index of the field numbered `tag`, or the number of fields when there is none. */
  function FindTag(fields: seq<Field>, tag: nat): (i: nat)
    ensures i <= |fields|
    ensures i < |fields| ==> fields[i].tag == tag
    ensures i == |fields| ==> forall j | 0 <= j < |fields| :: fields[j].tag != tag
  {
    if fields == [] then 0
    else if fields[0].tag == tag then 0
    else
      assert forall j | 1 <= j < |fields| :: fields[j] == fields[1..][j - 1];
      1 + FindTag(fields[1..], tag)
  }

  lemma FindTagAt(fields: seq<Field>, i: nat)
    requires DistinctTags(fields) && i < |fields|
    ensures FindTag(fields, fields[i].tag) == i
  {
  }

  // ---------- Default messages ----------

  function Zeroes(n: nat): (s: seq<Byte>)
    ensures |s| == n
  {
    seq(n, _ => 0)
  }

  function DefaultValue(f: Field): Value
    decreases f, 0
  {
    if f.ltype.LSubmessage? then Msg(DefaultCells(f.sub))
    else if f.initial.Init? then f.initial.value
    else if Packable(f.ltype) then Num(0)
    else if f.ltype.LFixedLength? then Blob(Zeroes(f.dataSize))
    else Blob([])
  }

  function DefaultCell(f: Field): Cell
    decreases f, 1
  {
    match f.htype
    case Required => Single(DefaultValue(f))
    case Optional => if f.HasSize() then Opt(false, DefaultValue(f)) else Single(DefaultValue(f))
    case Repeated => Arr(0, [])
    case OneOf => Union(0, Num(0))
  }

  /** The default cells of the first `n` fields. */
  function DefaultCellsTo(fields: seq<Field>, n: nat): seq<Cell>
    requires n <= |fields|
    decreases fields, n
  {
    if n == 0 then []
    else if n >= 2 && Continues(fields[n - 2], fields[n - 1]) then DefaultCellsTo(fields, n - 1)
    else DefaultCellsTo(fields, n - 1) + [DefaultCell(fields[n - 1])]
  }

  function DefaultCells(fields: seq<Field>): seq<Cell>
    decreases fields, |fields| + 1
  {
    DefaultCellsTo(fields, |fields|)
  }

  lemma {:induction false} DefaultCellsToAt(fields: seq<Field>, n: nat, i: nat)
    requires i < n <= |fields|
    ensures |DefaultCellsTo(fields, n)| == SlotOf(fields, n - 1) + 1
    ensures SlotOf(fields, i) < |DefaultCellsTo(fields, n)|
    ensures DefaultCellsTo(fields, n)[SlotOf(fields, i)] == DefaultCell(fields[i])
    decreases n
  {
    SlotMonotone(fields, i, n - 1);
    if n >= 2 {
      if i == n - 1 {
        DefaultCellsToAt(fields, n - 1, n - 2);
      } else {
        DefaultCellsToAt(fields, n - 1, i);
      }
    }
  }

  lemma DefaultCellsAt(fields: seq<Field>, i: nat)
    requires i < |fields|
    ensures |DefaultCells(fields)| == NumSlots(fields)
    ensures SlotOf(fields, i) < NumSlots(fields)
    ensures DefaultCells(fields)[SlotOf(fields, i)] == DefaultCell(fields[i])
  {
    DefaultCellsToAt(fields, |fields|, i);
  }

  lemma DefaultCellsLength(fields: seq<Field>)
    ensures |DefaultCells(fields)| == NumSlots(fields)
  {
    if fields != [] { DefaultCellsAt(fields, 0); }
  }
}

/** What the receiver's message has in common with the sender's. */
module Meaning {
  import opened Bits
  import opened Descriptor
  import opened EncodeSpec
  import opened DecodeSpec
  import opened RoundTrip

  // ---------- The same message, apart from absent contents ----------

  predicate SameValue(f: Field, a: Value, b: Value)
    decreases f, 0
  {
    match (a, b)
    case (Num(m), Num(n)) => if f.ltype.LBool? then (m != 0) == (n != 0) else m == n
    case (Blob(p), Blob(q)) => if f.ltype.LString? then p[..StrLen(p)] == q[..StrLen(q)] else p == q
    case (Msg(p), Msg(q)) => SameMessage(f.sub, p, q)
    case _ => false
  }

  predicate SameItems(f: Field, a: seq<Value>, b: seq<Value>)
    decreases f, 1
  {
    |a| == |b| && forall k | 0 <= k < |a| :: SameValue(f, a[k], b[k])
  }

  predicate SameCell(f: Field, a: Cell, b: Cell)
    decreases f, 2
  {
    match f.htype
    case Required => a.Single? && b.Single? && SameValue(f, a.v, b.v)
    case Optional =>
      if f.HasSize() then a.Opt? && b.Opt? && a.has == b.has && (a.has ==> SameValue(f, a.v, b.v))
      else a.Single? && b.Single? && SameValue(f, a.v, b.v)
    case Repeated =>
      && a.Arr? && b.Arr?
      && SendCount(f, a) == SendCount(f, b) <= |a.items| && SendCount(f, b) <= |b.items|
      && SameItems(f, a.items[..SendCount(f, a)], b.items[..SendCount(f, b)])
    case OneOf =>
      a.Union? && b.Union? && (a.which == f.tag) == (b.which == f.tag) && (a.which == f.tag ==> SameValue(f, a.v, b.v))
  }

  /** Both messages have the same fields present, with the same contents. */
  predicate SameMessage(fields: seq<Field>, a: seq<Cell>, b: seq<Cell>)
    decreases fields
  {
    && |a| == |b| == NumSlots(fields)
    && forall i | 0 <= i < |fields| ::
      SlotOf(fields, i) < |a| && SameCell(fields[i], a[SlotOf(fields, i)], b[SlotOf(fields, i)])
  }

  // ---------- Which messages can be received unchanged ----------

  /** The field's default is the value that is not sent. */
  predicate ZeroInitial(f: Field) {
    match f.initial
    case Zeros => true
    case Init(v) =>
      match v
      case Num(n) => Packable(f.ltype) && n == 0
      case Blob(b) => !Packable(f.ltype) && (b == [] || (f.ltype.LString? && b[0] == 0))
      case Msg(_) => false
  }

  /** No present has-less datum, at any depth, is zero while its field's default is not. */
  predicate Restorable(fields: seq<Field>, cells: seq<Cell>)
    decreases fields
  {
    forall i | 0 <= i < |fields| ::
      SlotOf(fields, i) < |cells| && RestorableCell(fields[i], cells[SlotOf(fields, i)])
  }

  predicate RestorableCell(f: Field, c: Cell)
    decreases f, 1
  {
    match f.htype
    case Required => c.Single? && RestorableValue(f, c.v)
    case Optional =>
      if f.HasSize() then c.Opt? && (c.has ==> RestorableValue(f, c.v))
      else c.Single? && RestorableValue(f, c.v) && (!f.ltype.LSubmessage? && IsZero(f, c.v) ==> ZeroInitial(f))
    case Repeated =>
      && c.Arr? && SendCount(f, c) <= |c.items|
      && forall k | 0 <= k < SendCount(f, c) :: RestorableValue(f, c.items[k])
    case OneOf => c.Union? && (c.which == f.tag ==> RestorableValue(f, c.v))
  }

  predicate RestorableValue(f: Field, v: Value)
    decreases f, 0
  {
    v.Msg? ==> Restorable(f.sub, v.cells)
  }

  /** Has-less singular fields default to zero, at every depth: what proto3 prescribes. */
  predicate ZeroDefaults(fields: seq<Field>)
    decreases fields
  {
    forall i | 0 <= i < |fields| :: ZeroDefault(fields[i])
  }

  predicate ZeroDefault(f: Field)
    decreases f
  {
    && (f.htype.Optional? && !f.HasSize() ==> ZeroInitial(f))
    && ZeroDefaults(f.sub)
  }

  // ---------- The cell in which a field arrives ----------

  lemma {:induction false} ReceivedAt(fields: seq<Field>, src: seq<Cell>, dst: seq<Cell>, i: nat, j: nat)
    requires i <= |fields| && j < |fields| && |src| == |dst| == NumSlots(fields)
    requires !fields[j].htype.OneOf?
    ensures SlotOf(fields, j) < |dst|
    ensures Received(fields, src, dst, i)[SlotOf(fields, j)]
         == if i <= j then NormCell(fields[j], src[SlotOf(fields, j)], dst[SlotOf(fields, j)]) else dst[SlotOf(fields, j)]
    decreases |fields| - i
  {
    hide NormCell;
    SlotMonotone(fields, j, j);
    if i < |fields| {
      SlotMonotone(fields, i, i);
      if SlotOf(fields, i) == SlotOf(fields, j) && i != j {
        SharedSlot(fields, if i < j then i else j, if i < j then j else i);
      }
      var k := SlotOf(fields, i);
      ReceivedAt(fields, src, dst[k := NormCell(fields[i], src[k], dst[k])], i + 1, j);
    }
  }

  /** A union member arrives if it is the selected one; a member that is not selected
      does not become selected. */
  lemma {:induction false} ReceivedUnion(fields: seq<Field>, src: seq<Cell>, dst: seq<Cell>, i: nat, j: nat)
    requires DistinctTags(fields) && i <= |fields| && j < |fields| && |src| == |dst| == NumSlots(fields)
    requires fields[j].htype.OneOf? && SlotOf(fields, j) < |src|
    requires src[SlotOf(fields, j)].Union? && dst[SlotOf(fields, j)].Union?
    ensures
      var k, f := SlotOf(fields, j), fields[j];
      var r := Received(fields, src, dst, i)[k];
      && r.Union?
      && (src[k].which == f.tag && (i <= j || dst[k] == Union(f.tag, NormValue(f, src[k].v))) ==>
        r == Union(f.tag, NormValue(f, src[k].v)))
      && (src[k].which != f.tag && dst[k].which != f.tag ==> r.which != f.tag)
    decreases |fields| - i
  {
    hide NormValue;
    if i < |fields| {
      SlotMonotone(fields, i, i);
      var k := SlotOf(fields, i);
      if k == SlotOf(fields, j) && i != j {
        SharedSlot(fields, if i < j then i else j, if i < j then j else i);
      }
      ReceivedUnion(fields, src, dst[k := NormCell(fields[i], src[k], dst[k])], i + 1, j);
    }
  }

  // ---------- Normalizing keeps the message ----------

  lemma {:induction false} StrLenPrefix(b: seq<Byte>)
    ensures StrLen(b[..StrLen(b)]) == StrLen(b)
  {
  }

  lemma {:induction false} NormItemsAt(f: Field, items: seq<Value>, k: nat)
    requires k < |items|
    ensures NormItems(f, items)[k] == NormValue(f, items[k])
  {
    hide NormValue;
    if k > 0 { NormItemsAt(f, items[1..], k - 1); }
  }

  lemma {:induction false} NormValueSame(f: Field, v: Value)
    requires WellFormedField(f) && ValidValue(f, v)
    ensures SameValue(f, v, NormValue(f, v)) <==> RestorableValue(f, v)
    decreases f, 0
  {
    match v
    case Num(n) =>
    case Blob(b) =>
      if f.ltype.LString? {
        StrLenPrefix(b);
        assert b[..StrLen(b)][..StrLen(b)] == b[..StrLen(b)];
      }
    case Msg(cells) => NormalizeKeepsMessage(f.sub, cells);
  }

  /** A zero datum is its field's default exactly when that is zero. */
  lemma {:induction false} ZeroIsDefault(f: Field, v: Value)
    requires WellFormedField(f) && ValidValue(f, v) && IsZero(f, v)
    ensures SameValue(f, v, DefaultValue(f)) <==>
      RestorableValue(f, v) && (f.ltype.LSubmessage? || ZeroInitial(f))
    decreases f, 0
  {
    match v
    case Num(n) =>
    case Blob(b) =>
      if f.ltype.LString? { assert b[..StrLen(b)] == []; }
      if f.ltype.LFixedLength? { assert b == []; }
    case Msg(cells) =>
      assert DefaultValue(f) == Msg(DefaultCells(f.sub));
      AllDefaultIsDefault(f.sub, cells);
  }

  lemma {:induction false} AllDefaultAt(fields: seq<Field>, cells: seq<Cell>, i: nat, j: nat)
    requires i <= j < |fields| && AllDefault(fields, cells, i)
    ensures SlotOf(fields, j) < |cells| && IsDefault(fields[j], cells[SlotOf(fields, j)])
    decreases j - i
  {
    hide IsDefault;
    if i < j { AllDefaultAt(fields, cells, i + 1, j); }
  }

  lemma {:induction false} AllDefaultIsDefault(fields: seq<Field>, cells: seq<Cell>)
    requires WellFormed(fields) && ValidCells(fields, cells) && AllDefault(fields, cells, 0)
    ensures SameMessage(fields, cells, DefaultCells(fields)) <==> Restorable(fields, cells)
    decreases fields, 1
  {
    DefaultCellsLength(fields);
    forall i | 0 <= i < |fields|
      ensures SlotOf(fields, i) < |cells|
      ensures SameCell(fields[i], cells[SlotOf(fields, i)], DefaultCells(fields)[SlotOf(fields, i)])
         <==> RestorableCell(fields[i], cells[SlotOf(fields, i)])
    {
      hide DefaultCells, SlotOf, ValidCell, SameCell, AllDefault, IsDefault, RestorableCell;
      AllDefaultAt(fields, cells, 0, i);
      DefaultCellsAt(fields, i);
      assert WellFormedField(fields[i]);
      assert ValidCell(fields[i], cells[SlotOf(fields, i)]);
      DefaultCellSame(fields[i], cells[SlotOf(fields, i)]);
    }
  }

  lemma {:induction false} DefaultCellSame(f: Field, c: Cell)
    requires WellFormedField(f) && ValidCell(f, c) && IsDefault(f, c)
    ensures SameCell(f, c, DefaultCell(f)) <==> RestorableCell(f, c)
    decreases f, 3
  {
    hide ValidValue, SameValue, DefaultValue, IsZero, RestorableValue, ZeroInitial;
    if f.htype.Optional? && !f.HasSize() {
      ZeroIsDefault(f, c.v);
    }
  }

  lemma {:induction false} NormArraySame(f: Field, c: Cell)
    requires WellFormedField(f) && ValidCell(f, c) && f.htype.Repeated?
    ensures SameCell(f, c, NormCell(f, c, DefaultCell(f))) <==> RestorableCell(f, c)
    decreases f, 2
  {
    hide ValidValue, SameValue, NormValue, DefaultValue, RestorableValue;
    var items := c.items[..SendCount(f, c)];
    var r := NormItems(f, items);
    assert NormCell(f, c, DefaultCell(f)) == Arr(if f.HasSize() then c.count else 0, r);
    forall k | 0 <= k < |items| ensures SameValue(f, items[k], r[k]) <==> RestorableValue(f, c.items[k]) {
      NormItemsAt(f, items, k);
      NormValueSame(f, c.items[k]);
    }
    assert r[..|items|] == r;
    assert SameItems(f, items, r) <==> forall k | 0 <= k < SendCount(f, c) :: RestorableValue(f, c.items[k]);
  }

  lemma {:induction false} NormCellSame(f: Field, c: Cell)
    requires WellFormedField(f) && ValidCell(f, c) && !f.htype.OneOf?
    ensures SameCell(f, c, NormCell(f, c, DefaultCell(f))) <==> RestorableCell(f, c)
    decreases f, 3
  {
    hide ValidValue, SameValue, NormValue, IsZero, DefaultValue, RestorableValue, ZeroInitial;
    if f.htype.Repeated? {
      NormArraySame(f, c);
    } else if f.htype.Optional? && IsDefault(f, c) {
      if !f.HasSize() { ZeroIsDefault(f, c.v); }
    } else {
      NormValueSame(f, c.v);
    }
  }

  /** The received message is the one sent, contents of absent fields aside, exactly when
      no zero datum is hidden by a default. */
  lemma {:induction false} NormalizeKeepsMessage(fields: seq<Field>, cells: seq<Cell>)
    requires WellFormed(fields) && ValidCells(fields, cells)
    ensures SameMessage(fields, cells, Normalize(fields, cells)) <==> Restorable(fields, cells)
    decreases fields, 2
  {
    DefaultCellsLength(fields);
    forall i | 0 <= i < |fields|
      ensures SlotOf(fields, i) < |cells|
      ensures SameCell(fields[i], cells[SlotOf(fields, i)], Normalize(fields, cells)[SlotOf(fields, i)])
         <==> RestorableCell(fields[i], cells[SlotOf(fields, i)])
    {
      hide DefaultCells, SlotOf, NormCell, Received, NormValue, ValidValue, SameValue, RestorableValue, IsZero, ZeroInitial;
      var f := fields[i];
      DefaultCellsAt(fields, i);
      assert WellFormedField(f);
      var c := cells[SlotOf(fields, i)];
      assert ValidCell(f, c);
      if f.htype.OneOf? {
        ReceivedUnion(fields, cells, DefaultCells(fields), 0, i);
        if c.which == f.tag { NormValueSame(f, c.v); }
      } else {
        ReceivedAt(fields, cells, DefaultCells(fields), 0, i);
        NormCellSame(f, c);
      }
    }
  }

  /** Encoding and decoding a valid message succeeds, reads every byte, and yields the
      same message if and only if no zero datum is hidden by a default. */
  lemma EncodeDecode(fields: seq<Field>, cells: seq<Cell>)
    requires WellFormed(fields) && ValidCells(fields, cells)
    ensures Encode(fields, cells).Out?
    ensures var p := Decode(fields, Encode(fields, cells).bytes);
      p.Ok? && p.rest == [] && (SameMessage(fields, cells, p.val) <==> Restorable(fields, cells))
  {
    hide Decode, EncFields, Normalize, WellFormed, ValidCells, Restorable, SameMessage;
    MessageRoundTrip(fields, cells);
    NormalizeKeepsMessage(fields, cells);
  }

  /** With zero defaults every valid message is received as it was sent. */
  lemma {:induction false} ZeroDefaultsRestore(fields: seq<Field>, cells: seq<Cell>)
    requires ValidCells(fields, cells) && ZeroDefaults(fields)
    ensures Restorable(fields, cells)
    decreases fields, 2
  {
    forall i | 0 <= i < |fields|
      ensures SlotOf(fields, i) < |cells| && RestorableCell(fields[i], cells[SlotOf(fields, i)])
    {
      hide SlotOf, RestorableCell, ValidCell, ZeroDefault;
      assert ZeroDefault(fields[i]);
      ZeroDefaultRestores(fields[i], cells[SlotOf(fields, i)]);
    }
  }

  lemma {:induction false} ZeroDefaultRestores(f: Field, c: Cell)
    requires ValidCell(f, c) && ZeroDefault(f)
    ensures RestorableCell(f, c)
    decreases f, 1
  {
    hide IsZero, ZeroInitial, ZeroDefaults;
    match f.htype
    case Required => ZeroDefaultRestoresValue(f, c.v);
    case Optional => if !f.HasSize() || c.has { ZeroDefaultRestoresValue(f, c.v); }
    case Repeated =>
      forall k | 0 <= k < SendCount(f, c) ensures RestorableValue(f, c.items[k]) {
        ZeroDefaultRestoresValue(f, c.items[k]);
      }
    case OneOf => if c.which == f.tag { ZeroDefaultRestoresValue(f, c.v); }
  }

  lemma {:induction false} ZeroDefaultRestoresValue(f: Field, v: Value)
    requires ValidValue(f, v) && ZeroDefaults(f.sub)
    ensures RestorableValue(f, v)
    decreases f, 0
  {
    if v.Msg? { ZeroDefaultsRestore(f.sub, v.cells); }
  }

  /** A number with a nonzero default and no has-flag is never received as zero. */
  lemma NonzeroDefaultHidesZero(fields: seq<Field>, cells: seq<Cell>, i: nat)
    requires WellFormed(fields) && ValidCells(fields, cells) && i < |fields|
    requires fields[i].htype.Optional? && !fields[i].HasSize() && Packable(fields[i].ltype)
    requires fields[i].initial.Init? && fields[i].initial.value != Num(0)
    requires SlotOf(fields, i) < |cells| && cells[SlotOf(fields, i)] == Single(Num(0))
    ensures Encode(fields, cells).Out? && Decode(fields, Encode(fields, cells).bytes).Ok?
    ensures !SameMessage(fields, cells, Decode(fields, Encode(fields, cells).bytes).val)
  {
    hide Decode, EncFields, WellFormed, ValidCells, SlotOf, SameMessage;
    EncodeDecode(fields, cells);
    assert IsZero(fields[i], Num(0));
    assert !RestorableCell(fields[i], cells[SlotOf(fields, i)]);
  }
}

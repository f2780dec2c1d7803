/** A submessage is left out exactly when nothing of it would be sent. */
module Elision {
  import opened Descriptor
  import opened Varint
  import opened EncodeSpec

  lemma TaggedIsNotEmpty(f: Field, v: Value)
    ensures EncTagged(f, v) != Out([])
  {
    hide EncValue, EncVarint;
  }

  lemma {:induction false} ArrayIsNotEmpty(f: Field, items: seq<Value>)
    ensures EncArray(f, items) == Out([]) <==> items == []
  {
    hide EncTagged, EncItems;
    if items != [] {
      if Packable(f.ltype) {
      } else {
        TaggedIsNotEmpty(f, items[0]);
        assert EncTaggedItems(f, items) == Cat(EncTagged(f, items[0]), EncTaggedItems(f, items[1..]));
      }
    }
  }

  /** The two cases in which a field that the check calls non-default sends nothing: an
      array of no entries without a count, and a union in which another member is set. */
  predicate SilentButSet(f: Field, c: Cell) {
    (f.IsFixedArray() && f.arraySize == 0) || (f.htype.OneOf? && c.Union? && c.which != 0 && c.which != f.tag)
  }

  lemma FieldSilent(f: Field, c: Cell)
    requires StoredCell(f, c) && f.tag != 0
    ensures EncField(f, c) == Out([]) <==> IsDefault(f, c) || SilentButSet(f, c)
  {
    hide EncTagged, EncArray, IsZero, StoredValue;
    if f.htype.Repeated? {
      if SendCount(f, c) <= |c.items| { ArrayIsNotEmpty(f, c.items[..SendCount(f, c)]); }
    } else if f.htype.OneOf? || f.htype.Required? || f.htype.Optional? {
      TaggedIsNotEmpty(f, c.v);
    }
  }

  /** Whether some field, from number `i` on, is silent though set. */
  predicate NoSilentButSet(fields: seq<Field>, cells: seq<Cell>, i: nat)
    requires i <= |fields|
    decreases |fields| - i
  {
    i == |fields|
    || (SlotOf(fields, i) < |cells| && !SilentButSet(fields[i], cells[SlotOf(fields, i)])
        && NoSilentButSet(fields, cells, i + 1))
  }

  /** For any stored struct, the recursive zero check holds if and only if encoding it
      emits no byte and no field is silent though set. */
  lemma {:induction false} CheckIsExact(fields: seq<Field>, cells: seq<Cell>, i: nat)
    requires i <= |fields| && WellFormed(fields) && StoredCells(fields, cells)
    ensures AllDefault(fields, cells, i)
       <==> EncFields(fields, cells, i) == Out([]) && NoSilentButSet(fields, cells, i)
    decreases |fields| - i
  {
    hide EncField, IsDefault, SilentButSet, SlotOf;
    if i < |fields| {
      assert WellFormedField(fields[i]);
      CheckIsExact(fields, cells, i + 1);
      FieldSilent(fields[i], cells[SlotOf(fields, i)]);
      DefaultIsNotSilent(fields[i], cells[SlotOf(fields, i)]);
    }
  }

  lemma DefaultIsNotSilent(f: Field, c: Cell)
    ensures !(IsDefault(f, c) && SilentButSet(f, c))
  {
    hide IsZero;
  }

  /** Selectors are 0 or name the member they select, and arrays have room. */
  predicate ProperSelectors(fields: seq<Field>, cells: seq<Cell>) {
    forall i | 0 <= i < |fields| && SlotOf(fields, i) < |cells| ::
      && !(fields[i].IsFixedArray() && fields[i].arraySize == 0)
      && (fields[i].htype.OneOf? && cells[SlotOf(fields, i)].Union? && cells[SlotOf(fields, i)].which != 0 ==>
        exists j | 0 <= j < |fields| && SlotOf(fields, j) == SlotOf(fields, i) && fields[j].htype.OneOf? ::
          fields[j].tag == cells[SlotOf(fields, i)].which)
  }

  /** With proper selectors and no zero-length arrays, a submessage passes the zero check
      if and only if its encoding is empty. */
  lemma ElisionIsExact(fields: seq<Field>, cells: seq<Cell>)
    requires WellFormed(fields) && StoredCells(fields, cells) && ProperSelectors(fields, cells)
    ensures AllDefault(fields, cells, 0) <==> Encode(fields, cells) == Out([])
  {
    hide EncField, IsDefault, SlotOf, EncFields, AllDefault, NoSilentButSet;
    CheckIsExact(fields, cells, 0);
    if Encode(fields, cells) == Out([]) {
      forall i | 0 <= i < |fields|
        ensures SlotOf(fields, i) < |cells| && !SilentButSet(fields[i], cells[SlotOf(fields, i)])
      {
        var c := cells[SlotOf(fields, i)];
        if fields[i].htype.OneOf? && c.which != 0 {
          var j :| 0 <= j < |fields| && SlotOf(fields, j) == SlotOf(fields, i) && fields[j].htype.OneOf? && fields[j].tag == c.which;
          SilentAt(fields, cells, 0, j);
          assert WellFormedField(fields[j]);
          SelectedIsSent(fields[j], c);
          assert false;
        }
      }
      AllNotSilent(fields, cells, 0);
    }
  }

  lemma SelectedIsSent(f: Field, c: Cell)
    requires f.htype.OneOf? && c.Union? && c.which == f.tag
    ensures EncField(f, c) != Out([])
  {
    hide EncTagged;
    TaggedIsNotEmpty(f, c.v);
  }

  lemma {:induction false} AllNotSilent(fields: seq<Field>, cells: seq<Cell>, i: nat)
    requires i <= |fields|
    requires forall j | 0 <= j < |fields| ::
      SlotOf(fields, j) < |cells| && !SilentButSet(fields[j], cells[SlotOf(fields, j)])
    ensures NoSilentButSet(fields, cells, i)
    decreases |fields| - i
  {
    hide SilentButSet, SlotOf;
    if i < |fields| { AllNotSilent(fields, cells, i + 1); }
  }

  /** An empty encoding means every field emits nothing. */
  lemma {:induction false} SilentAt(fields: seq<Field>, cells: seq<Cell>, i: nat, j: nat)
    requires i <= j < |fields| && EncFields(fields, cells, i) == Out([])
    ensures SlotOf(fields, j) < |cells| && EncField(fields[j], cells[SlotOf(fields, j)]) == Out([])
    decreases j - i
  {
    hide EncField, SlotOf;
    if i < j { SilentAt(fields, cells, i + 1, j); }
  }

  // ---------- When a has-less field is sent ----------

  /** A stored singular field without a has-flag sends nothing if and only if its number is
      0, its string has no character, its bytes are none, or, for a submessage, nothing of
      that would be sent, and none of its fields is silent though set. */
  lemma LeftOutExactly(f: Field, v: Value)
    requires f.htype.Optional? && !f.HasSize() && WellFormedField(f) && StoredValue(f, v)
    ensures EncField(f, Single(v)) == Out([]) <==>
      match v
      case Num(n) => n == 0
      case Blob(b) => if f.ltype.LString? then StrLen(b) == 0 else |b| == 0
      case Msg(cells) => Encode(f.sub, cells) == Out([]) && NoSilentButSet(f.sub, cells, 0)
  {
    hide EncTagged, EncFields, NoSilentButSet, WellFormed, StoredCells;
    TaggedIsNotEmpty(f, v);
    assert EncField(f, Single(v)) == Out([]) <==> IsZero(f, v);
    match v
    case Num(n) =>
    case Blob(b) =>
    case Msg(cells) =>
      assert WellFormed(f.sub) && StoredCells(f.sub, cells);
      CheckIsExact(f.sub, cells, 0);
      assert IsZero(f, v) == AllDefault(f.sub, cells, 0);
  }

  /** With proper selectors and no zero-length arrays, a submessage without a has-flag is
      left out if and only if its encoding is empty. */
  lemma EmptySubmessageIsLeftOut(f: Field, cells: seq<Cell>)
    requires f.htype.Optional? && !f.HasSize() && WellFormedField(f) && StoredValue(f, Msg(cells))
    requires ProperSelectors(f.sub, cells)
    ensures EncField(f, Single(Msg(cells))) == Out([]) <==> Encode(f.sub, cells) == Out([])
  {
    hide EncFields, EncField, AllDefault, NoSilentButSet, WellFormed, StoredCells, ProperSelectors;
    LeftOutExactly(f, Msg(cells));
    ElisionIsExact(f.sub, cells);
    CheckIsExact(f.sub, cells, 0);
  }

  /** The two conditions cannot be dropped: a zero-length array, or a selector that names
      no member, is sent as nothing and yet is not called default. */
  lemma SilentCounterexamples()
    ensures
      var entries := Field(1, LBool, Repeated, 0, 0, 1, 0, Zeros, []);
      Encode([entries], [Arr(0, [])]) == Out([]) && !AllDefault([entries], [Arr(0, [])], 0)
    ensures
      var member := Field(1, LBool, OneOf, 0, -4, 1, 0, Zeros, []);
      Encode([member], [Union(2, Num(0))]) == Out([]) && !AllDefault([member], [Union(2, Num(0))], 0)
  {
    var entries := Field(1, LBool, Repeated, 0, 0, 1, 0, Zeros, []);
    assert SlotOf([entries], 0) == 0;
    assert EncField(entries, Arr(0, [])) == EncArray(entries, [][..0]);
    assert EncFields([entries], [Arr(0, [])], 1) == Out([]);
    var member := Field(1, LBool, OneOf, 0, -4, 1, 0, Zeros, []);
    assert SlotOf([member], 0) == 0;
    assert EncFields([member], [Union(2, Num(0))], 1) == Out([]);
  }
}

/** The cyclic field iterator that encoder and decoder share. */
module Iterator {
  import opened Descriptor

  // ---------- Layout of a struct ----------

  /** The bytes a field occupies in its struct: a static array occupies all its entries. */
  function MemberSize(f: Field): nat {
    if f.htype.Repeated? then f.dataSize * f.arraySize else f.dataSize
  }

  /** Where the data of field `i` start, from the start of the struct. */
  function DataAt(fields: seq<Field>, i: nat): nat
    requires i < |fields|
  {
    if i == 0 then fields[0].dataOffset
    else if Continues(fields[i - 1], fields[i]) then DataAt(fields, i - 1)
    else DataAt(fields, i - 1) + MemberSize(fields[i - 1]) + fields[i].dataOffset
  }

  /** Where the count, has-flag or selector of field `i` is. */
  function SizeAt(fields: seq<Field>, i: nat): int
    requires i < |fields|
  {
    if i > 0 && Continues(fields[i - 1], fields[i]) then SizeAt(fields, i - 1)
    else DataAt(fields, i) + fields[i].sizeOffset
  }

  /** A member of a C struct: its offset and that of its companion (count, has-flag or
      selector; its own offset when it has none). */
  datatype Member = Member(offset: nat, companion: int)

  /** The descriptor that the field macros build for the members of a struct: the first
      member's offset, then the gap to the previous member, and the union mark for
      further members of a union, which share offset and companion. */
  predicate Describes(fields: seq<Field>, members: seq<Member>) {
    && |fields| == |members|
    && forall i | 0 <= i < |fields| ::
      && fields[i].sizeOffset == members[i].companion - members[i].offset
      && (if i == 0 then fields[i].dataOffset == members[i].offset
          else if Continues(fields[i - 1], fields[i]) then members[i] == members[i - 1]
          else fields[i].dataOffset == members[i].offset - members[i - 1].offset - MemberSize(fields[i - 1]))
  }

  /** The running offsets reach every member of the struct that the macros described. */
  lemma {:induction false} LayoutIsTheStructs(fields: seq<Field>, members: seq<Member>, i: nat)
    requires Describes(fields, members) && i < |fields|
    ensures DataAt(fields, i) == members[i].offset && SizeAt(fields, i) == members[i].companion
  {
    if i > 0 {
      LayoutIsTheStructs(fields, members, i - 1);
      assert fields[i].sizeOffset == members[i].companion - members[i].offset;
    }
  }

  /** Fields that share a cell of the model share their offset and their selector. */
  lemma {:induction false} OneCellOneOffset(fields: seq<Field>, i: nat, j: nat)
    requires i <= j < |fields| && SlotOf(fields, i) == SlotOf(fields, j)
    ensures DataAt(fields, i) == DataAt(fields, j) && SizeAt(fields, i) == SizeAt(fields, j)
    decreases j
  {
    if i < j {
      SlotMonotone(fields, i, j - 1);
      OneCellOneOffset(fields, i, j - 1);
    }
  }

  /** What a C compiler guarantees of a union: the member after it starts past every
      member of the union, not only past the last one listed. */
  predicate UnionsFit(fields: seq<Field>) {
    forall i, k | 0 <= i <= k && k + 1 < |fields| && SlotOf(fields, i) == SlotOf(fields, k) < SlotOf(fields, k + 1) ::
      MemberSize(fields[i]) <= MemberSize(fields[k]) + fields[k + 1].dataOffset
  }

  /** Different cells share no byte. */
  lemma {:induction false} CellsAreDisjoint(fields: seq<Field>, i: nat, j: nat)
    requires i < j < |fields| && SlotOf(fields, i) < SlotOf(fields, j) && UnionsFit(fields)
    ensures DataAt(fields, i) + MemberSize(fields[i]) <= DataAt(fields, j)
    decreases j
  {
    hide MemberSize, UnionsFit;
    SlotMonotone(fields, i, j - 1);
    if SlotOf(fields, j - 1) == SlotOf(fields, i) {
      OneCellOneOffset(fields, i, j - 1);
      UnionFits(fields, i, j - 1);
    } else {
      CellsAreDisjoint(fields, i, j - 1);
    }
  }

  /** In particular the entries of an array, each of the data size, end before the fields
      behind it. */
  lemma EntriesEndBefore(fields: seq<Field>, i: nat, j: nat, k: nat)
    requires i < j < |fields| && SlotOf(fields, i) < SlotOf(fields, j) && UnionsFit(fields)
    requires k < if fields[i].htype.Repeated? then fields[i].arraySize else 1
    ensures DataAt(fields, i) + fields[i].dataSize * k + fields[i].dataSize <= DataAt(fields, j)
  {
    hide SlotOf, DataAt, UnionsFit;
    CellsAreDisjoint(fields, i, j);
    if fields[i].htype.Repeated? { EntryEnds(fields[i].dataSize, k, fields[i].arraySize); }
  }

  lemma EntryEnds(size: nat, k: nat, n: nat)
    requires k < n
    ensures size * k + size <= size * n
  {
    var more := n - k - 1;
    assert size * (k + 1 + more) == size * k + size + size * more;
  }

  lemma UnionFits(fields: seq<Field>, i: nat, k: nat)
    requires UnionsFit(fields) && i <= k && k + 1 < |fields| && SlotOf(fields, i) == SlotOf(fields, k) < SlotOf(fields, k + 1)
    ensures MemberSize(fields[i]) <= MemberSize(fields[k]) + fields[k + 1].dataOffset
  {
  }

  // ---------- The iterator ----------

  /** The count of the current field: in the struct, or in the decoder's own counter. */
  datatype SizeRef = InStruct(at: int) | Counter

  /** Position `d` steps after `start` among `n` fields. */
  function Around(start: nat, d: nat, n: nat): nat
    requires start < n && d <= n
  {
    if start + d < n then start + d else start + d - n
  }

  class FieldIter {
    const fields: seq<Field>
    var pos: nat
    var pData: int
    var pSize: SizeRef
    var requiredFieldIndex: nat

    /** All but the size reference are a function of the position. With no fields the
        iterator rests on the terminator. */
    ghost predicate At(i: nat)
      reads this
    {
      && pos == i
      && (if fields == [] then i == 0 && requiredFieldIndex == 0
          else i < |fields| && pData == DataAt(fields, i) && requiredFieldIndex == RequiredIndex(fields, i))
    }

    ghost predicate SizeInStruct()
      reads this
    {
      pSize.InStruct? && (fields != [] ==> pos < |fields| && pSize == InStruct(SizeAt(fields, pos)))
    }

    ghost predicate Valid()
      reads this
    {
      At(pos) && SizeInStruct()
    }

    constructor (start: seq<Field>)
      ensures Valid() && fields == start && pos == 0
    {
      fields := start;
      pos := 0;
      requiredFieldIndex := 0;
      if start == [] {
        pData := 0;
        pSize := InStruct(0);
      } else {
        pData := start[0].dataOffset;
        pSize := InStruct(start[0].dataOffset + start[0].sizeOffset);
      }
    }

    method Begin() returns (ok: bool)
      modifies this
      ensures Valid() && pos == 0 && ok == (fields != [])
    {
      pos := 0;
      requiredFieldIndex := 0;
      if fields == [] {
        pData := 0;
        pSize := InStruct(0);
      } else {
        pData := fields[0].dataOffset;
        pSize := InStruct(pData + fields[0].sizeOffset);
      }
      return fields != [];
    }

    /** Steps to the next field; at the end it wraps around and returns false. */
    method Next() returns (more: bool)
      requires At(pos)
      requires SizeInStruct() || (fields != [] && !fields[pos].htype.OneOf?)
      modifies this
      ensures Valid()
      ensures more <==> old(pos) + 1 < |fields|
      ensures pos == if more then old(pos) + 1 else 0
    {
      if fields == [] {
        return false;
      }
      var prev := fields[pos];
      pos := pos + 1;
      if pos == |fields| {
        var _ := Begin();
        return false;
      }
      var prevSize := prev.dataSize;
      if prev.htype.OneOf? && fields[pos].htype.OneOf? && fields[pos].dataOffset == PB_SIZE_MAX {
        return true;
      } else if prev.htype.Repeated? {
        prevSize := prevSize * prev.arraySize;
      }
      if prev.htype.Required? {
        requiredFieldIndex := requiredFieldIndex + 1;
      }
      pData := pData + prevSize + fields[pos].dataOffset;
      pSize := InStruct(pData + fields[pos].sizeOffset);
      return true;
    }

    /** Searches for `tag` cyclically from the current field on: stops at the first field
        that has it, or comes back to where it was. The terminator is numbered 0. */
    method Find(tag: nat) returns (found: bool)
      requires At(pos)
      requires SizeInStruct() || (fields != [] && !fields[pos].htype.OneOf?)
      modifies this
      ensures At(pos)
      ensures pos == old(pos) && found ==> pSize == old(pSize)
      ensures pos != old(pos) || !found ==> SizeInStruct()
      ensures fields == [] ==> pos == 0 && (found <==> tag == 0)
      ensures fields != [] ==> (found <==> exists i | 0 <= i < |fields| :: fields[i].tag == tag)
      ensures !found ==> pos == old(pos)
      ensures found && fields != [] ==>
        exists d | 0 <= d < |fields| ::
          && pos == Around(old(pos), d, |fields|) && fields[pos].tag == tag
          && forall e | 0 <= e < d :: fields[Around(old(pos), e, |fields|)].tag != tag
    {
      var start := pos;
      ghost var n := |fields|;
      ghost var d: nat := 0;
      while true
        invariant At(pos) && (SizeInStruct() || (fields != [] && !fields[pos].htype.OneOf?))
        invariant d == 0 ==> pSize == old(pSize)
        invariant d > 0 ==> SizeInStruct() && n > 0 && pos != start
        invariant n == 0 ==> pos == start
        invariant n > 0 ==> d < n && pos == Around(start, d, n)
        invariant n > 0 ==> forall e | 0 <= e < d :: fields[Around(start, e, n)].tag != tag
        decreases n - d
      {
        if (if fields == [] then 0 else fields[pos].tag) == tag {
          return true;
        }
        var _ := Next();
        if pos == start {
          break;
        }
        d := d + 1;
      }
      assert n > 0 ==> forall i | 0 <= i < n :: fields[i].tag != tag by {
        if n > 0 {
          forall i | 0 <= i < n ensures fields[i].tag != tag {
            var e := if i >= start then i - start else i + n - start;
            assert i == Around(start, e, n);
          }
        }
      }
      return false;
    }
  }
}

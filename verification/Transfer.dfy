/** A message from a sender's struct through a buffer into a receiver's. */
module Transfer {
  import opened Bits
  import opened Descriptor
  import opened EncodeSpec
  import opened DecodeSpec
  import opened RoundTrip
  import opened Meaning
  import opened Streams
  import opened Encoder
  import opened Decoder

  lemma {:induction false} WellFormedIsTagged(fields: seq<Field>)
    requires WellFormed(fields)
    ensures AllTagged(fields)
    decreases fields
  {
    forall i | 0 <= i < |fields| ensures Tagged(fields[i]) {
      FieldIsWellFormed(fields, i);
      if fields[i].ltype.LSubmessage? { WellFormedIsTagged(fields[i].sub); }
    }
  }

  lemma {:induction false} ValidValueIsStored(f: Field, v: Value)
    requires ValidValue(f, v)
    ensures StoredValue(f, v)
    decreases f, 0
  {
    if v.Msg? { ValidIsStored(f.sub, v.cells); }
  }

  lemma {:induction false} ValidCellIsStored(f: Field, c: Cell)
    requires ValidCell(f, c)
    ensures StoredCell(f, c)
    decreases f, 1
  {
    hide ValidValue, StoredValue, EncItems;
    if f.htype.Repeated? {
      forall k | 0 <= k < SendCount(f, c) ensures StoredValue(f, c.items[k]) {
        ValidValueIsStored(f, c.items[k]);
      }
    } else if (f.htype.Optional? && f.HasSize() ==> c.has) && (f.htype.OneOf? ==> c.which == f.tag) {
      ValidValueIsStored(f, c.v);
    }
  }

  /** A valid message is one that the encoder may be given. */
  lemma {:induction false} ValidIsStored(fields: seq<Field>, cells: seq<Cell>)
    requires ValidCells(fields, cells)
    ensures StoredCells(fields, cells)
    decreases fields, 2
  {
    hide SlotOf, ValidCell, StoredCell;
    forall i | 0 <= i < |fields| ensures StoredCell(fields[i], cells[SlotOf(fields, i)]) {
      ValidCellIsStored(fields[i], cells[SlotOf(fields, i)]);
    }
  }

  /** A valid message is sent exactly when it fits the buffer. What was sent is received,
      whatever the receiver's struct held, and it is the same message exactly when no zero
      datum is hidden by a default. */
  method SendAndReceive(buf: array<Byte>, bufsize: nat, fields: seq<Field>, cells: seq<Cell>, dest: seq<Cell>)
    returns (sent: bool, received: bool, got: seq<Cell>)
    requires bufsize <= buf.Length && WellFormed(fields) && ValidCells(fields, cells) && |dest| == NumSlots(fields)
    modifies buf
    ensures Encode(fields, cells).Out?
    ensures sent <==> |Encode(fields, cells).bytes| <= bufsize
    ensures sent ==> received && (SameMessage(fields, cells, got) <==> Restorable(fields, cells))
  {
    hide WellFormed, ValidCells, StoredCells, AllTagged, EncFields, DecMsg, DefaultCells, SameMessage, Restorable, NumSlots;
    WellFormedIsTagged(fields);
    ValidIsStored(fields, cells);
    EncodeDecode(fields, cells);
    received, got := false, dest;
    var output := new OStream.FromBuffer(buf, bufsize);
    ghost var start := output.St();
    sent := EncodeMessage(output, fields, cells);
    if !sent {
      return;
    }
    ghost var e := Encode(fields, cells).bytes;
    assert buf[..|e|] == e by { AppendedFirst(start, e); }
    var input := new IStream.FromBuffer(buf, output.bytesWritten);
    assert input.Remaining() == e;
    received, got := DecodeMessage(input, fields, dest);
  }

  lemma AppendedFirst(a: Output, e: seq<Byte>)
    requires a.Valid() && !a.sizing && a.state == 0 && a.Fits(|e|)
    ensures |a.Append(e).bytes| == |a.bytes| && a.Append(e).bytes[..|e|] == e
    ensures a.Append(e).bytesWritten == a.bytesWritten + |e|
  {
  }
}

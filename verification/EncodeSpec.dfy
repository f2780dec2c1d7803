/** The bytes that a message encodes to. */
module EncodeSpec {
  import opened Bits
  import opened Varint
  import opened Descriptor

  const WT_VARINT: nat := 0
  const WT_64BIT: nat := 1
  const WT_STRING: nat := 2
  const WT_32BIT: nat := 5

  /** Bytes, or an encoding error. */
  datatype Emitted = Failed | Out(bytes: seq<Byte>)

  function Cat(a: Emitted, b: Emitted): Emitted {
    if a.Out? && b.Out? then Out(a.bytes + b.bytes) else Failed
  }

  function WireTypeOf(t: LType): nat {
    match t
    case LBool | LVarint | LUVarint | LSVarint => WT_VARINT
    case LFixed32 => WT_32BIT
    case LFixed64 => WT_64BIT
    case LBytes | LString | LSubmessage | LFixedLength => WT_STRING
  }

  function EncTag(wireType: nat, tag: nat): seq<Byte> {
    EncVarint(8 * tag + wireType)
  }

  function FieldTag(f: Field): seq<Byte> {
    EncTag(WireTypeOf(f.ltype), f.tag)
  }

  /** The length, as a 64-bit number, and the bytes. */
  function LengthPrefixed(b: seq<Byte>): seq<Byte> {
    EncVarint(|b| % TWO64) + b
  }

  /** The number of values of a C integer of `size` bytes, if there is such an integer. */
  predicate IntSize(size: nat) { size == 1 || size == 2 || size == 4 || size == 8 }

  function Modulus(size: nat): (m: nat)
    ensures m > 0 && m % 2 == 0
  {
    if size == 1 then 0x100 else if size == 2 then 0x1_0000 else if size == 4 then TWO32 else TWO64
  }

  /** The stored integer `n` as read through the C type of `size` bytes. */
  function ReadUnsigned(n: int, size: nat): nat { Unsigned(n, Modulus(size)) }
  function ReadSigned(n: int, size: nat): int { Signed(ReadUnsigned(n, size), Modulus(size)) }

  /** The length of the string stored at the start of `b`: up to a NUL, or to the end. */
  function StrLen(b: seq<Byte>): (n: nat)
    ensures n <= |b|
    ensures forall i | 0 <= i < n :: b[i] != 0
    ensures n < |b| ==> b[n] == 0
  {
    if b == [] || b[0] == 0 then 0
    else
      assert forall i | 1 <= i < |b| :: b[i] == b[1..][i - 1];
      1 + StrLen(b[1..])
  }

  function EncScalar(f: Field, n: int): Emitted {
    match f.ltype
    case LBool => Out(EncVarint(if n != 0 then 1 else 0))
    case LVarint =>
      if IntSize(f.dataSize) then Out(EncVarint(Unsigned(ReadSigned(n, f.dataSize), TWO64))) else Failed
    case LUVarint =>
      if IntSize(f.dataSize) then Out(EncVarint(ReadUnsigned(n, f.dataSize))) else Failed
    case LSVarint =>
      if IntSize(f.dataSize) then Out(EncVarint(ZigZag(ReadSigned(n, f.dataSize)))) else Failed
    case LFixed32 => Out(EncFixed(Unsigned(n, TWO32), 4))
    case LFixed64 => Out(EncFixed(Unsigned(n, TWO64), 8))
    case _ => Failed
  }

  function EncBlob(f: Field, b: seq<Byte>): Emitted {
    match f.ltype
    case LBytes => if |b| + BYTES_HEADER <= f.dataSize then Out(LengthPrefixed(b)) else Failed
    case LString => if |b| <= f.dataSize then Out(LengthPrefixed(b[..StrLen(b)])) else Failed
    case LFixedLength => if |b| == f.dataSize then Out(LengthPrefixed(b)) else Failed
    case _ => Failed
  }

  /** One datum, without its tag. A datum of another kind than the field's cannot be in
      a C struct; it has no encoding. */
  function EncValue(f: Field, v: Value): Emitted
    decreases f, 0
  {
    match v
    case Num(n) => EncScalar(f, n)
    case Blob(b) => EncBlob(f, b)
    case Msg(cells) =>
      if !f.ltype.LSubmessage? then Failed
      else
        match EncFields(f.sub, cells, 0)
        case Failed => Failed
        case Out(e) => Out(LengthPrefixed(e))
  }

  function EncTagged(f: Field, v: Value): Emitted
    decreases f, 1
  {
    Cat(Out(FieldTag(f)), EncValue(f, v))
  }

  /** The data of an array back to back, or each under its own tag. */
  function EncItems(f: Field, items: seq<Value>): Emitted
    decreases f, 2, |items|
  {
    if items == [] then Out([]) else Cat(EncValue(f, items[0]), EncItems(f, items[1..]))
  }

  function EncTaggedItems(f: Field, items: seq<Value>): Emitted
    decreases f, 2, |items|
  {
    if items == [] then Out([]) else Cat(EncTagged(f, items[0]), EncTaggedItems(f, items[1..]))
  }

  function EncArray(f: Field, items: seq<Value>): Emitted
    decreases f, 3
  {
    if items == [] then Out([])
    else if |items| > f.arraySize then Failed
    else if Packable(f.ltype) then
      match EncItems(f, items)
      case Failed => Failed
      case Out(e) => Out(EncTag(WT_STRING, f.tag) + LengthPrefixed(e))
    else EncTaggedItems(f, items)
  }

  /** A has-less singular datum that is not sent: zero, empty, or a submessage of which
      nothing would be sent. */
  predicate IsZero(f: Field, v: Value)
    decreases f, 0
  {
    match v
    case Num(n) => n == 0
    case Blob(b) =>
      if f.ltype.LFixedLength? then f.dataSize == 0
      else if f.ltype.LString? then b == [] || b[0] == 0
      else b == []
    case Msg(cells) => AllDefault(f.sub, cells, 0)
  }

  predicate IsDefault(f: Field, c: Cell)
    decreases f, 1
  {
    match f.htype
    case Required => false
    case Repeated => f.HasSize() && c.Arr? && c.count == 0
    case OneOf => c.Union? && c.which == 0
    case Optional => if f.HasSize() then c.Opt? && !c.has else c.Single? && IsZero(f, c.v)
  }

  predicate AllDefault(fields: seq<Field>, cells: seq<Cell>, i: nat)
    requires i <= |fields|
    decreases fields, |fields| - i
  {
    i == |fields|
    || (SlotOf(fields, i) < |cells| && IsDefault(fields[i], cells[SlotOf(fields, i)])
        && AllDefault(fields, cells, i + 1))
  }

  /** The number of array entries to send. */
  function SendCount(f: Field, c: Cell): nat
    requires c.Arr?
  {
    if f.HasSize() then c.count else f.arraySize
  }

  function EncField(f: Field, c: Cell): Emitted
    decreases f, 4
  {
    match f.htype
    case Required => if c.Single? then EncTagged(f, c.v) else Failed
    case Optional =>
      if f.HasSize() then
        if !c.Opt? then Failed else if c.has then EncTagged(f, c.v) else Out([])
      else
        if !c.Single? then Failed else if IsDefault(f, c) then Out([]) else EncTagged(f, c.v)
    case Repeated =>
      if !c.Arr? || |c.items| < SendCount(f, c) then Failed else EncArray(f, c.items[..SendCount(f, c)])
    case OneOf =>
      if !c.Union? then Failed else if c.which == f.tag then EncTagged(f, c.v) else Out([])
  }

  /** The fields from number `i` on. */
  function EncFields(fields: seq<Field>, cells: seq<Cell>, i: nat): Emitted
    requires i <= |fields|
    decreases fields, |fields| - i
  {
    if i == |fields| then Out([])
    else if SlotOf(fields, i) >= |cells| then Failed
    else Cat(EncField(fields[i], cells[SlotOf(fields, i)]), EncFields(fields, cells, i + 1))
  }

  /** The encoding of a message. */
  function Encode(fields: seq<Field>, cells: seq<Cell>): Emitted {
    EncFields(fields, cells, 0)
  }

  // ---------- Stored structs ----------

  /** What the C types of a struct guarantee of what it holds: every cell is of its field's
      kind, a datum that is present is of the field's type, and so are the entries of an
      array, as many as it may count. */
  predicate StoredValue(f: Field, v: Value)
    decreases f, 0
  {
    match v
    case Num(n) => Packable(f.ltype)
    case Blob(b) =>
      && (f.ltype.LBytes? || f.ltype.LString? || f.ltype.LFixedLength?)
      && |b| <= f.dataSize && (f.ltype.LFixedLength? ==> |b| == f.dataSize)
    case Msg(cells) => f.ltype.LSubmessage? && StoredCells(f.sub, cells)
  }

  predicate StoredCell(f: Field, c: Cell)
    decreases f, 1
  {
    match f.htype
    case Required => c.Single? && StoredValue(f, c.v)
    case Optional =>
      if f.HasSize() then c.Opt? && (c.has ==> StoredValue(f, c.v)) else c.Single? && StoredValue(f, c.v)
    case Repeated =>
      && c.Arr?
      && (SendCount(f, c) <= f.arraySize ==> SendCount(f, c) <= |c.items|)
      && (forall k | 0 <= k < |c.items| && k < SendCount(f, c) :: StoredValue(f, c.items[k]))
    case OneOf => c.Union? && (c.which == f.tag ==> StoredValue(f, c.v))
  }

  predicate StoredCells(fields: seq<Field>, cells: seq<Cell>)
    decreases fields
  {
    && |cells| == NumSlots(fields)
    && forall i | 0 <= i < |fields| ::
      SlotOf(fields, i) < |cells| && StoredCell(fields[i], cells[SlotOf(fields, i)])
  }
}

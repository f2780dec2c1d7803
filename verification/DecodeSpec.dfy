/** What decoding a byte string does to a message. */
module DecodeSpec {
  import opened Bits
  import opened Parse
  import opened Varint
  import opened Descriptor
  import opened EncodeSpec

  // ---------- Skipping ----------

  function SkipVarint(s: seq<Byte>): (p: Parse<()>)
    ensures p.Ok? ==> |p.rest| < |s|
  {
    if s == [] then Fail else if s[0] < 128 then Ok((), s[1..]) else SkipVarint(s[1..])
  }

  function Take(s: seq<Byte>, n: nat): (p: Parse<seq<Byte>>)
    ensures p.Ok? ==> |p.val| == n && s == p.val + p.rest
  {
    if |s| < n then Fail else Ok(s[..n], s[n..])
  }

  /** A length and that many bytes. */
  function TakePrefixed(s: seq<Byte>): (p: Parse<seq<Byte>>)
    ensures p.Ok? ==> |p.val| + |p.rest| < |s|
  {
    var (n, r) :- DecVarint32(s);
    Take(r, n)
  }

  /** The payload of a field nobody asked for. */
  function SkipField(wireType: nat, s: seq<Byte>): (p: Parse<()>)
    ensures p.Ok? ==> |p.rest| < |s|
  {
    if wireType == WT_VARINT then SkipVarint(s)
    else if wireType == WT_64BIT then var (_, r) :- Take(s, 8); Ok((), r)
    else if wireType == WT_STRING then var (_, r) :- TakePrefixed(s); Ok((), r)
    else if wireType == WT_32BIT then var (_, r) :- Take(s, 4); Ok((), r)
    else Fail
  }

  // ---------- Values ----------

  function DecScalar(f: Field, s: seq<Byte>): (p: Parse<Value>)
    ensures p.Ok? ==> |p.rest| < |s|
  {
    match f.ltype
    case LBool =>
      var (v, r) :- DecVarint32(s);
      Ok(Num(if v != 0 then 1 else 0), r)
    case LVarint =>
      var (u, r) :- DecVarint(s);
      var n := if f.dataSize == 8 then Signed(u, TWO64) else Signed(u, TWO32);
      if IntSize(f.dataSize) && InSigned(n, Modulus(f.dataSize)) then Ok(Num(n), r) else Fail
    case LUVarint =>
      var (u, r) :- DecVarint(s);
      if IntSize(f.dataSize) && u < Modulus(f.dataSize) then Ok(Num(u), r) else Fail
    case LSVarint =>
      var (u, r) :- DecVarint(s);
      var n := UnZigZag(u);
      if IntSize(f.dataSize) && InSigned(n, Modulus(f.dataSize)) then Ok(Num(n), r) else Fail
    case LFixed32 =>
      var (v, r) :- DecFixed(s, 4);
      Ok(Num(v), r)
    case LFixed64 =>
      var (v, r) :- DecFixed(s, 8);
      Ok(Num(v), r)
    case _ => Fail
  }

  /** Whether `n` received bytes fit the field's buffer: bytes behind their size, a string
      before its NUL, fixed-length bytes exactly or not at all. */
  predicate BlobFits(f: Field, n: nat) {
    match f.ltype
    case LBytes => n + BYTES_HEADER <= f.dataSize
    case LString => n + 1 <= f.dataSize
    case LFixedLength => n == 0 || n == f.dataSize
    case _ => false
  }

  function DecBlob(f: Field, s: seq<Byte>): (p: Parse<Value>)
    ensures p.Ok? ==> |p.rest| < |s|
  {
    var (n, r) :- DecVarint32(s);
    if !BlobFits(f, n) then Fail
    else if f.ltype.LFixedLength? && n == 0 then Ok(Blob(Zeroes(f.dataSize)), r)
    else
      var (b, r') :- Take(r, n);
      Ok(Blob(b), r')
  }

  // ---------- Messages ----------

  /** The count-less array being received: its index, and how many entries arrived. */
  datatype Tracker = Idle | Filling(at: nat, size: nat)

  datatype State = State(cells: seq<Cell>, seen: set<nat>, tracker: Tracker)

  /** One record read: an error, the zero tag that ends a message, or a new state. */
  datatype Step = Bad | Stop(end: seq<Byte>) | Next(st: State, rest: seq<Byte>)

  function CellValue(c: Cell): Value {
    if c.Arr? then Num(0) else c.v
  }

  function CellItems(c: Cell): seq<Value> {
    if c.Arr? then c.items else []
  }

  function CellCount(c: Cell): nat {
    if c.Arr? then c.count else 0
  }

  function ValueCells(f: Field, v: Value): seq<Cell> {
    if v.Msg? && |v.cells| == NumSlots(f.sub) then v.cells else DefaultCells(f.sub)
  }

  /** Entry `at` of an array becomes `v`; later known entries stay. */
  function Put(items: seq<Value>, at: nat, v: Value): seq<Value> {
    if at < |items| then items[at := v] else items + [v]
  }

  /** One datum. A submessage is merged into `prior`, except that an array entry starts
      from defaults. */
  function DecValue(f: Field, prior: Value, s: seq<Byte>): (p: Parse<Value>)
    ensures p.Ok? ==> |p.rest| < |s|
    decreases f, 0
  {
    if Packable(f.ltype) then DecScalar(f, s)
    else if !f.ltype.LSubmessage? then DecBlob(f, s)
    else
      var (body, r) :- TakePrefixed(s);
      DefaultCellsLength(f.sub);
      var start := if f.htype.Repeated? then DefaultCells(f.sub) else ValueCells(f, prior);
      match DecMsg(f.sub, start, body)
      case Fail => Fail
      case Ok(cells, _) => Ok(Msg(cells), r)
  }

  /** Packed data until the bytes run out; more than `arraySize` of them is an error. */
  function DecPacked(f: Field, items: seq<Value>, size: nat, s: seq<Byte>): Parse<(seq<Value>, nat)>
    decreases f, 1, |s|
  {
    if s == [] then Ok((items, size), [])
    else if size >= f.arraySize then Fail
    else
      var (v, r) :- DecValue(f, Num(0), s);
      DecPacked(f, Put(items, size, v), size + 1, r)
  }

  /** Array data: the entries after it, and their number. */
  function DecArray(f: Field, items: seq<Value>, size: nat, wireType: nat, s: seq<Byte>): (p: Parse<(seq<Value>, nat)>)
    ensures p.Ok? ==> |p.rest| < |s|
    decreases f, 2
  {
    if wireType == WT_STRING && Packable(f.ltype) then
      var (body, r) :- TakePrefixed(s);
      var (a, _) :- DecPacked(f, items, size, body);
      Ok(a, r)
    else if size >= f.arraySize then Fail
    else
      var (v, r) :- DecValue(f, Num(0), s);
      Ok((Put(items, size, v), size + 1), r)
  }

  /** The payload of field `f` received into cell `c`; `size` counts a count-less array. */
  function DecField(f: Field, c: Cell, size: nat, wireType: nat, s: seq<Byte>): (p: Parse<(Cell, nat)>)
    ensures p.Ok? ==> |p.rest| < |s|
    decreases f, 3
  {
    match f.htype
    case Required =>
      var (v, r) :- DecValue(f, CellValue(c), s);
      Ok((Single(v), size), r)
    case Optional =>
      var (v, r) :- DecValue(f, CellValue(c), s);
      Ok((if f.HasSize() then Opt(true, v) else Single(v), size), r)
    case Repeated =>
      var (a, r) :- DecArray(f, CellItems(c), if f.HasSize() then CellCount(c) else size, wireType, s);
      Ok(if f.HasSize() then (Arr(a.1, a.0), size) else (Arr(CellCount(c), a.0), a.1), r)
    case OneOf =>
      var prior := if f.ltype.LSubmessage? then Msg(DefaultCells(f.sub)) else Num(0);
      var (v, r) :- DecValue(f, prior, s);
      Ok((Union(f.tag, v), size), r)
  }

  predicate TrackerDone(fields: seq<Field>, t: Tracker) {
    t.Filling? ==> t.at < |fields| && t.size == fields[t.at].arraySize
  }

  function DecRecord(fields: seq<Field>, st: State, s: seq<Byte>): (p: Step)
    requires |st.cells| == NumSlots(fields)
    ensures p.Next? ==> |p.rest| < |s| && |p.st.cells| == NumSlots(fields)
    ensures p.Stop? ==> |p.end| < |s|
    decreases fields, |s|, 0
  {
    match DecVarint32(s)
    case Fail => Bad
    case Ok(key, r) =>
      if key == 0 then Stop(r) else DecTagged(fields, st, key / 8, key % 8, r)
  }

  /** The record of number `tag` after its tag. */
  function DecTagged(fields: seq<Field>, st: State, tag: nat, wireType: nat, s: seq<Byte>): (p: Step)
    requires |st.cells| == NumSlots(fields)
    ensures !p.Stop?
    ensures p.Next? ==> |p.rest| < |s| && |p.st.cells| == NumSlots(fields)
    decreases fields, |s|, 1
  {
    var i := FindTag(fields, tag);
    if i < |fields| then DecKnown(fields, st, i, wireType, s)
    else if fields == [] && tag == 0 then
      // The list's terminator is taken for a required bool numbered 0.
      match DecVarint32(s)
      case Fail => Bad
      case Ok(_, r) => Next(st, r)
    else
      match SkipField(wireType, s)
      case Fail => Bad
      case Ok(_, r) => Next(st, r)
  }

  function DecKnown(fields: seq<Field>, st: State, i: nat, wireType: nat, s: seq<Byte>): (p: Step)
    requires |st.cells| == NumSlots(fields) && i < |fields|
    ensures !p.Stop?
    ensures p.Next? ==> |p.rest| < |s| && |p.st.cells| == NumSlots(fields)
    decreases fields, |s|, 0
  {
    var f := fields[i];
    SlotMonotone(fields, i, i);
    var same := st.tracker.Filling? && st.tracker.at == i;
    if f.IsFixedArray() && !same && !TrackerDone(fields, st.tracker) then Bad
    else
      var size := if same then st.tracker.size else 0;
      match DecField(f, st.cells[SlotOf(fields, i)], size, wireType, s)
      case Fail => Bad
      case Ok(a, r) =>
        Next(State(
          st.cells[SlotOf(fields, i) := a.0],
          if f.htype.Required? && RequiredIndex(fields, i) < PB_MAX_REQUIRED_FIELDS then st.seen + {i} else st.seen,
          if f.IsFixedArray() then Filling(i, a.1) else st.tracker), r)
  }

  function DecLoop(fields: seq<Field>, st: State, s: seq<Byte>): (p: Parse<State>)
    requires |st.cells| == NumSlots(fields)
    ensures p.Ok? ==> |p.val.cells| == NumSlots(fields) && |p.rest| <= |s|
    decreases fields, |s|, 3
  {
    if s == [] then Ok(st, [])
    else
      match DecRecord(fields, st, s)
      case Bad => Fail
      case Stop(r) => Ok(st, r)
      case Next(st', r) => DecLoop(fields, st', r)
  }

  /** Every required field that is tracked (the first 64 of them) was seen. */
  predicate RequiredSeen(fields: seq<Field>, seen: set<nat>) {
    forall i | 0 <= i < |fields| && fields[i].htype.Required? && RequiredIndex(fields, i) < PB_MAX_REQUIRED_FIELDS ::
      i in seen
  }

  function Start(cells: seq<Cell>): State {
    State(cells, {}, Idle)
  }

  /** Decoding into a struct that already has values. */
  function DecMsg(fields: seq<Field>, cells: seq<Cell>, s: seq<Byte>): (p: Parse<seq<Cell>>)
    requires |cells| == NumSlots(fields)
    ensures p.Ok? ==> |p.val| == NumSlots(fields) && |p.rest| <= |s|
    decreases fields, |s|, 4
  {
    match DecLoop(fields, Start(cells), s)
    case Fail => Fail
    case Ok(st, r) =>
      if TrackerDone(fields, st.tracker) && RequiredSeen(fields, st.seen) then Ok(st.cells, r) else Fail
  }

  /** Decoding into a struct set to its defaults. */
  function Decode(fields: seq<Field>, s: seq<Byte>): Parse<seq<Cell>> {
    DefaultCellsLength(fields);
    DecMsg(fields, DefaultCells(fields), s)
  }
}

/** What decoding does to concatenated, cut and interleaved byte strings. */
module Merge {
  import opened Bits
  import opened Parse
  import opened Varint
  import opened Descriptor
  import opened EncodeSpec
  import opened DecodeSpec
  import opened RoundTrip

  // ---------- Reading looks at no byte it does not consume ----------

  lemma {:induction false} SkipVarintLocal(s: seq<Byte>, t: seq<Byte>)
    requires SkipVarint(s).Ok?
    ensures SkipVarint(s + t) == SkipVarint(s).Then(t)
  {
    assert (s + t)[0] == s[0] && (s + t)[1..] == s[1..] + t;
    if s[0] >= 128 { SkipVarintLocal(s[1..], t); }
  }

  lemma TakeLocal(s: seq<Byte>, n: nat, t: seq<Byte>)
    requires Take(s, n).Ok?
    ensures Take(s + t, n) == Take(s, n).Then(t)
  {
    assert (s + t)[..n] == s[..n] && (s + t)[n..] == s[n..] + t;
  }

  lemma TakePrefixedLocal(s: seq<Byte>, t: seq<Byte>)
    requires TakePrefixed(s).Ok?
    ensures TakePrefixed(s + t) == TakePrefixed(s).Then(t)
  {
    hide DecVarint32, Take;
    DecVarint32Local(s, t);
    TakeLocal(DecVarint32(s).rest, DecVarint32(s).val, t);
  }

  lemma SkipFieldLocal(wireType: nat, s: seq<Byte>, t: seq<Byte>)
    requires SkipField(wireType, s).Ok?
    ensures SkipField(wireType, s + t) == SkipField(wireType, s).Then(t)
  {
    hide SkipVarint, Take, TakePrefixed;
    if wireType == WT_VARINT {
      SkipVarintLocal(s, t);
    } else if wireType == WT_64BIT {
      TakeLocal(s, 8, t);
    } else if wireType == WT_STRING {
      TakePrefixedLocal(s, t);
    } else {
      TakeLocal(s, 4, t);
    }
  }

  lemma DecScalarLocal(f: Field, s: seq<Byte>, t: seq<Byte>)
    requires DecScalar(f, s).Ok?
    ensures DecScalar(f, s + t) == DecScalar(f, s).Then(t)
  {
    hide DecVarint, DecVarint32, DecFixed, Signed, Modulus;
    match f.ltype
    case LBool => DecVarint32Local(s, t);
    case LVarint | LUVarint | LSVarint => DecVarintLocal(s, t);
    case LFixed32 => DecFixedLocal(s, 4, t);
    case LFixed64 => DecFixedLocal(s, 8, t);
  }

  lemma DecFixedLocal(s: seq<Byte>, n: nat, t: seq<Byte>)
    requires DecFixed(s, n).Ok?
    ensures DecFixed(s + t, n) == DecFixed(s, n).Then(t)
  {
    hide FixedValue;
    assert (s + t)[..n] == s[..n] && (s + t)[n..] == s[n..] + t;
  }

  lemma DecBlobLocal(f: Field, s: seq<Byte>, t: seq<Byte>)
    requires DecBlob(f, s).Ok?
    ensures DecBlob(f, s + t) == DecBlob(f, s).Then(t)
  {
    hide DecVarint32, Take, BlobFits;
    DecVarint32Local(s, t);
    var (n, r) := (DecVarint32(s).val, DecVarint32(s).rest);
    if !(f.ltype.LFixedLength? && n == 0) {
      TakeLocal(r, n, t);
    }
  }

  lemma DecValueLocal(f: Field, prior: Value, s: seq<Byte>, t: seq<Byte>)
    requires DecValue(f, prior, s).Ok?
    ensures DecValue(f, prior, s + t) == DecValue(f, prior, s).Then(t)
  {
    hide DecScalar, DecBlob, TakePrefixed, DecMsg, DefaultCells, ValueCells;
    if Packable(f.ltype) {
      DecScalarLocal(f, s, t);
    } else if !f.ltype.LSubmessage? {
      DecBlobLocal(f, s, t);
    } else {
      TakePrefixedLocal(s, t);
    }
  }

  lemma DecArrayLocal(f: Field, items: seq<Value>, size: nat, wireType: nat, s: seq<Byte>, t: seq<Byte>)
    requires DecArray(f, items, size, wireType, s).Ok?
    ensures DecArray(f, items, size, wireType, s + t) == DecArray(f, items, size, wireType, s).Then(t)
  {
    hide TakePrefixed, DecPacked, DecValue, Packable;
    if wireType == WT_STRING && Packable(f.ltype) {
      TakePrefixedLocal(s, t);
    } else {
      DecValueLocal(f, Num(0), s, t);
    }
  }

  lemma DecFieldLocal(f: Field, c: Cell, size: nat, wireType: nat, s: seq<Byte>, t: seq<Byte>)
    requires DecField(f, c, size, wireType, s).Ok?
    ensures DecField(f, c, size, wireType, s + t) == DecField(f, c, size, wireType, s).Then(t)
  {
    hide DecArray, DecValue, DefaultCells;
    match f.htype
    case Required => DecValueLocal(f, CellValue(c), s, t);
    case Optional => DecValueLocal(f, CellValue(c), s, t);
    case Repeated => DecArrayLocal(f, CellItems(c), if f.HasSize() then CellCount(c) else size, wireType, s, t);
    case OneOf => DecValueLocal(f, if f.ltype.LSubmessage? then Msg(DefaultCells(f.sub)) else Num(0), s, t);
  }

  /** `p` with `t` appended to the unread bytes. */
  function Later(p: Step, t: seq<Byte>): Step {
    match p
    case Bad => Bad
    case Stop(r) => Stop(r + t)
    case Next(st, r) => Next(st, r + t)
  }

  lemma DecTaggedLocal(fields: seq<Field>, st: State, tag: nat, wireType: nat, s: seq<Byte>, t: seq<Byte>)
    requires |st.cells| == NumSlots(fields) && DecTagged(fields, st, tag, wireType, s).Next?
    ensures DecTagged(fields, st, tag, wireType, s + t) == Later(DecTagged(fields, st, tag, wireType, s), t)
  {
    hide SkipField, DecVarint32, DecField, TrackerDone, RequiredIndex, SlotOf;
    var i := FindTag(fields, tag);
    if i < |fields| {
      SlotMonotone(fields, i, i);
      var same := st.tracker.Filling? && st.tracker.at == i;
      assert DecKnown(fields, st, i, wireType, s).Next?;
      DecFieldLocal(fields[i], st.cells[SlotOf(fields, i)], if same then st.tracker.size else 0, wireType, s, t);
    } else if fields == [] && tag == 0 {
      DecVarint32Local(s, t);
    } else {
      SkipFieldLocal(wireType, s, t);
    }
  }

  lemma DecRecordLocal(fields: seq<Field>, st: State, s: seq<Byte>, t: seq<Byte>)
    requires |st.cells| == NumSlots(fields) && !DecRecord(fields, st, s).Bad?
    ensures DecRecord(fields, st, s + t) == Later(DecRecord(fields, st, s), t)
  {
    hide DecVarint32, DecTagged;
    DecVarint32Local(s, t);
    var (key, r) := (DecVarint32(s).val, DecVarint32(s).rest);
    if key != 0 {
      DecTaggedLocal(fields, st, key / 8, key % 8, r, t);
    }
  }

  // ---------- Whole records ----------

  /** Every byte string of `recs` is, in turn, exactly one record. */
  predicate Whole(fields: seq<Field>, st: State, recs: seq<seq<Byte>>)
    requires |st.cells| == NumSlots(fields)
    decreases |recs|
  {
    recs == [] ||
    (var p := DecRecord(fields, st, recs[0]);
     p.Next? && p.rest == [] && Whole(fields, p.st, recs[1..]))
  }

  function Run(fields: seq<Field>, st: State, recs: seq<seq<Byte>>): (r: State)
    requires |st.cells| == NumSlots(fields) && Whole(fields, st, recs)
    ensures |r.cells| == NumSlots(fields)
    decreases |recs|
  {
    if recs == [] then st else Run(fields, DecRecord(fields, st, recs[0]).st, recs[1..])
  }

  function Flatten(recs: seq<seq<Byte>>): seq<Byte> {
    if recs == [] then [] else recs[0] + Flatten(recs[1..])
  }

  lemma {:induction false} WholeLoop(fields: seq<Field>, st: State, recs: seq<seq<Byte>>, t: seq<Byte>)
    requires |st.cells| == NumSlots(fields) && Whole(fields, st, recs)
    ensures DecLoop(fields, st, Flatten(recs) + t) == DecLoop(fields, Run(fields, st, recs), t)
    decreases |recs|
  {
    hide DecRecord, DecLoop, NumSlots;
    if recs == [] {
      assert [] + t == t;
    } else {
      var p := DecRecord(fields, st, recs[0]);
      var rest := Flatten(recs[1..]) + t;
      assert Flatten(recs) + t == recs[0] + rest;
      DecRecordLocal(fields, st, recs[0], rest);
      assert [] + rest == rest;
      assert DecLoop(fields, st, recs[0] + rest) == DecLoop(fields, p.st, rest) by {
        LoopStep(fields, st, recs[0] + rest);
      }
      WholeLoop(fields, p.st, recs[1..], t);
    }
  }

  /** A byte string that the loop reads to its end, without meeting a zero tag, is a
      series of whole records. */
  predicate Clean(fields: seq<Field>, st: State, s: seq<Byte>)
    requires |st.cells| == NumSlots(fields)
    decreases |s|
  {
    s == [] || (var p := DecRecord(fields, st, s); p.Next? && Clean(fields, p.st, p.rest))
  }

  lemma {:induction false} CleanLoop(fields: seq<Field>, st: State, s: seq<Byte>, t: seq<Byte>)
    requires |st.cells| == NumSlots(fields) && Clean(fields, st, s)
    ensures DecLoop(fields, st, s).Ok? && DecLoop(fields, st, s).rest == []
    ensures DecLoop(fields, st, s + t) == DecLoop(fields, DecLoop(fields, st, s).val, t)
    decreases |s|
  {
    hide DecRecord, NumSlots;
    if s == [] {
      assert [] + t == t;
    } else {
      var p := DecRecord(fields, st, s);
      DecRecordLocal(fields, st, s, t);
      CleanLoop(fields, p.st, p.rest, t);
    }
  }

  // ---------- Truncation ----------

  /** Cutting strictly inside a record makes the record an error. */
  lemma CutRecord(fields: seq<Field>, st: State, r: seq<Byte>, k: nat)
    requires |st.cells| == NumSlots(fields) && 0 < k < |r|
    requires DecRecord(fields, st, r).Next? && DecRecord(fields, st, r).rest == []
    ensures DecRecord(fields, st, r[..k]).Bad?
  {
    hide DecRecord, NumSlots;
    assert r[..k] + r[k..] == r;
    if !DecRecord(fields, st, r[..k]).Bad? {
      DecRecordLocal(fields, st, r[..k], r[k..]);
    }
  }

  /** A message cut strictly inside one of its top-level records does not decode. */
  lemma TruncationFails(fields: seq<Field>, cells: seq<Cell>, recs: seq<seq<Byte>>, r: seq<Byte>, k: nat)
    requires |cells| == NumSlots(fields) && 0 < k < |r|
    requires Whole(fields, Start(cells), recs + [r])
    ensures DecMsg(fields, cells, Flatten(recs) + r[..k]).Fail?
  {
    hide DecRecord, NumSlots, Run, Flatten;
    WholePrefix(fields, Start(cells), recs, r);
    var st := Run(fields, Start(cells), recs);
    WholeLoop(fields, Start(cells), recs, r[..k]);
    CutRecord(fields, st, r, k);
  }

  lemma {:induction false} WholePrefix(fields: seq<Field>, st: State, recs: seq<seq<Byte>>, r: seq<Byte>)
    requires |st.cells| == NumSlots(fields) && Whole(fields, st, recs + [r])
    ensures Whole(fields, st, recs)
    ensures var p := DecRecord(fields, Run(fields, st, recs), r); p.Next? && p.rest == []
    decreases |recs|
  {
    hide DecRecord, NumSlots;
    if recs != [] {
      assert (recs + [r])[0] == recs[0] && (recs + [r])[1..] == recs[1..] + [r];
      WholePrefix(fields, DecRecord(fields, st, recs[0]).st, recs[1..], r);
    } else {
      assert (recs + [r])[0] == r;
    }
  }

  // ---------- Unknown fields ----------

  /** One whole record whose field number the descriptor does not list. Number 0 is one,
      except for a descriptor without fields, and except for the key that ends a message. */
  predicate UnknownRecord(fields: seq<Field>, u: seq<Byte>) {
    var p := DecVarint32(u);
    && p.Ok? && p.val >= (if fields == [] then 8 else 1)
    && FindTag(fields, p.val / 8) == |fields|
    && SkipField(p.val % 8, p.rest) == Ok((), [])
  }

  lemma UnknownIsSkipped(fields: seq<Field>, st: State, u: seq<Byte>)
    requires |st.cells| == NumSlots(fields) && UnknownRecord(fields, u)
    ensures DecRecord(fields, st, u) == Next(st, [])
  {
    hide DecVarint32, SkipField, FindTag;
    assert DecTagged(fields, st, DecVarint32(u).val / 8, DecVarint32(u).val % 8, DecVarint32(u).rest) == Next(st, []);
  }

  /** Without fields, a record numbered 0 is taken for a bool: a varint is read, whatever
      its wire type. */
  lemma NumberZeroIsRead(st: State, wireType: nat, s: seq<Byte>)
    requires |st.cells| == NumSlots([]) && 0 < wireType < 8
    ensures var p := DecVarint32(s);
      DecRecord([], st, [wireType] + s) == if p.Ok? then Next(st, p.rest) else Bad
  {
    hide DecVarint32;
    assert EncVarint(wireType) == [wireType];
    Varint32RoundTrip(wireType, s);
    assert DecTagged([], st, 0, wireType, s) == if DecVarint32(s).Ok? then Next(st, DecVarint32(s).rest) else Bad;
  }

  /** `recs` without its unknown records. */
  function Known(fields: seq<Field>, recs: seq<seq<Byte>>): seq<seq<Byte>> {
    if recs == [] then []
    else if UnknownRecord(fields, recs[0]) then Known(fields, recs[1..])
    else [recs[0]] + Known(fields, recs[1..])
  }

  /** Unknown records, any number of them between any records of a message, change
      nothing of what the message decodes to. */
  lemma {:induction false} UnknownFieldsTransparent(fields: seq<Field>, st: State, recs: seq<seq<Byte>>, t: seq<Byte>)
    requires |st.cells| == NumSlots(fields) && Whole(fields, st, Known(fields, recs))
    ensures Whole(fields, st, recs) && Run(fields, st, recs) == Run(fields, st, Known(fields, recs))
    ensures DecLoop(fields, st, Flatten(recs) + t) == DecLoop(fields, st, Flatten(Known(fields, recs)) + t)
    decreases |recs|
  {
    hide DecRecord, DecLoop, NumSlots, UnknownRecord, Flatten;
    UnknownRun(fields, st, recs);
    WholeLoop(fields, st, recs, t);
    WholeLoop(fields, st, Known(fields, recs), t);
  }

  lemma {:induction false} UnknownRun(fields: seq<Field>, st: State, recs: seq<seq<Byte>>)
    requires |st.cells| == NumSlots(fields) && Whole(fields, st, Known(fields, recs))
    ensures Whole(fields, st, recs) && Run(fields, st, recs) == Run(fields, st, Known(fields, recs))
    decreases |recs|
  {
    hide DecRecord, NumSlots, UnknownRecord;
    if recs != [] {
      if UnknownRecord(fields, recs[0]) {
        UnknownIsSkipped(fields, st, recs[0]);
        UnknownRun(fields, st, recs[1..]);
      } else {
        var k := Known(fields, recs);
        assert k[0] == recs[0] && k[1..] == Known(fields, recs[1..]);
        UnknownRun(fields, DecRecord(fields, st, recs[0]).st, recs[1..]);
      }
    }
  }

  /** Decoding a message is blind to unknown records between its records. */
  lemma UnknownFieldsIgnored(fields: seq<Field>, cells: seq<Cell>, recs: seq<seq<Byte>>)
    requires |cells| == NumSlots(fields) && Whole(fields, Start(cells), Known(fields, recs))
    ensures DecMsg(fields, cells, Flatten(recs)) == DecMsg(fields, cells, Flatten(Known(fields, recs)))
  {
    hide DecLoop, Flatten, NumSlots;
    UnknownFieldsTransparent(fields, Start(cells), recs, []);
    assert Flatten(recs) + [] == Flatten(recs);
    assert Flatten(Known(fields, recs)) + [] == Flatten(Known(fields, recs));
  }

  lemma {:induction false} SkipEncodedVarint(v: nat, t: seq<Byte>)
    ensures SkipVarint(EncVarint(v) + t) == Ok((), t)
    decreases v
  {
    var s := EncVarint(v) + t;
    if v < 128 {
      assert s[1..] == t;
    } else {
      assert s[1..] == EncVarint(v / 128) + t;
      SkipEncodedVarint(v / 128, t);
    }
  }

  /** Skipping by wire type consumes exactly one encoded datum, of whatever field type. */
  lemma SkipConsumesOneValue(f: Field, v: Value, t: seq<Byte>)
    requires WellFormedField(f) && ValidValue(f, v)
    ensures EncValue(f, v).Out?
    ensures SkipField(WireTypeOf(f.ltype), EncValue(f, v).bytes + t) == Ok((), t)
  {
    hide EncVarint, EncFixed, Take, TakePrefixed, SkipVarint, LengthPrefixed, WellFormed, ValidCells;
    match v
    case Num(n) =>
      assert EncScalar(f, n).Out?;
      var e := EncScalar(f, n).bytes;
      match f.ltype {
        case LBool => SkipEncodedVarint(if n != 0 then 1 else 0, t);
        case LVarint => SkipEncodedVarint(Unsigned(ReadSigned(n, f.dataSize), TWO64), t);
        case LUVarint => SkipEncodedVarint(ReadUnsigned(n, f.dataSize), t);
        case LSVarint => SkipEncodedVarint(ZigZag(ReadSigned(n, f.dataSize)), t);
        case LFixed32 => TakeExactly(e, t);
        case LFixed64 => TakeExactly(e, t);
      }
    case Blob(b) => PrefixedRoundTrip(if f.ltype.LString? then b[..StrLen(b)] else b, t);
    case Msg(cells) => PrefixedRoundTrip(EncFields(f.sub, cells, 0).bytes, t);
  }

  lemma TakeExactly(e: seq<Byte>, t: seq<Byte>)
    ensures Take(e + t, |e|) == Ok(e, t)
  {
    assert (e + t)[..|e|] == e && (e + t)[|e|..] == t;
  }

  // ---------- Packed or not ----------

  /** A piece of a message: entries of one array, packed or one to a record, or a record
      of something else. */
  datatype Piece = Packed(items: seq<Value>) | Entry(item: Value) | Other(bytes: seq<Byte>)

  function PieceItems(p: Piece): seq<Value> {
    match p
    case Packed(items) => items
    case Entry(v) => [v]
    case Other(_) => []
  }

  function Items(pieces: seq<Piece>): seq<Value> {
    if pieces == [] then [] else PieceItems(pieces[0]) + Items(pieces[1..])
  }

  function Others(pieces: seq<Piece>): seq<seq<Byte>> {
    if pieces == [] then []
    else (if pieces[0].Other? then [pieces[0].bytes] else []) + Others(pieces[1..])
  }

  predicate PieceOk(f: Field, p: Piece) {
    match p
    case Packed(items) => Packable(f.ltype) && Short(EncItems(f, items)) && forall k | 0 <= k < |items| :: ValidValue(f, items[k])
    case Entry(v) => ValidValue(f, v) && EncTagged(f, v).Out?
    case Other(bytes) => DecVarint32(bytes).Ok? && DecVarint32(bytes).val / 8 != f.tag
  }

  function PieceBytes(f: Field, p: Piece): seq<Byte>
    requires PieceOk(f, p)
  {
    match p
    case Packed(items) => PackedRecord(f, items)
    case Entry(v) => EncTagged(f, v).bytes
    case Other(bytes) => bytes
  }

  function PiecesBytes(f: Field, pieces: seq<Piece>): seq<Byte>
    requires forall k | 0 <= k < |pieces| :: PieceOk(f, pieces[k])
  {
    if pieces == [] then [] else PieceBytes(f, pieces[0]) + PiecesBytes(f, pieces[1..])
  }

  /** `st` with the entries of the counted array field `i` replaced. */
  function WithItems(fields: seq<Field>, st: State, i: nat, items: seq<Value>): (r: State)
    requires i < |fields| && |st.cells| == NumSlots(fields)
    ensures |r.cells| == NumSlots(fields)
  {
    SlotMonotone(fields, i, i);
    st.(cells := st.cells[SlotOf(fields, i) := Arr(|items|, items)])
  }

  /** A record of another field reads and writes other cells only. */
  lemma RecordFrame(fields: seq<Field>, st: State, i: nat, items: seq<Value>, s: seq<Byte>)
    requires i < |fields| && |st.cells| == NumSlots(fields) && fields[i].htype.Repeated?
    requires DecVarint32(s).Ok? && DecVarint32(s).val / 8 != fields[i].tag
    requires DecRecord(fields, st, s).Next?
    ensures DecRecord(fields, WithItems(fields, st, i, items), s)
         == Next(WithItems(fields, DecRecord(fields, st, s).st, i, items), DecRecord(fields, st, s).rest)
  {
    hide DecVarint32, SkipField, DecField, TrackerDone, RequiredIndex, SlotOf, NumSlots;
    SlotMonotone(fields, i, i);
    var st' := WithItems(fields, st, i, items);
    var (key, r) := (DecVarint32(s).val, DecVarint32(s).rest);
    var p := DecTagged(fields, st, key / 8, key % 8, r);
    var q := DecTagged(fields, st', key / 8, key % 8, r);
    var j := FindTag(fields, key / 8);
    if j < |fields| {
      SlotMonotone(fields, j, j);
      assert SlotOf(fields, i) != SlotOf(fields, j) by {
        if SlotOf(fields, i) == SlotOf(fields, j) { SharedSlot(fields, if i < j then i else j, if i < j then j else i); }
      }
      assert p == DecKnown(fields, st, j, key % 8, r) && q == DecKnown(fields, st', j, key % 8, r);
      assert q.Next?;
      assert q.st.cells == WithItems(fields, p.st, i, items).cells;
    }
  }

  /** One piece of the array appends its entries. */
  lemma PieceStep(fields: seq<Field>, st: State, i: nat, got: seq<Value>, p: Piece, t: seq<Byte>)
    requires WellFormed(fields) && i < |fields| && |st.cells| == NumSlots(fields)
    requires fields[i].htype.Repeated? && fields[i].HasSize()
    requires PieceOk(fields[i], p) && !p.Other? && |got| + |PieceItems(p)| <= fields[i].arraySize
    ensures DecRecord(fields, WithItems(fields, st, i, got), PieceBytes(fields[i], p) + t)
         == Next(WithItems(fields, st, i, got + NormItems(fields[i], PieceItems(p))), t)
  {
    hide DecRecord, SlotOf, NumSlots, NormValue, EncItems, EncTagged, ValidValue, WellFormed;
    var f := fields[i];
    var st' := WithItems(fields, st, i, got);
    SlotMonotone(fields, i, i);
    assert Holding(fields, st', i, got);
    var all := got + NormItems(f, PieceItems(p));
    assert Filled(fields, st', i, all) == WithItems(fields, st, i, all);
    match p
    case Packed(items) =>
      PackedStep(fields, st', i, got, items, t);
    case Entry(v) =>
      OneNorm(f, v);
      ItemStep(fields, st', i, got, v, t);
  }

  lemma OneNorm(f: Field, v: Value)
    ensures NormItems(f, [v]) == [NormValue(f, v)]
  {
    hide NormValue;
  }

  /** However the entries of a counted array are split into packed and single records,
      and wherever other records stand between them, the array receives the entries in
      order and the other records act as if alone. */
  lemma {:induction false} PackingDoesNotMatter(
    fields: seq<Field>, st: State, i: nat, got: seq<Value>, pieces: seq<Piece>, t: seq<Byte>)
    requires WellFormed(fields) && i < |fields| && |st.cells| == NumSlots(fields)
    requires fields[i].htype.Repeated? && fields[i].HasSize()
    requires forall k | 0 <= k < |pieces| :: PieceOk(fields[i], pieces[k])
    requires Whole(fields, st, Others(pieces)) && |got| + |Items(pieces)| <= fields[i].arraySize
    ensures DecLoop(fields, WithItems(fields, st, i, got), PiecesBytes(fields[i], pieces) + t)
         == DecLoop(fields,
              WithItems(fields, Run(fields, st, Others(pieces)), i, got + NormItems(fields[i], Items(pieces))), t)
    decreases |pieces|
  {
    hide DecLoop, DecRecord, NumSlots, WithItems, NormItems, PieceOk, PieceBytes, WellFormed, Others, Items, PiecesBytes, Run, Whole;
    var f := fields[i];
    SplitPieces(f, pieces);
    SplitRun(fields, st, pieces);
    if pieces == [] {
      NoItems(f);
      assert got + [] == got;
      assert [] + t == t;
    } else {
      var p, tail := pieces[0], pieces[1..];
      var rest := PiecesBytes(f, tail) + t;
      assert PiecesBytes(f, pieces) + t == PieceBytes(f, p) + rest;
      if p.Other? {
        OtherStep(fields, st, i, got, p, rest);
        PackingDoesNotMatter(fields, DecRecord(fields, st, p.bytes).st, i, got, tail, t);
      } else {
        PieceStep(fields, st, i, got, p, rest);
        LoopStep(fields, WithItems(fields, st, i, got), PieceBytes(f, p) + rest);
        NormItemsCat(f, PieceItems(p), Items(tail));
        PackingDoesNotMatter(fields, st, i, got + NormItems(f, PieceItems(p)), tail, t);
        assert got + NormItems(f, PieceItems(p)) + NormItems(f, Items(tail)) == got + NormItems(f, Items(pieces));
      }
    }
  }

  lemma SplitPieces(f: Field, pieces: seq<Piece>)
    requires forall k | 0 <= k < |pieces| :: PieceOk(f, pieces[k])
    ensures pieces == [] ==> Items(pieces) == [] && Others(pieces) == [] && PiecesBytes(f, pieces) == []
    ensures pieces != [] ==>
      && PiecesBytes(f, pieces) == PieceBytes(f, pieces[0]) + PiecesBytes(f, pieces[1..])
      && Items(pieces) == PieceItems(pieces[0]) + Items(pieces[1..])
      && (pieces[0].Other? ==> Items(pieces) == Items(pieces[1..]) && PieceBytes(f, pieces[0]) == pieces[0].bytes)
  {
    hide PieceOk, PieceBytes;
    if pieces != [] && pieces[0].Other? {
      assert [] + Items(pieces[1..]) == Items(pieces[1..]);
      OtherPiece(f, pieces[0]);
    }
  }

  lemma OtherPiece(f: Field, p: Piece)
    requires p.Other? && PieceOk(f, p)
    ensures PieceBytes(f, p) == p.bytes
  {
  }

  lemma SplitRun(fields: seq<Field>, st: State, pieces: seq<Piece>)
    requires |st.cells| == NumSlots(fields) && Whole(fields, st, Others(pieces))
    ensures pieces == [] ==> Run(fields, st, Others(pieces)) == st
    ensures pieces != [] && !pieces[0].Other? ==> Others(pieces) == Others(pieces[1..])
    ensures pieces != [] && pieces[0].Other? ==>
      var q := DecRecord(fields, st, pieces[0].bytes);
      && q.Next? && q.rest == []
      && Whole(fields, q.st, Others(pieces[1..]))
      && Run(fields, st, Others(pieces)) == Run(fields, q.st, Others(pieces[1..]))
  {
    hide DecRecord, NumSlots;
    if pieces != [] && pieces[0].Other? {
      assert Others(pieces)[0] == pieces[0].bytes && Others(pieces)[1..] == Others(pieces[1..]);
    }
  }

  /** A record of something else leaves the entries of the array alone. */
  lemma OtherStep(fields: seq<Field>, st: State, i: nat, got: seq<Value>, p: Piece, rest: seq<Byte>)
    requires WellFormed(fields) && i < |fields| && |st.cells| == NumSlots(fields) && fields[i].htype.Repeated?
    requires p.Other? && PieceOk(fields[i], p)
    requires DecRecord(fields, st, p.bytes).Next? && DecRecord(fields, st, p.bytes).rest == []
    ensures DecLoop(fields, WithItems(fields, st, i, got), p.bytes + rest)
         == DecLoop(fields, WithItems(fields, DecRecord(fields, st, p.bytes).st, i, got), rest)
  {
    hide DecLoop, DecRecord, NumSlots, WithItems, PieceOk, WellFormed;
    DecRecordLocal(fields, st, p.bytes, rest);
    assert [] + rest == rest;
    OtherTag(fields, i, p, rest);
    RecordFrame(fields, st, i, got, p.bytes + rest);
    LoopStep(fields, WithItems(fields, st, i, got), p.bytes + rest);
  }

  lemma OtherTag(fields: seq<Field>, i: nat, p: Piece, rest: seq<Byte>)
    requires i < |fields| && p.Other? && PieceOk(fields[i], p)
    ensures DecVarint32(p.bytes + rest).Ok? && DecVarint32(p.bytes + rest).val / 8 != fields[i].tag
  {
    DecVarint32Local(p.bytes, rest);
  }

  lemma {:induction false} NormItemsCat(f: Field, a: seq<Value>, b: seq<Value>)
    ensures NormItems(f, a + b) == NormItems(f, a) + NormItems(f, b)
    decreases |a|
  {
    hide NormValue;
    if a == [] {
      assert a + b == b;
    } else {
      assert (a + b)[0] == a[0] && (a + b)[1..] == a[1..] + b;
      NormItemsCat(f, a[1..], b);
    }
  }

  /** Two byte strings that carry the same entries and the same other records, however
      split and interleaved, decode to the same struct, whatever entries the array holds
      already. */
  lemma SplitsAgree(fields: seq<Field>, cells: seq<Cell>, i: nat, got: seq<Value>, a: seq<Piece>, b: seq<Piece>)
    requires WellFormed(fields) && i < |fields| && |cells| == NumSlots(fields)
    requires fields[i].htype.Repeated? && fields[i].HasSize()
    requires forall k | 0 <= k < |a| :: PieceOk(fields[i], a[k])
    requires forall k | 0 <= k < |b| :: PieceOk(fields[i], b[k])
    requires Items(a) == Items(b) && |got| + |Items(a)| <= fields[i].arraySize && Others(a) == Others(b)
    requires SlotOf(fields, i) < |cells| && cells[SlotOf(fields, i)] == Arr(|got|, got)
    requires Whole(fields, Start(cells), Others(a))
    ensures DecMsg(fields, cells, PiecesBytes(fields[i], a)) == DecMsg(fields, cells, PiecesBytes(fields[i], b))
  {
    hide DecLoop, NumSlots, PieceOk, Others, Items, NormItems, WellFormed, SlotOf, PiecesBytes;
    var st := Start(cells);
    assert WithItems(fields, st, i, got) == st by {
      assert cells[SlotOf(fields, i) := Arr(|got|, got)] == cells;
    }
    PackingDoesNotMatter(fields, st, i, got, a, []);
    PackingDoesNotMatter(fields, st, i, got, b, []);
    assert PiecesBytes(fields[i], a) + [] == PiecesBytes(fields[i], a);
    assert PiecesBytes(fields[i], b) + [] == PiecesBytes(fields[i], b);
  }
}

/** What is sent, as the Protocol Buffers Encoding guide has it: a reader written with the
    guide's own numbers splits every encoding into records, and finds in them the fields of
    the message, in order. */
module WireFormat {
  import opened Bits
  import opened Wrappers
  import opened Parse
  import opened Varint
  import opened Descriptor
  import opened EncodeSpec
  import opened RoundTrip

  // ---------- The guide's reader ----------

  datatype Payload = Base128(n: nat) | Eight(b: seq<Byte>) | Delimited(b: seq<Byte>) | Four(b: seq<Byte>)

  datatype Record = Record(number: nat, payload: Payload)

  /** Groups of seven bits, the least significant first; the top bit says that more follow. */
  function ReadBase128(s: seq<Byte>): (p: Parse<nat>)
    ensures p.Ok? ==> |p.rest| < |s|
  {
    if s == [] then Fail
    else if s[0] < 128 then Ok(s[0], s[1..])
    else
      match ReadBase128(s[1..])
      case Fail => Fail
      case Ok(n, r) => Ok(s[0] - 128 + 128 * n, r)
  }

  function ReadBytes(s: seq<Byte>, n: nat): (p: Parse<seq<Byte>>)
    ensures p.Ok? ==> |p.rest| == |s| - n
  {
    if n <= |s| then Ok(s[..n], s[n..]) else Fail
  }

  function ReadPayload(wireType: nat, s: seq<Byte>): (p: Parse<Payload>)
    ensures p.Ok? ==> |p.rest| < |s|
  {
    if wireType == 0 then var (n, r) :- ReadBase128(s); Ok(Base128(n), r)
    else if wireType == 1 then var (b, r) :- ReadBytes(s, 8); Ok(Eight(b), r)
    else if wireType == 2 then var (n, r) :- ReadBase128(s); var (b, r') :- ReadBytes(r, n); Ok(Delimited(b), r')
    else if wireType == 5 then var (b, r) :- ReadBytes(s, 4); Ok(Four(b), r)
    else Fail
  }

  /** The low three bits of the key are the wire type, the rest is the field's number. */
  function ReadRecord(s: seq<Byte>): (p: Parse<Record>)
    ensures p.Ok? ==> |p.rest| < |s|
  {
    var (key, r) :- ReadBase128(s);
    var (payload, r') :- ReadPayload(key % 8, r);
    Ok(Record(key / 8, payload), r')
  }

  function ReadRecords(s: seq<Byte>): Option<seq<Record>>
    decreases |s|
  {
    if s == [] then Some([])
    else
      match ReadRecord(s)
      case Fail => None
      case Ok(record, r) =>
        match ReadRecords(r)
        case None => None
        case Some(more) => Some([record] + more)
  }

  /** The data of a packed array. */
  function ReadPayloads(wireType: nat, s: seq<Byte>): Option<seq<Payload>>
    decreases |s|
  {
    if s == [] then Some([])
    else
      match ReadPayload(wireType, s)
      case Fail => None
      case Ok(payload, r) =>
        match ReadPayloads(wireType, r)
        case None => None
        case Some(more) => Some([payload] + more)
  }

  // ---------- What a message sends ----------

  function WireType(t: LType): nat {
    if t.LBool? || t.LVarint? || t.LUVarint? || t.LSVarint? then 0
    else if t.LFixed64? then 1
    else if t.LFixed32? then 5
    else 2
  }

  /** How many values a C integer of `size` bytes has. */
  function Values(size: nat): nat {
    if size == 1 then 0x100 else if size == 2 then 0x1_0000
    else if size == 4 then 0x1_0000_0000 else 0x1_0000_0000_0000_0000
  }

  /** `m` is what a C integer of `size` bytes, signed or not, is read as when the bits of `n`
      are stored in it. */
  predicate ReadAs(n: int, size: nat, signed: bool, m: int) {
    && (size == 1 || size == 2 || size == 4 || size == 8)
    && (m - n) % Values(size) == 0
    && (if signed then 0 - Values(size) <= 2 * m < Values(size) else 0 <= m < Values(size))
  }

  function Power256(i: nat): (p: nat)
    ensures p > 0
  {
    if i == 0 then 1 else 256 * Power256(i - 1)
  }

  /** Least significant byte first. */
  predicate LittleEndian(b: seq<Byte>, n: nat) {
    forall i | 0 <= i < |b| :: b[i] == n / Power256(i) % 256
  }

  predicate CarriesNumber(f: Field, n: int, p: Payload) {
    match f.ltype
    case LBool => p == Base128(if n == 0 then 0 else 1)
    case LVarint =>
      && p.Base128? && p.n < 0x1_0000_0000_0000_0000
      && ReadAs(n, f.dataSize, true, if p.n < 0x8000_0000_0000_0000 then p.n else p.n - 0x1_0000_0000_0000_0000)
    case LUVarint => p.Base128? && ReadAs(n, f.dataSize, false, p.n)
    case LSVarint => p.Base128? && ReadAs(n, f.dataSize, true, if p.n % 2 == 0 then p.n / 2 else -(p.n / 2) - 1)
    case LFixed32 => p.Four? && LittleEndian(p.b, n % 0x1_0000_0000)
    case LFixed64 => p.Eight? && LittleEndian(p.b, n % 0x1_0000_0000_0000_0000)
    case _ => false
  }

  /** A string goes out up to its first NUL, or to the end of its buffer. */
  predicate CarriesBytes(f: Field, b: seq<Byte>, p: Payload) {
    && p.Delimited?
    && if f.ltype.LString? then p.b <= b && 0 !in p.b && (|p.b| < |b| ==> b[|p.b|] == 0) else p.b == b
  }

  predicate Carries(f: Field, v: Value, p: Payload)
    decreases f, 0
  {
    match v
    case Num(n) => CarriesNumber(f, n, p)
    case Blob(b) => CarriesBytes(f, b, p)
    case Msg(cells) => p.Delimited? && ReadRecords(p.b).Some? && Sends(f.sub, cells, 0, ReadRecords(p.b).value)
  }

  predicate CarriesAll(f: Field, items: seq<Value>, ps: seq<Payload>)
    decreases f, 1
  {
    |ps| == |items| && forall k | 0 <= k < |items| :: Carries(f, items[k], ps[k])
  }

  /** A has-less datum that does not go out: zero, empty, or a submessage of which every
      field is left out. */
  predicate Nothing(f: Field, v: Value)
    decreases f, 0
  {
    match v
    case Num(n) => n == 0
    case Blob(b) => b == [] || (f.ltype.LString? && b[0] == 0)
    case Msg(cells) =>
      forall i | 0 <= i < |f.sub| :: SlotOf(f.sub, i) < |cells| && LeftOut(f.sub[i], cells[SlotOf(f.sub, i)])
  }

  predicate LeftOut(f: Field, c: Cell)
    decreases f, 1
  {
    match f.htype
    case Required => false
    case Optional => if f.HasSize() then c.Opt? && !c.has else c.Single? && Nothing(f, c.v)
    case Repeated => c.Arr? && f.HasSize() && c.count == 0
    case OneOf => c.Union? && c.which == 0
  }

  /** The records of one field. */
  predicate FieldSends(f: Field, c: Cell, recs: seq<Record>)
    decreases f, 3
  {
    match f.htype
    case Required => c.Single? && OneRecord(f, c.v, recs)
    case Optional =>
      if f.HasSize() then c.Opt? && (if c.has then OneRecord(f, c.v, recs) else recs == [])
      else c.Single? && (if Nothing(f, c.v) then recs == [] else OneRecord(f, c.v, recs))
    case Repeated =>
      && c.Arr?
      && (var n := if f.HasSize() then c.count else f.arraySize;
          && n <= |c.items|
          && (if n == 0 then recs == []
              else if Packable(f.ltype) then
                && |recs| == 1 && recs[0].number == f.tag && recs[0].payload.Delimited?
                && (var ps := ReadPayloads(WireType(f.ltype), recs[0].payload.b);
                    ps.Some? && CarriesAll(f, c.items[..n], ps.value))
              else
                && |recs| == n
                && forall k | 0 <= k < n :: recs[k].number == f.tag && Carries(f, c.items[k], recs[k].payload)))
    case OneOf => c.Union? && (if c.which == f.tag then OneRecord(f, c.v, recs) else recs == [])
  }

  predicate OneRecord(f: Field, v: Value, recs: seq<Record>)
    decreases f, 2
  {
    |recs| == 1 && recs[0].number == f.tag && Carries(f, v, recs[0].payload)
  }

  /** `recs` are the records of the fields from number `i` on, in their order. */
  predicate Sends(fields: seq<Field>, cells: seq<Cell>, i: nat, recs: seq<Record>)
    requires i <= |fields|
    decreases fields, |fields| - i
  {
    if i == |fields| then recs == []
    else
      && SlotOf(fields, i) < |cells|
      && exists k | 0 <= k <= |recs| ::
        FieldSends(fields[i], cells[SlotOf(fields, i)], recs[..k]) && Sends(fields, cells, i + 1, recs[k..])
  }

  // ---------- The reader looks at no byte it does not consume ----------

  lemma {:induction false} Base128Local(s: seq<Byte>, t: seq<Byte>)
    requires ReadBase128(s).Ok?
    ensures ReadBase128(s + t) == ReadBase128(s).Then(t)
  {
    assert (s + t)[0] == s[0] && (s + t)[1..] == s[1..] + t;
    if s[0] >= 128 { Base128Local(s[1..], t); }
  }

  lemma BytesLocal(s: seq<Byte>, n: nat, t: seq<Byte>)
    requires ReadBytes(s, n).Ok?
    ensures ReadBytes(s + t, n) == ReadBytes(s, n).Then(t)
  {
    assert (s + t)[..n] == s[..n] && (s + t)[n..] == s[n..] + t;
  }

  lemma PayloadLocal(wireType: nat, s: seq<Byte>, t: seq<Byte>)
    requires ReadPayload(wireType, s).Ok?
    ensures ReadPayload(wireType, s + t) == ReadPayload(wireType, s).Then(t)
  {
    hide ReadBase128, ReadBytes;
    if wireType == 0 {
      Base128Local(s, t);
    } else if wireType == 1 {
      BytesLocal(s, 8, t);
    } else if wireType == 2 {
      Base128Local(s, t);
      BytesLocal(ReadBase128(s).rest, ReadBase128(s).val, t);
    } else {
      BytesLocal(s, 4, t);
    }
  }

  lemma RecordLocal(s: seq<Byte>, t: seq<Byte>)
    requires ReadRecord(s).Ok?
    ensures ReadRecord(s + t) == ReadRecord(s).Then(t)
  {
    hide ReadBase128, ReadPayload;
    Base128Local(s, t);
    PayloadLocal(ReadBase128(s).val % 8, ReadBase128(s).rest, t);
  }

  lemma {:induction false} RecordsCat(a: seq<Byte>, b: seq<Byte>)
    requires ReadRecords(a).Some? && ReadRecords(b).Some?
    ensures ReadRecords(a + b) == Some(ReadRecords(a).value + ReadRecords(b).value)
    decreases |a|
  {
    hide ReadRecord;
    if a == [] {
      assert a + b == b && [] + ReadRecords(b).value == ReadRecords(b).value;
    } else {
      var (first, r) := (ReadRecord(a).val, ReadRecord(a).rest);
      RecordLocal(a, b);
      RecordsCat(r, b);
      assert ReadRecords(a).value == [first] + ReadRecords(r).value;
      assert [first] + (ReadRecords(r).value + ReadRecords(b).value) == ReadRecords(a).value + ReadRecords(b).value;
    }
  }

  lemma {:induction false} PayloadsCat(wireType: nat, a: seq<Byte>, b: seq<Byte>)
    requires ReadPayloads(wireType, a).Some? && ReadPayloads(wireType, b).Some?
    ensures ReadPayloads(wireType, a + b) == Some(ReadPayloads(wireType, a).value + ReadPayloads(wireType, b).value)
    decreases |a|
  {
    hide ReadPayload;
    if a == [] {
      assert a + b == b && [] + ReadPayloads(wireType, b).value == ReadPayloads(wireType, b).value;
    } else {
      var (first, r) := (ReadPayload(wireType, a).val, ReadPayload(wireType, a).rest);
      PayloadLocal(wireType, a, b);
      PayloadsCat(wireType, r, b);
      var more := ReadPayloads(wireType, b).value;
      assert ReadPayloads(wireType, a).value == [first] + ReadPayloads(wireType, r).value;
      assert [first] + (ReadPayloads(wireType, r).value + more) == ReadPayloads(wireType, a).value + more;
    }
  }

  lemma OnePayload(wireType: nat, s: seq<Byte>)
    requires ReadPayload(wireType, s).Ok? && ReadPayload(wireType, s).rest == []
    ensures ReadPayloads(wireType, s) == Some([ReadPayload(wireType, s).val])
  {
    hide ReadPayload;
    assert ReadPayloads(wireType, []) == Some([]);
    assert [ReadPayload(wireType, s).val] + [] == [ReadPayload(wireType, s).val];
  }

  // ---------- Numbers ----------

  lemma {:induction false} Base128RoundTrip(v: nat, t: seq<Byte>)
    ensures ReadBase128(EncVarint(v) + t) == Ok(v, t)
    decreases v
  {
    var s := EncVarint(v) + t;
    if v < 128 {
      assert s[1..] == t;
    } else {
      assert s[1..] == EncVarint(v / 128) + t;
      Base128RoundTrip(v / 128, t);
    }
  }

  lemma {:induction false} FixedIsLittleEndian(v: nat, n: nat)
    ensures LittleEndian(EncFixed(v, n), v)
    decreases n
  {
    if n > 0 {
      FixedIsLittleEndian(v / 256, n - 1);
      forall i | 0 <= i < n ensures EncFixed(v, n)[i] == v / Power256(i) % 256 {
        if i > 0 {
          assert EncFixed(v, n)[i] == EncFixed(v / 256, n - 1)[i - 1];
          DivTwice(v, Power256(i - 1));
        }
      }
    }
  }

  lemma DivTwice(v: nat, d: nat)
    requires d > 0
    ensures v / (256 * d) == v / 256 / d
  {
    var q := v / 256 / d;
    var r := v / 256 % d;
    assert v == 256 * (d * q + r) + v % 256;
    assert 256 * d * q == 256 * (d * q);
    assert v - 256 * d * q == 256 * r + v % 256 < 256 * d;
    DivIs(v, 256 * d, q);
  }

  lemma DivIs(v: nat, d: nat, q: nat)
    requires d > 0 && 0 <= v - d * q < d
    ensures v / d == q
  {
    var k := v / d;
    assert v == d * k + v % d;
    if k < q {
      MulMono(d, k + 1, q);
      assert false;
    } else if k > q {
      MulMono(d, q + 1, k);
      assert false;
    }
  }

  lemma StoredNumber(n: int, size: nat)
    requires IntSize(size)
    ensures ReadAs(n, size, true, ReadSigned(n, size)) && ReadAs(n, size, false, ReadUnsigned(n, size))
  {
    var m, q := Modulus(size), n / Modulus(size);
    assert m == Values(size) && n == m * q + n % m;
    assert m * -q == -(m * q) && m * (-q - 1) == -(m * q) - m;
    ModOfMultiple(m, -q);
    ModOfMultiple(m, -q - 1);
    SignedIs(n % m, m);
  }

  /** A number that its C type holds is read as itself. */
  lemma HeldNumberIsItself(n: int, size: nat, signed: bool, m: int)
    requires ReadAs(n, size, signed, m)
    requires if signed then 0 - Values(size) <= 2 * n < Values(size) else 0 <= n < Values(size)
    ensures m == n
  {
    ModOfSigned(m - n, Values(size));
  }

  lemma SignedIs(u: nat, m: nat)
    requires u < m
    ensures Signed(u, m) == if u < m / 2 then u else u - m
  {
    ModOfSigned(u, m);
  }

  lemma ModOfMultiple(m: nat, q: int)
    requires m > 0
    ensures (m * q) % m == 0
  {
    var r := (m * q) % m;
    var k := (m * q) / m;
    assert m * q == m * k + r;
    if q > k {
      MulMono(m, k + 1, q);
      assert false;
    } else if q < k {
      MulMono(m, q, k - 1);
      assert false;
    }
  }

  lemma ScalarSent(f: Field, n: int)
    requires EncScalar(f, n).Out?
    ensures var q := ReadPayload(WireType(f.ltype), EncScalar(f, n).bytes);
      q.Ok? && q.rest == [] && CarriesNumber(f, n, q.val)
  {
    hide EncVarint, EncFixed, ReadBase128, ReadBytes, ReadSigned, ReadUnsigned, ReadAs, LittleEndian, ZigZag;
    match f.ltype
    case LBool => OneVarint(if n != 0 then 1 else 0);
    case LVarint =>
      StoredNumber(n, f.dataSize);
      OneVarint(Unsigned(ReadSigned(n, f.dataSize), TWO64));
      SignedRange(n, f.dataSize, ReadSigned(n, f.dataSize));
      WideUnsigned(ReadSigned(n, f.dataSize));
    case LUVarint =>
      StoredNumber(n, f.dataSize);
      OneVarint(ReadUnsigned(n, f.dataSize));
    case LSVarint =>
      StoredNumber(n, f.dataSize);
      OneVarint(ZigZag(ReadSigned(n, f.dataSize)));
      Folded(ReadSigned(n, f.dataSize));
    case LFixed32 => OneFixed(n, 4, TWO32);
    case LFixed64 => OneFixed(n, 8, TWO64);
  }

  lemma OneVarint(v: nat)
    ensures ReadBase128(EncVarint(v)) == Ok(v, [])
  {
    assert EncVarint(v) + [] == EncVarint(v);
    Base128RoundTrip(v, []);
  }

  lemma Folded(m: int)
    ensures var u := ZigZag(m); m == if u % 2 == 0 then u / 2 else -(u / 2) - 1
  {
  }

  lemma OneFixed(n: int, size: nat, m: nat)
    requires m > 0
    ensures var e := EncFixed(Unsigned(n, m), size); ReadBytes(e, size) == Ok(e, []) && LittleEndian(e, n % m)
  {
    FixedIsLittleEndian(Unsigned(n, m), size);
    WholeBytes(EncFixed(Unsigned(n, m), size), size);
  }

  lemma WholeBytes(e: seq<Byte>, n: nat)
    requires |e| == n
    ensures ReadBytes(e, n) == Ok(e, [])
  {
    assert e[..n] == e && e[n..] == [];
  }

  lemma SignedRange(n: int, size: nat, m: int)
    requires ReadAs(n, size, true, m)
    ensures InSigned(m, TWO64)
  {
  }

  lemma WideUnsigned(m: int)
    requires InSigned(m, TWO64)
    ensures var u := Unsigned(m, TWO64);
      u < TWO64 && m == if u < 0x8000_0000_0000_0000 then u else u - TWO64
  {
    ModOfSigned(m, TWO64);
  }

  // ---------- Data and records ----------

  lemma DelimitedSent(b: seq<Byte>)
    requires |b| < TWO64
    ensures ReadPayload(2, LengthPrefixed(b)) == Ok(Delimited(b), [])
  {
    hide EncVarint, ReadBase128;
    assert |b| % TWO64 == |b|;
    Base128RoundTrip(|b|, b);
    WholeBytes(b, |b|);
  }

  lemma BlobSent(f: Field, b: seq<Byte>)
    requires EncBlob(f, b).Out? && |EncBlob(f, b).bytes| < TWO64
    ensures var q := ReadPayload(WireType(f.ltype), EncBlob(f, b).bytes);
      q.Ok? && q.rest == [] && CarriesBytes(f, b, q.val)
  {
    hide EncVarint, ReadPayload;
    var sent := if f.ltype.LString? then b[..StrLen(b)] else b;
    assert EncBlob(f, b).bytes == LengthPrefixed(sent);
    DelimitedSent(sent);
  }

  /** A key and a payload are one record. */
  lemma RecordSent(wireType: nat, number: nat, e: seq<Byte>)
    requires wireType < 8 && ReadPayload(wireType, e).Ok? && ReadPayload(wireType, e).rest == []
    ensures ReadRecords(EncTag(wireType, number) + e) == Some([Record(number, ReadPayload(wireType, e).val)])
  {
    hide EncVarint, ReadBase128, ReadPayload;
    var key := 8 * number + wireType;
    assert key % 8 == wireType && key / 8 == number;
    Base128RoundTrip(key, e);
    assert ReadRecords([]) == Some([]);
    assert |EncTag(wireType, number)| >= 1;
    var record := Record(number, ReadPayload(wireType, e).val);
    assert [record] + [] == [record];
    assert ReadRecord(EncTag(wireType, number) + e) == Ok(Record(number, ReadPayload(wireType, e).val), []);
  }

  lemma {:induction false} ValueSent(f: Field, v: Value)
    requires StoredValue(f, v) && EncValue(f, v).Out? && |EncValue(f, v).bytes| < TWO64
    ensures var q := ReadPayload(WireType(f.ltype), EncValue(f, v).bytes);
      q.Ok? && q.rest == [] && Carries(f, v, q.val)
    decreases f, 0
  {
    hide ReadPayload, ReadRecords, EncScalar, EncBlob;
    match v
    case Num(n) => ScalarSent(f, n);
    case Blob(b) => BlobSent(f, b);
    case Msg(cells) =>
      var e := EncFields(f.sub, cells, 0).bytes;
      assert |e| < |LengthPrefixed(e)|;
      DelimitedSent(e);
      FieldsSent(f.sub, cells, 0);
  }

  lemma {:induction false} TaggedSent(f: Field, v: Value)
    requires StoredValue(f, v) && EncTagged(f, v).Out? && |EncTagged(f, v).bytes| < TWO64
    ensures var r := ReadRecords(EncTagged(f, v).bytes); r.Some? && OneRecord(f, v, r.value)
    decreases f, 1
  {
    hide ReadPayload, ReadRecords, EncValue, Carries;
    ValueSent(f, v);
    assert WireTypeOf(f.ltype) == WireType(f.ltype);
    RecordSent(WireType(f.ltype), f.tag, EncValue(f, v).bytes);
  }

  lemma {:induction false} ItemsSent(f: Field, items: seq<Value>)
    requires forall k | 0 <= k < |items| :: StoredValue(f, items[k])
    requires EncItems(f, items).Out? && |EncItems(f, items).bytes| < TWO64
    ensures var ps := ReadPayloads(WireType(f.ltype), EncItems(f, items).bytes);
      ps.Some? && CarriesAll(f, items, ps.value)
    decreases f, 2, |items|
  {
    hide ReadPayload, ReadPayloads, EncValue, Carries, StoredValue;
    if items == [] {
      NoItems(f);
      assert ReadPayloads(WireType(f.ltype), []) == Some([]) by { NoPayloads(f); }
    } else {
      SplitItems(f, items);
      var e := EncValue(f, items[0]).bytes;
      ValueSent(f, items[0]);
      ItemsSent(f, items[1..]);
      OnePayload(WireType(f.ltype), e);
      PayloadsCat(WireType(f.ltype), e, EncItems(f, items[1..]).bytes);
    }
  }

  lemma NoPayloads(f: Field)
    ensures ReadPayloads(WireType(f.ltype), []) == Some([])
  {
  }

  /** One record for each of the entries. */
  predicate EachSent(f: Field, items: seq<Value>, recs: seq<Record>) {
    |recs| == |items| && forall k | 0 <= k < |items| :: recs[k].number == f.tag && Carries(f, items[k], recs[k].payload)
  }

  lemma {:induction false} TaggedItemsSent(f: Field, items: seq<Value>)
    requires forall k | 0 <= k < |items| :: StoredValue(f, items[k])
    requires EncTaggedItems(f, items).Out? && |EncTaggedItems(f, items).bytes| < TWO64
    ensures var r := ReadRecords(EncTaggedItems(f, items).bytes); r.Some? && EachSent(f, items, r.value)
    decreases f, 2, |items|
  {
    hide ReadRecords, EncTagged, Carries, StoredValue;
    if items == [] {
      NoItems(f);
      assert ReadRecords([]) == Some([]) by { NoRecords(); }
    } else {
      SplitItems(f, items);
      TaggedSent(f, items[0]);
      TaggedItemsSent(f, items[1..]);
      RecordsCat(EncTagged(f, items[0]).bytes, EncTaggedItems(f, items[1..]).bytes);
    }
  }

  lemma NoRecords()
    ensures ReadRecords([]) == Some([])
  {
  }

  // ---------- Fields ----------

  /** What is left out is what the encoder takes for zero. */
  lemma {:induction false} NothingIsZero(f: Field, v: Value)
    requires StoredValue(f, v)
    ensures Nothing(f, v) <==> IsZero(f, v)
    decreases f, 0
  {
    if v.Msg? {
      LeftOutIsDefault(f.sub, v.cells);
      AllDefaultIs(f.sub, v.cells, 0);
    }
  }

  lemma {:induction false} LeftOutIsDefault(fields: seq<Field>, cells: seq<Cell>)
    requires StoredCells(fields, cells)
    ensures forall i | 0 <= i < |fields| ::
      SlotOf(fields, i) < |cells| && (LeftOut(fields[i], cells[SlotOf(fields, i)]) <==> IsDefault(fields[i], cells[SlotOf(fields, i)]))
    decreases fields, 1
  {
    hide SlotOf, IsZero, Nothing, StoredValue;
    forall i | 0 <= i < |fields|
      ensures SlotOf(fields, i) < |cells| && (LeftOut(fields[i], cells[SlotOf(fields, i)]) <==> IsDefault(fields[i], cells[SlotOf(fields, i)]))
    {
      var f, c := fields[i], cells[SlotOf(fields, i)];
      if f.htype.Optional? && !f.HasSize() { NothingIsZero(f, c.v); }
    }
  }

  lemma {:induction false} AllDefaultIs(fields: seq<Field>, cells: seq<Cell>, i: nat)
    requires i <= |fields|
    ensures AllDefault(fields, cells, i) <==>
      forall j | i <= j < |fields| :: SlotOf(fields, j) < |cells| && IsDefault(fields[j], cells[SlotOf(fields, j)])
    decreases |fields| - i
  {
    hide SlotOf, IsDefault;
    if i < |fields| {
      AllDefaultIs(fields, cells, i + 1);
      assert AllDefault(fields, cells, i) <==>
        SlotOf(fields, i) < |cells| && IsDefault(fields[i], cells[SlotOf(fields, i)]) && AllDefault(fields, cells, i + 1);
    }
  }

  lemma {:induction false} ArraySent(f: Field, c: Cell)
    requires f.htype.Repeated? && StoredCell(f, c) && EncField(f, c).Out? && |EncField(f, c).bytes| < TWO64
    ensures var r := ReadRecords(EncField(f, c).bytes); r.Some? && FieldSends(f, c, r.value)
    decreases f, 3
  {
    hide ReadRecords, ReadPayloads, EncItems, EncTaggedItems, Carries, CarriesAll, StoredValue, LengthPrefixed, EncTag, WireType;
    var items := c.items[..SendCount(f, c)];
    assert EncField(f, c) == EncArray(f, items);
    NoRecords();
    if items == [] {
    } else if Packable(f.ltype) {
      PackedSent(f, items);
    } else {
      TaggedItemsSent(f, items);
      assert forall k | 0 <= k < |items| :: items[k] == c.items[k];
    }
  }

  lemma {:induction false} PackedSent(f: Field, items: seq<Value>)
    requires Packable(f.ltype) && 0 < |items| && forall k | 0 <= k < |items| :: StoredValue(f, items[k])
    requires EncArray(f, items).Out? && |EncArray(f, items).bytes| < TWO64
    ensures var r := ReadRecords(EncArray(f, items).bytes);
      && r.Some? && |r.value| == 1 && r.value[0].number == f.tag && r.value[0].payload.Delimited?
      && var ps := ReadPayloads(WireType(f.ltype), r.value[0].payload.b); ps.Some? && CarriesAll(f, items, ps.value)
    decreases f, 2, |items| + 1
  {
    hide ReadRecords, ReadPayload, ReadPayloads, EncItems, CarriesAll, StoredValue, WireType;
    var e := EncItems(f, items).bytes;
    assert EncArray(f, items).bytes == EncTag(2, f.tag) + LengthPrefixed(e);
    ItemsSent(f, items);
    DelimitedSent(e);
    RecordSent(2, f.tag, LengthPrefixed(e));
  }

  lemma {:induction false} FieldSent(f: Field, c: Cell)
    requires StoredCell(f, c) && EncField(f, c).Out? && |EncField(f, c).bytes| < TWO64
    ensures var r := ReadRecords(EncField(f, c).bytes); r.Some? && FieldSends(f, c, r.value)
    decreases f, 4
  {
    hide ReadRecords, EncTagged, Carries, StoredValue, Nothing, IsZero, OneRecord;
    NoRecords();
    if f.htype.Repeated? {
      ArraySent(f, c);
    } else if f.htype.Optional? && !f.HasSize() {
      NothingIsZero(f, c.v);
      if !IsZero(f, c.v) { TaggedSent(f, c.v); }
    } else if EncField(f, c) == EncTagged(f, c.v) && (f.htype.Required? || (f.htype.Optional? && c.has) || (f.htype.OneOf? && c.which == f.tag)) {
      TaggedSent(f, c.v);
    }
  }

  lemma {:induction false} FieldsSent(fields: seq<Field>, cells: seq<Cell>, i: nat)
    requires i <= |fields| && StoredCells(fields, cells)
    requires EncFields(fields, cells, i).Out? && |EncFields(fields, cells, i).bytes| < TWO64
    ensures var r := ReadRecords(EncFields(fields, cells, i).bytes); r.Some? && Sends(fields, cells, i, r.value)
    decreases fields, |fields| - i
  {
    hide ReadRecords, EncField, FieldSends, SlotOf, StoredCell;
    if i == |fields| {
      NoRecords();
    } else {
      var c := cells[SlotOf(fields, i)];
      FieldSent(fields[i], c);
      FieldsSent(fields, cells, i + 1);
      var a := ReadRecords(EncField(fields[i], c).bytes).value;
      var b := ReadRecords(EncFields(fields, cells, i + 1).bytes).value;
      RecordsCat(EncField(fields[i], c).bytes, EncFields(fields, cells, i + 1).bytes);
      assert (a + b)[..|a|] == a && (a + b)[|a|..] == b;
    }
  }

  /** Whatever a struct holds: if it is encoded, the guide's reader finds exactly the records
      of its fields in the bytes, with their numbers, their wire types and their data. */
  lemma EncodingFollowsTheGuide(fields: seq<Field>, cells: seq<Cell>)
    requires StoredCells(fields, cells) && Encode(fields, cells).Out? && |Encode(fields, cells).bytes| < TWO64
    ensures var r := ReadRecords(Encode(fields, cells).bytes); r.Some? && Sends(fields, cells, 0, r.value)
  {
    hide ReadRecords, EncFields, Sends, StoredCells;
    FieldsSent(fields, cells, 0);
  }

  // ---------- When there is an encoding ----------

  /** What can be sent: integers of 1, 2, 4 or 8 bytes, and bytes that leave room in their
      buffer for their size of four bytes. */
  predicate Sendable(f: Field, v: Value)
    decreases f, 0
  {
    match v
    case Num(_) =>
      (f.ltype.LVarint? || f.ltype.LUVarint? || f.ltype.LSVarint?) ==>
        f.dataSize == 1 || f.dataSize == 2 || f.dataSize == 4 || f.dataSize == 8
    case Blob(b) => f.ltype.LBytes? ==> |b| + 4 <= f.dataSize
    case Msg(cells) =>
      forall i | 0 <= i < |f.sub| && SlotOf(f.sub, i) < |cells| :: SendableCell(f.sub[i], cells[SlotOf(f.sub, i)])
  }

  /** Whatever of the field is to be sent can be, and an array counts no more entries than
      it has room for. */
  predicate SendableCell(f: Field, c: Cell)
    decreases f, 1
  {
    match f.htype
    case Required => c.Single? ==> Sendable(f, c.v)
    case Optional =>
      if f.HasSize() then c.Opt? && c.has ==> Sendable(f, c.v) else c.Single? ==> Nothing(f, c.v) || Sendable(f, c.v)
    case Repeated =>
      c.Arr? ==>
        var n := if f.HasSize() then c.count else f.arraySize;
        n <= f.arraySize && forall k | 0 <= k < n && k < |c.items| :: Sendable(f, c.items[k])
    case OneOf => c.Union? && c.which == f.tag ==> Sendable(f, c.v)
  }

  lemma {:induction false} ValueEncodes(f: Field, v: Value)
    requires StoredValue(f, v)
    ensures EncValue(f, v).Out? <==> Sendable(f, v)
    decreases f, 0
  {
    match v
    case Num(_) => hide EncVarint, EncFixed;
    case Blob(_) => hide EncVarint;
    case Msg(cells) =>
      hide EncVarint;
      FieldsEncode(f.sub, cells, 0);
  }

  lemma {:induction false} ItemsEncode(f: Field, items: seq<Value>)
    requires forall k | 0 <= k < |items| :: StoredValue(f, items[k])
    ensures EncItems(f, items).Out? <==> forall k | 0 <= k < |items| :: Sendable(f, items[k])
    ensures EncTaggedItems(f, items).Out? <==> forall k | 0 <= k < |items| :: Sendable(f, items[k])
    decreases f, 2, |items|
  {
    hide EncValue, Sendable, StoredValue;
    if items == [] {
      NoItems(f);
    } else {
      var more := items[1..];
      SplitItems(f, items);
      ValueEncodes(f, items[0]);
      ItemsEncode(f, more);
      assert forall k | 0 <= k < |more| :: more[k] == items[k + 1];
      assert (forall k | 0 <= k < |items| :: Sendable(f, items[k])) <==>
        Sendable(f, items[0]) && forall k | 0 <= k < |more| :: Sendable(f, more[k]) by {
        if Sendable(f, items[0]) && forall k | 0 <= k < |more| :: Sendable(f, more[k]) {
          forall k | 0 <= k < |items| ensures Sendable(f, items[k]) {
            if k > 0 { assert Sendable(f, more[k - 1]); }
          }
        }
      }
    }
  }

  lemma {:induction false} FieldEncodes(f: Field, c: Cell)
    requires StoredCell(f, c)
    ensures EncField(f, c).Out? <==> SendableCell(f, c)
    decreases f, 4
  {
    hide EncValue, EncItems, EncTaggedItems, Sendable, StoredValue, Nothing, IsZero, FieldTag, EncTag, LengthPrefixed;
    match f.htype
    case Required => ValueEncodes(f, c.v);
    case Optional =>
      if !f.HasSize() { NothingIsZero(f, c.v); }
      if !f.HasSize() || c.has { ValueEncodes(f, c.v); }
    case Repeated => ArrayEncodes(f, c);
    case OneOf => if c.which == f.tag { ValueEncodes(f, c.v); }
  }

  lemma {:induction false} ArrayEncodes(f: Field, c: Cell)
    requires f.htype.Repeated? && StoredCell(f, c)
    ensures EncField(f, c).Out? <==> SendableCell(f, c)
    decreases f, 3
  {
    hide EncValue, EncItems, EncTaggedItems, Sendable, StoredValue, EncTag, LengthPrefixed;
    var n := SendCount(f, c);
    if n <= f.arraySize {
      var items := c.items[..n];
      assert forall k | 0 <= k < n :: items[k] == c.items[k];
      ItemsEncode(f, items);
      assert EncField(f, c) == EncArray(f, items);
      NoItems(f);
    }
  }

  lemma {:induction false} FieldsEncode(fields: seq<Field>, cells: seq<Cell>, i: nat)
    requires i <= |fields| && StoredCells(fields, cells)
    ensures EncFields(fields, cells, i).Out? <==>
      forall j | i <= j < |fields| && SlotOf(fields, j) < |cells| :: SendableCell(fields[j], cells[SlotOf(fields, j)])
    decreases fields, |fields| - i
  {
    hide EncField, SendableCell, SlotOf, StoredCell;
    if i < |fields| {
      FieldsEncode(fields, cells, i + 1);
      FieldEncodes(fields[i], cells[SlotOf(fields, i)]);
    }
  }

  /** What a struct holds is encoded if and only if all that is to be sent of it can be. */
  lemma EncodesExactly(fields: seq<Field>, cells: seq<Cell>)
    requires StoredCells(fields, cells)
    ensures Encode(fields, cells).Out? <==>
      forall i | 0 <= i < |fields| && SlotOf(fields, i) < |cells| :: SendableCell(fields[i], cells[SlotOf(fields, i)])
  {
    hide EncFields, SendableCell, StoredCells, SlotOf;
    FieldsEncode(fields, cells, 0);
  }
}

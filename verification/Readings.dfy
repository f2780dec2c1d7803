/** What the decoder makes of any bytes, in the numbers of the Encoding guide: which data it
    accepts for a field, and what it reads. */
module Readings {
  import opened Bits
  import opened Parse
  import opened Varint
  import opened Descriptor
  import opened EncodeSpec
  import opened DecodeSpec
  import opened WireFormat

  // ---------- Varints ----------

  lemma {:induction false} RawIsBase128(s: seq<Byte>, k: nat)
    requires k <= 10
    ensures var g := ReadBase128(s); RawVarint(s, k) == if g.Ok? && k + |s| - |g.rest| <= 10 then g else Fail
    decreases |s|
  {
    if s != [] && s[0] >= 128 && k < 10 {
      RawIsBase128(s[1..], k + 1);
    }
  }

  /** The 64-bit reader accepts exactly the varints of at most ten bytes, and returns their
      value modulo 2^64. */
  lemma VarintReads(s: seq<Byte>)
    ensures DecVarint(s) == if Short(s) then Ok(Number(s) % 0x1_0000_0000_0000_0000, Behind(s)) else Fail
  {
    hide ReadBase128, RawVarint;
    RawIsBase128(s, 0);
  }

  /** A varint of at most ten bytes is at the front of `s`. */
  predicate Short(s: seq<Byte>) {
    ReadBase128(s).Ok? && |s| - |ReadBase128(s).rest| <= 10
  }

  function Number(s: seq<Byte>): nat
    requires Short(s)
  {
    ReadBase128(s).val
  }

  function Behind(s: seq<Byte>): seq<Byte>
    requires Short(s)
  {
    ReadBase128(s).rest
  }

  /** The 32-bit reader reads every varint below 2^32, whatever it is padded with. */
  lemma SmallVarintReads(s: seq<Byte>)
    requires Short(s) && Number(s) < 0x1_0000_0000
    ensures DecVarint32(s) == Ok(Number(s), Behind(s))
  {
    hide Or32, Pow2;
    RawIsBase128(s, 0);
    if s[0] >= 128 {
      ShiftValues(1);
      LowReads(s[1..], s[0] - 128, 1);
    }
  }

  lemma {:induction false} LowReads(s: seq<Byte>, result: nat, k: nat)
    requires Below(result, k) && RawVarint(s, k).Ok? && result + Shift(RawVarint(s, k).val, k) < TWO32
    ensures Var32Loop(s, result, 7 * k) == Ok(result + Shift(RawVarint(s, k).val, k), RawVarint(s, k).rest)
    decreases |s|
  {
    hide Or32, Pow2, Shift, Var32Loop;
    var chunk := s[0] % 128;
    Var32LowStep(s, result, k);
    if k == 4 { ShiftValues(chunk); }
    if s[0] >= 128 {
      var w := RawVarint(s[1..], k + 1).val;
      ShiftSum(chunk, w, k);
      if k == 4 {
        ShiftValues(w);
        PaddingReads(s[1..], result + Shift(chunk, 4), 5);
      } else {
        LowReads(s[1..], result + Shift(chunk, k), k + 1);
      }
    }
  }

  lemma {:induction false} PaddingReads(s: seq<Byte>, result: nat, k: nat)
    requires 5 <= k <= 10 && result < TWO32 && RawVarint(s, k).Ok? && RawVarint(s, k).val == 0
    ensures Var32Loop(s, result, 7 * k) == Ok(result, RawVarint(s, k).rest)
    decreases |s|
  {
    hide Or32;
    if s[0] >= 128 {
      assert (7 * k + 7) % 256 == 7 * (k + 1);
      PaddingReads(s[1..], result, k + 1);
    }
  }

  // ---------- Numbers ----------

  /** The integer from -2^31 up to 2^31 that agrees with `u` modulo 2^32. */
  function AsInt32(u: nat): (n: int)
    ensures -0x8000_0000 <= n < 0x8000_0000 && (n - u) % 0x1_0000_0000 == 0
  {
    var low := u % 0x1_0000_0000;
    if low < 0x8000_0000 then low else low - 0x1_0000_0000
  }

  function AsInt64(u: nat): (n: int)
    ensures -0x8000_0000_0000_0000 <= n < 0x8000_0000_0000_0000 && (n - u) % 0x1_0000_0000_0000_0000 == 0
  {
    var low := u % 0x1_0000_0000_0000_0000;
    if low < 0x8000_0000_0000_0000 then low else low - 0x1_0000_0000_0000_0000
  }

  /** Zero, minus one, one, minus two, and so on. */
  function Unfold(u: nat): int {
    if u % 2 == 0 then u / 2 else -((u + 1) / 2)
  }

  /** `n` is held by a signed C integer of `size` bytes. */
  predicate FitsSigned(n: int, size: nat) {
    (size == 1 && -0x80 <= n < 0x80) || (size == 2 && -0x8000 <= n < 0x8000)
    || (size == 4 && -0x8000_0000 <= n < 0x8000_0000)
    || (size == 8 && -0x8000_0000_0000_0000 <= n < 0x8000_0000_0000_0000)
  }

  predicate FitsUnsigned(n: nat, size: nat) {
    (size == 1 && n < 0x100) || (size == 2 && n < 0x1_0000) || (size == 4 && n < 0x1_0000_0000)
    || (size == 8 && n < 0x1_0000_0000_0000_0000)
  }

  /** An integer field of 8 bytes takes the varint modulo 2^64; a narrower one takes it
      modulo 2^32, if that fits. */
  lemma VarintFieldReads(f: Field, s: seq<Byte>)
    requires f.ltype.LVarint?
    ensures DecScalar(f, s) ==
      if !Short(s) then Fail
      else
        var n := if f.dataSize == 8 then AsInt64(Number(s)) else AsInt32(Number(s));
        if FitsSigned(n, f.dataSize) then Ok(Num(n), Behind(s)) else Fail
  {
    hide DecVarint, Short, Number, Behind;
    VarintReads(s);
    if Short(s) {
      CutTwice(Number(s));
      FitsIsInSigned(AsInt32(Number(s)), f.dataSize);
      FitsIsInSigned(AsInt64(Number(s)), f.dataSize);
    }
  }

  lemma FitsIsInSigned(n: int, size: nat)
    ensures FitsSigned(n, size) <==> IntSize(size) && InSigned(n, Modulus(size))
  {
  }

  /** In 4 bytes every varint fits: the number is the varint modulo 2^32. */
  lemma Int32ReadsAll(f: Field, s: seq<Byte>)
    requires f.ltype.LVarint? && f.dataSize == 4
    ensures DecScalar(f, s).Ok? <==> Short(s)
    ensures Short(s) ==>
      DecScalar(f, s).val.Num? && DecScalar(f, s).rest == Behind(s)
      && (var n := DecScalar(f, s).val.n; -0x8000_0000 <= n < 0x8000_0000 && (n - Number(s)) % 0x1_0000_0000 == 0)
  {
    hide DecScalar, Short, Number, Behind;
    VarintFieldReads(f, s);
  }

  /** A negative number reads alike whether it was sent as a 32-bit or a 64-bit integer. */
  lemma NegativeReadsEitherWay(f: Field, n: int, t: seq<Byte>)
    requires f.ltype.LVarint? && f.dataSize <= 4 && FitsSigned(n, f.dataSize) && n < 0
    ensures DecScalar(f, EncVarint(n + 0x1_0000_0000) + t) == Ok(Num(n), t)
    ensures DecScalar(f, EncVarint(n + 0x1_0000_0000_0000_0000) + t) == Ok(Num(n), t)
  {
    hide DecScalar, EncVarint, ReadBase128;
    var u, w := n + 0x1_0000_0000, n + 0x1_0000_0000_0000_0000;
    EncVarintFits(u);
    EncVarintFits(w);
    Base128RoundTrip(u, t);
    Base128RoundTrip(w, t);
    VarintFieldReads(f, EncVarint(u) + t);
    VarintFieldReads(f, EncVarint(w) + t);
  }

  /** An unsigned field takes the varint modulo 2^64, if that fits. */
  lemma UnsignedFieldReads(f: Field, s: seq<Byte>)
    requires f.ltype.LUVarint?
    ensures DecScalar(f, s) ==
      if !Short(s) then Fail
      else
        var n := Number(s) % 0x1_0000_0000_0000_0000;
        if FitsUnsigned(n, f.dataSize) then Ok(Num(n), Behind(s)) else Fail
  {
    hide DecVarint;
    VarintReads(s);
    if Short(s) { hide Short, Number, Behind; }
  }

  /** A ZigZag field unfolds it, if the result fits. */
  lemma ZigZagFieldReads(f: Field, s: seq<Byte>)
    requires f.ltype.LSVarint?
    ensures DecScalar(f, s) ==
      if !Short(s) then Fail
      else
        var n := Unfold(Number(s) % 0x1_0000_0000_0000_0000);
        if FitsSigned(n, f.dataSize) then Ok(Num(n), Behind(s)) else Fail
  {
    hide DecVarint;
    VarintReads(s);
    if Short(s) { hide Short, Number, Behind; }
  }

  /** A bool is set by any number but zero. */
  lemma BoolReads(f: Field, s: seq<Byte>)
    requires f.ltype.LBool? && Short(s) && Number(s) < 0x1_0000_0000
    ensures DecScalar(f, s) == Ok(Num(if Number(s) == 0 then 0 else 1), Behind(s))
  {
    hide DecVarint32;
    SmallVarintReads(s);
  }

  /** A fixed-width field takes four or eight bytes, the least significant first. */
  lemma FixedFieldReads(f: Field, s: seq<Byte>)
    requires f.ltype.LFixed32? || f.ltype.LFixed64?
    ensures
      var n := if f.ltype.LFixed32? then 4 else 8;
      && (DecScalar(f, s).Ok? <==> |s| >= n)
      && (|s| >= n ==>
        DecScalar(f, s).val.Num? && 0 <= DecScalar(f, s).val.n && DecScalar(f, s).rest == s[n..]
        && LittleEndian(s[..n], DecScalar(f, s).val.n))
  {
    hide FixedValue;
    var n := if f.ltype.LFixed32? then 4 else 8;
    if |s| >= n { ValueIsLittleEndian(s[..n]); }
  }

  lemma {:induction false} ValueIsLittleEndian(b: seq<Byte>)
    ensures LittleEndian(b, FixedValue(b))
  {
    if b != [] {
      var v := FixedValue(b);
      ValueIsLittleEndian(b[1..]);
      assert v / 256 == FixedValue(b[1..]) && v % 256 == b[0];
      forall i | 0 <= i < |b| ensures b[i] == v / Power256(i) % 256 {
        if i > 0 {
          assert b[i] == b[1..][i - 1];
          DivTwice(v, Power256(i - 1));
        }
      }
    }
  }

  // ---------- Length-delimited data ----------

  /** A length below 2^32 in at most ten bytes, and as many bytes. */
  lemma PrefixedReads(s: seq<Byte>)
    requires Short(s) && Number(s) < 0x1_0000_0000
    ensures TakePrefixed(s) ==
      if Number(s) <= |Behind(s)| then Ok(Behind(s)[..Number(s)], Behind(s)[Number(s)..]) else Fail
  {
    hide DecVarint32;
    SmallVarintReads(s);
  }

  /** Bytes must leave room for their size of four bytes, a string for its NUL, and data of
      fixed length be of that length; or there may be none, which stand for zeros. */
  predicate Fits(f: Field, n: nat) {
    || (f.ltype.LBytes? && n + 4 <= f.dataSize)
    || (f.ltype.LString? && n < f.dataSize)
    || (f.ltype.LFixedLength? && (n == f.dataSize || n == 0))
  }

  lemma BlobReads(f: Field, s: seq<Byte>)
    requires Short(s) && Number(s) < 0x1_0000_0000
    ensures
      var n := Number(s);
      && (DecBlob(f, s).Ok? <==> Fits(f, n) && (n <= |Behind(s)|))
      && (DecBlob(f, s).Ok? ==>
        DecBlob(f, s) ==
          if f.ltype.LFixedLength? && n == 0 then Ok(Blob(seq(f.dataSize, _ => 0)), Behind(s))
          else Ok(Blob(Behind(s)[..n]), Behind(s)[n..]))
  {
    hide DecVarint32, Short, Number, Behind;
    SmallVarintReads(s);
    assert Zeroes(f.dataSize) == seq(f.dataSize, _ => 0);
  }

  // ---------- Skipping ----------

  lemma {:induction false} SkipVarintIsBase128(s: seq<Byte>)
    ensures SkipVarint(s).Ok? <==> ReadBase128(s).Ok?
    ensures SkipVarint(s).Ok? ==> SkipVarint(s).rest == ReadBase128(s).rest
  {
    if s != [] && s[0] >= 128 { SkipVarintIsBase128(s[1..]); }
  }

  /** What is skipped is one payload as the guide has it: of any wire type, provided that the
      length of delimited data is below 2^32 and written in at most ten bytes. */
  lemma SkippedIsOnePayload(wireType: nat, s: seq<Byte>)
    requires wireType == 2 ==> Short(s) && Number(s) < 0x1_0000_0000
    ensures SkipField(wireType, s).Ok? <==> ReadPayload(wireType, s).Ok?
    ensures SkipField(wireType, s).Ok? ==> SkipField(wireType, s).rest == ReadPayload(wireType, s).rest
  {
    hide ReadBase128, SkipVarint, TakePrefixed;
    if wireType == 0 {
      SkipVarintIsBase128(s);
    } else if wireType == 2 {
      PrefixedReads(s);
    }
  }

  // ---------- Array entries ----------

  /** An entry that comes in a record of its own takes the place behind those that have
      arrived, and no other; in a full array there is none. */
  lemma EntryTakesItsPlace(f: Field, c: Cell, size: nat, wireType: nat, s: seq<Byte>)
    requires f.htype.Repeated? && c.Arr? && (wireType != 2 || !Packable(f.ltype))
    requires (if f.HasSize() then c.count else size) <= |c.items|
    ensures
      var at := if f.HasSize() then c.count else size;
      var entry := DecValue(f, Num(0), s);
      var p := DecField(f, c, size, wireType, s);
      && (p.Ok? <==> at < f.arraySize && entry.Ok?)
      && (p.Ok? ==>
        && p.rest == entry.rest && p.val.1 == (if f.HasSize() then size else size + 1)
        && p.val.0.Arr? && p.val.0.count == (if f.HasSize() then c.count + 1 else c.count)
        && (var items := p.val.0.items;
            && |items| == (if at < |c.items| then |c.items| else at + 1) && items[at] == entry.val
            && forall k | 0 <= k < |items| && k != at :: items[k] == c.items[k]))
  {
    hide DecValue, Packable;
    var at := if f.HasSize() then c.count else size;
    assert DecArray(f, c.items, at, wireType, s) ==
      if at >= f.arraySize || DecValue(f, Num(0), s).Fail? then Fail
      else Ok((Put(c.items, at, DecValue(f, Num(0), s).val), at + 1), DecValue(f, Num(0), s).rest);
  }
}

/** Base-128 varints, ZigZag and little-endian integers: what the integer codecs compute.
    The loops that compute them are in `Encoder` and `Decoder`. */
module Varint {
  import opened Bits
  import opened Parse

  // ---------- Base 128 ----------

  /** Seven bits a byte, least significant first, top bit set on all but the last. */
  function EncVarint(v: nat): (s: seq<Byte>)
    ensures |s| >= 1
  {
    if v < 128 then [v] else [v % 128 + 128] + EncVarint(v / 128)
  }

  /** The groups of a varint summed without truncation; `k` groups precede `s`.
      An eleventh byte is refused. */
  function RawVarint(s: seq<Byte>, k: nat): (p: Parse<nat>)
    ensures p.Ok? ==> |p.rest| < |s| && SuffixOf(p.rest, s)
    decreases |s|
  {
    if k >= 10 || s == [] then Fail
    else if s[0] < 128 then Ok(s[0], s[1..])
    else
      match RawVarint(s[1..], k + 1)
      case Fail => Fail
      case Ok(v, r) => Ok(s[0] - 128 + 128 * v, r)
  }

  function DecVarint(s: seq<Byte>): (p: Parse<nat>)
    ensures p.Ok? ==> |p.rest| < |s| && SuffixOf(p.rest, s) && p.val < TWO64
  {
    match RawVarint(s, 0)
    case Fail => Fail
    case Ok(v, r) => Ok(v % TWO64, r)
  }

  lemma {:induction false} RawVarintLocal(s: seq<Byte>, t: seq<Byte>, k: nat)
    requires RawVarint(s, k).Ok?
    ensures RawVarint(s + t, k) == RawVarint(s, k).Then(t)
    decreases |s|
  {
    assert (s + t)[0] == s[0];
    if s[0] < 128 {
      assert (s + t)[1..] == s[1..] + t;
    } else {
      assert (s + t)[1..] == s[1..] + t;
      RawVarintLocal(s[1..], t, k + 1);
    }
  }

  lemma DecVarintLocal(s: seq<Byte>, t: seq<Byte>)
    requires DecVarint(s).Ok?
    ensures DecVarint(s + t) == DecVarint(s).Then(t)
  {
    RawVarintLocal(s, t, 0);
  }

  lemma {:induction false} EncVarintLength(v: nat, n: nat)
    requires n >= 1 && v < Pow2(7 * n)
    ensures |EncVarint(v)| <= n
    decreases v
  {
    if v >= 128 {
      if n == 1 {
        PowValues();
        assert false;
      } else {
        PowValues();
        PowAdd(7, 7 * (n - 1));
        assert 7 + 7 * (n - 1) == 7 * n;
        EncVarintLength(v / 128, n - 1);
      }
    }
  }

  /** A 64-bit value needs at most the ten bytes of the encoder's buffer. */
  lemma EncVarintFits(v: nat)
    requires v < TWO64
    ensures |EncVarint(v)| <= 10
  {
    PowValues();
    PowAdd(64, 6);
    EncVarintLength(v, 10);
  }

  lemma {:induction false} RawRoundTrip(v: nat, t: seq<Byte>, k: nat)
    requires k + |EncVarint(v)| <= 10
    ensures RawVarint(EncVarint(v) + t, k) == Ok(v, t)
    decreases v
  {
    var s := EncVarint(v) + t;
    if v < 128 {
      assert s[1..] == t;
    } else {
      assert s[1..] == EncVarint(v / 128) + t;
      RawRoundTrip(v / 128, t, k + 1);
    }
  }

  lemma VarintRoundTrip(v: nat, t: seq<Byte>)
    requires v < TWO64
    ensures DecVarint(EncVarint(v) + t) == Ok(v, t)
  {
    hide EncVarint, RawVarint;
    EncVarintFits(v);
    RawRoundTrip(v, t, 0);
  }

  lemma {:induction false} RawMinimal(s: seq<Byte>, k: nat)
    requires RawVarint(s, k).Ok?
    ensures |EncVarint(RawVarint(s, k).val)| <= |s| - |RawVarint(s, k).rest|
    decreases |s|
  {
    if s[0] >= 128 {
      RawMinimal(s[1..], k + 1);
    }
  }

  /** No byte string decodes to `v` with fewer bytes than the encoder emits for `v`. */
  lemma EncVarintMinimal(s: seq<Byte>)
    requires DecVarint(s).Ok?
    ensures |EncVarint(DecVarint(s).val)| <= |s| - |DecVarint(s).rest|
  {
    RawMinimal(s, 0);
    EncVarintMonotone(RawVarint(s, 0).val % TWO64, RawVarint(s, 0).val);
  }

  lemma {:induction false} EncVarintMonotone(v: nat, w: nat)
    requires v <= w
    ensures |EncVarint(v)| <= |EncVarint(w)|
  {
    if v >= 128 {
      EncVarintMonotone(v / 128, w / 128);
    }
  }

  // ---------- The 32-bit reader ----------

  /** The reader of 32-bit varints, from its second byte on: bits that do not fit are
      accepted only as padding or sign extension. The bit position is an 8-bit counter. */
  function Var32Loop(s: seq<Byte>, result: nat, bitpos: nat): (p: Parse<nat>)
    requires result < TWO32
    ensures p.Ok? ==> |p.rest| < |s| && SuffixOf(p.rest, s)
    decreases |s|
  {
    if s == [] then Fail
    else
      var byte := s[0];
      var next := (bitpos + 7) % 256;
      if bitpos >= 32 && byte % 128 != 0 && (result < TWO31 || byte != SignByte(bitpos)) then Fail
      else
        var result' := if bitpos >= 32 then result else Or32(result, byte % 128, bitpos);
        if byte >= 128 then Var32Loop(s[1..], result', next)
        else if next == 35 && byte >= 16 then Fail
        else Ok(result', s[1..])
  }

  function SignByte(bitpos: nat): Byte {
    if bitpos < 63 then 255 else 1
  }

  /** Or-s seven shifted bits into a 32-bit accumulator; bits shifted past it are lost. */
  function Or32(result: nat, chunk: nat, bitpos: nat): (r: nat)
    ensures r < TWO32
  {
    BitOr(result, chunk * Pow2(bitpos) % TWO32) % TWO32
  }

  function DecVarint32(s: seq<Byte>): (p: Parse<nat>)
    ensures p.Ok? ==> |p.rest| < |s| && SuffixOf(p.rest, s) && p.val < TWO32
  {
    if s == [] then Fail
    else if s[0] < 128 then Ok(s[0], s[1..])
    else
      Var32Bound(s[1..], s[0] - 128, 7);
      Var32Loop(s[1..], s[0] - 128, 7)
  }

  lemma {:induction false} Var32Bound(s: seq<Byte>, result: nat, bitpos: nat)
    requires result < TWO32
    ensures var p := Var32Loop(s, result, bitpos); p.Ok? ==> p.val < TWO32
    decreases |s|
  {
    hide Or32, Pow2;
    if s != [] {
      Var32Bound(s[1..], if bitpos >= 32 then result else Or32(result, s[0] % 128, bitpos), (bitpos + 7) % 256);
    }
  }

  lemma {:induction false} Var32Local(s: seq<Byte>, t: seq<Byte>, result: nat, bitpos: nat)
    requires result < TWO32 && Var32Loop(s, result, bitpos).Ok?
    ensures Var32Loop(s + t, result, bitpos) == Var32Loop(s, result, bitpos).Then(t)
    decreases |s|
  {
    hide Or32, Pow2;
    assert (s + t)[0] == s[0];
    assert (s + t)[1..] == s[1..] + t;
    if s[0] >= 128 {
      Var32Local(s[1..], t, if bitpos >= 32 then result else Or32(result, s[0] % 128, bitpos), (bitpos + 7) % 256);
    }
  }

  lemma DecVarint32Local(s: seq<Byte>, t: seq<Byte>)
    requires DecVarint32(s).Ok?
    ensures DecVarint32(s + t) == DecVarint32(s).Then(t)
  {
    hide Or32, Pow2;
    assert (s + t)[0] == s[0];
    assert (s + t)[1..] == s[1..] + t;
    if s[0] >= 128 {
      Var32Local(s[1..], t, s[0] - 128, 7);
    }
  }

  /** `w` moved up by `k` groups. */
  function Shift(w: nat, k: nat): nat {
    if k == 0 then w else 128 * Shift(w, k - 1)
  }

  lemma ShiftValues(w: nat)
    ensures Shift(w, 1) == 0x80 * w && Shift(w, 2) == 0x4000 * w && Shift(w, 3) == 0x20_0000 * w
    ensures Shift(w, 4) == 0x1000_0000 * w && Shift(w, 5) == 0x8_0000_0000 * w
  {
    assert Shift(w, 1) == 128 * Shift(w, 0);
    assert Shift(w, 2) == 128 * Shift(w, 1);
    assert Shift(w, 3) == 128 * Shift(w, 2);
    assert Shift(w, 4) == 128 * Shift(w, 3);
    assert Shift(w, 5) == 128 * Shift(w, 4);
  }

  lemma {:induction false} ShiftSum(a: nat, w: nat, k: nat)
    ensures Shift(a + 128 * w, k) == Shift(a, k) + Shift(w, k + 1)
  {
    if k > 0 { ShiftSum(a, w, k - 1); }
  }

  /** `result` has only bits below group `k`, and group `k` touches the low 32 bits. */
  predicate Below(result: nat, k: nat) {
    1 <= k <= 4 && result < Shift(1, k) && result < TWO32
  }

  lemma {:induction false} ShiftIsPow2(w: nat, k: nat)
    ensures Shift(w, k) == w * Pow2(7 * k)
  {
    if k > 0 {
      hide Pow2;
      ShiftIsPow2(w, k - 1);
      var p := Pow2(7 * (k - 1));
      assert Pow2(7) == 128 by { PowValues(); }
      assert Pow2(7 * k) == 128 * p by {
        PowAdd(7, 7 * (k - 1));
        assert 7 + 7 * (k - 1) == 7 * k;
      }
      Times128(w, p);
    } else {
      assert Pow2(0) == 1;
    }
  }

  lemma Times128(w: nat, p: nat)
    ensures w * (128 * p) == 128 * (w * p)
  {
  }

  /** Below bit 32 the or adds the chunk, cut to 32 bits. */
  lemma Or32Adds(result: nat, chunk: nat, k: nat)
    requires Below(result, k) && chunk < 128
    ensures Or32(result, chunk, 7 * k) == (result + Shift(chunk, k)) % TWO32
  {
    hide Shift, Pow2, BitOr;
    var c := if k == 4 then chunk % 16 else chunk;
    CutChunk(result, chunk, c, k);
    ShiftIsPow2(1, k);
    ShiftIsPow2(c, k);
    ShiftIsPow2(chunk, k);
    OrAboveIsAdd(result, c, 7 * k);
  }

  lemma CutChunk(result: nat, chunk: nat, c: nat, k: nat)
    requires Below(result, k) && chunk < 128 && c == if k == 4 then chunk % 16 else chunk
    ensures Shift(chunk, k) % TWO32 == Shift(c, k)
    ensures (result + Shift(chunk, k)) % TWO32 == result + Shift(c, k) < TWO32
    ensures k < 4 ==> result + Shift(c, k) < Shift(1, k + 1)
  {
    hide Shift;
    ShiftValues(1);
    ShiftValues(chunk);
    ShiftValues(c);
    if k == 4 {
      CutSum(Shift(c, 4), chunk / 16);
      CutSum(result + Shift(c, 4), chunk / 16);
    }
  }

  /** One turn of the reader's loop on a group that touches the low 32 bits. */
  lemma Var32LowStep(s: seq<Byte>, result: nat, k: nat)
    requires Below(result, k) && s != []
    ensures var r := (result + Shift(s[0] % 128, k)) % TWO32;
      && Var32Loop(s, result, 7 * k)
         == (if s[0] >= 128 then Var32Loop(s[1..], r, 7 * (k + 1))
             else if k == 4 && s[0] >= 16 then Fail
             else Ok(r, s[1..]))
      && (k < 4 ==> Below(r, k + 1) && r == result + Shift(s[0] % 128, k))
  {
    hide Or32, Pow2;
    var chunk := s[0] % 128;
    Or32Adds(result, chunk, k);
    assert (7 * k + 7) % 256 == 7 * (k + 1);
    CutChunk(result, chunk, if k == 4 then chunk % 16 else chunk, k);
  }

  lemma CutTwice(x: nat)
    ensures x % TWO64 % TWO32 == x % TWO32
  {
    var q := x / TWO64;
    assert x == TWO32 * (TWO32 * q) + x % TWO64;
  }

  lemma CutSum(x: nat, q: nat)
    ensures (x + TWO32 * q) % TWO32 == x % TWO32
  {
  }

  /** Whenever the 32-bit reader accepts a varint of at most ten bytes, it returns what
      the 64-bit reader returns, cut to 32 bits, and stops at the same byte. */
  lemma Varint32AgreesWith64(s: seq<Byte>)
    requires DecVarint32(s).Ok? && |s| - |DecVarint32(s).rest| <= 10
    ensures DecVarint(s).Ok?
    ensures DecVarint32(s).rest == DecVarint(s).rest
    ensures DecVarint32(s).val == DecVarint(s).val % TWO32
  {
    hide Or32, Pow2;
    if s[0] >= 128 {
      ShiftValues(1);
      Var32AgreesLow(s[1..], s[0] - 128, 1);
      CutTwice(RawVarint(s, 0).val);
    }
  }

  lemma DropHigh(result: nat, chunk: nat, w: nat)
    ensures (result + Shift(chunk + 128 * w, 4)) % TWO32 == (result + Shift(chunk, 4)) % TWO32
  {
    ShiftSum(chunk, w, 4);
    ShiftValues(w);
    CutSum(result + Shift(chunk, 4), 8 * w);
  }

  lemma {:induction false} Var32AgreesLow(s: seq<Byte>, result: nat, k: nat)
    requires Below(result, k)
    requires Var32Loop(s, result, 7 * k).Ok? && k + |s| - |Var32Loop(s, result, 7 * k).rest| <= 10
    ensures RawVarint(s, k).Ok? && RawVarint(s, k).rest == Var32Loop(s, result, 7 * k).rest
    ensures Var32Loop(s, result, 7 * k).val == (result + Shift(RawVarint(s, k).val, k)) % TWO32
    decreases |s|
  {
    hide Or32, Pow2, Shift;
    var chunk := s[0] % 128;
    var r := (result + Shift(chunk, k)) % TWO32;
    Var32LowStep(s, result, k);
    if s[0] >= 128 {
      if k == 4 {
        Var32AgreesHigh(s[1..], r, 5);
        DropHigh(result, chunk, RawVarint(s[1..], 5).val);
      } else {
        Var32AgreesLow(s[1..], r, k + 1);
        ShiftSum(chunk, RawVarint(s[1..], k + 1).val, k);
      }
    }
  }

  lemma {:induction false} Var32AgreesHigh(s: seq<Byte>, result: nat, k: nat)
    requires 5 <= k <= 10 && result < TWO32
    requires Var32Loop(s, result, 7 * k).Ok? && k + |s| - |Var32Loop(s, result, 7 * k).rest| <= 10
    ensures RawVarint(s, k).Ok? && RawVarint(s, k).rest == Var32Loop(s, result, 7 * k).rest
    ensures Var32Loop(s, result, 7 * k).val == result
    decreases |s|
  {
    hide Or32;
    if s[0] >= 128 {
      assert (7 * k + 7) % 256 == 7 * (k + 1);
      Var32AgreesHigh(s[1..], result, k + 1);
    }
  }

  /** What the 32-bit reader accepts of the high groups `w` of a canonical varint whose
      group number `k` comes next: groups of zeros, or of ones below a set sign bit. */
  predicate PaddingOnly(w: nat, k: nat, signBit: bool) {
    if w < 128 then signBit && w == 1 && k == 9
    else (w % 128 == 0 || (signBit && k < 9 && w % 128 == 127)) && PaddingOnly(w / 128, k + 1, signBit)
  }

  /** The bits of `v` from position 35 up, and whether bit 31 is set. */
  function HighBits(v: nat): nat { v / 0x8_0000_0000 }
  predicate SignBit(v: nat) { v / TWO31 % 2 == 1 }

  /** The 64-bit values whose canonical varint the 32-bit reader accepts: those below
      2^32, and those whose high groups are padding for a set bit 31. */
  predicate Accepted32(v: nat) {
    v < TWO32 || (HighBits(v) > 0 && PaddingOnly(HighBits(v), 5, SignBit(v)))
  }

  lemma Varint32AcceptsExactly(v: nat, t: seq<Byte>)
    requires v < TWO64
    ensures DecVarint32(EncVarint(v) + t) == if Accepted32(v) then Ok(v % TWO32, t) else Fail
  {
    hide Or32, Pow2;
    hide Accepted32, DecVarint32;
    if v < 128 {
      OneByteAccepted(v, t);
    } else {
      ManyBytes32(v, t);
      assert Below(v % 128, 1) && v == v % 128 + Shift(v / 128, 1) by {
        ShiftValues(1);
        ShiftValues(v / 128);
      }
      hide Var32Loop, EncVarint, Shift, Below;
      LowGroups(v, v / 128, t, v % 128, 1);
    }
  }

  lemma OneByteAccepted(v: nat, t: seq<Byte>)
    requires v < 128
    ensures DecVarint32(EncVarint(v) + t) == Ok(v, t) && Accepted32(v) && v % TWO32 == v
  {
    hide Var32Loop;
    assert (EncVarint(v) + t)[1..] == t;
  }

  lemma ManyBytes32(v: nat, t: seq<Byte>)
    requires v >= 128
    ensures DecVarint32(EncVarint(v) + t) == Var32Loop(EncVarint(v / 128) + t, v % 128, 7)
  {
    hide Var32Loop;
    assert (EncVarint(v) + t)[1..] == EncVarint(v / 128) + t;
  }

  lemma EncodedLowStep(w: nat, t: seq<Byte>, result: nat, k: nat)
    requires Below(result, k) && w > 0
    ensures var r := (result + Shift(w % 128, k)) % TWO32;
      && Var32Loop(EncVarint(w) + t, result, 7 * k)
         == (if w >= 128 then Var32Loop(EncVarint(w / 128) + t, r, 7 * (k + 1))
             else if k == 4 && w >= 16 then Fail
             else Ok(r, t))
      && (k < 4 ==> Below(r, k + 1) && r == result + Shift(w % 128, k))
  {
    hide Or32, Pow2, Shift, Var32Loop;
    var s := EncVarint(w) + t;
    assert s[0] == if w < 128 then w else w % 128 + 128;
    assert s[1..] == if w < 128 then t else EncVarint(w / 128) + t;
    Var32LowStep(s, result, k);
  }

  lemma {:induction false} LowGroups(v: nat, w: nat, t: seq<Byte>, result: nat, k: nat)
    requires Below(result, k) && w > 0 && v == result + Shift(w, k) < TWO64
    ensures Var32Loop(EncVarint(w) + t, result, 7 * k) == if Accepted32(v) then Ok(v % TWO32, t) else Fail
    decreases 5 - k
  {
    hide Or32, Pow2, Shift, Accepted32, EncVarint, Var32Loop;
    EncodedLowStep(w, t, result, k);
    if w < 128 {
      LastLowGroup(v, w, result, k);
    } else {
      ShiftSum(w % 128, w / 128, k);
      if k < 4 {
        LowGroups(v, w / 128, t, result + Shift(w % 128, k), k + 1);
      } else {
        LowPart(result, w % 128);
        LastToHigh(v, w / 128, t, result + Shift(w % 128, 4));
      }
    }
  }

  lemma LastToHigh(v: nat, w: nat, t: seq<Byte>, low: nat)
    requires v == low + Shift(w, 5) < TWO64 && w > 0 && low < 0x8_0000_0000
    ensures Var32Loop(EncVarint(w) + t, low % TWO32, 35) == if Accepted32(v) then Ok(v % TWO32, t) else Fail
  {
    hide Or32, Pow2, Shift, PaddingOnly, EncVarint, Var32Loop;
    SplitAt35(v, w, low);
    HighGroups(w, t, low % TWO32, 5, 0x2000_0000);
  }

  lemma LastLowGroup(v: nat, w: nat, result: nat, k: nat)
    requires Below(result, k) && 0 < w < 128 && v == result + Shift(w, k)
    ensures Accepted32(v) <==> k < 4 || w < 16
  {
    ShiftValues(1);
    ShiftValues(w);
    assert HighBits(v) == 0;
  }

  lemma LowPart(result: nat, chunk: nat)
    requires Below(result, 4) && chunk < 128
    ensures result + Shift(chunk, 4) < 0x8_0000_0000
  {
    ShiftValues(1);
    ShiftValues(chunk);
  }

  lemma SplitAt35(v: nat, w: nat, low: nat)
    requires v == low + Shift(w, 5) < TWO64 && w > 0 && low < 0x8_0000_0000
    ensures HighBits(v) == w < 0x2000_0000 && v >= TWO32 && v % TWO32 == low % TWO32
    ensures SignBit(v) <==> low % TWO32 >= TWO31
  {
    ShiftValues(w);
    CutSum(low, 8 * w);
    HalfOfWord(v);
  }

  lemma HalfOfWord(v: nat)
    ensures SignBit(v) <==> v % TWO32 >= TWO31
  {
    var q, r := v / TWO32, v % TWO32;
    assert v == TWO31 * (2 * q) + r;
    assert v / TWO31 == 2 * q + r / TWO31;
  }

  /** One turn of the loop on a group above the low 32 bits. */
  lemma HighStep(w: nat, t: seq<Byte>, result: nat, k: nat)
    requires 5 <= k <= 9 && result < TWO32
    ensures
      var byte := if w < 128 then w else w % 128 + 128;
      Var32Loop(EncVarint(w) + t, result, 7 * k) ==
        if byte % 128 != 0 && (result < TWO31 || byte != SignByte(7 * k)) then Fail
        else if w < 128 then Ok(result, t)
        else Var32Loop(EncVarint(w / 128) + t, result, 7 * (k + 1))
  {
    hide Or32, Pow2, SignByte;
    var s := EncVarint(w) + t;
    assert s[0] == if w < 128 then w else w % 128 + 128;
    assert s[1..] == if w < 128 then t else EncVarint(w / 128) + t;
    assert (7 * k + 7) % 256 == 7 * (k + 1);
  }

  lemma {:induction false} HighGroups(w: nat, t: seq<Byte>, result: nat, k: nat, bound: nat)
    requires 5 <= k <= 9 && result < TWO32 && 0 < w < bound && TopGroups(k, bound)
    ensures Var32Loop(EncVarint(w) + t, result, 7 * k)
         == if PaddingOnly(w, k, result >= TWO31) then Ok(result, t) else Fail
    decreases 10 - k
  {
    hide Var32Loop, EncVarint;
    HighStep(w, t, result, k);
    if w >= 128 { HighGroups(w / 128, t, result, k + 1, bound / 128); }
  }

  /** The groups from number `k` up of a 64-bit value are below `bound`. */
  predicate TopGroups(k: nat, bound: nat) {
    (k == 5 && bound == 0x2000_0000) || (k == 6 && bound == 0x40_0000) || (k == 7 && bound == 0x8000)
    || (k == 8 && bound == 0x100) || (k == 9 && bound == 2)
  }

  /** Values of 32 bits are read back. */
  lemma Varint32RoundTrip(v: nat, t: seq<Byte>)
    requires v < TWO32
    ensures DecVarint32(EncVarint(v) + t) == Ok(v, t)
  {
    hide DecVarint32, EncVarint, HighBits, PaddingOnly, SignBit;
    Varint32AcceptsExactly(v, t);
  }

  /** A negative 32-bit integer, sent sign-extended to 64 bits, is accepted. */
  lemma Varint32AcceptsNegatives(n: int, t: seq<Byte>)
    requires -0x8000_0000 <= n < 0
    ensures DecVarint32(EncVarint(n + TWO64) + t) == Ok(n + TWO32, t)
  {
    var v := n + TWO64;
    hide Var32Loop, EncVarint, DecVarint32;
    assert HighBits(v) == 0x1FFF_FFFF;
    assert PaddingOnly(1, 9, true);
    assert PaddingOnly(0xFF, 8, true);
    assert PaddingOnly(0x7FFF, 7, true);
    assert PaddingOnly(0x3F_FFFF, 6, true);
    assert PaddingOnly(0x1FFF_FFFF, 5, true);
    assert SignBit(v);
    Varint32AcceptsExactly(v, t);
  }

  /** Between 2^32 and 2^63 every canonical varint is refused. */
  lemma Varint32RejectsMiddle(v: nat, t: seq<Byte>)
    requires TWO32 <= v < TWO63
    ensures DecVarint32(EncVarint(v) + t).Fail?
  {
    Varint32AcceptsExactly(v, t);
    ShortIsNotPadding(HighBits(v), 5, SignBit(v), 0x1000_0000);
  }

  lemma {:induction false} ShortIsNotPadding(w: nat, k: nat, signBit: bool, bound: nat)
    requires TopGroups(k, 2 * bound) && w < bound
    ensures !PaddingOnly(w, k, signBit)
    decreases 10 - k
  {
    if w >= 128 {
      ShortIsNotPadding(w / 128, k + 1, signBit, bound / 128);
    }
  }

  // ---------- Signed integers ----------

  /** The two's complement pattern of `n` in `m`-valued unsigned arithmetic. */
  function Unsigned(n: int, m: nat): nat
    requires m > 0
  {
    n % m
  }

  /** The signed reading of the pattern `v` out of `m`. */
  function Signed(v: nat, m: nat): int
    requires m > 0
  {
    var u := v % m;
    if u < m / 2 then u else u - m
  }

  /** `n` is held by a two's complement integer of `m` values. */
  predicate InSigned(n: int, m: nat) {
    -(m / 2) <= n < m / 2
  }

  lemma SignedUnsigned(n: int, m: nat)
    requires m > 0 && m % 2 == 0 && InSigned(n, m)
    ensures Signed(Unsigned(n, m), m) == n
  {
    ModOfSigned(n, m);
    ModOfSigned(Unsigned(n, m), m);
  }

  lemma ModOfSigned(n: int, m: nat)
    requires m > 0 && 0 <= n + m && n < m
    ensures n % m == if n < 0 then n + m else n
  {
    var q := n / m;
    assert n == m * q + n % m;
    if q < -1 {
      assert m * q <= m * -2 by { MulMono(m, q, -2); }
      assert false;
    } else if q > 0 {
      assert m * q >= m * 1 by { MulMono(m, 1, q); }
      assert false;
    }
  }

  lemma MulMono(m: nat, a: int, b: int)
    requires a <= b
    ensures m * a <= m * b
  {
  }

  /** ZigZag: 0, -1, 1, -2, ... map to 0, 1, 2, 3, ... */
  function ZigZag(n: int): nat {
    if n < 0 then -2 * n - 1 else 2 * n
  }

  function UnZigZag(v: nat): int {
    if v % 2 == 1 then -(v / 2) - 1 else v / 2
  }

  lemma ZigZagRoundTrip(n: int)
    ensures UnZigZag(ZigZag(n)) == n
    ensures InSigned(n, TWO64) <==> ZigZag(n) < TWO64
  {
  }

  // ---------- Little-endian integers ----------

  function EncFixed(v: nat, n: nat): (s: seq<Byte>)
    ensures |s| == n
  {
    if n == 0 then [] else [v % 256] + EncFixed(v / 256, n - 1)
  }

  function FixedValue(s: seq<Byte>): nat {
    if s == [] then 0 else s[0] + 256 * FixedValue(s[1..])
  }

  function DecFixed(s: seq<Byte>, n: nat): (p: Parse<nat>)
    ensures p.Ok? ==> |p.rest| == |s| - n && SuffixOf(p.rest, s)
  {
    if |s| < n then Fail else Ok(FixedValue(s[..n]), s[n..])
  }

  lemma {:induction false} FixedValueOfEnc(v: nat, n: nat)
    requires v < Pow2(8 * n)
    ensures FixedValue(EncFixed(v, n)) == v
    decreases n
  {
    if n > 0 {
      assert Pow2(8) == 256;
      PowAdd(8, 8 * (n - 1));
      assert 8 + 8 * (n - 1) == 8 * n;
      FixedValueOfEnc(v / 256, n - 1);
    }
  }

  lemma FixedRoundTrip(v: nat, n: nat, t: seq<Byte>)
    requires v < Pow2(8 * n)
    ensures DecFixed(EncFixed(v, n) + t, n) == Ok(v, t)
  {
    var s := EncFixed(v, n);
    assert (s + t)[..n] == s && (s + t)[n..] == t;
    FixedValueOfEnc(v, n);
  }
}

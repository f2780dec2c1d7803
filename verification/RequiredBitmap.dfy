/** The two-word bitmap in which the decoder tracks the required fields it has seen. */
module RequiredBitmap {
  import opened Bits
  import opened Varint
  import opened Descriptor
  import opened DecodeSpec

  /** The words hold exactly the numbers in `marks`. */
  ghost predicate Holds(words: seq<nat>, marks: set<nat>) {
    && |words| == 2
    && (forall k: nat :: Bit(words[0], k) <==> k < 32 && k in marks)
    && (forall k: nat :: Bit(words[1], k) <==> k < 32 && k + 32 in marks)
  }

  lemma EmptyHolds()
    ensures Holds([0, 0], {})
  {
    forall k: nat ensures !Bit(0, k) { ZeroHasNoBits(k); }
  }

  /** Sets the bit of the field with this number: 32 numbers to a word. */
  method Mark(words: seq<nat>, index: nat, ghost marks: set<nat>) returns (r: seq<nat>)
    requires Holds(words, marks) && index < PB_MAX_REQUIRED_FIELDS
    ensures Holds(r, marks + {index})
  {
    var tmp := Pow2(index % 32);
    r := words[index / 32 := BitOr(words[index / 32], tmp)];
    forall k: nat
      ensures Bit(r[0], k) <==> k < 32 && k in marks + {index}
      ensures Bit(r[1], k) <==> k < 32 && k + 32 in marks + {index}
    {
      BitOfOr(words[index / 32], tmp, k);
      BitOfPow2(index % 32, k);
    }
  }

  /** Exactly the lowest `m` bits of `n` are set. */
  ghost predicate OnlyLow(n: nat, m: nat) {
    forall k: nat :: Bit(n, k) <==> k < m
  }

  lemma AllOnes(n: nat, m: nat)
    requires m <= 32
    ensures n == (TWO32 - 1) / Pow2(32 - m) <==> OnlyLow(n, m)
  {
    hide Bit, Pow2;
    PowValues();
    PowAdd(m, 32 - m);
    ShiftedOnes(Pow2(m), Pow2(32 - m));
    if n == Pow2(m) - 1 {
      forall k: nat ensures Bit(n, k) <==> k < m { BitOfLowOnes(m, k); }
    }
    if OnlyLow(n, m) {
      LowOnes(n, m);
    }
  }

  lemma ShiftedOnes(a: nat, b: nat)
    requires a > 0 && b > 0
    ensures (a * b - 1) / b == a - 1
  {
    assert a * b - 1 == b * (a - 1) + (b - 1);
    DivUnique(a * b - 1, b, a - 1, b - 1);
  }

  lemma DivUnique(x: int, b: nat, q: int, r: int)
    requires 0 <= r < b && x == b * q + r
    ensures x / b == q
  {
    var d := x / b - q;
    assert b * d == r - x % b by {
      assert x == b * (x / b) + x % b;
      assert b * (x / b) - b * q == b * d;
    }
    Multiple(b, d);
  }

  lemma Multiple(b: nat, d: int)
    requires -(b as int) < b * d < b
    ensures d == 0
  {
    if d >= 1 {
      MulMono(b, 1, d);
      assert false;
    } else if d <= -1 {
      MulMono(b, d, -1);
      assert false;
    }
  }

  /** The check of whole words and of the remaining bits passes exactly when every number
      below `count` is marked. */
  method AllSeen(words: seq<nat>, count: nat, ghost marks: set<nat>) returns (ok: bool)
    requires Holds(words, marks) && count <= PB_MAX_REQUIRED_FIELDS
    requires forall k | k in marks :: k < count
    ensures ok <==> forall k | 0 <= k < count :: k in marks
  {
    var allbits := TWO32 - 1;
    for i := 0 to count / 32
      invariant forall k | 0 <= k < 32 * i :: k in marks
    {
      WordFull(words, marks, i, count);
      if words[i] != allbits {
        return false;
      }
    }
    var rem := count % 32;
    if rem != 0 {
      WordPartial(words, marks, count);
      if words[count / 32] != allbits / Pow2(32 - rem) {
        return false;
      }
    }
    return true;
  }

  lemma WordFull(words: seq<nat>, marks: set<nat>, i: nat, count: nat)
    requires Holds(words, marks) && i < count / 32 && count <= PB_MAX_REQUIRED_FIELDS
    ensures words[i] == TWO32 - 1 <==> forall k | 32 * i <= k < 32 * i + 32 :: k in marks
  {
    hide BitOr, Bit;
    AllOnes(words[i], 32);
    assert Pow2(0) == 1 && (TWO32 - 1) / 1 == TWO32 - 1;
    WordBits(words, marks, i, 32);
  }

  lemma WordPartial(words: seq<nat>, marks: set<nat>, count: nat)
    requires Holds(words, marks) && count < PB_MAX_REQUIRED_FIELDS && forall k | k in marks :: k < count
    ensures words[count / 32] == (TWO32 - 1) / Pow2(32 - count % 32)
       <==> forall k | count / 32 * 32 <= k < count :: k in marks
  {
    hide Pow2, BitOr, Bit;
    AllOnes(words[count / 32], count % 32);
    WordBits(words, marks, count / 32, count % 32);
  }

  /** The low `m` bits, and only they, are set in word `i` when just its first `m`
      numbers are marked. */
  lemma WordBits(words: seq<nat>, marks: set<nat>, i: nat, m: nat)
    requires Holds(words, marks) && i < 2 && m <= 32
    requires forall k | 32 * i + m <= k < 32 * i + 32 :: k !in marks
    ensures OnlyLow(words[i], m) <==> forall k | 32 * i <= k < 32 * i + m :: k in marks
  {
    hide Bit;
    if OnlyLow(words[i], m) {
      forall k | 32 * i <= k < 32 * i + m ensures k in marks {
        var j: nat := k - 32 * i;
        assert Bit(words[i], j);
      }
    }
    if forall k | 32 * i <= k < 32 * i + m :: k in marks {
      forall k: nat ensures Bit(words[i], k) <==> k < m {
        var j: nat := 32 * i + k;
        assert Bit(words[i], k) <==> k < 32 && j in marks;
      }
    }
  }

  // ---------- Numbers of required fields ----------

  lemma {:induction false} RequiredIndexGrows(fields: seq<Field>, i: nat, j: nat)
    requires i <= j <= |fields|
    ensures RequiredIndex(fields, i) <= RequiredIndex(fields, j)
    ensures i < j && fields[i].htype.Required? ==> RequiredIndex(fields, i) < RequiredIndex(fields, j)
    decreases j
  {
    if i < j { RequiredIndexGrows(fields, i, j - 1); }
  }

  lemma {:induction false} RequiredNumbered(fields: seq<Field>, n: nat, k: nat) returns (i: nat)
    requires n <= |fields| && k < RequiredIndex(fields, n)
    ensures i < n && fields[i].htype.Required? && RequiredIndex(fields, i) == k
    decreases n
  {
    if fields[n - 1].htype.Required? && RequiredIndex(fields, n - 1) == k {
      i := n - 1;
    } else {
      i := RequiredNumbered(fields, n - 1, k);
    }
  }

  /** `seen` holds only required fields with a number below the limit. */
  predicate Tracked(fields: seq<Field>, seen: set<nat>) {
    forall i | i in seen :: i < |fields| && fields[i].htype.Required? && RequiredIndex(fields, i) < PB_MAX_REQUIRED_FIELDS
  }

  function Marks(fields: seq<Field>, seen: set<nat>): set<nat>
    requires Tracked(fields, seen)
  {
    set i | i in seen :: RequiredIndex(fields, i)
  }

  /** How many required fields are tracked. */
  function TrackedCount(fields: seq<Field>): nat {
    var n := RequiredIndex(fields, |fields|);
    if n > PB_MAX_REQUIRED_FIELDS then PB_MAX_REQUIRED_FIELDS else n
  }

  /** The numbers of the seen fields cover all tracked numbers exactly when every tracked
      required field was seen, for descriptors of any length. */
  lemma MarksCover(fields: seq<Field>, seen: set<nat>)
    requires Tracked(fields, seen)
    ensures (forall k | 0 <= k < TrackedCount(fields) :: k in Marks(fields, seen)) <==> RequiredSeen(fields, seen)
    ensures forall k | k in Marks(fields, seen) :: k < TrackedCount(fields)
  {
    hide RequiredIndex;
    forall i | i in seen ensures RequiredIndex(fields, i) < TrackedCount(fields) {
      RequiredIndexGrows(fields, i, |fields|);
    }
    if forall k | 0 <= k < TrackedCount(fields) :: k in Marks(fields, seen) {
      forall i | 0 <= i < |fields| && fields[i].htype.Required? && RequiredIndex(fields, i) < PB_MAX_REQUIRED_FIELDS
        ensures i in seen
      {
        RequiredIndexGrows(fields, i, |fields|);
        assert RequiredIndex(fields, i) in Marks(fields, seen);
        var j :| j in seen && RequiredIndex(fields, j) == RequiredIndex(fields, i);
        RequiredIndexGrows(fields, if i < j then i else j, if i < j then j else i);
      }
    }
    if RequiredSeen(fields, seen) {
      forall k | 0 <= k < TrackedCount(fields) ensures k in Marks(fields, seen) {
        var i := RequiredNumbered(fields, |fields|, k);
        assert i in seen;
      }
    }
  }
}

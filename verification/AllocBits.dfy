/** Bytes of the allocation bitmap, bit by bit. */
module AllocBits {

  /** (1 << n) - 1 for n up to 8. */
  function Low(n: nat): bv8
    requires n <= 8
  {
    if n == 0 then 0 else if n == 1 then 1 else if n == 2 then 3 else if n == 3 then 7 else if n == 4 then 15
    else if n == 5 then 31 else if n == 6 then 63 else if n == 7 then 127 else 255
  }

  /** m << p, cut to a byte. */
  function Up(m: bv8, p: nat): bv8
    requires p <= 8
  {
    if p == 0 then m else if p == 1 then m << 1 else if p == 2 then m << 2 else if p == 3 then m << 3
    else if p == 4 then m << 4 else if p == 5 then m << 5 else if p == 6 then m << 6 else if p == 7 then m << 7 else 0
  }

  /** b with the bits of m cleared. */
  function Without(b: bv8, m: bv8): bv8 {
    b & !m
  }

  /** (b >> k) & 1. */
  predicate Bit(b: bv8, k: nat)
    requires k < 8
  {
    b & Up(1, k) != 0
  }

  /** One more than the number of the highest bit set; 0 for an empty byte. */
  function Log2(value: bv8): (n: nat)
    ensures n <= 8
  {
    var a: bv8 := if value >= 0x10 then value >> 4 else value;
    var b: bv8 := if a >= 0x04 then a >> 2 else a;
    var c: bv8 := if b >= 0x02 then b >> 1 else b;
    (if value >= 0x10 then 4 else 0) + (if a >= 0x04 then 2 else 0) + (if b >= 0x02 then 1 else 0)
    + if c & 1 == 1 then 1 else 0
  }

  lemma LowUp(n: nat, p: nat, k: nat)
    requires n <= 8 && p <= 8 && k < 8
    ensures Bit(Up(Low(n), p), k) <==> p <= k < p + n
  {
  }

  lemma OrBit(a: bv8, b: bv8, k: nat)
    requires k < 8
    ensures Bit(a | b, k) <==> Bit(a, k) || Bit(b, k)
    ensures Bit(Without(a, b), k) <==> Bit(a, k) && !Bit(b, k)
  {
  }

  /** Setting, and clearing, n bits from bit p on. */
  lemma {:induction false} MarkBits(a: bv8, n: nat, p: nat, k: nat)
    requires n <= 8 && p <= 8 && k < 8
    ensures Bit(a | Up(Low(n), p), k) <==> Bit(a, k) || p <= k < p + n
    ensures Bit(Without(a, Up(Low(n), p)), k) <==> Bit(a, k) && !(p <= k < p + n)
  {
    hide Bit, Up, Low;
    var m := Up(Low(n), p);
    OrBit(a, m, k);
    LowUp(n, p, k);
  }

  lemma Whole(k: nat)
    requires k < 8
    ensures Bit(0xFF, k) && !Bit(0, k)
  {
  }

  /** A byte none of whose low n bits is set, tested by masking. */
  lemma LowFree(a: bv8, n: nat)
    requires n <= 8
    ensures a & Low(n) == 0 <==> forall k | 0 <= k < n :: !Bit(a, k)
  {
    if a & Low(n) == 0 {
      forall k | 0 <= k < n ensures !Bit(a, k) {
        LowBit(a, n, k);
      }
    } else {
      var k := SomeLow(a, n);
    }
  }

  lemma LowBit(a: bv8, n: nat, k: nat)
    requires k < n <= 8 && a & Low(n) == 0
    ensures !Bit(a, k)
  {
  }

  lemma SomeLow(a: bv8, n: nat) returns (k: nat)
    requires n <= 8 && a & Low(n) != 0
    ensures k < n && Bit(a, k)
  {
    k := if a & 1 != 0 then 0 else if a & 2 != 0 then 1 else if a & 4 != 0 then 2 else if a & 8 != 0 then 3
         else if a & 16 != 0 then 4 else if a & 32 != 0 then 5 else if a & 64 != 0 then 6 else 7;
  }

  lemma Empty(a: bv8)
    ensures a == 0 <==> forall k | 0 <= k < 8 :: !Bit(a, k)
  {
    LowFree(a, 8);
    assert a & 255 == a;
  }

  lemma Full(a: bv8)
    ensures a == 0xFF <==> forall k | 0 <= k < 8 :: Bit(a, k)
  {
    if a == 0xFF {
      forall k | 0 <= k < 8 ensures Bit(a, k) { Whole(k); }
    } else if forall k | 0 <= k < 8 :: Bit(a, k) {
      var inverse := !a;
      forall k | 0 <= k < 8 ensures !Bit(inverse, k) { Complement(a, k); }
      Empty(inverse);
      AllOnes(a);
    }
  }

  lemma AllOnes(a: bv8)
    requires !a == 0
    ensures a == 0xFF
  {
  }

  lemma Complement(a: bv8, k: nat)
    requires k < 8
    ensures Bit(!a, k) <==> !Bit(a, k)
  {
  }

  lemma Log2Bit(a: bv8, k: nat)
    requires k < 8
    ensures k >= Log2(a) ==> !Bit(a, k)
    ensures k + 1 == Log2(a) ==> Bit(a, k)
  {
  }
}

/** Moving emitted code: two neighbouring blocks change places, relative jumps are repaired. */
module CodeMotion {
  import opened Options

  /** The 10-bit field of a relative jump. */
  type Field = f: nat | f < 1024

  datatype Kind = Jump(field: Field) | Load | Plain(code: nat)

  /** An instruction and the symbol it refers to. */
  datatype Instr = Instr(kind: Kind, sym: Option<nat>)

  // ---------------------------------------------------------------- the distance field

  function Encode(distance: int): Field {
    distance % 1024
  }

  /** How far the processor jumps: ten bits with a sign. */
  function Executed(field: Field): int {
    if field < 512 then field else field - 1024
  }

  /** What the assembler takes the distance for: nine bits of the field, the sign from its bit 7. */
  function ReadBack(field: Field): int {
    field % 512 - if field / 128 % 2 == 1 then 512 else 0
  }

  /** Distances that fit the field. */
  predicate Encodable(distance: int) {
    -512 <= distance < 512
  }

  /** Distances that are read back as they are executed: bit 7 has to agree with the sign. */
  predicate Readable(distance: int) {
    -384 <= distance < -256 || -128 <= distance < 128 || 256 <= distance < 384
  }

  lemma {:induction false} DistanceRoundTrip(distance: int)
    ensures Executed(Encode(distance)) == distance <==> Encodable(distance)
    ensures ReadBack(Encode(distance)) == distance <==> Readable(distance)
  {
    var field := Encode(distance);
    var high := field / 128;
    assert field == 128 * high + field % 128 && high < 8;
    assert high == 0 || high == 1 || high == 2 || high == 3 || high == 4 || high == 5 || high == 6 || high == 7;
    var turns := distance / 1024;
    assert distance == 1024 * turns + field;
  }

  /** The assembler and the processor agree on a jump exactly if its distance is readable; else they are 512 apart. */
  lemma {:induction false} Misread(field: Field)
    ensures Encode(Executed(field)) == field && Encodable(Executed(field))
    ensures ReadBack(field) == Executed(field) <==> Readable(Executed(field))
    ensures !Readable(Executed(field)) ==>
              ReadBack(field) == Executed(field) + 512 || ReadBack(field) == Executed(field) - 512
  {
    var high := field / 128;
    assert field == 128 * high + field % 128 && high < 8;
    assert high == 0 || high == 1 || high == 2 || high == 3 || high == 4 || high == 5 || high == 6 || high == 7;
  }

  // ---------------------------------------------------------------- the move, on sequences

  /** Neighbouring blocks of p and q instructions from address a on change places. */
  function Swapped(c: seq<Instr>, a: nat, p: nat, q: nat): (r: seq<Instr>)
    requires a + p + q <= |c|
    ensures |r| == |c|
  {
    c[..a] + c[a + p..a + p + q] + c[a..a + p] + c[a + p + q..]
  }

  /** Where the instruction at address k goes. */
  function NewPlace(k: nat, a: nat, p: nat, q: nat): nat {
    if a <= k < a + p then k + q else if a + p <= k < a + p + q then k - p else k
  }

  /** Where the processor goes from the jump at address k. */
  function TargetOf(i: Instr, k: nat): int
    requires i.kind.Jump?
  {
    k + Executed(i.kind.field)
  }

  /** Where the assembler believes the jump at address k to go. */
  function SeenTarget(i: Instr, k: nat): int
    requires i.kind.Jump?
  {
    k + ReadBack(i.kind.field)
  }

  /** Repairs the jump at address k of the block from lo to hi, moved by `offset`, if it seems to leave the block. */
  function RebasedAt(i: Instr, k: nat, lo: nat, hi: nat, offset: int): Instr {
    if i.kind.Jump? && !(lo <= SeenTarget(i, k) <= hi + 1)
    then i.(kind := Jump(Encode(ReadBack(i.kind.field) - offset)))
    else i
  }

  function Rebased(c: seq<Instr>, lo: nat, hi: nat, offset: int): (r: seq<Instr>)
    ensures |r| == |c|
  {
    seq(|c|, k requires 0 <= k < |c| => if lo <= k <= hi then RebasedAt(c[k], k, lo, hi, offset) else c[k])
  }

  /** The whole move: the second block goes p places down, the first q places up. */
  function Moved(c: seq<Instr>, a: nat, p: nat, q: nat): (r: seq<Instr>)
    requires a + p + q <= |c| && p > 0 && q > 0
    ensures |r| == |c|
  {
    Rebased(Rebased(Swapped(c, a, p, q), a, a + q - 1, -(p as int)), a + q, a + q + p - 1, q)
  }

  lemma MovedAt(c: seq<Instr>, a: nat, p: nat, q: nat, k: nat)
    requires a + p + q <= |c| && p > 0 && q > 0 && k < |c|
    ensures NewPlace(k, a, p, q) < |c|
    ensures Moved(c, a, p, q)[NewPlace(k, a, p, q)] ==
              if a <= k < a + p then RebasedAt(c[k], k + q, a + q, a + q + p - 1, q)
              else if a + p <= k < a + p + q then RebasedAt(c[k], k - p, a, a + q - 1, -(p as int))
              else c[k]
  {
  }

  lemma RebasedSame(c: seq<Instr>, lo: nat, hi: nat, offset: int, k: nat)
    requires k < |c|
    ensures SameInstr(c[k], Rebased(c, lo, hi, offset)[k])
  {
  }

  /** Nothing is lost: the new places are a permutation of the addresses. */
  lemma PlacesPermute(a: nat, p: nat, q: nat, k: nat)
    ensures NewPlace(NewPlace(k, a, p, q), a, q, p) == k
  {
  }

  /** Apart from the distance of jumps every instruction arrives unchanged. */
  predicate SameInstr(i: Instr, j: Instr) {
    i.sym == j.sym && (i.kind.Jump? <==> j.kind.Jump?) && (!i.kind.Jump? ==> i == j)
  }

  // ---------------------------------------------------------------- jumps reach what they reached

  /** Address k belongs to the first or the second of the blocks. */
  predicate InFirst(k: int, a: nat, p: nat) {
    a <= k < a + p
  }

  predicate InSecond(k: int, a: nat, p: nat, q: nat) {
    a + p <= k < a + p + q
  }

  /** Jumps of one block do not go into the other one, nor those of other code into the middle of the two. */
  predicate StaysApart(c: seq<Instr>, a: nat, p: nat, q: nat, k: nat)
    requires k < |c|
  {
    c[k].kind.Jump? ==>
      var t := TargetOf(c[k], k);
      if InFirst(k, a, p) then !(a + p < t < a + p + q)
      else if InSecond(k, a, p, q) then !(a <= t < a + p)
      else !(a < t < a + p + q)
  }

  /** Address t belongs to the block of address k, whose end is taken to be part of it. */
  predicate SameBlock(k: nat, t: int, a: nat, p: nat, q: nat) {
    (InFirst(k, a, p) && a <= t <= a + p) || (InSecond(k, a, p, q) && a + p <= t <= a + p + q)
  }

  /** The address a jump at k to t has to reach after the move. */
  function NewTarget(k: nat, t: int, a: nat, p: nat, q: nat): int {
    if SameBlock(k, t, a, p, q) then t + NewPlace(k, a, p, q) - k else t
  }

  /**
   * What the move asks of the jump at k. If it leaves its block, its distance has to be readable and the new one has
   * to fit the field. If it stays, it has to seem to stay, or the needless repair has to change nothing.
   */
  predicate Repairable(c: seq<Instr>, a: nat, p: nat, q: nat, k: nat)
    requires k < |c| && c[k].kind.Jump?
  {
    var t, seen, offset := TargetOf(c[k], k), SeenTarget(c[k], k), NewPlace(k, a, p, q) - k;
    if offset == 0 then true
    else if SameBlock(k, t, a, p, q) then SameBlock(k, seen, a, p, q) || (seen - t - offset) % 1024 == 0
    else Readable(Executed(c[k].kind.field)) && Encodable(Executed(c[k].kind.field) - offset)
  }

  /** Where a repaired jump goes: its offset is that of its block. */
  lemma {:induction false} RepairedTarget(i: Instr, k: nat, lo: nat, hi: nat, offset: int)
    requires i.kind.Jump? && offset != 0
    ensures var t, seen, j := TargetOf(i, k), SeenTarget(i, k), RebasedAt(i, k, lo, hi, offset);
            && j.kind.Jump?
            && (TargetOf(j, k) == t <==> lo <= seen <= hi + 1 || (seen - t - offset) % 1024 == 0)
            && (!(lo <= t <= hi + 1) ==>
                  (TargetOf(j, k) == t - offset <==>
                     Readable(Executed(i.kind.field)) && Encodable(Executed(i.kind.field) - offset)))
  {
    hide Readable;
    var d, m := Executed(i.kind.field), ReadBack(i.kind.field);
    Misread(i.kind.field);
    if !(lo <= k + m <= hi + 1) {
      Congruent(m - offset, d);
      Congruent(m - offset, d - offset);
      DistanceRoundTrip(d);
      DistanceRoundTrip(d - offset);
    }
  }

  /** Two distances have the same field exactly if they differ by a multiple of 1024. */
  lemma Congruent(x: int, y: int)
    ensures Encode(x) == Encode(y) <==> (x - y) % 1024 == 0
    ensures Executed(Encode(x)) == y <==> (x - y) % 1024 == 0 && Encodable(y)
  {
  }

  /**
   * After the move every instruction is at its new place. A jump that stays apart goes where it has to go exactly if it
   * is repairable: to the place of the instruction it went to, or to the end of its block if it went there.
   */
  lemma {:induction false} MoveKeepsJumps(c: seq<Instr>, a: nat, p: nat, q: nat, k: nat)
    requires a + p + q <= |c| && p > 0 && q > 0 && k < |c|
    requires StaysApart(c, a, p, q, k)
    ensures NewPlace(k, a, p, q) < |c| && SameInstr(c[k], Moved(c, a, p, q)[NewPlace(k, a, p, q)])
    ensures c[k].kind.Jump? ==>
              var t, t' := TargetOf(c[k], k), TargetOf(Moved(c, a, p, q)[NewPlace(k, a, p, q)], NewPlace(k, a, p, q));
              && (t' == NewTarget(k, t, a, p, q) <==> Repairable(c, a, p, q, k))
              && (Repairable(c, a, p, q, k) && 0 <= t < |c| ==>
                    || t' == NewPlace(t, a, p, q)
                    || (InFirst(k, a, p) && t == a + p && t' == a + p + q)
                    || (InSecond(k, a, p, q) && t == a + p + q && t' == a + q)
                    || (t == a == t' && !InFirst(k, a, p) && !InSecond(k, a, p, q)))
  {
    hide ReadBack, Executed, Encode, Moved, Readable;
    MovedAt(c, a, p, q, k);
    if c[k].kind.Jump? {
      if InFirst(k, a, p) {
        RepairedTarget(c[k], k + q, a + q, a + q + p - 1, q);
      } else if InSecond(k, a, p, q) {
        RepairedTarget(c[k], k - p, a, a + q - 1, -(p as int));
      }
    }
  }

  /** Distances in -128..127 before and after the move are enough. */
  lemma NearJumpsKept(c: seq<Instr>, a: nat, p: nat, q: nat, k: nat)
    requires a + p + q <= |c| && p > 0 && q > 0 && k < |c| && c[k].kind.Jump?
    requires StaysApart(c, a, p, q, k) && -128 <= Executed(c[k].kind.field) < 128
    requires -128 <= NewTarget(k, TargetOf(c[k], k), a, p, q) - NewPlace(k, a, p, q) < 128
    ensures NewPlace(k, a, p, q) < |c| && Moved(c, a, p, q)[NewPlace(k, a, p, q)].kind.Jump?
    ensures TargetOf(Moved(c, a, p, q)[NewPlace(k, a, p, q)], NewPlace(k, a, p, q)) ==
            NewTarget(k, TargetOf(c[k], k), a, p, q)
  {
    hide ReadBack, Executed, Encode, Moved;
    Misread(c[k].kind.field);
    MoveKeepsJumps(c, a, p, q, k);
  }

  /**
   * A jump 200 ahead inside a block of 300 instructions is taken for one 312 back. Moving the block up by 10 lets it
   * go to 688, where 1210 would be right.
   */
  lemma {:induction false} FarJumpLost(c: seq<Instr>)
    requires |c| == 1310 && c[1000].kind == Jump(200)
    ensures Encode(200) == 200 && StaysApart(c, 1000, 300, 10, 1000)
    ensures TargetOf(c[1000], 1000) == 1200 && NewTarget(1000, 1200, 1000, 300, 10) == 1210
    ensures Moved(c, 1000, 300, 10)[1010].kind == Jump(Encode(-322))
        && TargetOf(Moved(c, 1000, 300, 10)[1010], 1010) == 688
  {
    hide Moved;
    MovedAt(c, 1000, 300, 10, 1000);
  }
}

/** The buffer of emitted code: instructions are appended, blocks of them moved in place. */
module CodeBuffer {
  import opened CodeMotion
  import opened LastAccess
  import opened Options

  class Buffer {
    const instrs: array<Instr>
    const config: Config
    var codeAddr: nat
    var lastAccess: map<nat, nat>
    /** For each active loop, the symbols to be kept until it ends. */
    var frames: seq<set<nat>>

    ghost predicate Valid()
      reads `codeAddr
    {
      instrs.Length == CAPACITY && codeAddr <= CAPACITY
    }

    ghost function Code(): seq<Instr>
      requires Valid()
      reads `codeAddr, instrs
    {
      instrs[..codeAddr]
    }

    ghost function Contents(): Gen
      requires Valid()
      reads this, instrs
    {
      Gen(Code(), lastAccess, frames)
    }

    constructor (config: Config)
      ensures Valid() && Contents() == START && this.config == config && fresh(instrs)
    {
      instrs := new Instr[CAPACITY](i => Instr(Load, None));
      this.config := config;
      codeAddr, lastAccess, frames := 0, map[], [];
    }

    /** Appends an instruction; fails if the buffer is full. */
    method WriteCode(i: Instr) returns (ok: bool)
      requires Valid()
      modifies this, instrs
      ensures Valid() && Contents() == Apply(old(Contents()), config, Write(i))
      ensures ok == Possible(old(Contents()), Write(i))
    {
      ok := codeAddr < CAPACITY;
      if !ok {
        return;
      }
      instrs[codeAddr] := i;
      if i.sym.Some? && i.kind.Plain? {
        var s, depth := i.sym.value, |frames|;
        if depth > 0 && (config.scope(s) < depth || config.safe) {
          var f := if config.scope(s) > depth - 1 then depth - 1 else config.scope(s);
          frames := frames[f := frames[f] + {s}];
        } else {
          lastAccess := lastAccess[s := codeAddr];
        }
      }
      if i.sym.Some? && i.kind.Load? {
        lastAccess := lastAccess[i.sym.value := NEVER];
      }
      codeAddr := codeAddr + 1;
      assert Code() == old(Code()) + [i];
    }

    /** A loop begins; fails if too many are active. */
    method CreateLoopFrame() returns (ok: bool)
      requires Valid()
      modifies `frames
      ensures Valid() && Contents() == Apply(old(Contents()), config, Open)
      ensures ok == Possible(old(Contents()), Open)
    {
      ok := |frames| < MAX_LOOP_DEPTH;
      if ok {
        frames := frames + [{}];
      }
    }

    /** The innermost loop ends here: whatever it kept is last accessed here. Fails if no loop is active. */
    method RemoveLoopFrame() returns (ok: bool)
      requires Valid()
      modifies `frames, `lastAccess
      ensures Valid() && Contents() == Apply(old(Contents()), config, Close)
      ensures ok == Possible(old(Contents()), Close)
    {
      ok := frames != [];
      if !ok {
        return;
      }
      var top := frames[|frames| - 1];
      var rest := top;
      while rest != {}
        invariant rest <= top && frames == old(frames)
        invariant lastAccess.Keys == old(lastAccess).Keys + (top - rest)
        invariant forall s | s in lastAccess :: lastAccess[s] == if s in top - rest then codeAddr
            else old(lastAccess)[s]
        decreases rest
      {
        var s :| s in rest;
        lastAccess := lastAccess[s := codeAddr];
        rest := rest - {s};
      }
      frames := frames[..|frames| - 1];
    }

    /** Instructions lo to hi have come from `offset` places away: jumps that seem to leave them are repaired. */
    method RebaseCode(lo: nat, hi: nat, offset: int)
      requires Valid() && lo <= hi + 1 <= codeAddr
      modifies `lastAccess, instrs
      ensures Valid() && Code() == Rebased(old(Code()), lo, hi, offset)
      ensures lastAccess == LastAfter(Code(), lo, hi + 1, old(lastAccess))
    {
      ghost var c := Code();
      for i := lo to hi + 1
        invariant Valid() && codeAddr == old(codeAddr)
        invariant forall k | 0 <= k < codeAddr ::
          instrs[k] == if lo <= k < i then RebasedAt(c[k], k, lo, hi, offset) else c[k]
        invariant lastAccess == LastAfter(c, lo, i, old(lastAccess))
      {
        if instrs[i].kind.Jump? {
          var target := i + ReadBack(instrs[i].kind.field);
          if target < lo || target > hi + 1 {
            instrs[i] := instrs[i].(kind := Jump(Encode(ReadBack(instrs[i].kind.field) - offset)));
          }
        }
        if instrs[i].kind.Plain? && instrs[i].sym.Some? {
          lastAccess := lastAccess[instrs[i].sym.value := i];
        }
      }
      assert Code() == Rebased(c, lo, hi, offset);
      LastAfterAlike(c, Code(), lo, hi + 1, old(lastAccess));
    }

    /** The block of `size` instructions at startAddr goes to targetAddr; what it passes moves out of its way. */
    method MoveCodeBlock(startAddr: nat, size: nat, targetAddr: nat) returns (ok: bool)
      requires Valid() && startAddr + size <= codeAddr && targetAddr + size <= codeAddr
      modifies `lastAccess, instrs
      ensures Valid() && |Code()| == |old(Code())|
      ensures ok == (startAddr == targetAddr || size == 0 || size <= CAPACITY - codeAddr)
      ensures !ok || startAddr == targetAddr || size == 0 ==> Code() == old(Code()) && lastAccess == old(lastAccess)
      ensures ok && size > 0 && targetAddr < startAddr ==>
                && Code() == Moved(old(Code()), targetAddr, startAddr - targetAddr, size)
                && lastAccess == LastAfter(Code(), targetAddr, startAddr + size, old(lastAccess))
      ensures ok && size > 0 && startAddr < targetAddr ==>
                && Code() == Moved(old(Code()), startAddr, size, targetAddr - startAddr)
                && lastAccess == LastAfter(Code(), startAddr, targetAddr + size, old(lastAccess))
      ensures targetAddr <= startAddr && startAddr + size == codeAddr ==>
                && Contents() == Apply(old(Contents()), config, MoveBack(startAddr, targetAddr))
                && ok == Possible(old(Contents()), MoveBack(startAddr, targetAddr))
    {
      hide Moved, LastAfter, Swapped, Rebased;
      if startAddr == targetAddr || size == 0 {
        return true;
      }
      ok := size <= CAPACITY - codeAddr;
      if !ok {
        return;
      }
      ghost var c := Code();
      if targetAddr < startAddr {
        Exchange(startAddr, size, targetAddr, targetAddr, targetAddr + size, startAddr - targetAddr);
        Repair(c, targetAddr, startAddr - targetAddr, size);
      } else {
        Exchange(startAddr, size, targetAddr, startAddr + size, startAddr, targetAddr - startAddr);
        Repair(c, startAddr, size, targetAddr - startAddr);
      }
    }

    /** The three copies of the move; the space behind the code serves as buffer. */
    method Exchange(startAddr: nat, size: nat, targetAddr: nat, blockStart: nat, blockTarget: nat, size2: nat)
      requires Valid() && size <= CAPACITY - codeAddr && startAddr + size <= codeAddr && targetAddr + size <= codeAddr
      requires if targetAddr < startAddr
               then blockStart == targetAddr && blockTarget == targetAddr + size && size2 == startAddr - targetAddr
               else blockStart == startAddr + size && blockTarget == startAddr && size2 == targetAddr - startAddr
      modifies instrs
      ensures Valid()
      ensures Code() == if targetAddr < startAddr then Swapped(old(Code()), targetAddr, startAddr - targetAddr, size)
                        else Swapped(old(Code()), startAddr, size, targetAddr - startAddr)
    {
      hide Copied, Swapped;
      ghost var c := instrs[..];
      Copy(startAddr, codeAddr, size);
      ghost var c1 := instrs[..];
      Copy(blockStart, blockTarget, size2);
      ghost var c2 := instrs[..];
      Copy(codeAddr, targetAddr, size);
      if targetAddr < startAddr {
        BackwardSwap(c, c1, c2, instrs[..], codeAddr, targetAddr, size2, size);
      } else {
        ForwardSwap(c, c1, c2, instrs[..], codeAddr, startAddr, size, size2);
      }
      assert Code() == instrs[..][..codeAddr] && old(Code()) == c[..codeAddr];
    }

    /** The jumps of both blocks, the one now in front first. */
    method Repair(ghost c: seq<Instr>, a: nat, p: nat, q: nat)
      requires Valid() && a + p + q <= |c| == codeAddr && p > 0 && q > 0 && Code() == Swapped(c, a, p, q)
      modifies `lastAccess, instrs
      ensures Valid() && Code() == Moved(c, a, p, q) && lastAccess == LastAfter(Code(), a, a + p + q, old(lastAccess))
    {
      hide Swapped, LastAfter, Rebased;
      RebaseCode(a, a + q - 1, -(p as int));
      ghost var c1 := Code();
      RebaseCode(a + q, a + q + p - 1, q);
      forall k | 0 <= k < |c1| ensures SameInstr(c1[k], Code()[k]) {
        RebasedSame(c1, a + q, a + q + p - 1, q, k);
      }
      LastAfterAlike(c1, Code(), a, a + q, old(lastAccess));
      LastAfterJoin(Code(), a, a + q, a + q + p, old(lastAccess));
    }

    /** Copies n instructions, as if by way of a buffer. */
    method Copy(src: nat, dst: nat, n: nat)
      requires src + n <= instrs.Length && dst + n <= instrs.Length
      modifies instrs
      ensures Copied(old(instrs[..]), instrs[..], src, dst, n)
    {
      forall k | 0 <= k < n {
        instrs[dst + k] := instrs[src + k];
      }
    }
  }

  /** n instructions have been copied. */
  predicate Copied(c: seq<Instr>, d: seq<Instr>, src: nat, dst: nat, n: nat) {
    && |d| == |c| && src + n <= |c| && dst + n <= |c|
    && forall k | 0 <= k < |c| :: d[k] == if dst <= k < dst + n then c[src + (k - dst)] else c[k]
  }

  lemma CopiedAt(c: seq<Instr>, d: seq<Instr>, src: nat, dst: nat, n: nat, k: nat)
    requires Copied(c, d, src, dst, n) && k < |c| == |d|
    ensures src + n <= |c| && dst + n <= |c|
    ensures d[k] == if dst <= k < dst + n then c[src + (k - dst)] else c[k]
  {
  }

  /** The three copies of a move: the block by way of the buffer at n, and the one it passes. */
  predicate ThreeCopies(c: seq<Instr>, c1: seq<Instr>, c2: seq<Instr>, c3: seq<Instr>, n: nat,
                        src: nat, size: nat, dst: nat, src2: nat, dst2: nat, size2: nat)
  {
    Copied(c, c1, src, n, size) && Copied(c1, c2, src2, dst2, size2) && Copied(c2, c3, n, dst, size)
  }

  lemma CopiesAt(c: seq<Instr>, c1: seq<Instr>, c2: seq<Instr>, c3: seq<Instr>, n: nat,
                 src: nat, size: nat, dst: nat, src2: nat, dst2: nat, size2: nat, k: nat)
    requires ThreeCopies(c, c1, c2, c3, n, src, size, dst, src2, dst2, size2)
    requires src + size <= n && dst2 + size2 <= n && src2 + size2 <= n && k < n
    ensures |c3| == |c| && n + size <= |c| && src2 + size2 <= |c|
    ensures c3[k] == if dst <= k < dst + size then c[src + (k - dst)]
                     else if dst2 <= k < dst2 + size2 then c[src2 + (k - dst2)] else c[k]
  {
    assert |c| == |c1| == |c2| == |c3|;
    hide Copied;
    CopiedAt(c2, c3, n, dst, size, k);
    if dst <= k < dst + size {
      CopiedAt(c1, c2, src2, dst2, size2, n + (k - dst));
      CopiedAt(c, c1, src, n, size, n + (k - dst));
    } else {
      CopiedAt(c1, c2, src2, dst2, size2, k);
      CopiedAt(c, c1, src, n, size, if dst2 <= k < dst2 + size2 then src2 + (k - dst2) else k);
    }
  }

  lemma SwappedAt(c: seq<Instr>, a: nat, p: nat, q: nat, k: nat)
    requires a + p + q <= |c| && k < |c|
    ensures Swapped(c, a, p, q)[k] == if a <= k < a + q then c[k + p] else if a + q <= k < a + q + p
        then c[k - q] else c[k]
  {
  }

  lemma BackwardSwap(c: seq<Instr>, c1: seq<Instr>, c2: seq<Instr>, c3: seq<Instr>, n: nat, a: nat, p: nat, q: nat)
    requires ThreeCopies(c, c1, c2, c3, n, a + p, q, a, a, a + q, p) && a + p + q <= n
    ensures |c3| == |c| && n <= |c| && c3[..n] == Swapped(c[..n], a, p, q)
  {
    CopiesLength(c, c1, c2, c3, n, a + p, q, a, a, a + q, p);
    forall k | 0 <= k < n ensures c3[k] == Swapped(c[..n], a, p, q)[k] {
      hide ThreeCopies, Swapped;
      CopiesAt(c, c1, c2, c3, n, a + p, q, a, a, a + q, p, k);
      SwappedAt(c[..n], a, p, q, k);
    }
  }

  lemma ForwardSwap(c: seq<Instr>, c1: seq<Instr>, c2: seq<Instr>, c3: seq<Instr>, n: nat, a: nat, p: nat, q: nat)
    requires ThreeCopies(c, c1, c2, c3, n, a, p, a + q, a + p, a, q) && a + p + q <= n
    ensures |c3| == |c| && n <= |c| && c3[..n] == Swapped(c[..n], a, p, q)
  {
    CopiesLength(c, c1, c2, c3, n, a, p, a + q, a + p, a, q);
    forall k | 0 <= k < n ensures c3[k] == Swapped(c[..n], a, p, q)[k] {
      hide ThreeCopies, Swapped;
      CopiesAt(c, c1, c2, c3, n, a, p, a + q, a + p, a, q, k);
      SwappedAt(c[..n], a, p, q, k);
    }
  }

  lemma CopiesLength(c: seq<Instr>, c1: seq<Instr>, c2: seq<Instr>, c3: seq<Instr>, n: nat,
                     src: nat, size: nat, dst: nat, src2: nat, dst2: nat, size2: nat)
    requires ThreeCopies(c, c1, c2, c3, n, src, size, dst, src2, dst2, size2)
    ensures |c3| == |c| && n + size <= |c|
  {
  }
}

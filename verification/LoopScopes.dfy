/** Which loop keeps a symbol to its end, said in terms of the operations of a run and the scopes of the symbols. */
module LoopScopes {
  import opened CodeMotion
  import opened LastAccess

  /** How many loops are open: those opened, unless six were open, and not yet closed. */
  function Depth(ops: seq<Op>): nat {
    if ops == [] then 0
    else
      var d := Depth(ops[..|ops| - 1]);
      match ops[|ops| - 1]
      case Open => if d < 6 then d + 1 else d
      case Close => if d > 0 then d - 1 else 0
      case _ => d
  }

  lemma {:induction false} DepthIs(cfg: Config, ops: seq<Op>)
    ensures |Run(cfg, ops).frames| == Depth(ops) <= 6
  {
    hide MovedBack, Written;
    if ops != [] {
      DepthIs(cfg, ops[..|ops| - 1]);
      FramesStep(Run(cfg, ops[..|ops| - 1]), cfg, ops[|ops| - 1]);
    }
  }

  lemma FramesStep(g: Gen, cfg: Config, op: Op)
    ensures op.Write? ==> |Apply(g, cfg, op).frames| == |g.frames|
    ensures op.MoveBack? ==> Apply(g, cfg, op).frames == g.frames
  {
  }

  /** Operation u of the run emits an access to symbol s. */
  predicate AccessAt(cfg: Config, ops: seq<Op>, u: nat, s: nat) {
    u < |ops| && ops[u].Write? && Accesses(ops[u].i, s) && |Run(cfg, ops[..u]).code| < 4096
  }

  /**
   * It does so inside the loop at depth d, and that loop is the one to keep s: the outermost loop the symbol was not
   * created in, as the symbol is needed in all its rounds; or, if symbols are to be kept anyway, the innermost one.
   */
  predicate KeptBy(cfg: Config, ops: seq<Op>, u: nat, s: nat, d: nat) {
    && AccessAt(cfg, ops, u, s)
    && var n := Depth(ops[..u]); d < n && if cfg.scope(s) < n then d == cfg.scope(s) else cfg.safe && d == n - 1
  }

  /** The loop that is open at depth d before operation u has not been closed before operation t. */
  predicate StillOpen(ops: seq<Op>, u: nat, t: nat, d: nat) {
    u <= t <= |ops| && forall v | u <= v <= t :: Depth(ops[..v]) > d
  }

  ghost predicate Kept(cfg: Config, ops: seq<Op>, s: nat, d: nat) {
    exists u: nat :: KeptBy(cfg, ops, u, s, d) && StillOpen(ops, u, |ops|, d)
  }

  lemma KeptBefore(cfg: Config, ops: seq<Op>, u: nat, s: nat, d: nat)
    requires ops != [] && u < |ops| - 1
    ensures KeptBy(cfg, ops, u, s, d) <==> KeptBy(cfg, ops[..|ops| - 1], u, s, d)
  {
    hide Run, Depth, Accesses;
    var before := ops[..|ops| - 1];
    assert before[..u] == ops[..u] && before[u] == ops[u];
  }

  lemma OpenBefore(ops: seq<Op>, u: nat, d: nat)
    requires ops != [] && u < |ops|
    ensures StillOpen(ops, u, |ops|, d) <==> StillOpen(ops[..|ops| - 1], u, |ops| - 1, d) && Depth(ops) > d
  {
    hide Depth;
    var before := ops[..|ops| - 1];
    assert ops[..|ops|] == ops;
    assert StillOpen(ops, u, |ops|, d) ==> Depth(ops[..|ops|]) > d;
    forall v: nat | v <= |before| ensures before[..v] == ops[..v] {
    }
    if StillOpen(ops, u, |ops|, d) {
      forall v | u <= v <= |before| ensures Depth(before[..v]) > d {
        assert Depth(ops[..v]) > d;
      }
    }
    if StillOpen(before, u, |before|, d) && Depth(ops) > d {
      forall v | u <= v <= |ops| ensures Depth(ops[..v]) > d {
        if v < |ops| {
          assert Depth(before[..v]) > d;
        }
      }
    }
  }

  /** So what is kept was kept before, unless the last operation is an access. */
  lemma KeptStep(cfg: Config, ops: seq<Op>, s: nat, d: nat)
    requires ops != [] && d < Depth(ops)
    ensures Kept(cfg, ops, s, d) <==>
            Kept(cfg, ops[..|ops| - 1], s, d) || (KeptBy(cfg, ops, |ops| - 1, s, d) && d < Depth(ops[..|ops| - 1]))
  {
    hide KeptBy, StillOpen, Depth;
    var before, n := ops[..|ops| - 1], |ops| - 1;
    if Kept(cfg, ops, s, d) {
      var u: nat :| KeptBy(cfg, ops, u, s, d) && StillOpen(ops, u, |ops|, d);
      KeptIn(cfg, ops, u, s, d);
      OpenBefore(ops, u, d);
      if u < n {
        KeptBefore(cfg, ops, u, s, d);
      } else {
        OpenNow(before, d);
      }
    }
    if Kept(cfg, before, s, d) {
      var u: nat :| KeptBy(cfg, before, u, s, d) && StillOpen(before, u, n, d);
      KeptIn(cfg, before, u, s, d);
      KeptBefore(cfg, ops, u, s, d);
      OpenBefore(ops, u, d);
    }
    if KeptBy(cfg, ops, n, s, d) && d < Depth(before) {
      OpenNow(before, d);
      OpenBefore(ops, n, d);
    }
  }

  lemma KeptIn(cfg: Config, ops: seq<Op>, u: nat, s: nat, d: nat)
    requires KeptBy(cfg, ops, u, s, d)
    ensures u < |ops|
  {
  }

  lemma OpenNow(ops: seq<Op>, d: nat)
    ensures StillOpen(ops, |ops|, |ops|, d) <==> Depth(ops) > d
  {
    hide Depth;
    assert ops[..|ops|] == ops;
    if Depth(ops) > d {
      forall v | |ops| <= v <= |ops| ensures Depth(ops[..v]) > d {
        assert ops[..v] == ops;
      }
    }
  }

  lemma NothingKept(cfg: Config, ops: seq<Op>, s: nat, d: nat)
    requires Depth(ops) <= d
    ensures !Kept(cfg, ops, s, d)
  {
    hide Depth, KeptBy, StillOpen;
    forall u: nat ensures !StillOpen(ops, u, |ops|, d) {
      OpenLast(ops, u, d);
    }
  }

  lemma OpenLast(ops: seq<Op>, u: nat, d: nat)
    ensures StillOpen(ops, u, |ops|, d) ==> Depth(ops) > d
  {
    hide Depth;
    assert ops[..|ops|] == ops;
    if StillOpen(ops, u, |ops|, d) {
      assert Depth(ops[..|ops|]) > d;
    }
  }

  /** What one operation adds to the frames that stay. */
  lemma FrameStep(cfg: Config, ops: seq<Op>, s: nat, d: nat)
    requires ops != [] && d < |Run(cfg, ops).frames|
    ensures var before := ops[..|ops| - 1];
            s in Run(cfg, ops).frames[d] <==>
              d < |Run(cfg, before).frames| &&
              (s in Run(cfg, before).frames[d] || KeptBy(cfg, ops, |ops| - 1, s, d))
  {
    hide MovedBack, Depth;
    var before := ops[..|ops| - 1];
    DepthIs(cfg, before);
    DepthIs(cfg, ops);
    FramesStep(Run(cfg, before), cfg, ops[|ops| - 1]);
  }

  /**
   * In every run, an open loop is going to keep a symbol exactly if an access that it is to keep was emitted since it
   * was opened.
   */
  lemma {:induction false} KeptExactly(cfg: Config, ops: seq<Op>, s: nat, d: nat)
    requires d < Depth(ops)
    ensures |Run(cfg, ops).frames| == Depth(ops)
    ensures s in Run(cfg, ops).frames[d] <==> Kept(cfg, ops, s, d)
  {
    hide Run, Depth, KeptBy, Kept;
    DepthIs(cfg, ops);
    if ops == [] {
      DepthNone();
    } else {
      var before := ops[..|ops| - 1];
      DepthIs(cfg, before);
      FrameStep(cfg, ops, s, d);
      KeptStep(cfg, ops, s, d);
      if d < Depth(before) {
        KeptExactly(cfg, before, s, d);
      } else {
        NothingKept(cfg, before, s, d);
      }
    }
  }

  lemma DepthNone()
    ensures Depth([]) == 0
  {
  }

  /**
   * When a loop ends, its end is the last access of every symbol it is to keep, whatever was recorded before; nothing
   * else changes.
   */
  lemma {:induction false} KeptToEnd(cfg: Config, ops: seq<Op>, s: nat)
    requires Depth(ops) > 0
    ensures var g, n, end := Run(cfg, ops), Run(cfg, ops + [Close]), |Run(cfg, ops).code|;
            && n.code == g.code && Depth(ops + [Close]) == Depth(ops) - 1
            && (Kept(cfg, ops, s, Depth(ops) - 1) ==> s in n.last && n.last[s] == end)
            && (!Kept(cfg, ops, s, Depth(ops) - 1) ==>
                  (s in n.last <==> s in g.last) && (s in n.last ==> n.last[s] == g.last[s]))
  {
    hide Kept;
    assert (ops + [Close])[..|ops|] == ops;
    DepthIs(cfg, ops);
    KeptExactly(cfg, ops, s, Depth(ops) - 1);
    RunStep(cfg, ops, Close);
  }

  /** An access in a loop to a symbol created outside of it, and the end of that loop. */
  lemma {:induction false} AccessKept(cfg: Config, ops: seq<Op>, u: nat, s: nat)
    requires AccessAt(cfg, ops, u, s) && cfg.scope(s) < Depth(ops[..u])
    requires StillOpen(ops, u, |ops|, cfg.scope(s)) && Depth(ops) == cfg.scope(s) + 1
    ensures s in Run(cfg, ops + [Close]).last && Run(cfg, ops + [Close]).last[s] == |Run(cfg, ops).code|
  {
    hide Run, Depth, AccessAt, StillOpen;
    assert KeptBy(cfg, ops, u, s, cfg.scope(s));
    assert Kept(cfg, ops, s, cfg.scope(s));
    KeptToEnd(cfg, ops, s);
  }

  /** From then on, until code is moved, the symbol is not given up before that address. */
  lemma {:induction false} StaysBehind(cfg: Config, ops: seq<Op>, more: seq<Op>, s: nat, end: nat)
    requires s in Run(cfg, ops).last && end <= Run(cfg, ops).last[s] && end <= |Run(cfg, ops).code|
    requires forall i | 0 <= i < |more| :: !more[i].MoveBack?
    ensures s in Run(cfg, ops + more).last && end <= Run(cfg, ops + more).last[s]
    ensures end <= |Run(cfg, ops + more).code|
  {
    if more == [] {
      assert ops + more == ops;
    } else {
      var before, op := more[..|more| - 1], more[|more| - 1];
      StaysBehind(cfg, ops, before, s, end);
      assert ops + more == ops + before + [op];
      hide Run;
      RunStep(cfg, ops + before, op);
      AlwaysCovered(cfg, ops + before);
      LastGrows(Run(cfg, ops + before), cfg, op, s, end);
    }
  }

  lemma LastGrows(g: Gen, cfg: Config, op: Op, s: nat, end: nat)
    requires !op.MoveBack? && s in g.last && end <= g.last[s] && end <= |g.code| <= CAPACITY
    ensures var n := Apply(g, cfg, op); s in n.last && end <= n.last[s] && end <= |n.code|
  {
  }

  // ---------------------------------------------------------------- symbols whose address is taken

  /** Once its address has been taken, a symbol is recorded as accessed behind every address there can be. */
  lemma {:induction false} LoadNeverReleased(cfg: Config, ops: seq<Op>, i: Instr, s: nat)
    requires Loads(i, s) && |Run(cfg, ops).code| < 4096
    ensures s in Run(cfg, ops + [Write(i)]).last && Run(cfg, ops + [Write(i)]).last[s] == 0xFFFF
  {
    hide Run;
    RunStep(cfg, ops, Write(i));
  }

  /**
   * That lasts, until code is moved, exactly as long as no access to the symbol is emitted that no loop keeps, and no
   * loop ends that keeps it.
   */
  lemma {:induction false} NeverLasts(cfg: Config, ops: seq<Op>, op: Op, s: nat)
    requires s in Run(cfg, ops).last && Run(cfg, ops).last[s] == 0xFFFF && !op.MoveBack?
    ensures s in Run(cfg, ops + [op]).last
    ensures var d := Depth(ops);
            Run(cfg, ops + [op]).last[s] == 0xFFFF <==>
              match op
              case Write(i) =>
                Accesses(i, s) ==> |Run(cfg, ops).code| == 4096 || (d > 0 && (cfg.scope(s) < d || cfg.safe))
              case Close => d > 0 ==> !Kept(cfg, ops, s, d - 1)
              case _ => true
  {
    hide Kept;
    assert (ops + [op])[..|ops|] == ops;
    DepthIs(cfg, ops);
    AlwaysCovered(cfg, ops);
    RunStep(cfg, ops, op);
    if op.Close? && Depth(ops) > 0 {
      KeptExactly(cfg, ops, s, Depth(ops) - 1);
    }
  }
}

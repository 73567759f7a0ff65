/** The bus arbiter: several masters take turns on one slave port. */
module WbArbiter {

  /** Grant register, its validity, and the masters that may still be granted in this round. */
  datatype Arbiter = Arbiter(sel: nat, granted: bool, mask: seq<bool>)

  /** Which masters have their cyc signal high. */
  type Requests = seq<bool>

  predicate Fits(a: Arbiter, cyc: Requests) {
    |cyc| == |a.mask| && a.sel < |cyc|
  }

  function ResetArbiter(n: nat): Arbiter {
    Arbiter(0, false, seq(n, i => true))
  }

  /** Master i requests and may be granted. */
  predicate Eligible(a: Arbiter, cyc: Requests, i: nat) {
    i < |cyc| && i < |a.mask| && cyc[i] && a.mask[i]
  }

  /** The lowest eligible master from i on; |cyc| if there is none. */
  function PickFrom(a: Arbiter, cyc: Requests, i: nat): (p: nat)
    requires i <= |cyc|
    ensures i <= p <= |cyc| && (p < |cyc| ==> Eligible(a, cyc, p))
    ensures forall j | i <= j < p :: !Eligible(a, cyc, j)
    decreases |cyc| - i
  {
    if i == |cyc| || Eligible(a, cyc, i) then i else PickFrom(a, cyc, i + 1)
  }

  predicate SomePick(a: Arbiter, cyc: Requests) {
    PickFrom(a, cyc, 0) < |cyc|
  }

  /** The picked master; master 0 if none is eligible. */
  function Pick(a: Arbiter, cyc: Requests): nat {
    if SomePick(a, cyc) then PickFrom(a, cyc, 0) else 0
  }

  /** Nobody holds the bus in this cycle. */
  predicate Idle(a: Arbiter, cyc: Requests)
    requires Fits(a, cyc)
  {
    !a.granted || !cyc[a.sel]
  }

  /** The registers after one clock edge. */
  function NextArbiter(a: Arbiter, cyc: Requests): (n: Arbiter)
    requires Fits(a, cyc)
    ensures Fits(n, cyc)
  {
    var p := Pick(a, cyc);
    Arbiter(
      if Idle(a, cyc) then p else a.sel,
      SomePick(a, cyc),
      if !SomePick(a, cyc) then seq(|a.mask|, i => true)
      else if p != a.sel && a.granted then a.mask[a.sel := false]
      else a.mask)
  }

  predicate Connected(a: Arbiter, i: nat) {
    a.granted && a.sel == i
  }

  class ArbiterProcess {
    var a: Arbiter

    constructor (n: nat)
      ensures a == ResetArbiter(n)
    {
      a := ResetArbiter(n);
    }

    /** One clock edge: the priority pick runs over all masters, the lowest assignment wins. */
    method Clock(cyc: Requests)
      requires Fits(a, cyc)
      modifies this
      ensures a == NextArbiter(old(a), cyc)
    {
      var masterSel, masterSelValid := 0, false;
      for i := |cyc| downto 0
        invariant a == old(a)
        invariant masterSelValid == (PickFrom(a, cyc, i) < |cyc|)
        invariant masterSel == if masterSelValid then PickFrom(a, cyc, i) else 0
      {
        if cyc[i] && a.mask[i] {
          masterSel, masterSelValid := i, true;
        }
      }
      var n := a.(granted := masterSelValid);
      if !a.granted || !cyc[a.sel] {
        n := n.(sel := masterSel);
      }
      if masterSel != a.sel && a.granted {
        n := n.(mask := n.mask[a.sel := false]);
      }
      if !masterSelValid {
        n := n.(mask := seq(|a.mask|, i => true));
      }
      a := n;
    }
  }

  // ---------------------------------------------------------------- runs

  predicate AllFit(n: nat, reqs: seq<Requests>) {
    n > 0 && forall t | 0 <= t < |reqs| :: |reqs[t]| == n
  }

  /** The registers after the given cycles, from reset. */
  function Run(n: nat, reqs: seq<Requests>): (a: Arbiter)
    requires AllFit(n, reqs)
    ensures |a.mask| == n && a.sel < n
  {
    if reqs == [] then ResetArbiter(n)
    else NextArbiter(Run(n, reqs[..|reqs| - 1]), reqs[|reqs| - 1])
  }

  /** Who requests in one cycle without being connected requests in the next. */
  predicate Waits(a: Arbiter, cyc: Requests, cyc': Requests) {
    |cyc'| == |cyc| && forall i | 0 <= i < |cyc| && cyc[i] && !Connected(a, i) :: cyc'[i]
  }

  predicate PatientAt(n: nat, reqs: seq<Requests>, t: nat)
    requires AllFit(n, reqs) && t + 1 < |reqs|
  {
    Waits(Run(n, reqs[..t]), reqs[t], reqs[t + 1])
  }

  /** All masters keep requesting until they are connected. */
  ghost predicate Patient(n: nat, reqs: seq<Requests>)
    requires AllFit(n, reqs)
  {
    forall t | 0 <= t < |reqs| - 1 :: PatientAt(n, reqs, t)
  }

  // ---------------------------------------------------------------- a grant is kept

  /** A connected master that still requests is eligible, or somebody else is. */
  predicate Kept(a: Arbiter, cyc: Requests)
    requires Fits(a, cyc)
  {
    a.granted && cyc[a.sel] ==> SomePick(a, cyc)
  }

  lemma EligiblePick(a: Arbiter, cyc: Requests, i: nat)
    requires Eligible(a, cyc, i)
    ensures SomePick(a, cyc) && Pick(a, cyc) <= i
  {
  }

  lemma KeptStep(a: Arbiter, cyc: Requests, cyc': Requests)
    requires Fits(a, cyc) && Kept(a, cyc) && Waits(a, cyc, cyc')
    ensures Kept(NextArbiter(a, cyc), cyc')
  {
    var n := NextArbiter(a, cyc);
    if n.granted && cyc'[n.sel] {
      var p := Pick(a, cyc);
      if Connected(a, p) {
        EligiblePick(n, cyc', n.sel);
      } else {
        EligiblePick(n, cyc', p);
      }
    }
  }

  lemma {:induction false} RunKept(n: nat, reqs: seq<Requests>)
    requires AllFit(n, reqs) && reqs != [] && Patient(n, reqs)
    ensures Kept(Run(n, reqs[..|reqs| - 1]), reqs[|reqs| - 1])
  {
    var before := reqs[..|reqs| - 1];
    if before != [] {
      var t := |before| - 1;
      forall u | 0 <= u < |before| - 1 ensures PatientAt(n, before, u) {
        assert PatientAt(n, reqs, u) && before[..u] == reqs[..u];
      }
      RunKept(n, before);
      assert PatientAt(n, reqs, t) && before[..t] == reqs[..t];
      KeptStep(Run(n, reqs[..t]), reqs[t], reqs[t + 1]);
    }
  }

  /** The cycle in which the present round of grants began: the one after the last in which nobody was eligible. */
  function RoundStart(n: nat, reqs: seq<Requests>): (t: nat)
    requires AllFit(n, reqs)
    ensures t <= |reqs|
  {
    if reqs == [] then 0
    else
      var before := reqs[..|reqs| - 1];
      if SomePick(Run(n, before), reqs[|reqs| - 1]) then RoundStart(n, before) else |reqs|
  }

  /** In cycle t master j is connected, but another one is picked. */
  predicate PassedAt(n: nat, reqs: seq<Requests>, t: nat, j: nat)
    requires AllFit(n, reqs) && t < |reqs|
  {
    Connected(Run(n, reqs[..t]), j) && Pick(Run(n, reqs[..t]), reqs[t]) != j
  }

  /** In the present round another master has been picked while j was connected. */
  ghost predicate PassedOver(n: nat, reqs: seq<Requests>, j: nat)
    requires AllFit(n, reqs)
  {
    exists t :: RoundStart(n, reqs) <= t < |reqs| && PassedAt(n, reqs, t, j)
  }

  /** The mask remembers just that. */
  lemma {:induction false} MaskIsHistory(n: nat, reqs: seq<Requests>, j: nat)
    requires AllFit(n, reqs) && j < n
    ensures Run(n, reqs).mask[j] <==> !PassedOver(n, reqs, j)
  {
    if reqs != [] {
      var before, t := reqs[..|reqs| - 1], |reqs| - 1;
      MaskIsHistory(n, before, j);
      assert reqs[..t] == before;
      if SomePick(Run(n, before), reqs[t]) {
        PassedBefore(n, reqs, j);
        assert PassedOver(n, reqs, j) <==> PassedOver(n, before, j) || PassedAt(n, reqs, t, j);
      }
    }
  }

  lemma {:induction false} PassedBefore(n: nat, reqs: seq<Requests>, j: nat)
    requires AllFit(n, reqs) && reqs != [] && SomePick(Run(n, reqs[..|reqs| - 1]), reqs[|reqs| - 1])
    ensures PassedOver(n, reqs, j) <==> PassedOver(n, reqs[..|reqs| - 1], j) || PassedAt(n, reqs, |reqs| - 1, j)
  {
    hide Pick;
    var before := reqs[..|reqs| - 1];
    forall t | 0 <= t < |before| ensures PassedAt(n, before, t, j) <==> PassedAt(n, reqs, t, j) {
      assert before[..t] == reqs[..t];
    }
    if PassedOver(n, before, j) {
      var t :| RoundStart(n, before) <= t < |before| && PassedAt(n, before, t, j);
      assert PassedAt(n, reqs, t, j);
    }
    if PassedOver(n, reqs, j) {
      var t :| RoundStart(n, reqs) <= t < |reqs| && PassedAt(n, reqs, t, j);
      assert t < |before| ==> PassedAt(n, before, t, j);
    }
  }

  /**
   * Exactly when a grant in use is kept, in every run: a connected master that requests stays connected if and only if
   * some requesting master, be it itself, has not been passed over in the present round.
   */
  lemma {:induction false} GrantKeptExactly(n: nat, reqs: seq<Requests>, i: nat)
    requires AllFit(n, reqs) && reqs != [] && i < n
    requires Connected(Run(n, reqs[..|reqs| - 1]), i) && reqs[|reqs| - 1][i]
    ensures var before, last := reqs[..|reqs| - 1], reqs[|reqs| - 1];
            && (Connected(Run(n, reqs), i) <==> exists j :: Eligible(Run(n, before), last, j))
            && (Connected(Run(n, reqs), i) <==> exists j :: 0 <= j < n && last[j] && !PassedOver(n, before, j))
  {
    var before, last := reqs[..|reqs| - 1], reqs[|reqs| - 1];
    var a := Run(n, before);
    assert Connected(Run(n, reqs), i) <==> SomePick(a, last);
    hide Run, PassedOver;
    if j :| Eligible(a, last, j) {
      EligiblePick(a, last, j);
      MaskIsHistory(n, before, j);
    }
    forall j | 0 <= j < n && last[j] && !PassedOver(n, before, j) ensures Eligible(a, last, j) {
      MaskIsHistory(n, before, j);
    }
    assert SomePick(a, last) ==> Eligible(a, last, PickFrom(a, last, 0));
  }

  /** If all masters wait patiently, a connected master stays connected for as long as it requests. */
  lemma GrantIsKept(n: nat, reqs: seq<Requests>, i: nat)
    requires AllFit(n, reqs) && reqs != [] && Patient(n, reqs)
    requires i < n && Connected(Run(n, reqs[..|reqs| - 1]), i) && reqs[|reqs| - 1][i]
    ensures Connected(Run(n, reqs), i)
  {
    RunKept(n, reqs);
  }

  /** Without that patience it need not: here master 1 loses a grant it still uses, as master 0 gives up. */
  lemma ImpatienceBreaksGrant()
    ensures var reqs := [[false, true], [true, true], [false, true]];
            Connected(Run(2, reqs[..2]), 1) && reqs[2][1] && !Connected(Run(2, reqs), 1)
  {
    var r1, r2, r3 := [false, true], [true, true], [false, true];
    var a1 := Arbiter(1, true, [true, true]);
    var a2 := Arbiter(1, true, [true, false]);
    assert Run(2, [r1]) == a1 by { assert [r1][..0] == []; }
    assert Run(2, [r1, r2]) == a2 by { assert [r1, r2][..1] == [r1]; }
    assert [r1, r2, r3][..2] == [r1, r2];
    assert !SomePick(a2, r3);
  }

  // ---------------------------------------------------------------- nobody starves

  /** Master j may be granted before the round is over. */
  predicate Open(a: Arbiter, j: nat) {
    j < |a.mask| && a.mask[j] && !Connected(a, j)
  }

  /** How often j may still be granted while w waits: now if it is open, once more if w has to wait for a new round. */
  function GrantsLeft(a: Arbiter, w: nat, j: nat): nat
    requires w < |a.mask|
  {
    (if a.mask[w] then 0 else 1) + if Open(a, j) then 1 else 0
  }

  function NewGrant(a: Arbiter, a': Arbiter, j: nat): nat {
    if Connected(a', j) && !Connected(a, j) then 1 else 0
  }

  /** Master w requests and is not connected. */
  predicate Waiting(a: Arbiter, cyc: Requests, w: nat) {
    w < |cyc| && cyc[w] && !Connected(a, w)
  }

  lemma GrantsStep(a: Arbiter, cyc: Requests, w: nat, j: nat)
    requires Fits(a, cyc) && Waiting(a, cyc, w) && j < |cyc| && j != w
    ensures var n := NextArbiter(a, cyc);
            GrantsLeft(n, w, j) + NewGrant(a, n, j) <= GrantsLeft(a, w, j)
  {
    if a.mask[w] {
      EligiblePick(a, cyc, w);
    }
  }

  /** Master w waits in all cycles from t on. */
  ghost predicate WaitsSince(n: nat, reqs: seq<Requests>, t: nat, w: nat)
    requires AllFit(n, reqs)
  {
    forall u | t <= u < |reqs| :: Waiting(Run(n, reqs[..u]), reqs[u], w)
  }

  /** How often master j is newly granted in the cycles from t on. */
  function Grants(n: nat, reqs: seq<Requests>, t: nat, j: nat): nat
    requires AllFit(n, reqs)
  {
    if |reqs| <= t then 0
    else
      var before := reqs[..|reqs| - 1];
      Grants(n, before, t, j) + NewGrant(Run(n, before), Run(n, reqs), j)
  }

  lemma {:induction false} GrantsBound(n: nat, reqs: seq<Requests>, t: nat, w: nat, j: nat)
    requires AllFit(n, reqs) && t <= |reqs| && w < n && j < n && j != w && WaitsSince(n, reqs, t, w)
    ensures GrantsLeft(Run(n, reqs), w, j) + Grants(n, reqs, t, j) <= GrantsLeft(Run(n, reqs[..t]), w, j)
  {
    if t == |reqs| {
      assert reqs[..t] == reqs;
    } else {
      var before := reqs[..|reqs| - 1];
      assert forall u | t <= u < |before| :: before[..u] == reqs[..u];
      assert before[..t] == reqs[..t];
      GrantsBound(n, before, t, w, j);
      GrantsStep(Run(n, before), reqs[|reqs| - 1], w, j);
    }
  }

  /** While one master waits, no other master is newly granted more than twice. */
  lemma AtMostTwice(n: nat, reqs: seq<Requests>, t: nat, w: nat, j: nat)
    requires AllFit(n, reqs) && t <= |reqs| && w < n && j < n && j != w && WaitsSince(n, reqs, t, w)
    ensures Grants(n, reqs, t, j) <= 2
  {
    GrantsBound(n, reqs, t, w, j);
  }

  /** How many of the first k masters are open. */
  function OpenCount(a: Arbiter, k: nat): (c: nat)
    ensures c <= k
  {
    if k == 0 then 0 else OpenCount(a, k - 1) + if Open(a, k - 1) then 1 else 0
  }

  /** Bounds the idle cycles to come while w waits. */
  function IdleLeft(a: Arbiter, w: nat): nat
    requires w < |a.mask|
  {
    (if a.mask[w] then 0 else |a.mask| + 1) + OpenCount(a, |a.mask|)
  }

  lemma {:induction false} OpenShrinks(a: Arbiter, a': Arbiter, k: nat)
    requires forall j | 0 <= j < k && Open(a', j) :: Open(a, j)
    ensures OpenCount(a', k) <= OpenCount(a, k)
    ensures (exists j :: 0 <= j < k && Open(a, j) && !Open(a', j)) ==> OpenCount(a', k) < OpenCount(a, k)
  {
    if k > 0 {
      OpenShrinks(a, a', k - 1);
    }
  }

  lemma IdleStep(a: Arbiter, cyc: Requests, w: nat)
    requires Fits(a, cyc) && Waiting(a, cyc, w)
    ensures IdleLeft(NextArbiter(a, cyc), w) + (if BusFree(a, cyc) then 1 else 0) <= IdleLeft(a, w)
  {
    assert BusFree(a, cyc) <==> Idle(a, cyc) by {
      assert a.granted && cyc[a.sel] ==> Connected(a, a.sel);
    }
    var n := NextArbiter(a, cyc);
    if a.mask[w] {
      EligiblePick(a, cyc, w);
    }
    if SomePick(a, cyc) {
      OpenShrinks(a, n, |a.mask|);
      if Idle(a, cyc) {
        assert Open(a, Pick(a, cyc)) && !Open(n, Pick(a, cyc));
      }
    }
  }

  /** No connected master requests. */
  predicate BusFree(a: Arbiter, cyc: Requests) {
    forall i | 0 <= i < |cyc| && cyc[i] :: !Connected(a, i)
  }

  /** The cycles from t on in which nobody holds the bus. */
  function IdleCycles(n: nat, reqs: seq<Requests>, t: nat): nat
    requires AllFit(n, reqs)
  {
    if |reqs| <= t then 0
    else
      var before := reqs[..|reqs| - 1];
      IdleCycles(n, before, t) + if BusFree(Run(n, before), reqs[|reqs| - 1]) then 1 else 0
  }

  lemma {:induction false} IdleBound(n: nat, reqs: seq<Requests>, t: nat, w: nat)
    requires AllFit(n, reqs) && t <= |reqs| && w < n && WaitsSince(n, reqs, t, w)
    ensures IdleLeft(Run(n, reqs), w) + IdleCycles(n, reqs, t) <= IdleLeft(Run(n, reqs[..t]), w)
  {
    if t == |reqs| {
      assert reqs[..t] == reqs;
    } else {
      var before := reqs[..|reqs| - 1];
      assert forall u | t <= u < |before| :: before[..u] == reqs[..u];
      assert before[..t] == reqs[..t];
      IdleBound(n, before, t, w);
      IdleStep(Run(n, before), reqs[|reqs| - 1], w);
    }
  }

  /** A master that keeps requesting is connected before the bus has been free for more than 2n + 1 cycles. */
  lemma NobodyStarves(n: nat, reqs: seq<Requests>, t: nat, w: nat)
    requires AllFit(n, reqs) && t <= |reqs| && w < n && WaitsSince(n, reqs, t, w)
    ensures IdleCycles(n, reqs, t) <= 2 * n + 1
  {
    IdleBound(n, reqs, t, w);
  }
}

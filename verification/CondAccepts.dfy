/** Which token sequences the condition parser accepts, and how many labels that takes. */
module CondAccepts {
  import opened CondSyntax
  import opened CondJumps
  import opened CondCorrect

  /** The text is that of a level and, behind it, what begins with a closing bracket. */
  predicate LevelThen(l: Level, toks: seq<Token>, rest: seq<Token>) {
    Written(l) && EndsLevel(rest) && toks == Print(l) + rest
  }

  /** What is accepted is the text of a level. */
  lemma {:induction false} AcceptedIsLevel(g: Gen, toks: seq<Token>, mode: set<Join>, t: nat, e: nat)
      returns (l: Level)
    requires ParseLevel(g, toks, mode, t, e).Parsed?
    ensures LevelThen(l, toks, ParseLevel(g, toks, mode, t, e).rest)
    decreases |toks|, 1
  {
    hide PlaceGroup, ReadAtom, EmitTest, Print, Written, Highest;
    if StartsGroup(toks) {
      var two := TakeTwo(g);
      var inner := ParseLevel(two.2, toks[1..], {}, two.0, two.1);
      var l0 := AcceptedIsLevel(two.2, toks[1..], {}, two.0, two.1);
      var rest := inner.rest[1..];
      GroupRead(l0, toks, inner.rest);
      if EndsLevel(rest) {
        l := Last(Group(l0));
        LevelRead(l, toks, rest, rest);
      } else {
        var more := AcceptedIsLevel(PlaceGroup(inner.g, |g.code|, two.0, two.1, rest[0].op == Or, t, e), rest[1..],
                                    {rest[0].op}, t, e);
        l := More(Group(l0), rest[0].op, more);
        LevelRead(l, toks, rest, ParseLevel(g, toks, mode, t, e).rest);
      }
    } else {
      l := SingleAccepted(g, toks, mode, t, e);
    }
  }

  lemma {:induction false} SingleAccepted(g: Gen, toks: seq<Token>, mode: set<Join>, t: nat, e: nat)
      returns (l: Level)
    requires ParseLevel(g, toks, mode, t, e).Parsed? && !StartsGroup(toks)
    ensures LevelThen(l, toks, ParseLevel(g, toks, mode, t, e).rest)
    decreases |toks|, 0
  {
    hide ReadAtom, EmitTest, Print, Written, StartsGroup;
    var atom := ReadAtom(toks);
    AtomText(toks);
    if EndsLevel(atom.1) {
      l := Last(Single(atom.0));
      LevelRead(l, toks, atom.1, atom.1);
    } else {
      var or := atom.1[0].op == Or;
      var more := AcceptedIsLevel(EmitTest(g, atom.0, !or, if or then t else e), atom.1[1..], {atom.1[0].op}, t, e);
      l := More(Single(atom.0), atom.1[0].op, more);
      LevelRead(l, toks, atom.1, ParseLevel(g, toks, mode, t, e).rest);
    }
  }

  /** The text of a comparison that has been read. */
  lemma AtomText(toks: seq<Token>)
    requires ReadAtom(toks).2
    ensures var r := ReadAtom(toks); ElemWritten(Single(r.0)) && toks == PrintElem(Single(r.0)) + r.1
  {
    hide OperandLength, Balanced;
    var n := OperandLength(toks, 0);
    var more := toks[n + 1..];
    var m := OperandLength(more, 0);
    assert toks == toks[..n] + [toks[n]] + (more[..m] + more[m..]);
  }

  lemma GroupRead(l0: Level, toks: seq<Token>, rest: seq<Token>)
    requires StartsGroup(toks) && LevelThen(l0, toks[1..], rest)
    ensures ElemWritten(Group(l0)) && toks == PrintElem(Group(l0)) + rest[1..]
  {
    assert toks == [Open] + (Print(l0) + ([Close] + rest[1..]));
  }

  /** An element, then the end of the level or an operator and more elements. */
  lemma LevelRead(l: Level, toks: seq<Token>, behind: seq<Token>, rest: seq<Token>)
    requires ElemWritten(l.e) && toks == PrintElem(l.e) + behind
    requires if l.Last? then behind == rest && EndsLevel(rest)
             else behind != [] && behind[0] == Junction(l.op) && LevelThen(l.rest, behind[1..], rest)
    ensures LevelThen(l, toks, rest)
  {
    hide PrintElem, ElemWritten;
    if l.More? {
      assert behind == [Junction(l.op)] + (Print(l.rest) + rest);
      assert toks == PrintElem(l.e) + [Junction(l.op)] + Print(l.rest) + rest;
    }
  }

  /**
   * The parser accepts a token sequence exactly if it begins with the text of a condition that has one operator in
   * each bracket level, is not nested too deeply for the labels, and has a closing bracket behind it; it leaves over
   * what follows.
   */
  lemma {:induction false} AcceptedExactly(g: Gen, toks: seq<Token>, t: nat, e: nat, rest: seq<Token>)
    requires g.Ids() && t !in g.free && e !in g.free
    ensures var r := ParseLevel(g, toks, {}, t, e);
            r.Parsed? && r.rest == rest <==> exists l :: LevelThen(l, toks, rest) && Uniform(l, {}) && Enough(g, l)
  {
    hide ParseLevel, Written, Print, Uniform, Enough, Code;
    var r := ParseLevel(g, toks, {}, t, e);
    if r.Parsed? {
      var l := AcceptedIsLevel(g, toks, {}, t, e);
      assert r.rest == [Close] + r.rest[1..];
      ParsesLevel(g, l, {}, t, e, r.rest[1..]);
      assert LevelThen(l, toks, r.rest) && Uniform(l, {}) && Enough(g, l);
    }
    if l :| LevelThen(l, toks, rest) && Uniform(l, {}) && Enough(g, l) {
      assert rest == [Close] + rest[1..];
      ParsesLevel(g, l, {}, t, e, rest[1..]);
    }
  }

  // ---------------------------------------------------------------- labels

  function Below(n: nat): set<nat> {
    if n == 0 then {} else Below(n - 1) + {n - 1}
  }

  lemma {:induction false} BelowIs(n: nat)
    ensures |Below(n)| == n && forall x: nat :: x in Below(n) <==> x < n
  {
    if n > 0 {
      BelowIs(n - 1);
    }
  }

  lemma {:induction false} FreeCount(free: set<nat>, n: nat, t: nat, e: nat)
    requires t < n && e < n && t != e && forall x: nat :: x in free <==> x < n && x != t && x != e
    ensures |free| == n - 2
  {
    BelowIs(n);
    var all := Below(n);
    hide Below;
    assert free == all - {t} - {e};
    assert |all - {t}| == |all| - 1 && |all - {t} - {e}| == |all| - 2;
  }

  /** With none of the 31 labels in use but the two of the condition itself, 14 brackets may be nested. */
  lemma {:induction false} NestingLimit(g: Gen, l: Level, t: nat, e: nat)
    requires t < 31 && e < 31 && t != e && forall x: nat :: x in g.free <==> x < 31 && x != t && x != e
    ensures g.Ids() && (Enough(g, l) <==> Depth(l) <= 14)
  {
    FreeCount(g.free, 31, t, e);
  }
}

// The other half of the generator's contract: every admissible program is
// offered, and no program is offered twice. Together with
// `CandidatesWellFormed` this makes the candidates exactly the admissible
// programs, each once.
module Completeness {
  import opened Instructions
  import opened Programs
  import opened Enumeration

  /** No element occurs twice. */
  ghost predicate Distinct<T>(s: seq<T>) {
    forall i, j :: 0 <= i < j < |s| ==> s[i] != s[j]
  }

  /** Slot `x` combines action `a` and colour `c` of the lists, where
      `(a, c)` comes at or after `(ai, ci)` in the action-major order of
      the search. */
  ghost predicate DrawnAtOrAfter(x: ProgramSlot, actions: seq<ProgramAction>, colors: seq<FieldColor>,
                                 ai: int, ci: int) {
    exists a, c :: 0 <= a < |actions| && 0 <= c < |colors| && (ai < a || (ai == a && ci <= c)) &&
                   x == ProgramSlot(actions[a], colors[c])
  }

  // ---------------------------------------------------------------------
  // Small facts

  lemma DistinctAppend<T>(a: seq<T>, b: seq<T>)
    requires Distinct(a) && Distinct(b) && forall x :: x in a ==> x !in b
    ensures Distinct(a + b)
  {
    var r := a + b;
    forall i, j | 0 <= i < j < |r| ensures r[i] != r[j] {
      if j < |a| {
        assert r[i] == a[i] && r[j] == a[j];
      } else if i >= |a| {
        assert r[i] == b[i - |a|] && r[j] == b[j - |a|];
      } else {
        assert r[i] == a[i] && a[i] in a && r[j] == b[j - |a|];
      }
    }
  }

  /** The action list names each action once. */
  lemma ActionsDistinct(funcCount: int)
    ensures Distinct(AvailableActions(funcCount))
  {
    var r := AvailableActions(funcCount);
    forall i, j | 0 <= i < j < |r| ensures r[i] != r[j] {
      if j >= 3 && i >= 3 {
        assert r[i].Target() == i - 3 && r[j].Target() == j - 3;
      }
    }
  }

  /** The colour list names each colour once. */
  lemma ColorsDistinct(useRed: bool, useGreen: bool, useBlue: bool)
    ensures Distinct(AvailableColors(useRed, useGreen, useBlue))
  {
    var r := AvailableColors(useRed, useGreen, useBlue);
    forall i, j | 0 <= i < j < |r| ensures r[i] != r[j] {
      assert ColorRank(r[i]) < ColorRank(r[j]);
    }
  }

  /** With each action and colour listed once, the slot of `(ai, ci)` is
      not drawn again later in the scan. */
  lemma SlotNotLater(actions: seq<ProgramAction>, colors: seq<FieldColor>, ai: nat, ci: nat)
    requires Distinct(actions) && Distinct(colors) && ai < |actions| && ci < |colors|
    ensures !DrawnAtOrAfter(ProgramSlot(actions[ai], colors[ci]), actions, colors, ai, ci + 1)
  {
    forall a, c | 0 <= a < |actions| && 0 <= c < |colors| && (ai < a || (ai == a && ci + 1 <= c))
      ensures ProgramSlot(actions[ai], colors[ci]) != ProgramSlot(actions[a], colors[c])
    {
      if ai < a {
        assert actions[ai] != actions[a];
      } else {
        assert colors[ci] != colors[c];
      }
    }
  }

  /** No blank slot is drawn when the action list does not offer `None`. */
  lemma BlankNotDrawn(actions: seq<ProgramAction>, colors: seq<FieldColor>)
    requires ProgramAction.None !in actions
    ensures forall ai, ci :: !DrawnAtOrAfter(Blank, actions, colors, ai, ci)
  {
    forall a, c | 0 <= a < |actions| && 0 <= c < |colors|
      ensures Blank != ProgramSlot(actions[a], colors[c])
    {
      assert actions[a] in actions;
    }
  }

  /** The same run of slots is counted on two buffers that agree up to it. */
  lemma {:induction false} SameRunAgree(code: seq<ProgramSlot>, body: seq<ProgramSlot>, i: int, s: ProgramSlot)
    requires -1 <= i < |code| && i < |body| && code[..i + 1] == body[..i + 1]
    ensures SameRun(code, i, s) == SameRun(body, i, s)
    decreases i + 1
  {
    if i >= 0 {
      assert code[i] == code[..i + 1][i] && body[i] == body[..i + 1][i];
      assert code[..i] == code[..i + 1][..i] && body[..i] == body[..i + 1][..i];
      SameRunAgree(code, body, i - 1, s);
    }
  }

  /** A slot of a body that obeys the pruning rules is not pruned when the
      buffer holds the same slots before it. */
  lemma NotSkipped(f: int, body: seq<ProgramSlot>, code: seq<ProgramSlot>, depth: int)
    requires 0 <= depth < |body| && depth <= |code| && code[..depth] == body[..depth]
    requires NoOppositeTurns(body) && TurnRunsCapped(body) && NoImmediateSelfCall(f, body)
    ensures !Skipped(code, f, depth, body[depth])
  {
    var s := body[depth];
    SameRunAgree(code, body, depth - 1, s);
    if depth > 0 {
      assert code[depth - 1] == code[..depth][depth - 1] && body[depth - 1] == body[..depth][depth - 1];
    }
    if s.action == ProgramAction.Right && depth >= 2 && body[depth - 1] == s {
      assert body[depth - 2] != s;
      assert SameRun(body, depth - 2, s) == 0;
    }
  }

  // ---------------------------------------------------------------------
  // Where each offered program comes from

  lemma {:induction false} FromKeeps(colors: seq<FieldColor>, actions: seq<ProgramAction>, lens: seq<int>,
                                     func: nat, done: seq<seq<ProgramSlot>>)
    requires Positive(lens) && func <= |lens| && |done| == func
    ensures forall p :: p in From(colors, actions, lens, func, done) ==> |p.code| == |lens| && p.code[..func] == done
    decreases |lens| - func, 1, 0, 0, 0
  {
    if func == |lens| {
      assert done[..func] == done;
    } else {
      OverKeys(colors, actions, lens, func, done, Blanks(lens[func]), 0, 0, 0);
    }
  }

  /** A program offered while slot `depth` is written holds the buffer's
      slots before `depth`, and at `depth` a slot at or after `(ai, ci)`. */
  lemma {:induction false} OverKeys(colors: seq<FieldColor>, actions: seq<ProgramAction>, lens: seq<int>,
                                    func: nat, done: seq<seq<ProgramSlot>>, code: seq<ProgramSlot>,
                                    depth: nat, ai: nat, ci: nat)
    requires Positive(lens) && func < |lens| && |done| == func
    requires depth < |code| && ai <= |actions| && ci <= |colors|
    ensures forall p :: p in Over(colors, actions, lens, func, done, code, depth, ai, ci) ==>
              |p.code| == |lens| && p.code[..func] == done && |p.code[func]| == |code| &&
              p.code[func][..depth] == code[..depth] && DrawnAtOrAfter(p.code[func][depth], actions, colors, ai, ci)
    decreases |lens| - func, 0, |code| - depth, |actions| - ai, |colors| - ci
  {
    if ai < |actions| {
      if ci == |colors| {
        OverKeys(colors, actions, lens, func, done, code, depth, ai + 1, 0);
      } else {
        var s := ProgramSlot(actions[ai], colors[ci]);
        ContributionKeys(colors, actions, lens, func, done, code, depth, s);
        OverKeys(colors, actions, lens, func, done, code, depth, ai, ci + 1);
      }
    }
  }

  /** A program offered once slot `depth` holds `s` holds the buffer's
      slots before `depth`, then `s`. */
  lemma {:induction false} ContributionKeys(colors: seq<FieldColor>, actions: seq<ProgramAction>, lens: seq<int>,
                                            func: nat, done: seq<seq<ProgramSlot>>, code: seq<ProgramSlot>,
                                            depth: nat, s: ProgramSlot)
    requires Positive(lens) && func < |lens| && |done| == func && depth < |code|
    ensures forall p :: p in Contribution(colors, actions, lens, func, done, code, depth, s) ==>
              |p.code| == |lens| && p.code[..func] == done && |p.code[func]| == |code| &&
              p.code[func][..depth] == code[..depth] && p.code[func][depth] == s
    decreases |lens| - func, 0, |code| - depth, 0, 0
  {
    if !Skipped(code, func, depth, s) {
      var c2 := code[depth := s];
      var done2 := done + [c2];
      FromKeeps(colors, actions, lens, func + 1, done2);
      forall p | p in From(colors, actions, lens, func + 1, done2)
        ensures p.code[..func] == done && p.code[func] == c2
      {
        assert p.code[..func] == p.code[..func + 1][..func] && p.code[func] == p.code[..func + 1][func];
      }
      assert c2[..depth] == code[..depth];
      if s.action != ProgramAction.None && depth < |code| - 1 {
        OverKeys(colors, actions, lens, func, done, c2, depth + 1, 0, 0);
        forall p | p in Over(colors, actions, lens, func, done, c2, depth + 1, 0, 0)
          ensures p.code[func][..depth] == code[..depth] && p.code[func][depth] == s
        {
          assert p.code[func][..depth] == p.code[func][..depth + 1][..depth];
          assert p.code[func][depth] == p.code[func][..depth + 1][depth];
        }
      }
    }
  }

  // ---------------------------------------------------------------------
  // Every admissible program is offered

  /** A well-formed program is offered by the search from function `func`
      once its first `func` functions are written. */
  lemma {:induction false} FromComplete(colors: seq<FieldColor>, actions: seq<ProgramAction>, lens: seq<int>,
                                        func: nat, p: Program)
    requires Positive(lens) && func <= |lens| && ProgramAction.None !in actions && WellFormed(p, lens, actions, colors)
    ensures p in From(colors, actions, lens, func, p.code[..func])
    decreases |lens| - func, 1, 0, 0, 0
  {
    if func == |lens| {
      assert p.code[..func] == p.code;
    } else {
      var body := p.code[func];
      assert |body| == lens[func] && Emittable(func, body, actions, colors);
      var k :| 1 <= k <= |body| && Filled(body, k);
      assert body[0] != Blank;
      var a :| 0 <= a < |actions| && actions[a] == body[0].action;
      var c :| 0 <= c < |colors| && colors[c] == body[0].color;
      OverComplete(colors, actions, lens, func, p, Blanks(lens[func]), 0, 0, 0, a, c);
    }
  }

  /** A well-formed program whose function `func` agrees with the buffer
      before `depth` and holds at `depth` the slot of `(a, c)` is offered
      by the scan from `(ai, ci)` on, when `(a, c)` is not before it. */
  lemma {:induction false} OverComplete(colors: seq<FieldColor>, actions: seq<ProgramAction>, lens: seq<int>,
                                        func: nat, p: Program, code: seq<ProgramSlot>, depth: nat,
                                        ai: nat, ci: nat, a: nat, c: nat)
    requires Positive(lens) && func < |lens| && ProgramAction.None !in actions && WellFormed(p, lens, actions, colors)
    requires |code| == lens[func] && depth < |code| && ai <= |actions| && ci <= |colors|
    requires (forall i :: depth <= i < |code| ==> code[i] == Blank) && code[..depth] == p.code[func][..depth]
    requires a < |actions| && c < |colors| && (ai < a || (ai == a && ci <= c))
    requires p.code[func][depth] == ProgramSlot(actions[a], colors[c])
    ensures p in Over(colors, actions, lens, func, p.code[..func], code, depth, ai, ci)
    decreases |lens| - func, 0, |code| - depth, |actions| - ai, |colors| - ci
  {
    if ai == a && ci == c {
      ContributionComplete(colors, actions, lens, func, p, code, depth, ProgramSlot(actions[a], colors[c]));
    } else if ci == |colors| {
      OverComplete(colors, actions, lens, func, p, code, depth, ai + 1, 0, a, c);
    } else {
      OverComplete(colors, actions, lens, func, p, code, depth, ai, ci + 1, a, c);
    }
  }

  /** A well-formed program whose function `func` agrees with the buffer
      before `depth` and holds `s` at `depth` is offered once `s` is
      written there: as the body that ends with `s`, or as one of its
      extensions. */
  lemma {:induction false} ContributionComplete(colors: seq<FieldColor>, actions: seq<ProgramAction>, lens: seq<int>,
                                                func: nat, p: Program, code: seq<ProgramSlot>, depth: nat,
                                                s: ProgramSlot)
    requires Positive(lens) && func < |lens| && ProgramAction.None !in actions && WellFormed(p, lens, actions, colors)
    requires |code| == lens[func] && depth < |code|
    requires (forall i :: depth <= i < |code| ==> code[i] == Blank) && code[..depth] == p.code[func][..depth]
    requires p.code[func][depth] == s && s.action != ProgramAction.None
    ensures p in Contribution(colors, actions, lens, func, p.code[..func], code, depth, s)
    decreases |lens| - func, 0, |code| - depth, 0, 0
  {
    var body := p.code[func];
    assert |body| == lens[func] && Emittable(func, body, actions, colors);
    NotSkipped(func, body, code, depth);
    var c2 := code[depth := s];
    var k :| 1 <= k <= |body| && Filled(body, k);
    assert depth < k;
    if k == depth + 1 {
      forall i | 0 <= i < |body| ensures body[i] == c2[i] {
        if i < depth {
          assert body[i] == body[..depth][i] && code[i] == code[..depth][i];
        }
      }
      assert body == c2;
      assert p.code[..func + 1] == p.code[..func] + [c2];
      FromComplete(colors, actions, lens, func + 1, p);
    } else {
      var x := body[depth + 1];
      assert x != Blank;
      var a :| 0 <= a < |actions| && actions[a] == x.action;
      var c :| 0 <= c < |colors| && colors[c] == x.color;
      forall i | 0 <= i < depth + 1 ensures c2[i] == body[i] {
        if i < depth {
          assert body[i] == body[..depth][i] && code[i] == code[..depth][i];
        }
      }
      assert c2[..depth + 1] == body[..depth + 1];
      OverComplete(colors, actions, lens, func, p, c2, depth + 1, 0, 0, a, c);
    }
  }

  // ---------------------------------------------------------------------
  // No program is offered twice

  lemma {:induction false} FromDistinct(colors: seq<FieldColor>, actions: seq<ProgramAction>, lens: seq<int>,
                                        func: nat, done: seq<seq<ProgramSlot>>)
    requires Positive(lens) && func <= |lens| && |done| == func
    requires Distinct(actions) && Distinct(colors) && ProgramAction.None !in actions
    ensures Distinct(From(colors, actions, lens, func, done))
    decreases |lens| - func, 1, 0, 0, 0
  {
    if func < |lens| {
      OverDistinct(colors, actions, lens, func, done, Blanks(lens[func]), 0, 0, 0);
    }
  }

  lemma {:induction false} OverDistinct(colors: seq<FieldColor>, actions: seq<ProgramAction>, lens: seq<int>,
                                        func: nat, done: seq<seq<ProgramSlot>>, code: seq<ProgramSlot>,
                                        depth: nat, ai: nat, ci: nat)
    requires Positive(lens) && func < |lens| && |done| == func
    requires Distinct(actions) && Distinct(colors) && ProgramAction.None !in actions
    requires depth < |code| && ai <= |actions| && ci <= |colors|
    requires forall i :: depth <= i < |code| ==> code[i] == Blank
    ensures Distinct(Over(colors, actions, lens, func, done, code, depth, ai, ci))
    decreases |lens| - func, 0, |code| - depth, |actions| - ai, |colors| - ci
  {
    if ai < |actions| {
      if ci == |colors| {
        OverDistinct(colors, actions, lens, func, done, code, depth, ai + 1, 0);
      } else {
        var s := ProgramSlot(actions[ai], colors[ci]);
        var here := Contribution(colors, actions, lens, func, done, code, depth, s);
        var rest := Over(colors, actions, lens, func, done, code, depth, ai, ci + 1);
        ContributionDistinct(colors, actions, lens, func, done, code, depth, s);
        OverDistinct(colors, actions, lens, func, done, code, depth, ai, ci + 1);
        ContributionKeys(colors, actions, lens, func, done, code, depth, s);
        OverKeys(colors, actions, lens, func, done, code, depth, ai, ci + 1);
        SlotNotLater(actions, colors, ai, ci);
        forall p | p in here ensures p !in rest {
          assert p.code[func][depth] == s;
        }
        DistinctAppend(here, rest);
      }
    }
  }

  lemma {:induction false} ContributionDistinct(colors: seq<FieldColor>, actions: seq<ProgramAction>, lens: seq<int>,
                                                func: nat, done: seq<seq<ProgramSlot>>, code: seq<ProgramSlot>,
                                                depth: nat, s: ProgramSlot)
    requires Positive(lens) && func < |lens| && |done| == func
    requires Distinct(actions) && Distinct(colors) && ProgramAction.None !in actions
    requires depth < |code| && forall i :: depth <= i < |code| ==> code[i] == Blank
    ensures Distinct(Contribution(colors, actions, lens, func, done, code, depth, s))
    decreases |lens| - func, 0, |code| - depth, 0, 0
  {
    if !Skipped(code, func, depth, s) {
      var c2 := code[depth := s];
      var first := From(colors, actions, lens, func + 1, done + [c2]);
      FromDistinct(colors, actions, lens, func + 1, done + [c2]);
      if s.action != ProgramAction.None && depth < |code| - 1 {
        var deeper := Over(colors, actions, lens, func, done, c2, depth + 1, 0, 0);
        OverDistinct(colors, actions, lens, func, done, c2, depth + 1, 0, 0);
        FromKeeps(colors, actions, lens, func + 1, done + [c2]);
        OverKeys(colors, actions, lens, func, done, c2, depth + 1, 0, 0);
        BlankNotDrawn(actions, colors);
        forall p | p in first ensures p !in deeper {
          assert p.code[func] == p.code[..func + 1][func] == c2;
          assert p.code[func][depth + 1] == Blank;
        }
        DistinctAppend(first, deeper);
      } else {
        assert first + [] == first;
      }
    }
  }

  // ---------------------------------------------------------------------
  // The candidates

  /** A program is offered exactly when it is well formed: it has a
      Forward, the configured shape, and functions that are non-empty runs
      of offered slots, then blanks, obeying every pruning rule. */
  lemma CandidatesComplete(useRed: bool, useGreen: bool, useBlue: bool, lens: seq<int>, p: Program)
    requires ValidSlotCounts(lens)
    ensures p in Candidates(useRed, useGreen, useBlue, lens) <==>
            WellFormed(p, lens, AvailableActions(|lens|), AvailableColors(useRed, useGreen, useBlue))
  {
    var actions, colors := AvailableActions(|lens|), AvailableColors(useRed, useGreen, useBlue);
    if WellFormed(p, lens, actions, colors) {
      FromComplete(colors, actions, lens, 0, p);
      assert p.code[..0] == [];
    }
    FromWellFormed(colors, actions, lens, 0, []);
  }

  /** No program is offered twice, so the stop predicate is asked about
      each admissible program at most once. */
  lemma CandidatesDistinct(useRed: bool, useGreen: bool, useBlue: bool, lens: seq<int>)
    requires ValidSlotCounts(lens)
    ensures Distinct(Candidates(useRed, useGreen, useBlue, lens))
  {
    ActionsDistinct(|lens|);
    ColorsDistinct(useRed, useGreen, useBlue);
    FromDistinct(AvailableColors(useRed, useGreen, useBlue), AvailableActions(|lens|), lens, 0, []);
  }
}

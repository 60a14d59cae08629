// The order in which the generator writes the bodies of one function. The
// search over a function's buffer visits a sequence of bodies; after each
// one it runs the search over the remaining functions. Within that
// sequence every body comes after each of its own shorter prefixes.
module BodyOrder {
  import opened Instructions
  import opened Programs
  import opened Enumeration

  /** The bodies `GenerateFuncCodeDfs` writes into the buffer `code` of
      function `f` from action `ai` and colour `ci` on, at slot `depth`, in
      the order it writes them. */
  ghost function BodiesOver(colors: seq<FieldColor>, actions: seq<ProgramAction>, f: int,
                            code: seq<ProgramSlot>, depth: nat, ai: nat, ci: nat): seq<seq<ProgramSlot>>
    requires depth < |code| && ai <= |actions| && ci <= |colors|
    decreases |code| - depth, |actions| - ai, |colors| - ci
  {
    if ai == |actions| then []
    else if ci == |colors| then BodiesOver(colors, actions, f, code, depth, ai + 1, 0)
    else
      BodiesAt(colors, actions, f, code, depth, ProgramSlot(actions[ai], colors[ci])) +
      BodiesOver(colors, actions, f, code, depth, ai, ci + 1)
  }

  /** The bodies written once slot `depth` holds `s`: none when `s` is
      pruned; otherwise the body ending with `s`, then its extensions. */
  ghost function BodiesAt(colors: seq<FieldColor>, actions: seq<ProgramAction>, f: int,
                          code: seq<ProgramSlot>, depth: nat, s: ProgramSlot): seq<seq<ProgramSlot>>
    requires depth < |code|
    decreases |code| - depth, 0, 0
  {
    if Skipped(code, f, depth, s) then []
    else
      var c2 := code[depth := s];
      [c2] + (if s.action != ProgramAction.None && depth < |code| - 1
              then BodiesOver(colors, actions, f, c2, depth + 1, 0, 0) else [])
  }

  /** Every body of function `f`, of length `len`, in the order written. */
  ghost function Bodies(colors: seq<FieldColor>, actions: seq<ProgramAction>, f: int, len: int): seq<seq<ProgramSlot>>
    requires len >= 1
  {
    BodiesOver(colors, actions, f, Blanks(len), 0, 0, 0)
  }

  /** Each body in turn as function `func`, followed by every program
      completing it. */
  ghost function Completions(colors: seq<FieldColor>, actions: seq<ProgramAction>, lens: seq<int>, func: nat,
                             done: seq<seq<ProgramSlot>>, bodies: seq<seq<ProgramSlot>>): seq<Program>
    requires Positive(lens) && func < |lens| && |done| == func
  {
    if bodies == [] then []
    else From(colors, actions, lens, func + 1, done + [bodies[0]]) +
         Completions(colors, actions, lens, func, done, bodies[1..])
  }

  lemma {:induction false} CompletionsAppend(colors: seq<FieldColor>, actions: seq<ProgramAction>, lens: seq<int>,
                                             func: nat, done: seq<seq<ProgramSlot>>,
                                             a: seq<seq<ProgramSlot>>, b: seq<seq<ProgramSlot>>)
    requires Positive(lens) && func < |lens| && |done| == func
    ensures Completions(colors, actions, lens, func, done, a + b) ==
            Completions(colors, actions, lens, func, done, a) + Completions(colors, actions, lens, func, done, b)
  {
    if a == [] {
      assert a + b == b;
    } else {
      assert (a + b)[1..] == a[1..] + b;
      CompletionsAppend(colors, actions, lens, func, done, a[1..], b);
    }
  }

  lemma {:induction false} OverFollowsBodies(colors: seq<FieldColor>, actions: seq<ProgramAction>, lens: seq<int>,
                                             func: nat, done: seq<seq<ProgramSlot>>, code: seq<ProgramSlot>,
                                             depth: nat, ai: nat, ci: nat)
    requires Positive(lens) && func < |lens| && |done| == func
    requires depth < |code| && ai <= |actions| && ci <= |colors|
    ensures Over(colors, actions, lens, func, done, code, depth, ai, ci) ==
            Completions(colors, actions, lens, func, done, BodiesOver(colors, actions, func, code, depth, ai, ci))
    decreases |code| - depth, |actions| - ai, |colors| - ci
  {
    if ai < |actions| {
      if ci == |colors| {
        OverFollowsBodies(colors, actions, lens, func, done, code, depth, ai + 1, 0);
      } else {
        var s := ProgramSlot(actions[ai], colors[ci]);
        ContributionFollowsBodies(colors, actions, lens, func, done, code, depth, s);
        OverFollowsBodies(colors, actions, lens, func, done, code, depth, ai, ci + 1);
        CompletionsAppend(colors, actions, lens, func, done, BodiesAt(colors, actions, func, code, depth, s),
                          BodiesOver(colors, actions, func, code, depth, ai, ci + 1));
      }
    }
  }

  lemma {:induction false} ContributionFollowsBodies(colors: seq<FieldColor>, actions: seq<ProgramAction>,
                                                     lens: seq<int>, func: nat, done: seq<seq<ProgramSlot>>,
                                                     code: seq<ProgramSlot>, depth: nat, s: ProgramSlot)
    requires Positive(lens) && func < |lens| && |done| == func && depth < |code|
    ensures Contribution(colors, actions, lens, func, done, code, depth, s) ==
            Completions(colors, actions, lens, func, done, BodiesAt(colors, actions, func, code, depth, s))
    decreases |code| - depth, 0, 0
  {
    if !Skipped(code, func, depth, s) {
      var c2 := code[depth := s];
      var deeper := if s.action != ProgramAction.None && depth < |code| - 1
                    then BodiesOver(colors, actions, func, c2, depth + 1, 0, 0) else [];
      if s.action != ProgramAction.None && depth < |code| - 1 {
        OverFollowsBodies(colors, actions, lens, func, done, c2, depth + 1, 0, 0);
      }
      assert ([c2] + deeper)[1..] == deeper;
    }
  }

  /** The search over function `func` runs the search over the remaining
      functions once for each body of `func`, in the order the bodies are
      written. */
  lemma SearchFollowsBodies(colors: seq<FieldColor>, actions: seq<ProgramAction>, lens: seq<int>,
                            func: nat, done: seq<seq<ProgramSlot>>)
    requires Positive(lens) && func < |lens| && |done| == func
    ensures From(colors, actions, lens, func, done) ==
            Completions(colors, actions, lens, func, done, Bodies(colors, actions, func, lens[func]))
  {
    OverFollowsBodies(colors, actions, lens, func, done, Blanks(lens[func]), 0, 0, 0);
  }

  /** The first `k` slots of a body, then blanks. */
  ghost function Truncate(body: seq<ProgramSlot>, k: nat): seq<ProgramSlot>
    requires k <= |body|
  {
    body[..k] + Blanks(|body| - k)
  }

  /** Every body that has a slot `k` written beyond `depth` comes after its
      own first `k` slots followed by blanks. */
  ghost predicate PrefixesFirst(bodies: seq<seq<ProgramSlot>>, depth: nat) {
    forall j, k :: 0 <= j < |bodies| && depth < k < |bodies[j]| && bodies[j][k] != Blank ==>
      exists i :: 0 <= i < j && bodies[i] == Truncate(bodies[j], k)
  }

  /** Every body has the buffer's length and its first `depth` slots. */
  ghost predicate Agree(bodies: seq<seq<ProgramSlot>>, code: seq<ProgramSlot>, depth: nat)
    requires depth <= |code|
  {
    forall j :: 0 <= j < |bodies| ==> |bodies[j]| == |code| && bodies[j][..depth] == code[..depth]
  }

  lemma PrefixesFirstAppend(a: seq<seq<ProgramSlot>>, b: seq<seq<ProgramSlot>>, depth: nat)
    requires PrefixesFirst(a, depth) && PrefixesFirst(b, depth)
    ensures PrefixesFirst(a + b, depth)
  {
    var r := a + b;
    forall j, k | 0 <= j < |r| && depth < k < |r[j]| && r[j][k] != Blank
      ensures exists i :: 0 <= i < j && r[i] == Truncate(r[j], k)
    {
      if j < |a| {
        assert r[j] == a[j];
        var i :| 0 <= i < j && a[i] == Truncate(a[j], k);
        assert r[i] == a[i];
      } else {
        assert r[j] == b[j - |a|];
        var i :| 0 <= i < j - |a| && b[i] == Truncate(b[j - |a|], k);
        assert r[|a| + i] == b[i];
      }
    }
  }

  lemma {:induction false} BodiesOverOrdered(colors: seq<FieldColor>, actions: seq<ProgramAction>, f: int,
                                             code: seq<ProgramSlot>, depth: nat, ai: nat, ci: nat)
    requires depth < |code| && ai <= |actions| && ci <= |colors|
    requires forall i :: depth <= i < |code| ==> code[i] == Blank
    ensures Agree(BodiesOver(colors, actions, f, code, depth, ai, ci), code, depth)
    ensures PrefixesFirst(BodiesOver(colors, actions, f, code, depth, ai, ci), depth)
    decreases |code| - depth, |actions| - ai, |colors| - ci
  {
    if ai < |actions| {
      if ci == |colors| {
        BodiesOverOrdered(colors, actions, f, code, depth, ai + 1, 0);
      } else {
        var s := ProgramSlot(actions[ai], colors[ci]);
        var a := BodiesAt(colors, actions, f, code, depth, s);
        var b := BodiesOver(colors, actions, f, code, depth, ai, ci + 1);
        BodiesAtOrdered(colors, actions, f, code, depth, s);
        BodiesOverOrdered(colors, actions, f, code, depth, ai, ci + 1);
        PrefixesFirstAppend(a, b, depth);
        assert Agree(a + b, code, depth) by {
          forall j | 0 <= j < |a + b| ensures |(a + b)[j]| == |code| && (a + b)[j][..depth] == code[..depth] {
            if j < |a| {
              assert (a + b)[j] == a[j];
            } else {
              assert (a + b)[j] == b[j - |a|];
            }
          }
        }
      }
    }
  }

  lemma {:induction false} BodiesAtOrdered(colors: seq<FieldColor>, actions: seq<ProgramAction>, f: int,
                                           code: seq<ProgramSlot>, depth: nat, s: ProgramSlot)
    requires depth < |code|
    requires forall i :: depth <= i < |code| ==> code[i] == Blank
    ensures Agree(BodiesAt(colors, actions, f, code, depth, s), code, depth)
    ensures PrefixesFirst(BodiesAt(colors, actions, f, code, depth, s), depth)
    decreases |code| - depth, 0, 0
  {
    if !Skipped(code, f, depth, s) {
      var c2 := code[depth := s];
      assert c2[..depth] == code[..depth];
      if s.action != ProgramAction.None && depth < |code| - 1 {
        var d := BodiesOver(colors, actions, f, c2, depth + 1, 0, 0);
        BodiesOverOrdered(colors, actions, f, c2, depth + 1, 0, 0);
        var r := [c2] + d;
        assert c2 == Truncate(c2, depth + 1);
        forall j | 0 <= j < |r| ensures |r[j]| == |code| && r[j][..depth] == code[..depth] {
          if j > 0 {
            assert r[j] == d[j - 1];
            assert d[j - 1][..depth] == d[j - 1][..depth + 1][..depth];
          }
        }
        forall j, k | 0 <= j < |r| && depth < k < |r[j]| && r[j][k] != Blank
          ensures exists i :: 0 <= i < j && r[i] == Truncate(r[j], k)
        {
          assert j > 0;
          assert r[j] == d[j - 1];
          if k == depth + 1 {
            assert Truncate(d[j - 1], k) == Truncate(c2, depth + 1);
            assert r[0] == c2;
          } else {
            var i :| 0 <= i < j - 1 && d[i] == Truncate(d[j - 1], k);
            assert r[i + 1] == d[i];
          }
        }
      } else {
        assert BodiesAt(colors, actions, f, code, depth, s) == [c2];
      }
    }
  }

  /** Within the bodies of one function, every body that writes slot
      `k >= 1` is preceded by its first `k` slots followed by blanks: each
      prefix is offered before it is extended. */
  lemma BodiesPrefixOrdered(colors: seq<FieldColor>, actions: seq<ProgramAction>, f: int, len: int)
    requires len >= 1
    ensures forall j :: 0 <= j < |Bodies(colors, actions, f, len)| ==> |Bodies(colors, actions, f, len)[j]| == len
    ensures PrefixesFirst(Bodies(colors, actions, f, len), 0)
  {
    BodiesOverOrdered(colors, actions, f, Blanks(len), 0, 0, 0);
  }
}

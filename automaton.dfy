/**
 * The NFA built from single-symbol automata: the `currentMovables`
 * expansion, the `transit` step, the private `deepCopy`, the `end` getter
 * and `concat` of src/automaton/nfa.ts, over the states of `StateGraph`.
 */
module Automaton {
  import opened StateGraph

  /** The labels of the states listed in `es`. */
  function IdsOf(es: seq<NFAState>): (r: set<string>)
  {
    set e | e in es :: e.id
  }

  /** No label occurs twice in `es`. */
  predicate NoDupIds(es: seq<NFAState>)
  {
    forall i, j :: 0 <= i < j < |es| ==> es[i].id != es[j].id
  }

  /**
   * The `visits`-guarded push shared by `currentMovables` and `transit`:
   * the states of `es`, in order, whose label is neither in `seen` nor
   * carried by an earlier state of `es`.
   */
  function Dedup(es: seq<NFAState>, seen: set<string>): (r: seq<NFAState>)
  {
    if es == [] then []
    else if es[0].id in seen then Dedup(es[1..], seen)
    else [es[0]] + Dedup(es[1..], seen + {es[0].id})
  }

  /**
   * What `currentMovables` lists when it starts from the visited labels
   * `seen`: a current whose label is new is pushed, then its epsilon
   * targets whose labels are new; a current whose label was already
   * pushed is skipped together with its epsilon targets.
   */
  function Movables(cs: seq<NFAState>, seen: set<string>): (r: seq<NFAState>)
    reads cs
  {
    if cs == [] then []
    else if cs[0].id in seen then Movables(cs[1..], seen)
    else
      [cs[0]] + Dedup(cs[0].epsilonTransitions, seen + {cs[0].id})
      + Movables(cs[1..], seen + {cs[0].id} + IdsOf(cs[0].epsilonTransitions))
  }

  /** The labels of the epsilon targets of the states of `cs`. */
  function EpsIds(cs: seq<NFAState>): (r: set<string>)
    reads cs
  {
    if cs == [] then {} else IdsOf(cs[0].epsilonTransitions) + EpsIds(cs[1..])
  }

  /** The `input` targets of the states of `ms`, in order, for those that have one. */
  function Targets(ms: seq<NFAState>, input: string): (r: seq<NFAState>)
    reads ms
  {
    if ms == [] then []
    else
      (if input in ms[0].inputTransitions then [ms[0].inputTransitions[input]] else [])
      + Targets(ms[1..], input)
  }

  /** `m` is one of `cs` or the epsilon target of one of `cs`. */
  ghost predicate CurrentOrEpsilon(cs: seq<NFAState>, m: NFAState)
    reads cs
  {
    m in cs || exists c :: c in cs && m in c.epsilonTransitions
  }

  /**
   * `Dedup` keeps a state for every label not yet seen and nothing else,
   * each label once, and only states of its input.
   */
  lemma {:induction false} DedupSpec(es: seq<NFAState>, seen: set<string>)
    ensures NoDupIds(Dedup(es, seen))
    ensures IdsOf(Dedup(es, seen)) == IdsOf(es) - seen
    ensures forall x :: x in Dedup(es, seen) ==> x in es
    decreases |es|
  {
    if es != [] {
      var rest := es[1..];
      assert es == [es[0]] + rest;
      assert IdsOf(es) == {es[0].id} + IdsOf(rest);
      if es[0].id in seen {
        DedupSpec(rest, seen);
      } else {
        var d := Dedup(rest, seen + {es[0].id});
        DedupSpec(rest, seen + {es[0].id});
        assert Dedup(es, seen) == [es[0]] + d;
        assert IdsOf([es[0]]) == {es[0].id};
        NoDupJoin([es[0]], d);
      }
    }
  }

  /** Two lists without repeated labels and with disjoint labels join into one. */
  lemma NoDupJoin(a: seq<NFAState>, b: seq<NFAState>)
    requires NoDupIds(a) && NoDupIds(b) && IdsOf(a) !! IdsOf(b)
    ensures NoDupIds(a + b) && IdsOf(a + b) == IdsOf(a) + IdsOf(b)
  {
    var ab := a + b;
    forall i, j | 0 <= i < j < |ab| ensures ab[i].id != ab[j].id {
      if i < |a| && j >= |a| {
        assert ab[i].id in IdsOf(a) && ab[j] == b[j - |a|];
      } else if i >= |a| {
        assert ab[i] == b[i - |a|] && ab[j] == b[j - |a|];
      }
    }
    assert forall x :: x in ab <==> x in a || x in b;
  }

  /**
   * `currentMovables` lists each label once and never a label it started
   * with; it lists only currents and their epsilon targets; every current
   * whose label was not seen is represented by its label; and every label
   * it lists is a current's or an epsilon target's.
   */
  lemma {:induction false} MovablesSpec(cs: seq<NFAState>, seen: set<string>)
    ensures NoDupIds(Movables(cs, seen)) && IdsOf(Movables(cs, seen)) !! seen
    ensures forall m :: m in Movables(cs, seen) ==> CurrentOrEpsilon(cs, m)
    ensures IdsOf(cs) - seen <= IdsOf(Movables(cs, seen))
    ensures IdsOf(Movables(cs, seen)) <= IdsOf(cs) + EpsIds(cs) - seen
    decreases |cs|
  {
    if cs != [] {
      var c, rest := cs[0], cs[1..];
      assert cs == [c] + rest;
      assert IdsOf(cs) == {c.id} + IdsOf(rest);
      if c.id in seen {
        MovablesSpec(rest, seen);
        forall m | m in Movables(cs, seen) ensures CurrentOrEpsilon(cs, m) {
          assert CurrentOrEpsilon(rest, m);
        }
      } else {
        var seen1 := seen + {c.id};
        var seen2 := seen1 + IdsOf(c.epsilonTransitions);
        var d := Dedup(c.epsilonTransitions, seen1);
        MovablesSpec(rest, seen2);
        DedupSpec(c.epsilonTransitions, seen1);
        NoDupJoin([c], d);
        NoDupJoin([c] + d, Movables(rest, seen2));
        assert Movables(cs, seen) == [c] + d + Movables(rest, seen2);
        forall m | m in Movables(cs, seen) ensures CurrentOrEpsilon(cs, m) {
          if m in Movables(rest, seen2) {
            assert CurrentOrEpsilon(rest, m);
          } else if m in d {
            assert m in c.epsilonTransitions;
          }
        }
      }
    }
  }

  /**
   * When listed once each, kept apart from the labels of all epsilon
   * targets and from `seen`, the currents and their epsilon targets are
   * all listed by `currentMovables`, up to label.
   */
  lemma {:induction false} MovablesExact(cs: seq<NFAState>, seen: set<string>)
    requires NoDupIds(cs) && IdsOf(cs) !! EpsIds(cs) && IdsOf(cs) !! seen
    ensures IdsOf(Movables(cs, seen)) == IdsOf(cs) + EpsIds(cs) - seen
    decreases |cs|
  {
    if cs != [] {
      var c, rest := cs[0], cs[1..];
      assert cs == [c] + rest;
      assert IdsOf(cs) == {c.id} + IdsOf(rest);
      assert NoDupIds(rest) by {
        forall i, j | 0 <= i < j < |rest| ensures rest[i].id != rest[j].id {
          assert rest[i] == cs[i + 1] && rest[j] == cs[j + 1];
        }
      }
      assert c.id !in IdsOf(rest) by {
        forall x | x in rest ensures x.id != c.id {
          var j :| 0 <= j < |rest| && rest[j] == x;
          assert cs[j + 1] == x;
        }
      }
      var eps := c.epsilonTransitions;
      var seen1 := seen + {c.id};
      var seen2 := seen1 + IdsOf(eps);
      assert EpsIds(cs) == IdsOf(eps) + EpsIds(rest);
      assert IdsOf(rest) !! seen2;
      MovablesExact(rest, seen2);
      DedupSpec(eps, seen1);
      var d := Dedup(eps, seen1);
      var tail := Movables(rest, seen2);
      assert Movables(cs, seen) == [c] + d + tail;
      IdsOfJoin([c] + d, tail);
      IdsOfJoin([c], d);
      assert IdsOf([c]) == {c.id};
    }
  }

  /** The labels of a concatenation are those of its parts. */
  lemma IdsOfJoin(a: seq<NFAState>, b: seq<NFAState>)
    ensures IdsOf(a + b) == IdsOf(a) + IdsOf(b)
  {
    assert forall x :: x in a + b <==> x in a || x in b;
  }

  /**
   * The one-step expansion misses an epsilon target of a current that
   * was itself pushed as an earlier current's epsilon target: with
   * currents `[a, b]`, `a --eps--> b` and `b --eps--> c`, the state `c` is
   * not listed.
   */
  lemma MovablesSkipsRevisitedCurrent(a: NFAState, b: NFAState, c: NFAState)
    requires a.epsilonTransitions == [b] && b.epsilonTransitions == [c]
    requires a.id != b.id && b.id != c.id && a.id != c.id
    ensures c.id in EpsIds([a, b])
    ensures Movables([a, b], {}) == [a, b]
    ensures c.id !in IdsOf(Movables([a, b], {}))
  {
    assert [a, b][1..] == [b];
    assert Dedup([b], {a.id}) == [b] + Dedup([], {a.id, b.id});
    assert IdsOf([b]) == {b.id};
    assert {} + {a.id} + IdsOf([b]) == {a.id, b.id};
    assert Movables([b], {a.id, b.id}) == Movables([], {a.id, b.id});
    assert Movables([a, b], {}) == [a] + [b] + [];
    assert IdsOf([a, b]) == {a.id, b.id};
    assert EpsIds([b]) == IdsOf([c]) + EpsIds([]);
    assert IdsOf([c]) == {c.id};
  }

  /** `Targets` holds exactly the `input` targets of the states of `ms`. */
  lemma {:induction false} TargetsSpec(ms: seq<NFAState>, input: string)
    ensures forall x :: x in Targets(ms, input) ==>
      exists m :: m in ms && input in m.inputTransitions && m.inputTransitions[input] == x
    ensures forall m :: m in ms && input in m.inputTransitions ==> m.inputTransitions[input] in Targets(ms, input)
    decreases |ms|
  {
    if ms != [] {
      var h, rest := ms[0], ms[1..];
      TargetsSpec(rest, input);
      assert ms == [h] + rest;
      var head := if input in h.inputTransitions then [h.inputTransitions[input]] else [];
      assert Targets(ms, input) == head + Targets(rest, input);
      forall x | x in Targets(ms, input)
        ensures exists m :: m in ms && input in m.inputTransitions && m.inputTransitions[input] == x
      {
        if x in head {
          assert h in ms && input in h.inputTransitions && h.inputTransitions[input] == x;
        } else {
          assert x in Targets(rest, input);
          var m :| m in rest && input in m.inputTransitions && m.inputTransitions[input] == x;
          assert m in ms;
        }
      }
    }
  }

  /** A state one edge past a state reachable in a closed graph is reachable. */
  lemma ReachableStep(G: set<NFAState>, s: NFAState, c: NFAState, d: NFAState)
    requires Closed(G) && c in G && Reachable(G, s, c) && d in c.Successors()
    ensures d in G && Reachable(G, s, d)
  {
    var p :| IsPathIn(G, p) && |p| > 0 && p[0] == s && p[|p| - 1] == c;
    var q := p + [d];
    assert q[|q| - 1] == d && q[0] == s;
    assert IsPathIn(G, q);
  }

  /**
   * A step keeps every current reachable from the start state: when all
   * currents are, so are the states `currentMovables` lists and the states
   * `transit` moves to.
   */
  lemma StepKeepsReachable(G: set<NFAState>, s: NFAState, cs: seq<NFAState>, input: string)
    requires Closed(G) && forall c :: c in cs ==> c in G && Reachable(G, s, c)
    ensures forall m :: m in Movables(cs, {}) ==> m in G && Reachable(G, s, m)
    ensures forall x :: x in Dedup(Targets(Movables(cs, {}), input), {}) ==> x in G && Reachable(G, s, x)
  {
    MovablesSpec(cs, {});
    var ms := Movables(cs, {});
    forall m | m in ms ensures m in G && Reachable(G, s, m) {
      assert CurrentOrEpsilon(cs, m);
      if m !in cs {
        var c :| c in cs && m in c.epsilonTransitions;
        assert m in c.Successors();
        ReachableStep(G, s, c, m);
      }
    }
    TargetsSpec(ms, input);
    DedupSpec(Targets(ms, input), {});
    forall x | x in Dedup(Targets(ms, input), {}) ensures x in G && Reachable(G, s, x) {
      var m :| m in ms && input in m.inputTransitions && m.inputTransitions[input] == x;
      assert x in m.Successors();
      ReachableStep(G, s, m, x);
    }
  }

  /**
   * What `transit` moves to lists each label once, holds only `input`
   * targets of the listed states, represents every such target by its
   * label, and is empty exactly when no listed state has an `input` edge.
   */
  lemma StepSpec(ms: seq<NFAState>, input: string)
    ensures NoDupIds(Dedup(Targets(ms, input), {}))
    ensures forall x :: x in Dedup(Targets(ms, input), {}) ==>
      exists m :: m in ms && input in m.inputTransitions && m.inputTransitions[input] == x
    ensures forall m :: m in ms && input in m.inputTransitions ==>
      m.inputTransitions[input].id in IdsOf(Dedup(Targets(ms, input), {}))
    ensures Dedup(Targets(ms, input), {}) == [] <==> forall m :: m in ms ==> input !in m.inputTransitions
  {
    TargetsSpec(ms, input);
    DedupSpec(Targets(ms, input), {});
    forall m | m in ms && input in m.inputTransitions
      ensures m.inputTransitions[input].id in IdsOf(Dedup(Targets(ms, input), {}))
    {
      assert m.inputTransitions[input] in Targets(ms, input);
    }
    if Dedup(Targets(ms, input), {}) == [] {
      assert IdsOf(Dedup(Targets(ms, input), {})) == {};
    } else {
      var x := Dedup(Targets(ms, input), {})[0];
      assert x in Dedup(Targets(ms, input), {});
    }
  }

  /**
   * The inner loop of `currentMovables`: push each of `eps` whose label
   * is not yet in `visits`, in order, and record its label.
   */
  method PushNew(r0: seq<NFAState>, visits0: set<string>, eps: seq<NFAState>)
    returns (r: seq<NFAState>, visits: set<string>)
    ensures r == r0 + Dedup(eps, visits0)
    ensures visits == visits0 + IdsOf(eps)
  {
    r, visits := r0, visits0;
    var j := 0;
    while j < |eps|
      invariant 0 <= j <= |eps|
      invariant visits == visits0 + IdsOf(eps[..j])
      invariant r + Dedup(eps[j..], visits) == r0 + Dedup(eps, visits0)
    {
      var s := eps[j];
      DedupStep(eps, j, visits);
      IdsOfSnoc(eps, j);
      if s.id !in visits {
        ConcatAssoc(r, [s], Dedup(eps[j + 1..], visits + {s.id}));
        visits := visits + {s.id};
        r := r + [s];
      }
      j := j + 1;
    }
    assert eps[..j] == eps && eps[j..] == [];
  }

  /** `Movables` unfolded at position `i`. */
  lemma MovablesStep(cs: seq<NFAState>, i: nat, seen: set<string>)
    requires i < |cs|
    ensures Movables(cs[i..], seen) ==
      if cs[i].id in seen then Movables(cs[i + 1..], seen)
      else ([cs[i]] + Dedup(cs[i].epsilonTransitions, seen + {cs[i].id})
            + Movables(cs[i + 1..], seen + {cs[i].id} + IdsOf(cs[i].epsilonTransitions)))
  {
    assert cs[i..][1..] == cs[i + 1..];
  }

  lemma ConcatAssoc<T>(a: seq<T>, b: seq<T>, c: seq<T>)
    ensures (a + b) + c == a + (b + c)
  {
  }

  /** `Targets` unfolded at position `i`. */
  lemma TargetsStep(ms: seq<NFAState>, i: nat, input: string)
    requires i < |ms|
    ensures Targets(ms[i..], input) ==
      (if input in ms[i].inputTransitions then [ms[i].inputTransitions[input]] else [])
      + Targets(ms[i + 1..], input)
  {
    assert ms[i..][1..] == ms[i + 1..];
  }

  /** `Dedup` unfolded at the front of a sequence. */
  lemma DedupCons(x: NFAState, rest: seq<NFAState>, seen: set<string>)
    ensures Dedup([x] + rest, seen) ==
      if x.id in seen then Dedup(rest, seen) else [x] + Dedup(rest, seen + {x.id})
  {
    assert ([x] + rest)[1..] == rest;
  }

  /** `Dedup` unfolded at position `j`. */
  lemma DedupStep(es: seq<NFAState>, j: nat, seen: set<string>)
    requires j < |es|
    ensures Dedup(es[j..], seen) ==
      if es[j].id in seen then Dedup(es[j + 1..], seen)
      else [es[j]] + Dedup(es[j + 1..], seen + {es[j].id})
  {
    assert es[j..][1..] == es[j + 1..];
  }

  /** The labels of a prefix grow by one label per state. */
  lemma IdsOfSnoc(es: seq<NFAState>, j: nat)
    requires j < |es|
    ensures IdsOf(es[..j + 1]) == IdsOf(es[..j]) + {es[j].id}
  {
    assert es[..j + 1] == es[..j] + [es[j]];
    IdsOfJoin(es[..j], [es[j]]);
    assert IdsOf([es[j]]) == {es[j].id};
  }

  /** A state with one symbol and no epsilon edge has one successor. */
  lemma SoleSuccessor(n: NFAState, k: string)
    requires n.inputTransitions.Keys == {k} && n.epsilonTransitions == []
    ensures n.Successors() == {n.inputTransitions[k]}
  {
    assert n.inputTransitions.Values == {n.inputTransitions[k]};
  }

  /** A state without symbols and epsilon edges has no successor. */
  lemma NoSuccessor(n: NFAState)
    requires n.inputTransitions.Keys == {} && n.epsilonTransitions == []
    ensures n.Successors() == {}
  {
    assert n.inputTransitions == map[];
  }

  /**
   * When the only successor of `first` is `t`, and `t` has none unless it
   * is `end`, a state `end` other than `first` reachable from `first` is `t`.
   */
  lemma OnlySuccessor(S: set<NFAState>, first: NFAState, t: NFAState, end: NFAState)
    requires Reachable(S, first, end) && first != end
    requires first.Successors() == {t} && (t == end || t.Successors() == {})
    ensures t == end
  {
    var p: seq<NFAState> :| IsPathIn(S, p) && |p| > 0 && p[0] == first && p[|p| - 1] == end;
    assert p[1] in p[0].Successors();
    if |p| > 2 {
      assert p[2] in p[1].Successors();
    }
  }

  /** `transit` from a single current without epsilon edges follows its `input` edge. */
  lemma SymbolStep(c: NFAState, input: string)
    requires c.epsilonTransitions == [] && input in c.inputTransitions
    ensures Dedup(Targets(Movables([c], {}), input), {}) == [c.inputTransitions[input]]
  {
    assert Movables([c], {}) == [c] + Dedup([], {c.id}) + Movables([], {c.id} + IdsOf([]));
    assert Targets([c], input) == [c.inputTransitions[input]] + Targets([], input);
    assert Dedup([c.inputTransitions[input]], {}) == [c.inputTransitions[input]] + Dedup([], {c.inputTransitions[input].id});
  }

  /**
   * `transit` from a single current `e` whose only epsilon edge leads to
   * `n`, where only `n` has an `input` edge, follows that edge of `n`.
   */
  lemma EpsilonStep(e: NFAState, n: NFAState, input: string)
    requires e.epsilonTransitions == [n] && e.id != n.id
    requires input !in e.inputTransitions && input in n.inputTransitions
    ensures Dedup(Targets(Movables([e], {}), input), {}) == [n.inputTransitions[input]]
  {
    var u := n.inputTransitions[input];
    assert Dedup([n], {e.id}) == [n] + Dedup([], {e.id, n.id});
    assert Movables([e], {}) == [e] + Dedup([n], {} + {e.id}) + Movables([], {} + {e.id} + IdsOf([n]));
    assert Movables([e], {}) == [e, n];
    assert [e, n][1..] == [n];
    assert Targets([n], input) == [u] + Targets([], input);
    assert Targets([e, n], input) == [] + Targets([n], input);
    assert Dedup([u], {}) == [u] + Dedup([], {u.id});
  }

  /** A fresh end state without edges, labelled `id`. */
  ghost predicate Terminal(e: NFAState, id: string)
    reads e
  {
    e.isEnd && e.id == id && e.inputTransitions == map[] && e.epsilonTransitions == []
  }

  /**
   * An automaton: the start state (absent for the automaton built without
   * a symbol) and the states it currently sits in, before epsilon moves.
   */
  class NFA {
    var start: NFAState?
    var currents: seq<NFAState>

    /**
     * `new NFA(input)`: with a symbol, a start state labelled `startId`
     * with one edge on that symbol (an epsilon edge for the empty symbol)
     * to an end state labelled `endId`, and the start state as the only
     * current; without one, no start state and no currents.
     */
    constructor (input: Option<string>, startId: string, endId: string)
      ensures input.None? ==> start == null && currents == []
      ensures input.Some? ==>
        start != null && fresh(start) && currents == [start] &&
        start.id == startId && !start.isEnd
      ensures input.Some? && input.value == "" ==>
        start.inputTransitions == map[] && |start.epsilonTransitions| == 1 &&
        fresh(start.epsilonTransitions[0]) && Terminal(start.epsilonTransitions[0], endId)
      ensures input.Some? && input.value != "" ==>
        start.epsilonTransitions == [] && start.inputTransitions.Keys == {input.value} &&
        fresh(start.inputTransitions[input.value]) && Terminal(start.inputTransitions[input.value], endId)
    {
      if input.Some? {
        var s := new NFAState(false, startId);
        var e := new NFAState(true, endId);
        var linked := s.SetTransition(input.value, e);
        start, currents := s, [s];
      } else {
        start, currents := null, [];
      }
    }

    /** The `end` getter: the end state `findEnd` reaches from the start state. */
    method End(ghost G: set<NFAState>) returns (r: Result<NFAState>)
      requires start != null ==> start in G && Closed(G)
      ensures start == null ==> r == Err(MissingStart)
      ensures start != null && start.isEnd ==> r.Ok? && r.value == start
      ensures r.Ok? ==> start != null && r.value.isEnd && r.value in G && Reachable(G, start, r.value)
      ensures r.Err? && start != null ==>
        r.error == EndNotFound && !start.isEnd && forall s :: s in start.Successors() ==> !s.isEnd
      ensures r.Err? && start != null && UniqueIds(G) ==> forall n :: n in G && Reachable(G, start, n) ==> !n.isEnd
    {
      if start == null {
        return Err(MissingStart);
      }
      r := start.FindEnd(G);
    }

    /**
     * `currentMovables`: every current whose label is new, each followed by
     * its epsilon targets whose labels are new.
     */
    method CurrentMovables() returns (r: seq<NFAState>)
      ensures r == Movables(currents, {})
    {
      r := [];
      var visits: set<string> := {};
      var i := 0;
      while i < |currents|
        invariant 0 <= i <= |currents|
        invariant r + Movables(currents[i..], visits) == Movables(currents, {})
      {
        var current := currents[i];
        MovablesStep(currents, i, visits);
        if current.id !in visits {
          ghost var listed, before := r, visits;
          var eps := current.epsilonTransitions;
          r, visits := PushNew(r + [current], visits + {current.id}, eps);
          ghost var d, m := Dedup(eps, before + {current.id}), Movables(currents[i + 1..], visits);
          ConcatAssoc(listed + [current], d, m);
          ConcatAssoc(listed, [current], d + m);
          ConcatAssoc([current], d, m);
        }
        i := i + 1;
      }
    }

    /**
     * `transit`: the new currents are the `input` targets of the states
     * `currentMovables` lists, each label once, in order.
     */
    method Transit(input: string)
      modifies this
      ensures start == old(start)
      ensures currents == Dedup(Targets(Movables(old(currents), {}), input), {})
    {
      var ms := CurrentMovables();
      var nexts: seq<NFAState> := [];
      var visits: set<string> := {};
      var i := 0;
      while i < |ms|
        modifies {}
        invariant 0 <= i <= |ms|
        invariant nexts + Dedup(Targets(ms[i..], input), visits) == Dedup(Targets(ms, input), {})
      {
        var current := ms[i];
        TargetsStep(ms, i, input);
        if input in current.inputTransitions {
          var next := current.inputTransitions[input];
          var rest := Targets(ms[i + 1..], input);
          assert Targets(ms[i..], input) == [next] + rest;
          DedupCons(next, rest, visits);
          if next.id !in visits {
            ConcatAssoc(nexts, [next], Dedup(rest, visits + {next.id}));
            visits := visits + {next.id};
            nexts := nexts + [next];
          }
        } else {
          assert Targets(ms[i..], input) == Targets(ms[i + 1..], input);
        }
        i := i + 1;
      }
      currents := nexts;
    }

    /**
     * The private `deepCopy`: a new automaton whose start state is the
     * clone of this one's start state, and whose currents are what
     * `findById` finds from that clone for each current's label, in order.
     */
    method DeepCopy(ghost G: set<NFAState>) returns (r: Result<NFA>, ghost src: map<NFAState, NFAState>)
      requires start != null ==> start in G && Closed(G)
      ensures start == null <==> r == Err(MissingStart)
      ensures r.Err? && start != null ==>
        r.error == IdNotFound && exists i :: 0 <= i < |currents| && currents[i].id != start.id
      ensures r.Ok? ==>
        fresh(r.value) && r.value.start != null && (forall m :: m in src ==> fresh(m)) &&
        ClonedFrom(r.value.start, r.value.currents, src, this, G)
    {
      if start == null {
        return Err(MissingStart), map[];
      }
      var s, visits;
      s, visits, src := start.DeepCopy({}, G);
      MirrorsClosed(src);
      var found := Locate(s, currents, src.Keys);
      if found.Err? {
        return Err(IdNotFound), src;
      }
      assert ClonedFrom(s, found.value, src, this, G);
      var copy := new NFA(None, "", "");
      copy.start, copy.currents := s, found.value;
      r := Ok(copy);
    }

    /**
     * `concat`: clones of both automata, the end state `findEnd` reaches in
     * the first clone demoted to an ordinary state with an epsilon edge to
     * the start state of the second clone; the first clone is returned and
     * neither operand is changed.
     */
    method Concat(nfa: NFA, ghost G: set<NFAState>, ghost H: set<NFAState>)
      returns (r: Result<NFA>, ghost aSrc: map<NFAState, NFAState>, ghost bSrc: map<NFAState, NFAState>,
               ghost end: NFAState?)
      requires start != null ==> start in G && Closed(G)
      requires nfa.start != null ==> nfa.start in H && Closed(H)
      ensures start == null ==> r == Err(MissingStart)
      ensures nfa.start == null ==> r.Err?
      ensures r.Err? && r.error == MissingStart ==> start == null || nfa.start == null
      ensures r.Err? && r.error == IdNotFound ==>
        (start != null && exists i :: 0 <= i < |currents| && currents[i].id != start.id) ||
        (nfa.start != null && exists i :: 0 <= i < |nfa.currents| && nfa.currents[i].id != nfa.start.id)
      ensures r.Err? && r.error == EndNotFound ==>
        start != null && !start.isEnd &&
        forall k :: k in start.inputTransitions ==> !start.inputTransitions[k].isEnd
      ensures r.Err? ==> r.error == MissingStart || r.error == IdNotFound || r.error == EndNotFound
      ensures r.Ok? ==>
        fresh(r.value) && r.value.start != null && end != null && nfa.start != null &&
        (forall m :: m in aSrc ==> fresh(m)) && (forall m :: m in bSrc ==> fresh(m)) &&
        Joined(r.value.start, r.value.currents, end, aSrc, bSrc, this, nfa, G, H)
    {
      aSrc, bSrc, end := map[], map[], null;
      var ra, rb;
      ra, aSrc := DeepCopy(G);
      if ra.Err? {
        return Err(ra.error), aSrc, bSrc, end;
      }
      rb, bSrc := nfa.DeepCopy(H);
      if rb.Err? {
        return Err(rb.error), aSrc, bSrc, end;
      }
      var a, b := ra.value, rb.value;
      r, end := Join(a, b, aSrc, bSrc, this, nfa, G, H);
    }

    /**
     * The part of `concat` after the clones: the end state the first clone
     * reaches is demoted and linked to the second clone's start state, and
     * the first clone is the result.
     */
    static method Join(a: NFA, b: NFA, ghost aSrc: map<NFAState, NFAState>, ghost bSrc: map<NFAState, NFAState>,
                       ghost x: NFA, ghost y: NFA, ghost G: set<NFAState>, ghost H: set<NFAState>)
      returns (r: Result<NFA>, ghost end: NFAState?)
      requires a.start != null && ClonedFrom(a.start, a.currents, aSrc, x, G)
      requires b.start != null && ClonedFrom(b.start, b.currents, bSrc, y, H)
      requires aSrc.Keys !! bSrc.Keys
      requires forall m :: m in aSrc ==> m !in G && m !in H
      modifies aSrc.Keys
      ensures r.Err? ==>
        r.error == EndNotFound && !x.start.isEnd &&
        forall k :: k in x.start.inputTransitions ==> !x.start.inputTransitions[k].isEnd
      ensures r.Ok? ==> r.value == a && end != null && end.epsilonTransitions == [b.start]
      ensures r.Ok? ==> end != null && Joined(a.start, a.currents, end, aSrc, bSrc, x, y, G, H)
    {
      MirrorsClosed(aSrc);
      var found := a.End(aSrc.Keys);
      if found.Err? {
        assert Copied(aSrc, a.start);
        forall k | k in x.start.inputTransitions ensures !x.start.inputTransitions[k].isEnd {
          var t := a.start.inputTransitions[k];
          assert t in a.start.Successors() && Copied(aSrc, t);
        }
        return Err(found.error), null;
      }
      var e := found.value;
      assert Copied(aSrc, e);
      assert MirrorsBut(aSrc, e);
      ghost var first, now := a.start, a.currents;
      Attach(e, b.start, first, now, aSrc, bSrc, x, y, G, H);
      assert a.start == first && a.currents == now;
      r, end := Ok(a), e;
    }

    /**
     * The demotion step of `concat`: the end state `e` of the first clone
     * stops being an end state and gains an epsilon edge to `next`, the
     * start state of the second clone.
     */
    static method Attach(e: NFAState, next: NFAState, ghost first: NFAState, ghost now: seq<NFAState>,
                         ghost aSrc: map<NFAState, NFAState>, ghost bSrc: map<NFAState, NFAState>,
                         ghost a: NFA, ghost b: NFA, ghost G: set<NFAState>, ghost H: set<NFAState>)
      requires a.start != null && first in aSrc && aSrc[first] == a.start
      requires first.inputTransitions.Keys == a.start.inputTransitions.Keys
      requires forall m :: m in aSrc ==> aSrc[m] in G
      requires e in aSrc && e.isEnd && Copied(aSrc, e) && MirrorsBut(aSrc, e)
      requires Reachable(aSrc.Keys, first, e)
      requires |now| == |a.currents| && forall j :: 0 <= j < |now| ==> now[j].id == a.currents[j].id
      requires forall x :: x in now ==> x in aSrc && Reachable(aSrc.Keys, first, x)
      requires forall j :: 0 <= j < |now| && a.currents[j].id == first.id ==> now[j] == first
      requires b.start != null && next in bSrc && bSrc[next] == b.start
      requires next.inputTransitions.Keys == b.start.inputTransitions.Keys
      requires Mirrors(bSrc) && forall m :: m in bSrc ==> bSrc[m] in H
      requires aSrc.Keys !! bSrc.Keys && e !in G && e !in H
      modifies e
      ensures !e.isEnd && e.epsilonTransitions == [next] && e.inputTransitions == old(e.inputTransitions)
      ensures Joined(first, now, e, aSrc, bSrc, a, b, G, H)
    {
      assert e !in aSrc.Values && e !in bSrc.Values;
      ghost var S, kept := aSrc.Keys, e.Successors();
      ReachableVia(S, first, e, e, kept);
      forall x | x in now ensures ReachesVia(S, first, x, e, kept) {
        ReachableVia(S, first, x, e, kept);
      }
      e.isEnd := false;
      var pushed := e.SetTransition("", next);
      ViaReachable(S, first, e, e, kept);
      forall x | x in now ensures Reachable(S, first, x) {
        ViaReachable(S, first, x, e, kept);
      }
    }

    /**
     * The `map` of the private `deepCopy` over the currents: `findById`
     * from `from` for each label of `cs`, in order, stopping at the first
     * label it does not find.
     */
    static method Locate(from: NFAState, cs: seq<NFAState>, ghost S: set<NFAState>) returns (r: Result<seq<NFAState>>)
      requires from in S && Closed(S)
      ensures r.Err? ==> r.error == IdNotFound && exists i :: 0 <= i < |cs| && cs[i].id != from.id
      ensures r.Ok? ==> |r.value| == |cs|
      ensures r.Ok? ==> forall x :: x in r.value ==> x in S && Reachable(S, from, x)
      ensures r.Ok? ==> forall j :: 0 <= j < |cs| ==> r.value[j].id == cs[j].id
      ensures r.Ok? ==> forall j :: 0 <= j < |cs| && cs[j].id == from.id ==> r.value[j] == from
    {
      var found: seq<NFAState> := [];
      var i := 0;
      while i < |cs|
        invariant 0 <= i <= |cs| && |found| == i
        invariant forall x :: x in found ==> x in S && Reachable(S, from, x)
        invariant forall j :: 0 <= j < i ==> found[j].id == cs[j].id
        invariant forall j :: 0 <= j < i && cs[j].id == from.id ==> found[j] == from
      {
        var hit := from.FindById(cs[i].id, S);
        if hit.Err? {
          return Err(IdNotFound);
        }
        found := found + [hit.value];
        i := i + 1;
      }
      r := Ok(found);
    }
  }

  /**
   * An automaton with start state `first` and currents `now` is a clone of
   * the automaton `orig`: `first` is the recorded clone of `orig`'s start
   * state, with the same symbols, every recorded clone mirrors a state of
   * `G`, and each of `now` carries the label of the current of `orig` at
   * the same position, lies in the clone and is reachable from `first`,
   * and is `first` itself where `orig`'s current has the start state's
   * label.
   */
  ghost predicate ClonedFrom(first: NFAState, now: seq<NFAState>, src: map<NFAState, NFAState>, orig: NFA, G: set<NFAState>)
    reads first, orig, src.Keys, src.Values
  {
    && orig.start != null
    && first in src && src[first] == orig.start
    && first.inputTransitions.Keys == orig.start.inputTransitions.Keys
    && Mirrors(src)
    && (forall m :: m in src ==> src[m] in G)
    && |now| == |orig.currents|
    && (forall x :: x in now ==> x in src && Reachable(src.Keys, first, x))
    && (forall j :: 0 <= j < |now| ==> now[j].id == orig.currents[j].id)
    && (forall j :: 0 <= j < |now| && orig.currents[j].id == orig.start.id ==> now[j] == first)
  }

  /**
   * What `concat` leaves: the first clone (`aSrc`, start `first`, currents
   * `now`) mirrors the first operand except at `end`, which has been
   * demoted and linked to the start of the second clone (`bSrc`); the
   * second clone mirrors the second operand throughout; the two clones
   * share no state.
   */
  ghost predicate Joined(first: NFAState, now: seq<NFAState>, end: NFAState,
                         aSrc: map<NFAState, NFAState>, bSrc: map<NFAState, NFAState>,
                         a: NFA, b: NFA, G: set<NFAState>, H: set<NFAState>)
    reads first, end, a, b, aSrc.Keys, aSrc.Values, bSrc.Keys, bSrc.Values
  {
    && a.start != null && b.start != null
    && aSrc.Keys !! bSrc.Keys
    && FirstClone(first, end, aSrc, a.start, G)
    && Demoted(end, aSrc, bSrc, b.start)
    && MirrorsIn(bSrc, H)
    && KeptCurrents(now, a.currents, first, aSrc)
  }

  /**
   * `first` is the clone of `start` in `aSrc`, with the same symbols; every
   * clone but `end` mirrors a state of `G`; and `end` is reachable from
   * `first`.
   */
  ghost predicate FirstClone(first: NFAState, end: NFAState, aSrc: map<NFAState, NFAState>, start: NFAState, G: set<NFAState>)
    reads first, aSrc.Keys, aSrc.Values
  {
    && first in aSrc && aSrc[first] == start
    && first.inputTransitions.Keys == start.inputTransitions.Keys
    && (forall m :: m in aSrc ==> aSrc[m] in G)
    && MirrorsBut(aSrc, end)
    && Reachable(aSrc.Keys, first, end)
  }

  /**
   * `end` clones an end state but is no longer one; it keeps the label and
   * the symbol edges of a clone, and has a single epsilon edge, to the
   * clone of `next` in `bSrc`, which has the symbols of `next`.
   */
  ghost predicate Demoted(end: NFAState, aSrc: map<NFAState, NFAState>, bSrc: map<NFAState, NFAState>, next: NFAState)
    reads end, aSrc.Keys, aSrc.Values, bSrc.Keys, bSrc.Values
  {
    && end in aSrc && aSrc[end].isEnd && !end.isEnd && end.id == aSrc[end].id && Linked(aSrc, end)
    && |end.epsilonTransitions| == 1 && end.epsilonTransitions[0] in bSrc
    && bSrc[end.epsilonTransitions[0]] == next
    && end.epsilonTransitions[0].inputTransitions.Keys == next.inputTransitions.Keys
  }

  /** Every clone in `src` is `Copied` from a state of `S`. */
  ghost predicate MirrorsIn(src: map<NFAState, NFAState>, S: set<NFAState>)
    reads src.Keys, src.Values
  {
    Mirrors(src) && forall m :: m in src ==> src[m] in S
  }

  /**
   * `now` lists, position by position, states of the clone `aSrc`
   * reachable from `first` with the labels of `before`, and `first`
   * itself where that label is `first`'s.
   */
  ghost predicate KeptCurrents(now: seq<NFAState>, before: seq<NFAState>, first: NFAState, aSrc: map<NFAState, NFAState>)
    reads first, aSrc.Keys
  {
    && |now| == |before|
    && (forall x :: x in now ==> x in aSrc && Reachable(aSrc.Keys, first, x))
    && (forall j :: 0 <= j < |now| ==> now[j].id == before[j].id)
    && (forall j :: 0 <= j < |now| && before[j].id == first.id ==> now[j] == first)
  }

  /** Every clone recorded in `src` except `skip` is `Copied`. */
  ghost predicate MirrorsBut(src: map<NFAState, NFAState>, skip: NFAState)
    reads src.Keys - {skip}, src.Values
  {
    forall m :: m in src && m != skip ==> Copied(src, m)
  }

  /**
   * `p` walks through `S` along edges, except that a step out of `grown`
   * may only land in `kept`: a path that does not look at `grown`'s own
   * edges.
   */
  ghost predicate PathVia(S: set<NFAState>, older p: seq<NFAState>, grown: NFAState, kept: set<NFAState>)
    reads S - {grown}
  {
    (forall i :: 0 <= i < |p| ==> p[i] in S) &&
    (forall i :: 0 < i < |p| ==> if p[i - 1] == grown then p[i] in kept else p[i] in p[i - 1].Successors())
  }

  /** `b` is reachable from `a` by a `PathVia`. */
  ghost predicate ReachesVia(S: set<NFAState>, a: NFAState, b: NFAState, grown: NFAState, kept: set<NFAState>)
    reads S - {grown}
  {
    exists p :: PathVia(S, p, grown, kept) && |p| > 0 && p[0] == a && p[|p| - 1] == b
  }

  /** With `kept` the successors of `grown`, a path is a `PathVia`. */
  lemma ReachableVia(S: set<NFAState>, a: NFAState, b: NFAState, grown: NFAState, kept: set<NFAState>)
    requires Reachable(S, a, b) && kept == grown.Successors()
    ensures ReachesVia(S, a, b, grown, kept)
  {
    var p :| IsPathIn(S, p) && |p| > 0 && p[0] == a && p[|p| - 1] == b;
    assert PathVia(S, p, grown, kept);
  }

  /** Once `grown` has at least the successors `kept`, a `PathVia` is a path. */
  lemma ViaReachable(S: set<NFAState>, a: NFAState, b: NFAState, grown: NFAState, kept: set<NFAState>)
    requires ReachesVia(S, a, b, grown, kept) && kept <= grown.Successors()
    ensures Reachable(S, a, b)
  {
    var p :| PathVia(S, p, grown, kept) && |p| > 0 && p[0] == a && p[|p| - 1] == b;
    assert IsPathIn(S, p);
  }

  /**
   * The graph `new NFA(sa).concat(new NFA(sb))` builds: `first` goes on
   * `sa` to the demoted end state `end`, whose only edge is an epsilon edge
   * to `n`, which goes on `sb` to the end state `u`, which has no edges.
   */
  ghost predicate ChainShape(first: NFAState, end: NFAState, n: NFAState, u: NFAState, sa: string, sb: string)
    reads first, end, n, u
  {
    && !first.isEnd && first.epsilonTransitions == [] && first.inputTransitions == map[sa := end]
    && !end.isEnd && end.epsilonTransitions == [n] && end.inputTransitions == map[]
    && n.epsilonTransitions == [] && n.inputTransitions == map[sb := u]
    && u.isEnd && u.epsilonTransitions == [] && u.inputTransitions == map[]
  }

  /** The four states of a `ChainShape` form a closed graph. */
  lemma ChainClosed(first: NFAState, end: NFAState, n: NFAState, u: NFAState, sa: string, sb: string)
    requires ChainShape(first, end, n, u, sa, sb)
    ensures Closed({first, end, n, u})
  {
    SoleSuccessor(first, sa);
    SoleSuccessor(n, sb);
    NoSuccessor(u);
    assert end.Successors() == {n};
  }

  /**
   * What `concat` makes of two one-symbol automata on the symbols `sa` and
   * `sb`: the clone of the first start state is the only current and the
   * clones form a `ChainShape`, with the labels of the states they copy.
   */
  lemma ConcatOfSymbols(first: NFAState, now: seq<NFAState>, end: NFAState,
                        aSrc: map<NFAState, NFAState>, bSrc: map<NFAState, NFAState>,
                        a: NFA, b: NFA, G: set<NFAState>, H: set<NFAState>, sa: string, sb: string)
    requires Joined(first, now, end, aSrc, bSrc, a, b, G, H)
    requires a.currents == [a.start] && !a.start.isEnd && a.start.epsilonTransitions == []
    requires a.start.inputTransitions.Keys == {sa} && Terminal(a.start.inputTransitions[sa], a.start.inputTransitions[sa].id)
    requires b.start.epsilonTransitions == [] && b.start.inputTransitions.Keys == {sb}
    requires Terminal(b.start.inputTransitions[sb], b.start.inputTransitions[sb].id)
    ensures now == [first] && |end.epsilonTransitions| == 1 && sb in end.epsilonTransitions[0].inputTransitions
    ensures ChainShape(first, end, end.epsilonTransitions[0], end.epsilonTransitions[0].inputTransitions[sb], sa, sb)
    ensures first.id == a.start.id && end.id == a.start.inputTransitions[sa].id
    ensures end.epsilonTransitions[0].id == b.start.id
    ensures end.epsilonTransitions[0].inputTransitions[sb].id == b.start.inputTransitions[sb].id
  {
    assert first != end && Copied(aSrc, first);
    var t := first.inputTransitions[sa];
    if t != end {
      assert Copied(aSrc, t);
      NoSuccessor(t);
    }
    SoleSuccessor(first, sa);
    OnlySuccessor(aSrc.Keys, first, t, end);
    assert first.inputTransitions == map[sa := end];
    assert end.inputTransitions == map[];
    var n := end.epsilonTransitions[0];
    assert Copied(bSrc, n);
    var u := n.inputTransitions[sb];
    assert n.inputTransitions == map[sb := u];
    assert Copied(bSrc, u);
    assert u.inputTransitions == map[];
  }

  /**
   * The first two lines of the script at the end of the file:
   * `new NFA("a").concat(new NFA("b"))` succeeds, with its start state
   * `first` as the only current and the graph a `ChainShape` whose states
   * carry the labels of the states they copy.
   */
  method ConcatAB() returns (ab: NFA, ghost first: NFAState, ghost end: NFAState, ghost n: NFAState, ghost u: NFAState)
    ensures fresh(ab) && ab.start == first && ab.currents == [first]
    ensures ChainShape(first, end, n, u, "a", "b")
    ensures first.id == "s1" && end.id == "e1" && n.id == "s2" && u.id == "e2"
  {
    var a := new NFA(Some("a"), "s1", "e1");
    var b := new NFA(Some("b"), "s2", "e2");
    ghost var ea, eb := a.start.inputTransitions["a"], b.start.inputTransitions["b"];
    SoleSuccessor(a.start, "a");
    SoleSuccessor(b.start, "b");
    NoSuccessor(ea);
    NoSuccessor(eb);
    ghost var G, H := {a.start, ea}, {b.start, eb};
    assert Closed(G) && Closed(H);
    var r, aSrc, bSrc, e := a.Concat(b, G, H);
    assert a.currents[0].id == a.start.id && a.start.inputTransitions["a"].isEnd;
    ab, first, end := r.value, r.value.start, e;
    ConcatOfSymbols(first, ab.currents, end, aSrc, bSrc, a, b, G, H, "a", "b");
    n := end.epsilonTransitions[0];
    u := n.inputTransitions["b"];
  }

  /**
   * The script at the end of the file: `new NFA("a").concat(new NFA("b"))`
   * reads "a" and then "b" and sits in exactly one state, an end state.
   */
  method ConcatScenario() returns (ab: NFA, ghost first: NFAState, ghost end: NFAState, ghost n: NFAState, ghost u: NFAState)
    ensures |ab.currents| == 1 && ab.currents[0].isEnd
    ensures fresh(ab) && ab.start == first && ab.currents == [u]
    ensures ChainShape(first, end, n, u, "a", "b")
    ensures first.id == "s1" && end.id == "e1" && n.id == "s2" && u.id == "e2"
  {
    ab, first, end, n, u := ConcatAB();
    SymbolStep(first, "a");
    ab.Transit("a");
    assert ab.currents == [end];
    EpsilonStep(end, n, "b");
    assert Dedup(Targets(Movables(ab.currents, {}), "b"), {}) == [u];
    ab.Transit("b");
  }

  /**
   * From the clone `c` of the head `first` of a `ChainShape`, any other
   * recorded clone `x` that is reachable clones `end`: `deepCopy` dropped
   * the epsilon edge past the clone of `end`. `x` itself need not be
   * `Copied`.
   */
  lemma CloneOfChainPrefix(c: NFAState, src: map<NFAState, NFAState>, x: NFAState,
                           first: NFAState, end: NFAState, n: NFAState, u: NFAState, sa: string, sb: string)
    requires ChainShape(first, end, n, u, sa, sb)
    requires c in src && src[c] == first && c.inputTransitions.Keys == {sa} && c != x
    requires x in src && MirrorsBut(src, x) && Reachable(src.Keys, c, x)
    ensures src[x] == end
  {
    assert Copied(src, c);
    SoleSuccessor(c, sa);
    var t := c.inputTransitions[sa];
    if t != x {
      assert Copied(src, t);
      NoSuccessor(t);
      OnlySuccessor(src.Keys, c, t, x);
    }
  }

  /**
   * Concatenating a third automaton to `new NFA("a").concat(new NFA("b"))`
   * fails with `EndNotFound`: the clone of the left operand loses the
   * epsilon edge into its second part, where its only end state lies.
   */
  method ConcatAgainFails() returns (r: Result<NFA>)
    ensures r == Err(EndNotFound)
  {
    var ab, first, end, n, u := ConcatAB();
    var c := new NFA(Some("c"), "s3", "e3");
    ghost var ec := c.start.inputTransitions["c"];
    ChainClosed(first, end, n, u, "a", "b");
    SoleSuccessor(c.start, "c");
    NoSuccessor(ec);
    ghost var G, H := {first, end, n, u}, {c.start, ec};
    assert Closed(H);
    ghost var aSrc, bSrc, e;
    r, aSrc, bSrc, e := ab.Concat(c, G, H);
    assert ab.currents[0].id == ab.start.id && c.currents[0].id == c.start.id;
    if r.Ok? {
      assert first.inputTransitions.Keys == {"a"} && r.value.start != e;
      CloneOfChainPrefix(r.value.start, aSrc, e, first, end, n, u, "a", "b");
      assert false;
    }
  }

  /**
   * `deepCopy` of the automaton after the run of `ConcatScenario` fails
   * with `IdNotFound`: its only current lies past the epsilon edge the
   * clone loses, so `findById` from the clone's start cannot find it.
   */
  method CopyAfterRunFails() returns (r: Result<NFA>)
    ensures r == Err(IdNotFound)
  {
    var ab, first, end, n, u := ConcatScenario();
    ChainClosed(first, end, n, u, "a", "b");
    ghost var src;
    r, src := ab.DeepCopy({first, end, n, u});
    if r.Ok? {
      ghost var x := r.value.currents[0];
      assert x.id == "e2" && first.inputTransitions.Keys == {"a"};
      if x != r.value.start {
        CloneOfChainPrefix(r.value.start, src, x, first, end, n, u, "a", "b");
      }
      assert false;
    }
  }
}

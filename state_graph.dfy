/**
 * The transition graph of the automaton library: `NFAState` nodes with a
 * symbol map and an ordered epsilon list, the depth-first search built on
 * a visited set keyed by the node label, and the recursive clone.
 *
 * Node labels (`id`) are not unique: a clone keeps the label of its
 * source, so every visited set below is keyed by label, as in the source,
 * while node identity is Dafny object identity.
 */
module StateGraph {

  datatype Option<T> = None | Some(value: T)

  /** The errors the library throws. */
  datatype Error =
    | DuplicateTransition  // setTransition on a symbol that is already mapped
    | EndNotFound          // findEnd found no end state
    | IdNotFound           // findById found no state with the label
    | MissingStart         // an automaton built without a symbol has no start state to follow

  datatype Result<T> = Ok(value: T) | Err(error: Error)

  datatype Outcome = Pass | Fail(error: Error)

  /** The values of `m` listed in the key order `order`. */
  function ValuesInOrder<K, V>(m: map<K, V>, order: seq<K>): (r: seq<V>)
    requires forall k :: k in order ==> k in m
  {
    if order == [] then [] else [m[order[0]]] + ValuesInOrder(m, order[1..])
  }

  /** `order` lists every key of `keys` exactly once. */
  ghost predicate IsKeyOrder(order: seq<string>, keys: set<string>)
  {
    && (forall k :: k in keys <==> k in order)
    && (forall i, j :: 0 <= i < j < |order| ==> order[i] != order[j])
  }

  lemma {:induction false} ValuesInOrderElements<K, V>(m: map<K, V>, order: seq<K>)
    requires forall k :: k in order ==> k in m
    ensures |ValuesInOrder(m, order)| == |order|
    ensures forall v :: v in ValuesInOrder(m, order) <==> exists k :: k in order && m[k] == v
    decreases |order|
  {
    if order != [] {
      ValuesInOrderElements(m, order[1..]);
      forall v | (exists k :: k in order && m[k] == v) ensures v in ValuesInOrder(m, order) {
        var k :| k in order && m[k] == v;
        if k != order[0] {
          assert k in order[1..];
        }
      }
    }
  }

  lemma {:induction false} ValuesInOrderSnoc<K, V>(m: map<K, V>, order: seq<K>, k: K)
    requires forall x :: x in order ==> x in m
    requires k in m
    ensures ValuesInOrder(m, order + [k]) == ValuesInOrder(m, order) + [m[k]]
    decreases |order|
  {
    if order != [] {
      assert (order + [k])[1..] == order[1..] + [k];
      ValuesInOrderSnoc(m, order[1..], k);
    }
  }

  /**
   * The values of `m` in any key order, followed by `tail`, are exactly
   * the values of `m` and the elements of `tail`.
   */
  lemma ListedTargets<V>(m: map<string, V>, order: seq<string>, tail: seq<V>)
    requires IsKeyOrder(order, m.Keys)
    ensures forall v :: v in ValuesInOrder(m, order) + tail <==> v in m.Values || v in tail
  {
    ValuesInOrderElements(m, order);
  }

  /** The labels carried by the states of `S`. */
  ghost function Ids(S: set<NFAState>): (r: set<string>)
  {
    set n | n in S :: n.id
  }

  /** `G` holds every state one of its states points to. */
  ghost predicate Closed(G: set<NFAState>)
    reads G
  {
    forall n {:trigger n.Successors()} :: n in G ==> n.Successors() <= G
  }

  /** No two distinct states of `G` carry the same label. */
  ghost predicate UniqueIds(G: set<NFAState>)
  {
    forall m, n :: m in G && n in G && m.id == n.id ==> m == n
  }

  /** `p` walks from state to successor state inside `G`. */
  ghost predicate IsPathIn(G: set<NFAState>, older p: seq<NFAState>)
    reads G
  {
    (forall i :: 0 <= i < |p| ==> p[i] in G) &&
    (forall i :: 0 < i < |p| ==> p[i] in p[i - 1].Successors())
  }

  ghost predicate Reachable(G: set<NFAState>, a: NFAState, b: NFAState)
    reads G
  {
    exists p :: IsPathIn(G, p) && |p| > 0 && p[0] == a && p[|p| - 1] == b
  }

  /**
   * What a search that found nothing has established: the states it
   * expanded (`explored`) carry exactly the labels it added to the visited
   * set, and neither they nor any of their successors satisfy `cond`.
   */
  ghost predicate Searched(G: set<NFAState>, cond: Condition, explored: set<NFAState>,
                           visits: set<string>, visits': set<string>)
    reads G
  {
    && explored <= G
    && visits' - visits <= Ids(explored)
    && (forall n :: n in explored ==> n.id in visits' && n.id !in visits)
    && (forall n :: n in explored ==> !n.Satisfies(cond))
    && (forall n, s :: n in explored && s in n.Successors() ==> s in G && s.id in visits' && !s.Satisfies(cond))
  }

  /** Marking one more unvisited label shrinks the termination measure. */
  lemma MarkShrinks(labels: set<string>, visits: set<string>, visits': set<string>, x: string)
    requires x in labels && x !in visits && visits + {x} <= visits'
    ensures |labels - visits'| < |labels - visits|
  {
    SubsetCard(labels - visits', (labels - visits) - {x});
  }

  lemma {:induction false} SubsetCard<T>(a: set<T>, b: set<T>)
    requires a <= b
    ensures |a| <= |b|
    decreases |b|
  {
    if b != {} {
      var y :| y in b;
      SubsetCard(a - {y}, b - {y});
    }
  }

  /** Two searches in sequence establish `Searched` for their union. */
  lemma SearchedJoin(G: set<NFAState>, cond: Condition, e1: set<NFAState>, e2: set<NFAState>,
                     v0: set<string>, v1: set<string>, v2: set<string>)
    requires v0 <= v1 <= v2
    requires Searched(G, cond, e1, v0, v1) && Searched(G, cond, e2, v1, v2)
    ensures Searched(G, cond, e1 + e2, v0, v2)
  {
    assert Ids(e1 + e2) == Ids(e1) + Ids(e2);
  }

  /**
   * A root whose label was fresh, which fails `cond` and all of whose
   * successors were searched, joins what was explored below it.
   */
  lemma SearchedRoot(G: set<NFAState>, cond: Condition, root: NFAState, below: set<NFAState>,
                     visits: set<string>, visits': set<string>)
    requires root in G && Closed(G) && root.id !in visits && !root.Satisfies(cond)
    requires visits + {root.id} <= visits'
    requires Searched(G, cond, below, visits + {root.id}, visits')
    requires forall s :: s in root.Successors() ==> s.id in visits' && !s.Satisfies(cond)
    ensures Searched(G, cond, below + {root}, visits, visits')
  {
    assert Ids(below + {root}) == Ids(below) + {root.id};
  }

  lemma PrefixCovered<T>(s: seq<T>, i: nat, done: set<T>)
    requires i < |s| && forall j :: 0 <= j < i ==> s[j] in done
    ensures forall j :: 0 <= j < i + 1 ==> s[j] in done + {s[i]}
  {
  }

  lemma PathCons(G: set<NFAState>, n: NFAState, p: seq<NFAState>)
    requires n in G && IsPathIn(G, p) && |p| > 0 && p[0] in n.Successors()
    ensures IsPathIn(G, [n] + p)
    ensures |[n] + p| == |p| + 1 && ([n] + p)[0] == n && ([n] + p)[|p|] == p[|p| - 1]
  {
  }

  /**
   * With unique labels, a path that starts in the explored part of a
   * fruitless search from an empty visited set never leaves it.
   */
  lemma {:induction false} PathStaysExplored(G: set<NFAState>, cond: Condition, explored: set<NFAState>,
                                             visits': set<string>, p: seq<NFAState>)
    requires UniqueIds(G) && Searched(G, cond, explored, {}, visits')
    requires IsPathIn(G, p) && |p| > 0 && p[0] in explored
    ensures p[|p| - 1] in explored
    decreases |p|
  {
    if |p| > 1 {
      var q := p[..|p| - 1];
      assert IsPathIn(G, q);
      PathStaysExplored(G, cond, explored, visits', q);
      var last := p[|p| - 1];
      assert last in q[|q| - 1].Successors();
      assert last.id in Ids(explored);
      var m :| m in explored && m.id == last.id;
    }
  }

  /** A fruitless search from `{}` over unique labels rules out every reachable state. */
  lemma NothingReachableSatisfies(G: set<NFAState>, cond: Condition, explored: set<NFAState>,
                                  visits': set<string>, start: NFAState)
    requires Searched(G, cond, explored, {}, visits') && start in explored
    ensures forall s :: s in start.Successors() ==> !s.Satisfies(cond)
    ensures UniqueIds(G) ==> forall n :: n in G && Reachable(G, start, n) ==> !n.Satisfies(cond)
  {
    if UniqueIds(G) {
      forall n | n in G && Reachable(G, start, n) ensures !n.Satisfies(cond) {
        var p :| IsPathIn(G, p) && |p| > 0 && p[0] == start && p[|p| - 1] == n;
        PathStaysExplored(G, cond, explored, visits', p);
      }
    }
  }

  /**
   * `m` is a clone of `src[m]` as `deepCopy` makes them: same label and end
   * flag, no epsilon edges, and symbol edges as `Linked` says.
   */
  ghost predicate Copied(src: map<NFAState, NFAState>, m: NFAState)
    requires m in src
    reads m, src[m]
  {
    && m.id == src[m].id
    && m.isEnd == src[m].isEnd
    && m.epsilonTransitions == []
    && Linked(src, m)
  }

  /**
   * The symbol map of `m` is either empty (a revisited label) or has the
   * symbols of `src[m]`, each leading to a recorded clone of the source's
   * target.
   */
  ghost predicate Linked(src: map<NFAState, NFAState>, m: NFAState)
    requires m in src
    reads m, src[m]
  {
    && (m.inputTransitions == map[] || m.inputTransitions.Keys == src[m].inputTransitions.Keys)
    && forall k :: k in m.inputTransitions ==>
         k in src[m].inputTransitions &&
         m.inputTransitions[k] in src && src[m.inputTransitions[k]] == src[m].inputTransitions[k]
  }

  /** Every clone recorded in `src` is `Copied`. */
  ghost predicate Mirrors(src: map<NFAState, NFAState>)
    reads src.Keys, src.Values
  {
    forall m :: m in src ==> Copied(src, m)
  }

  /** Clones recorded in two disjoint maps stay `Copied` in their union. */
  lemma CopiedJoin(G: set<NFAState>, src: map<NFAState, NFAState>, more: map<NFAState, NFAState>,
                   copied: map<string, NFAState>, origin: map<string, NFAState>, k: string, c: NFAState)
    requires src.Keys !! more.Keys
    requires Mirrors(src) && Mirrors(more)
    requires forall m :: m in src ==> src[m] in G
    requires forall m :: m in more ==> more[m] in G
    requires forall x :: x in copied ==> x in origin && copied[x] in src && src[copied[x]] == origin[x]
    requires k in origin && c in more && more[c] == origin[k]
    ensures Mirrors(src + more)
    ensures forall m :: m in src + more ==> (src + more)[m] in G
    ensures forall x :: x in copied[k := c] ==>
      x in origin && copied[k := c][x] in src + more && (src + more)[copied[k := c][x]] == origin[x]
  {
    var all := src + more;
    forall m | m in all ensures Copied(all, m) {
      if m in src {
        assert Copied(src, m);
      } else {
        assert Copied(more, m);
      }
    }
  }

  /** A clone whose targets are recorded clones can be recorded beside them. */
  lemma CopiedRoot(below: map<NFAState, NFAState>, copy: NFAState, origin: NFAState)
    requires copy !in below.Keys && copy !in below.Values
    requires Mirrors(below)
    requires copy.id == origin.id && copy.isEnd == origin.isEnd && copy.epsilonTransitions == []
    requires copy.inputTransitions.Keys == origin.inputTransitions.Keys
    requires forall x :: x in copy.inputTransitions ==>
      copy.inputTransitions[x] in below && below[copy.inputTransitions[x]] == origin.inputTransitions[x]
    ensures Mirrors(below[copy := origin])
  {
    var all := below[copy := origin];
    forall m | m in all ensures Copied(all, m) {
      if m != copy {
        assert Copied(below, m);
      }
    }
  }

  /** The clones recorded in `src` point only to clones recorded in `src`. */
  lemma MirrorsClosed(src: map<NFAState, NFAState>)
    requires Mirrors(src)
    ensures Closed(src.Keys)
  {
    forall m | m in src.Keys ensures m.Successors() <= src.Keys {
      assert Copied(src, m);
    }
  }

  /** The two conditions the search is used with. */
  datatype Condition = IsEnd | HasId(wanted: string)

  class NFAState {
    const id: string
    var isEnd: bool
    var inputTransitions: map<string, NFAState>
    var epsilonTransitions: seq<NFAState>

    /** `new NFAState(isEnd, id)`: the label is supplied by the caller. */
    constructor (isEnd: bool, id: string)
      ensures this.isEnd == isEnd && this.id == id
      ensures inputTransitions == map[] && epsilonTransitions == []
    {
      this.isEnd := isEnd;
      this.id := id;
      inputTransitions := map[];
      epsilonTransitions := [];
    }

    /** The states `nextStates` lists, as a set. */
    function Successors(): set<NFAState>
      reads this
    {
      inputTransitions.Values + set s | s in epsilonTransitions
    }

    predicate Satisfies(cond: Condition)
      reads this
    {
      match cond
      case IsEnd => isEnd
      case HasId(wanted) => id == wanted
    }

    /**
     * `nextStates`: the symbol targets in the map's enumeration order,
     * which is left open (`order` is the key order that was taken),
     * followed by the epsilon targets in list order.
     */
    method NextStates() returns (r: seq<NFAState>, ghost order: seq<string>)
      ensures IsKeyOrder(order, inputTransitions.Keys)
      ensures r == ValuesInOrder(inputTransitions, order) + epsilonTransitions
      ensures forall s :: s in r <==> s in Successors()
    {
      var keys := inputTransitions.Keys;
      r, order := [], [];
      while keys != {}
        invariant keys <= inputTransitions.Keys
        invariant forall k :: k in inputTransitions ==> k in order || k in keys
        invariant forall k :: k in order ==> k in inputTransitions && k !in keys
        invariant forall i, j :: 0 <= i < j < |order| ==> order[i] != order[j]
        invariant r == ValuesInOrder(inputTransitions, order)
        decreases |keys|
      {
        var k :| k in keys;
        ValuesInOrderSnoc(inputTransitions, order, k);
        r, order := r + [inputTransitions[k]], order + [k];
        keys := keys - {k};
      }
      r := r + epsilonTransitions;
      ListedTargets(inputTransitions, order, epsilonTransitions);
    }

    /** `findEnd` (with `_findEnd`): a search for an end state from `{}`. */
    method FindEnd(ghost G: set<NFAState>) returns (r: Result<NFAState>)
      requires this in G && Closed(G)
      ensures isEnd ==> r == Ok(this)
      ensures r.Ok? ==> r.value.isEnd && r.value in G && Reachable(G, this, r.value)
      ensures r.Err? ==> r.error == EndNotFound && !isEnd && forall s :: s in Successors() ==> !s.isEnd
      ensures r.Err? && UniqueIds(G) ==> forall n :: n in G && Reachable(G, this, n) ==> !n.isEnd
    {
      var found, visits', path, explored := FindCondition(IsEnd, {}, G);
      if found.None? {
        NothingReachableSatisfies(G, IsEnd, explored, visits', this);
        return Err(EndNotFound);
      }
      r := Ok(found.value);
    }

    /** `findById`: a search for a state labelled `wanted` from `{}`. */
    method FindById(wanted: string, ghost G: set<NFAState>) returns (r: Result<NFAState>)
      requires this in G && Closed(G)
      ensures id == wanted ==> r == Ok(this)
      ensures r.Ok? ==> r.value.id == wanted && r.value in G && Reachable(G, this, r.value)
      ensures r.Err? ==> r.error == IdNotFound && id != wanted && forall s :: s in Successors() ==> s.id != wanted
      ensures r.Err? && UniqueIds(G) ==> forall n :: n in G && Reachable(G, this, n) ==> n.id != wanted
    {
      var found, visits', path, explored := FindCondition(HasId(wanted), {}, G);
      if found.None? {
        NothingReachableSatisfies(G, HasId(wanted), explored, visits', this);
        return Err(IdNotFound);
      }
      r := Ok(found.value);
    }

    /**
     * `_findCondition`: the receiver is tested before its label is looked
     * up in `visits`; an unvisited label is marked before the successors
     * are searched in `nextStates` order, and the first hit is returned.
     */
    method FindCondition(cond: Condition, visits: set<string>, ghost G: set<NFAState>)
      returns (r: Option<NFAState>, visits': set<string>, ghost path: seq<NFAState>, ghost explored: set<NFAState>)
      requires this in G && Closed(G)
      ensures visits <= visits'
      ensures Satisfies(cond) ==> r == Some(this) && visits' == visits
      ensures r.Some? ==>
        r.value.Satisfies(cond) && r.value in G &&
        IsPathIn(G, path) && |path| > 0 && path[0] == this && path[|path| - 1] == r.value
      ensures r.None? ==>
        !Satisfies(cond) && id in visits' && (id !in visits ==> this in explored) &&
        Searched(G, cond, explored, visits, visits')
      decreases |Ids(G) - visits|, 1
    {
      if Satisfies(cond) {
        return Some(this), visits, [this], {};
      }
      if id in visits {
        return None, visits, [], {};
      }
      assert id in Ids(G);
      MarkShrinks(Ids(G), visits, visits + {id}, id);
      var children, order := NextStates();
      var found, v, p, below := SearchChildren(children, cond, visits + {id}, G);
      if found.Some? {
        PathCons(G, this, p);
        r, visits', path, explored := found, v, [this] + p, {};
      } else {
        SearchedRoot(G, cond, this, below, visits, v);
        r, visits', path, explored := None, v, [], below + {this};
      }
    }

    /**
     * The loop of `_findCondition` over the successor list `children`:
     * each child is searched with the visited set the previous ones left,
     * and the first hit ends the loop.
     */
    static method SearchChildren(children: seq<NFAState>, cond: Condition, visits: set<string>, ghost G: set<NFAState>)
      returns (r: Option<NFAState>, visits': set<string>, ghost path: seq<NFAState>, ghost explored: set<NFAState>)
      requires Closed(G) && forall s :: s in children ==> s in G
      ensures visits <= visits'
      ensures r.Some? ==>
        r.value.Satisfies(cond) && r.value in G &&
        IsPathIn(G, path) && |path| > 0 && path[0] in children && path[|path| - 1] == r.value
      ensures r.Some? ==>
        exists i, e, vi :: 0 <= i < |children| && path[0] == children[i] &&
          visits <= vi <= visits' && Searched(G, cond, e, visits, vi) &&
          forall j :: 0 <= j < i ==> children[j].id in vi && !children[j].Satisfies(cond)
      ensures r.None? ==>
        Searched(G, cond, explored, visits, visits') &&
        forall s :: s in children ==> s.id in visits' && !s.Satisfies(cond)
      decreases |Ids(G) - visits|, 2
    {
      visits', explored := visits, {};
      ghost var done: set<NFAState> := {};
      var i := 0;
      while i < |children|
        invariant 0 <= i <= |children|
        invariant visits <= visits'
        invariant Searched(G, cond, explored, visits, visits')
        invariant forall j :: 0 <= j < i ==> children[j] in done
        invariant forall s :: s in done ==> s.id in visits' && !s.Satisfies(cond)
      {
        var child := children[i];
        SubsetCard(Ids(G) - visits', Ids(G) - visits);
        var found, v, p, e := child.FindCondition(cond, visits', G);
        if found.Some? {
          ghost var e0, v0 := explored, visits';
          assert Searched(G, cond, e0, visits, v0) && forall j :: 0 <= j < i ==> children[j].id in v0 && !children[j].Satisfies(cond);
          r, visits', path, explored := found, v, p, {};
          return;
        }
        SearchedJoin(G, cond, explored, e, visits, visits', v);
        PrefixCovered(children, i, done);
        visits', explored, done := v, explored + e, done + {child};
        i := i + 1;
      }
      r, path := None, [];
    }

    /**
     * `deepCopy`: a fresh state with the receiver's label and end flag;
     * for a label already in `visits` it is returned childless, otherwise
     * the label is marked and every symbol target is cloned recursively.
     * Line 114 maps over the clone's own, still empty, epsilon list, so
     * clones never have epsilon edges. `src` maps every state this call
     * created to the state it clones.
     */
    method DeepCopy(visits: set<string>, ghost G: set<NFAState>)
      returns (copy: NFAState, visits': set<string>, ghost src: map<NFAState, NFAState>)
      requires this in G && Closed(G)
      ensures fresh(copy) && copy in src && src[copy] == this
      ensures forall m :: m in src ==> fresh(m) && src[m] in G
      ensures Mirrors(src)
      ensures visits <= visits'
      ensures id in visits ==> copy.inputTransitions == map[] && visits' == visits
      ensures id !in visits ==> copy.inputTransitions.Keys == inputTransitions.Keys && id in visits'
      decreases |Ids(G) - visits|, 0
    {
      copy := new NFAState(isEnd, id);
      if id in visits {
        return copy, visits, map[copy := this];
      }
      assert id in Ids(G);
      MarkShrinks(Ids(G), visits, visits + {id}, id);
      var copied, v, below := CloneTargets(visits + {id}, G);
      assert copy !in below.Keys && copy !in below.Values;
      copy.inputTransitions := copied;
      src, visits' := below[copy := this], v;
      CopiedRoot(below, copy, this);
    }

    /**
     * The `forEach` of `deepCopy` over the receiver's symbol map, in an
     * order left open: every target is cloned with the visited set the
     * previous clones left.
     */
    method CloneTargets(visits: set<string>, ghost G: set<NFAState>)
      returns (copied: map<string, NFAState>, visits': set<string>, ghost src: map<NFAState, NFAState>)
      requires this in G && Closed(G)
      ensures copied.Keys == inputTransitions.Keys
      ensures forall x :: x in copied ==> copied[x] in src && src[copied[x]] == inputTransitions[x]
      ensures forall m :: m in src ==> fresh(m)
      ensures forall m :: m in src ==> src[m] in G
      ensures Mirrors(src)
      ensures visits <= visits'
      decreases |Ids(G) - visits|, 1
    {
      copied, visits', src := map[], visits, map[];
      var keys := inputTransitions.Keys;
      while keys != {}
        invariant keys <= inputTransitions.Keys
        invariant forall k :: k in inputTransitions ==> k in copied || k in keys
        invariant forall k :: k in copied ==> k in inputTransitions && k !in keys
        invariant visits <= visits'
        invariant forall m :: m in src ==> fresh(m)
        invariant forall m :: m in src ==> src[m] in G
        invariant Mirrors(src)
        invariant forall x :: x in copied ==> x in inputTransitions && copied[x] in src && src[copied[x]] == inputTransitions[x]
        decreases |keys|
      {
        var k :| k in keys;
        var target := inputTransitions[k];
        assert target in Successors();
        SubsetCard(Ids(G) - visits', Ids(G) - visits);
        var c, v, s := target.DeepCopy(visits', G);
        assert src.Keys !! s.Keys;
        CopiedJoin(G, src, s, copied, inputTransitions, k, c);
        copied, src, visits' := copied[k := c], src + s, v;
        keys := keys - {k};
      }
    }

    /**
     * `setTransition`: the empty symbol appends an epsilon edge; any other
     * symbol is inserted into the map unless it is already there.
     */
    method SetTransition(input: string, nextState: NFAState) returns (res: Outcome)
      modifies this
      ensures isEnd == old(isEnd)
      ensures input == "" ==>
        res == Pass &&
        epsilonTransitions == old(epsilonTransitions) + [nextState] &&
        inputTransitions == old(inputTransitions)
      ensures input != "" && input in old(inputTransitions) ==>
        res == Fail(DuplicateTransition) &&
        epsilonTransitions == old(epsilonTransitions) &&
        inputTransitions == old(inputTransitions)
      ensures input != "" && input !in old(inputTransitions) ==>
        res == Pass &&
        epsilonTransitions == old(epsilonTransitions) &&
        inputTransitions == old(inputTransitions)[input := nextState]
    {
      if input == "" {
        epsilonTransitions := epsilonTransitions + [nextState];
        res := Pass;
      } else if input in inputTransitions {
        res := Fail(DuplicateTransition);
      } else {
        inputTransitions := inputTransitions[input := nextState];
        res := Pass;
      }
    }
  }
}

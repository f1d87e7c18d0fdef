# NFA states, search, cloning and stepping — a Dafny model

This project models `src/automaton/nfa.ts`, a small mutable NFA library.
It has two classes.

- `NFAState` is a graph node. It has a label `id`, an end flag `isEnd`, a
  map from symbols to successor states, and an ordered list of epsilon
  successors.
  - `setTransition` adds an edge to a node in place.
  - `findEnd` and `findById` run a depth-first search (`_findCondition`).
    The search keeps a visited dictionary keyed by the label.
  - `deepCopy` clones a node recursively. It uses the same kind of visited
    dictionary.
- `NFA` holds a start state and the list of states it currently sits in
  (`currents`), taken before any epsilon move.
  - The constructor builds the two-state automaton for one symbol.
  - `currentMovables` extends the currents by one epsilon step.
  - `transit` is the step function.
  - The private `deepCopy` clones an automaton and looks its currents up
    again by label.
  - The `end` getter finds the end state by search.
  - `concat` clones both operands. It then demotes the end state of the
    first clone and links it to the second clone's start state by an
    epsilon edge.

The model follows the code's own structure. There are two modules.

- `StateGraph` (`state_graph.dfy`) holds the `NFAState` class, the search
  and the recursive clone.
- `Automaton` (`automaton.dfy`) holds the `NFA` class, the stepping
  functions and `concat`.

Both classes are Dafny classes whose methods update fields in place. The
visited dictionaries become `set<string>` values of labels. Each recursive
method takes one and returns the updated one, as the shared dictionary is
threaded through the recursion in the source. A ghost closed set of states
`G` gives the recursion its termination measure: the number of labels of `G`
not yet visited. This works because each label is expanded at most once.
JavaScript's key enumeration order for `Object.values` and `Object.entries`
is left open. The model picks the next key nondeterministically, and every
stated property holds for any order.

Several functions specify the loops and recursions:
- `Dedup` keeps the first state for each new label;
- `Movables` is the expansion `currentMovables` computes;
- `Targets` collects the targets of one symbol.

The lemmas prove what the code promises about them: no repeated label,
exactly which labels appear, and what the step keeps. The relation
`Copied`/`Mirrors` ties each clone to the state it copies.

Where the code does something other than its names and comments suggest, the model follows the code:

- Clones keep the label of the state they copy (`new NFAState(this._isEnd,
  this.id)`). Labels are therefore not unique, and every visited set is
  keyed by label, as in the code.
- A clone never has epsilon edges. The clone's edges are computed by
  mapping over the clone's own list, which is still empty
  (src/automaton/nfa.ts:114). A clone of a `concat` result therefore loses
  the epsilon edge into its second part, together with the only end state.
  So `new NFA("a").concat(new NFA("b")).concat(new NFA("c"))` always fails
  with `EndNotFound` (`ConcatAgainFails`). And a `deepCopy` of
  `new NFA("a").concat(new NFA("b"))` after `transit("a")` and
  `transit("b")` fails with `IdNotFound`, because its current's label is
  no longer reachable in the clone (`CopyAfterRunFails`).
- A state whose label was already visited is cloned as a fresh state with
  no edges at all. It is not linked to the earlier clone. So the clone of a
  graph with sharing or a cycle is not isomorphic to it, and
  `Linked` allows such an empty symbol map.
- `currentMovables` follows one epsilon step only, not the closure. It
  also skips the epsilon targets of a current whose label was already
  listed. `MovablesSkipsRevisitedCurrent` shows a concrete case.
- `concat` finds the end state to demote by a depth-first search. It does
  not keep a reference to it.
- The constructor keeps no reference to the end state it creates.

## Model

| member | source | states |
|---|---|---|
| StateGraph.NFAState.constructor | src/automaton/nfa.ts:35-39 | a new state has the given end flag and label, an empty symbol map and no epsilon edges |
| StateGraph.NFAState.SetTransition | src/automaton/nfa.ts:98-106 | the empty symbol appends the target as the last epsilon edge and leaves the map alone; a symbol already mapped fails with `DuplicateTransition` and changes nothing; any other symbol maps exactly that symbol to the target and changes nothing else; the end flag never changes |
| StateGraph.NFAState.NextStates | src/automaton/nfa.ts:87-89 | the symbol targets in some order of the map's keys, each key once, followed by the epsilon list in order; a state is listed exactly when it is a successor |
| StateGraph.ListedTargets | src/automaton/nfa.ts:88 | whatever the key order, the listed values followed by the epsilon list are exactly the map's values and the epsilon targets |
| StateGraph.NFAState.FindCondition | src/automaton/nfa.ts:71-85 | it terminates (the label is marked before the successors are searched) and the visited set only grows; a receiver that satisfies the condition is returned at once without marking; a hit satisfies the condition and is reached from the receiver by a path of edges; a miss marks the receiver's label, and every state it expanded carries a newly marked label and fails the condition, as do all of its successors |
| StateGraph.NFAState.SearchChildren | src/automaton/nfa.ts:79-84 | the children are searched in order, each with the labels the earlier ones marked; a hit lies on a path from some child, and every earlier child's search was fruitless: it failed the condition and left a `Searched` record of the labels it marked, whose expanded states and their successors all fail the condition; a miss has marked and ruled out every child |
| StateGraph.NothingReachableSatisfies | src/automaton/nfa.ts:71-85 | after a search from an empty visited set finds nothing, no successor of the start satisfies the condition; if labels are unique, no reachable state does |
| StateGraph.PathStaysExplored | src/automaton/nfa.ts:75-76 | with unique labels, a path that starts in the part a fruitless search expanded never leaves it |
| StateGraph.NFAState.FindEnd | src/automaton/nfa.ts:50-56 | an end receiver is returned itself; a result is an end state reachable from the receiver; otherwise `EndNotFound`, and neither the receiver nor a successor is an end state (nor any reachable state, given unique labels) |
| StateGraph.NFAState.FindById | src/automaton/nfa.ts:58-64 | a receiver with the label is returned itself; a result carries the label and is reachable; otherwise `IdNotFound`, and neither the receiver nor a successor carries the label (nor any reachable state, given unique labels) |
| StateGraph.NFAState.DeepCopy | src/automaton/nfa.ts:108-121 | the clone is new and recorded as the receiver's clone; every state created is new and `Copied` from a state of the closed graph, with the same label and end flag, no epsilon edges, and symbol edges to clones of the matching targets; a visited label gives a clone with no symbols and marks nothing; otherwise the clone has the receiver's symbols and its label is marked; the original graph is not changed |
| StateGraph.NFAState.CloneTargets | src/automaton/nfa.ts:115-119 | the new symbol map has the receiver's symbols, and each symbol leads to a recorded clone of the receiver's target for it; all recorded clones are new and mirror states of the graph |
| StateGraph.CopiedJoin | src/automaton/nfa.ts:116-118 | the clones made for two symbols, in disjoint records, stay faithful in the union record, and the symbol map built so far still points at recorded clones |
| StateGraph.CopiedRoot | src/automaton/nfa.ts:119 | a clone whose symbol edges lead to recorded clones of the source's targets can be recorded beside them |
| StateGraph.MirrorsClosed | src/automaton/nfa.ts:108-121 | the states a clone record holds point only at states of that record |
| Automaton.NFA.constructor | src/automaton/nfa.ts:144-156 | with a symbol: a new start state, not an end state, is the only current and has exactly one edge, to a new end state with no edges (a symbol edge, or an epsilon edge for the empty symbol); without one: no start state and no currents |
| Automaton.NFA.End | src/automaton/nfa.ts:136-138 | no start state gives `MissingStart`; otherwise as `FindEnd` from the start state |
| Automaton.NFA.CurrentMovables | src/automaton/nfa.ts:168-182 | the result is `Movables` of the currents from an empty visited set |
| Automaton.PushNew | src/automaton/nfa.ts:175-179 | the inner loop appends the epsilon targets with new labels, in order, each label once, and adds all their labels to the visited set |
| Automaton.MovablesSpec | src/automaton/nfa.ts:168-182 | the expansion lists each label once and none it started with; it lists only currents and their direct epsilon targets; it lists every new current label, and only labels of currents or direct epsilon targets |
| Automaton.MovablesExact | src/automaton/nfa.ts:168-182 | when the currents have distinct labels, disjoint from those of their epsilon targets and from the visited set, the expansion lists exactly the labels of the currents and of their direct epsilon targets |
| Automaton.MovablesSkipsRevisitedCurrent | src/automaton/nfa.ts:171-179 | with currents `[a, b]`, `a --eps--> b` and `b --eps--> c`, the expansion is `[a, b]` and misses `c`, a direct epsilon target of a current |
| Automaton.DedupSpec | src/automaton/nfa.ts:186-193 | the visited-set guarded push keeps states of its input only, no label twice, and exactly the labels not yet visited |
| Automaton.TargetsSpec | src/automaton/nfa.ts:187-189 | a collected target is the edge on the symbol of some listed state, and every such edge target is collected |
| Automaton.NFA.Transit | src/automaton/nfa.ts:184-195 | the new currents are the edge targets on the symbol of the states `currentMovables` lists, first per label, in order; the start state is unchanged |
| Automaton.StepSpec | src/automaton/nfa.ts:184-195 | the new currents repeat no label, are symbol targets of the listed states, and include every such target up to label; they are empty exactly when no listed state has an edge on the symbol |
| Automaton.StepKeepsReachable | src/automaton/nfa.ts:168-195 | if every current is reachable from the start state in a closed graph, so is every listed state and every new current |
| Automaton.NFA.Locate | src/automaton/nfa.ts:200 | `findById` from the clone's start state for each current label in order: the same number of states, with the same labels, each reachable, and the start itself where the label is the start's; otherwise `IdNotFound` for some current whose label differs from the start's |
| Automaton.NFA.DeepCopy | src/automaton/nfa.ts:197-202 | no start state gives `MissingStart` (and only then); a failed lookup gives `IdNotFound`; otherwise a new automaton whose start state clones this one's start with the same symbols, all clones new and faithful, and whose currents are, position by position, reachable clone states with the labels of the original currents, the clone's start itself wherever that label is the start's |
| Automaton.NFA.Concat | src/automaton/nfa.ts:159-166 | each error names its cause: a missing start state; a current label not found in a clone; or no end state among the first start state and its symbol targets; on success the first clone is returned with its currents, every clone is new so neither operand is changed, the two clones share no state, the second mirrors its operand, and the first mirrors its operand except for the demoted end |
| Automaton.NFA.Join | src/automaton/nfa.ts:162-165 | when the first clone has no end state, the first operand's start and its symbol targets are not end states; otherwise the first clone is returned, the demoted end's only epsilon edge goes to the second clone's start, and `Joined` holds |
| Automaton.NFA.Attach | src/automaton/nfa.ts:163-164 | the end state stops being an end state and gains a single epsilon edge to the second clone's start, which keeps its operand's symbols; the end state and every current stay reachable from the first clone's start state |
| Automaton.ConcatOfSymbols | src/automaton/nfa.ts:159-166 | when two one-symbol automata are concatenated, the result has exactly four states (`ChainShape`): the single current goes on the first symbol, and only on it, to the demoted end; the demoted end has no symbols and one epsilon edge, to a state whose only edge goes on the second symbol to an end state with no edges; each state carries the label of the state it copies |
| Automaton.ChainClosed | src/automaton/nfa.ts:159-166 | the four states of that shape form a closed graph |
| Automaton.SymbolStep | src/automaton/nfa.ts:184-195 | `transit` from one current with no epsilon edge follows its edge on the symbol |
| Automaton.EpsilonStep | src/automaton/nfa.ts:168-195 | `transit` from one current that has no edge of its own on the symbol and whose only epsilon edge leads to a state with another label follows that state's edge on the symbol |
| Automaton.ConcatAB | src/automaton/nfa.ts:205-207 | `new NFA("a").concat(new NFA("b"))` succeeds; its start state is its only current, and its graph has the shape `ConcatOfSymbols` describes, with the labels `s1`, `e1`, `s2`, `e2` of the operands' states |
| Automaton.ConcatScenario | src/automaton/nfa.ts:205-209 | after `transit("a")` and `transit("b")` the concatenation sits in exactly one state, the end state of its second part, and its start state and graph are unchanged |
| Automaton.CloneOfChainPrefix | src/automaton/nfa.ts:108-121 | from the clone of the head of that shape, every other reachable recorded clone copies the demoted end: the clone stops there, as it has no epsilon edges |
| Automaton.ConcatAgainFails | src/automaton/nfa.ts:159-166 | concatenating a third one-symbol automaton to `new NFA("a").concat(new NFA("b"))` fails with `EndNotFound` |
| Automaton.CopyAfterRunFails | src/automaton/nfa.ts:197-202 | the private `deepCopy` of that concatenation after `transit("a")` and `transit("b")` fails with `IdNotFound` |

## Left out

- `toString` on both classes (src/automaton/nfa.ts:7-17, 129-134) only builds strings for display.
- The `console.log` at the end of the file is output; the statements before it are modelled by `ConcatScenario`.
- The `uid` library is a foreign call that draws labels. The constructors take the labels as parameters (`startId`, `endId`, `id`).
- `getNextStates` (src/automaton/nfa.ts:91-93) is a stub that always throws.
- The getters and setters (src/automaton/nfa.ts:19-47) are plain fields.
- The `input` field the `NFA` constructor stores is never read and is not modelled.
- Thrown errors are `Result` and `Outcome` values. An automaton built without a symbol has no start state. Calling `findEnd` or `deepCopy` on that undefined start (src/automaton/nfa.ts:137, 199) throws a `TypeError`, which becomes `MissingStart`.
- JavaScript objects used as dictionaries also answer inherited keys such as `"constructor"`. Symbol maps and visited sets here are plain maps and sets, so inherited keys are not modelled.
- The key order of `Object.values` and `Object.entries` is left open. It is never fixed to JavaScript's insertion order.
- There is no concurrency and no I/O.
- StateGraph.NFAState.FindCondition: does not state that the hit is the first satisfying state in depth-first order. It states only that the hit satisfies the condition and is reachable, because the order of the symbol targets is left open.
- StateGraph.NFAState.FindEnd: the claim that no reachable state is an end state after a miss is made only under unique labels. With repeated labels (as after a clone) the search's visited set skips states, so the code does not promise more.
- StateGraph.NFAState.DeepCopy: does not claim that the clone is isomorphic to the original. The code loses epsilon edges and empties revisited labels, so only the per-state relation `Copied` is stated.
- Automaton.NFA.CurrentMovables: states equality with `Movables`, which is a single epsilon step and not the epsilon closure. This is what the code computes.
- Automaton.NFA.Concat: does not state that the result accepts the concatenation of the two languages. This does not hold for clones that lose epsilon edges or empty revisited states. Only the shape of the result is stated, and the concrete case `ConcatScenario`.
- Automaton.NFA.Concat: does not say which end state the search demotes when the first clone has several.
- Acceptance and run queries, the epsilon closure, union and star do not exist in this file and are not modelled.

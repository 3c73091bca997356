# rejit code generator: list bookkeeping

rejit is a just-in-time regular-expression compiler. It takes a parsed
regexp tree and emits native code that runs the regexp's automaton. Before
any code is emitted, a few analysis passes fill in a per-expression
compilation context, `RegexpInfo`:

- the **lister** flattens the tree's leaves into two ordered lists: control
  (zero-width) nodes and matching (input-consuming) nodes. It also records
  every node it synthesises, so the context can free those nodes later;
- the **fast-forward finder** registers candidate nodes for the pre-filter
  scan;
- the **fast-forward generator** turns a pre-filter hit into seeded
  automaton state, or into nothing, depending on its behaviour;
- generated code reports matches through two **match-list callbacks**. One
  appends unconditionally. The other first evicts the matches that the new
  one invalidates.

This project models that bookkeeping from `src/codegen.h` and proves its
ordering and partition properties. The files are:

- `seqs.dfy` (module `Seqs`): order-preserving `Filter`, the subsequence
  relation, and the lemmas about them.
- `regexp.dfy` (module `Regexps`): the closed node-kind datatype, nodes, and
  the `RegexpInfo` context class, whose lists are `seq` fields.
- `codegen.dfy` (module `Codegen`): the classes and callbacks declared in
  `src/codegen.h`, plus the lemmas about them.

Every operation that changes state is a method with `modifies`. For the
lister's and the fast-forward finder's methods, the `ensures` ties the
context's new `State()` to a specification function of the old one
(`ListStep`, `RegisterFF`). The multi-step properties are lemmas about folds
of those functions (`ListAll`, `RegisterAllFF`). The match-list callbacks
state the new `MatchVector.elements` in terms of the old, via `Filter` for
the filtering one. The fast-forward generator's methods state the new
`seeded` log in terms of the old. The indexer's methods state its new
`visited` log in terms of the old.

Kinds. `src/codegen.h` names six leaf kinds in its leaf visitors:
`MultipleChar`, `Period`, `Bracket`, `StartOfLine`, `EndOfLine` and
`Epsilon`. The composite kinds appear only through the macro
`LIST_FLOW_REGEXP_TYPES`, and physical kinds through
`LIST_PHYSICAL_REGEXP_TYPES`. Both macros are defined in `parser.h`, which
is not part of this model. So the following are assumptions about that
header, not facts read from `src/codegen.h`:

- the flow (composite) kinds are `Alternation`, `Concatenation` and
  `Repetition`;
- the matching kinds are `MultipleChar`, `Period` and `Bracket`;
- the control kinds are `StartOfLine`, `EndOfLine` and `Epsilon`.

Only one line of `src/codegen.h` bears on the classes:
`VisitSingleStartOrEndOfLine` takes a `ControlRegexp*` (line 314), which
shows that `StartOfLine` and `EndOfLine` are control kinds. `Epsilon` is
taken to be control because it is zero-width: it consumes no input. Each `UNREACHABLE()` guard becomes a precondition:

- `IsTreeLeafKind` excludes `Epsilon` (and the flow kinds) from the tree
  visitors' leaf visits;
- `IsPhysicalKind` excludes the flow kinds from `VisitSingle`.

The `else` branch of `List` takes every node that is not a control node. The
model follows the code here: its matching list is `Filter(NotControlRegexp, …)`.

## Model

| member | source | states |
|---|---|---|
| `Codegen.MatchAllAppendRaw` | src/codegen.h:24-25 | the match list becomes the old list with the new match appended, and nothing else changes |
| `Codegen.MatchAllAppendFilter` | src/codegen.h:26-28 | the match list becomes the old matches that the new match does not invalidate, in their old order, followed by the new match |
| `Codegen.AppendFilterResult` | src/codegen.h:26-28 | after filtering, the new match is last and the rest is a subsequence of the old list; every old match invalidated by the new one is removed, and every other one keeps all its occurrences |
| `Codegen.AppendFilterKeepsNoMissedEviction` | src/codegen.h:26-28 | if no match in the list is invalidated by a later one, the same holds after a filtered append, so eviction misses nothing |
| `Codegen.RegexpIndexer.constructor` | src/codegen.h:35-38 | the indexer keeps its context, and its entry and last states default to 0 |
| `Codegen.RegexpIndexer.VisitRegexp` | src/codegen.h:50 | stand-in for the generic visit: it records exactly the visited node, at the end of its log |
| `Codegen.RegexpIndexer.VisitLeaf` | src/codegen.h:51-58 | every leaf kind except `Epsilon` is forwarded to the generic visit; an `Epsilon` (or a flow kind) cannot be visited |
| `Codegen.RegexpLister.constructor` | src/codegen.h:76-77 | the lister works on the given context |
| `Codegen.RegexpLister.List` | src/codegen.h:79-85 | a control node is appended to the end of the control list and the matching list is unchanged; any other node is appended to the matching list and the control list is unchanged; no other list changes |
| `Codegen.RegexpLister.ListNew` | src/codegen.h:88-91 | the extra-allocated list grows by exactly the new node at its end, and the lists then change exactly as `List` changes them |
| `Codegen.RegexpLister.VisitRegexp` | src/codegen.h:98 | the generic visit is `List` |
| `Codegen.RegexpLister.VisitLeaf` | src/codegen.h:99-105 | every leaf kind except `Epsilon` is forwarded to the generic visit; an `Epsilon` (or a flow kind) cannot be visited |
| `Codegen.ListAllAppendsFiltered` | src/codegen.h:79-85 | listing a sequence of nodes appends its control nodes to the control list and all other nodes to the matching list, each in listing order; the extra-allocated and fast-forward lists are untouched |
| `Codegen.ListingPartitions` | src/codegen.h:79-85 | listing into an empty context partitions the listed sequence: the two lists' multisets add up to the sequence's, and a listed node is in exactly one list |
| `Codegen.ListingClassifiesInOrder` | src/codegen.h:79-85 | after listing into an empty context, the control list holds only listed control nodes and the matching list only listed other nodes, and each list keeps the listing order |
| `Codegen.FFFinder.constructor` | src/codegen.h:121-124 | the finder works on the given context, whose fast-forward list it appends to |
| `Codegen.FFFinder.VisitRegexp` | src/codegen.h:133-136 | reports success and appends exactly the visited node to the end of the fast-forward list; earlier entries and the other lists are unchanged |
| `Codegen.FFFinder.VisitLeaf` | src/codegen.h:137-148 | every leaf kind except `Epsilon` is forwarded to `VisitRegexp` and reports success; an `Epsilon` cannot be visited |
| `Codegen.RegisterAllFFAppends` | src/codegen.h:133-136 | registering candidates one after another appends them all to the fast-forward list in visiting order, and leaves the rest of the context as it was |
| `Codegen.FastForwardGen.constructor` | src/codegen.h:272-286 | the generator holds the element list and the behaviour it runs with; `SetStateFallThrough` is the default; nothing is seeded yet |
| `Codegen.FastForwardGen.PotentialMatches` | src/codegen.h:289-295 | under `SetStateFallThrough` it requests exactly one seeding of the given list's entry states; under `FallThrough` it requests nothing |
| `Codegen.FastForwardGen.PotentialMatch` | src/codegen.h:296-302 | under `SetStateFallThrough` it records exactly one found state, at time 0, in the node's entry state; under `FallThrough` it records nothing |
| `Codegen.VisitSingle` | src/codegen.h:316-327 | every physical kind is sent to the single-element test for that same kind; flow kinds are excluded by the precondition |
| `Codegen.VisitSingleIsOnto` | src/codegen.h:316-327 | each single-element test is the one some physical kind is sent to, so the dispatch is a bijection onto the tests |

## Left out

- `Codegen` (src/codegen.h:166-266) is out of scope. `Compile`, `Generate`, `FlowTime`, `CheckMatch`, `RegisterMatch`, `TestState`/`SetState`/`SetStateForce`, `StateOperand`, `ClearTime` and the frame-offset accessors all emit instructions through the `MacroAssembler`, which is not part of this model. There is also no visible formula for the ring-size fields.
- `RegexpIndexer.VisitRegexp`: its body (line 50) is not visible, so the state indices it assigns are not modelled. The model only records, in a `visited` log, which nodes reach it. Its leaf visitors (lines 51-58) are modelled by `RegexpIndexer.VisitLeaf`.
- `RegexpIndexer::Index` and `IndexSub`, the composite visitors of all three tree visitors, `FF_finder::FindFFElements`, `ff_alternation_reduce` and `ff_reduce_cmp`: only their declarations are visible. `ff_reduce_cmp` is a heuristic cost comparison. `IndexSub`'s defaults (entry 0, output -1 meaning "allocate a fresh state") are not modelled.
- `FastForwardGen::Generate`, `FoundState`, the `Visit*` and `VisitSingle*` emitters, and `Codegen::SetEntryStates` are code emission. The model records the seeding they would emit as `Seed` values in an abstract log, `seeded`.
- `FastForwardGen.constructor`: the source's constructor (lines 272-278) never sets the mutable field `behaviour_` (line 335). `Generate(on_match_behaviour)` (line 286) presumably sets it, but its body is not visible. The model fixes the behaviour at construction instead, and keeps `Generate`'s default, `SetStateFallThrough`.
- `MatchAllAppendFilter`: the concrete invalidation rule is not visible. It is an arbitrary, total relation `invalidatedBy(old, new)` passed as a parameter. `Match` is modelled as a pair of non-negative input positions, not as pointers.
- `FFFinder`: the source keeps `ff_list_` as an alias of the context's fast-forward list. The model writes to the context's `ffList` field directly.
- Node identity (a pointer in the source) is an `id` field, and nodes are values. Node payloads (literal characters, bracket contents, children of flow nodes) are not modelled.
- Memory release of the extra-allocated nodes, executable memory, registers, labels and frame offsets are not modelled: they are resource management and emitter concerns.

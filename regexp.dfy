/** Regular-expression nodes as the code generator sees them, and the
    per-expression compilation context (`RegexpInfo`) that the analysis
    passes append to. */
module Regexps {

  /** The closed set of node kinds. The six physical kinds are the leaves
      code is generated for; the three flow kinds exist only in the tree
      before it is flattened. The flow kinds' names, and which leaf kinds
      are matching or control, are assumptions: the kind lists are defined
      in a header that is not part of this model. */
  datatype Kind =
    | MultipleChar | Period | Bracket
    | StartOfLine | EndOfLine | Epsilon
    | Alternation | Concatenation | Repetition

  /** Leaves that consume input characters. */
  predicate IsMatchingKind(k: Kind) {
    k.MultipleChar? || k.Period? || k.Bracket?
  }

  /** Zero-width leaves: line assertions and the epsilon marker. */
  predicate IsControlKind(k: Kind) {
    k.StartOfLine? || k.EndOfLine? || k.Epsilon?
  }

  predicate IsPhysicalKind(k: Kind) {
    IsMatchingKind(k) || IsControlKind(k)
  }

  /** The leaf kinds whose visitors in the indexer, the lister and the
      fast-forward finder forward to the generic visit (`VisitLeaf` in each
      of those classes). Epsilon is excluded: all three treat it as
      unreachable, since epsilons only appear once the lister introduces
      them. */
  predicate IsTreeLeafKind(k: Kind) {
    IsPhysicalKind(k) && !k.Epsilon?
  }

  /** A node. `id` stands for the node's identity (its address), so two
      nodes with equal fields are still told apart. The entry and output
      states are the automaton state indices the indexer assigns. */
  datatype Regexp = Regexp(id: nat, kind: Kind, entryState: int, outputState: int)

  predicate IsControlRegexp(re: Regexp) {
    IsControlKind(re.kind)
  }

  predicate NotControlRegexp(re: Regexp) {
    !IsControlRegexp(re)
  }

  /** A snapshot of the lists held by a compilation context. */
  datatype InfoState = InfoState(
    reControlList: seq<Regexp>,
    reMatchingList: seq<Regexp>,
    extraAllocated: seq<Regexp>,
    ffList: seq<Regexp>)

  const EmptyInfo := InfoState([], [], [], [])

  /** The compilation context of one expression: the control and matching
      lists built by the lister, the nodes the lister synthesised (released
      with the context), and the fast-forward candidates. */
  class RegexpInfo {
    var reControlList: seq<Regexp>
    var reMatchingList: seq<Regexp>
    var extraAllocated: seq<Regexp>
    var ffList: seq<Regexp>

    constructor ()
      ensures State() == EmptyInfo
    {
      reControlList, reMatchingList := [], [];
      extraAllocated, ffList := [], [];
    }

    function State(): (st: InfoState)
      reads this
    {
      InfoState(reControlList, reMatchingList, extraAllocated, ffList)
    }
  }
}

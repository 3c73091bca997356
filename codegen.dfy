/** The sequential bookkeeping of the regexp code generator: the match-list
    callbacks used by generated code, the regexp indexer's construction, the
    lister that flattens leaves into the control and matching lists, the
    fast-forward finder's candidate registration, and the fast-forward
    generator's behaviour on a hit and its per-kind dispatch. */
module Codegen {
  import opened Seqs
  import opened Regexps

  // ---------------------------------------------------------------------
  // Match-list callbacks, invoked from generated code.

  /** A match span as input positions. */
  datatype Match = Match(begin: nat, end: nat)

  /** The caller-owned vector that generated code appends matches to. */
  class MatchVector {
    var elements: seq<Match>

    constructor ()
      ensures elements == []
    {
      elements := [];
    }
  }

  /** Whether a previously registered match survives the registration of
      `newMatch`, under the policy-specific invalidation relation. */
  function Survives(invalidatedBy: (Match, Match) -> bool, newMatch: Match): (keep: Match -> bool)
  {
    m => !invalidatedBy(m, newMatch)
  }

  /** No registered match is invalidated by a match registered after it. */
  ghost predicate NoMissedEviction(invalidatedBy: (Match, Match) -> bool, s: seq<Match>)
  {
    forall i, j :: 0 <= i < j < |s| ==> !invalidatedBy(s[i], s[j])
  }

  /** Appends `newMatch` at the end unconditionally; earlier matches stay. */
  method MatchAllAppendRaw(matches: MatchVector, newMatch: Match)
    modifies matches
    ensures matches.elements == old(matches.elements) + [newMatch]
  {
    matches.elements := matches.elements + [newMatch];
  }

  /** Delete the registered matches that `newMatch` invalidates, then push
      `newMatch`. The invalidation relation is a parameter. */
  method MatchAllAppendFilter(matches: MatchVector, newMatch: Match,
                              invalidatedBy: (Match, Match) -> bool)
    modifies matches
    ensures matches.elements
            == Filter(Survives(invalidatedBy, newMatch), old(matches.elements)) + [newMatch]
  {
    var s := matches.elements;
    var kept: seq<Match> := [];
    var i := 0;
    while i < |s|
      invariant 0 <= i <= |s|
      invariant kept == Filter(Survives(invalidatedBy, newMatch), s[..i])
    {
      assert s[..i + 1][..i] == s[..i];
      if !invalidatedBy(s[i], newMatch) {
        kept := kept + [s[i]];
      }
      i := i + 1;
    }
    assert s[..i] == s;
    matches.elements := kept + [newMatch];
  }

  /** What `MatchAllAppendFilter` leaves: the new match last, preceded by the
      old matches it does not invalidate, in their old order, with every
      invalidated one removed and every other one kept. */
  lemma AppendFilterResult(s: seq<Match>, newMatch: Match,
                           invalidatedBy: (Match, Match) -> bool)
    ensures var r := Filter(Survives(invalidatedBy, newMatch), s) + [newMatch];
            r[|r| - 1] == newMatch
            && IsSubsequence(r[..|r| - 1], s)
            && (forall x :: x in r[..|r| - 1] ==> x in s && !invalidatedBy(x, newMatch))
            && (forall x :: multiset(r[..|r| - 1])[x]
                             == if invalidatedBy(x, newMatch) then 0 else multiset(s)[x])
  {
    var f := Filter(Survives(invalidatedBy, newMatch), s);
    var r := f + [newMatch];
    assert r[..|r| - 1] == f;
    FilterIsSubsequence(Survives(invalidatedBy, newMatch), s);
    FilterSatisfies(Survives(invalidatedBy, newMatch), s);
    forall x
      ensures multiset(f)[x] == if invalidatedBy(x, newMatch) then 0 else multiset(s)[x]
    {
      FilterCount(Survives(invalidatedBy, newMatch), s, x);
    }
  }

  /** Registering every match through `MatchAllAppendFilter` never leaves a
      match in the list that a later one invalidates. */
  lemma AppendFilterKeepsNoMissedEviction(s: seq<Match>, newMatch: Match,
                                          invalidatedBy: (Match, Match) -> bool)
    requires NoMissedEviction(invalidatedBy, s)
    ensures NoMissedEviction(invalidatedBy,
                             Filter(Survives(invalidatedBy, newMatch), s) + [newMatch])
  {
    var keep := Survives(invalidatedBy, newMatch);
    var compatible := (a: Match, b: Match) => !invalidatedBy(a, b);
    assert Pairwise(compatible, s);
    FilterPairwise(keep, compatible, s);
    FilterSatisfies(keep, s);
    var f := Filter(keep, s);
    var r := f + [newMatch];
    forall i, j | 0 <= i < j < |r| ensures !invalidatedBy(r[i], r[j]) {
      if j < |f| {
        assert r[i] == f[i] && r[j] == f[j];
        assert compatible(f[i], f[j]);
      } else {
        assert r[i] == f[i] && f[i] in f;
      }
    }
  }

  // ---------------------------------------------------------------------
  // Regexp indexer: its construction and its leaf dispatch.

  class RegexpIndexer {
    const rinfo: RegexpInfo
    const entryState: int
    const lastState: int
    /** The nodes that reached the generic visit, in order. The state
        assignment that visit performs is not modelled. */
    var visited: seq<Regexp>

    /** By default indexing starts from state 0 with no state used yet. */
    constructor (rinfo: RegexpInfo, entryState: int := 0, lastState: int := 0)
      ensures this.rinfo == rinfo
      ensures this.entryState == entryState && this.lastState == lastState
      ensures visited == []
    {
      this.rinfo := rinfo;
      this.entryState := entryState;
      this.lastState := lastState;
      visited := [];
    }

    /** Stand-in for the generic visit: it records that `re` reached it. */
    method VisitRegexp(re: Regexp)
      modifies this`visited
      ensures visited == old(visited) + [re]
    {
      visited := visited + [re];
    }

    /** The per-kind leaf visitors: each forwards to `VisitRegexp`. */
    method VisitLeaf(re: Regexp)
      requires IsTreeLeafKind(re.kind)
      modifies this`visited
      ensures visited == old(visited) + [re]
    {
      match re.kind
      case MultipleChar => VisitRegexp(re);
      case Period => VisitRegexp(re);
      case Bracket => VisitRegexp(re);
      case StartOfLine => VisitRegexp(re);
      case EndOfLine => VisitRegexp(re);
    }
  }

  // ---------------------------------------------------------------------
  // Regexp lister.

  /** The effect of listing one node on the context: a control node goes to
      the end of the control list, any other node to the end of the matching
      list. */
  function ListStep(s: InfoState, re: Regexp): (r: InfoState)
  {
    if IsControlRegexp(re) then s.(reControlList := s.reControlList + [re])
    else s.(reMatchingList := s.reMatchingList + [re])
  }

  /** The effect of listing `leaves` one after the other. */
  function ListAll(s: InfoState, leaves: seq<Regexp>): (r: InfoState)
    decreases |leaves|
  {
    if leaves == [] then s
    else ListStep(ListAll(s, leaves[..|leaves| - 1]), leaves[|leaves| - 1])
  }

  /** Listing a sequence of nodes appends its control nodes to the control
      list and all the others to the matching list, each in the order listed,
      and touches no other list. */
  lemma {:induction false} ListAllAppendsFiltered(s: InfoState, leaves: seq<Regexp>)
    ensures ListAll(s, leaves).reControlList
            == s.reControlList + Filter(IsControlRegexp, leaves)
    ensures ListAll(s, leaves).reMatchingList
            == s.reMatchingList + Filter(NotControlRegexp, leaves)
    ensures ListAll(s, leaves).extraAllocated == s.extraAllocated
    ensures ListAll(s, leaves).ffList == s.ffList
    decreases |leaves|
  {
    if leaves != [] {
      ListAllAppendsFiltered(s, leaves[..|leaves| - 1]);
    }
  }

  /** Listing a sequence into an empty context partitions it: together the
      two lists hold every listed occurrence exactly once, and a listed node
      is in exactly one of them. */
  lemma {:induction false} ListingPartitions(leaves: seq<Regexp>)
    ensures var r := ListAll(EmptyInfo, leaves);
            multiset(r.reControlList) + multiset(r.reMatchingList) == multiset(leaves)
            && (forall re :: re in leaves ==> (re in r.reControlList <==> re !in r.reMatchingList))
  {
    ListAllAppendsFiltered(EmptyInfo, leaves);
    var r := ListAll(EmptyInfo, leaves);
    assert r.reControlList == Filter(IsControlRegexp, leaves);
    assert r.reMatchingList == Filter(NotControlRegexp, leaves);
    FilterComplement(IsControlRegexp, NotControlRegexp, leaves);
    forall re | re in leaves
      ensures re in r.reControlList <==> re !in r.reMatchingList
    {
      FilterCount(IsControlRegexp, leaves, re);
      FilterCount(NotControlRegexp, leaves, re);
    }
  }

  /** Listing a sequence into an empty context puts only control nodes in the
      control list and only other nodes in the matching list, each list in
      listing order. */
  lemma {:induction false} ListingClassifiesInOrder(leaves: seq<Regexp>)
    ensures var r := ListAll(EmptyInfo, leaves);
            (forall re :: re in r.reControlList ==> re in leaves && IsControlRegexp(re))
            && (forall re :: re in r.reMatchingList ==> re in leaves && !IsControlRegexp(re))
            && IsSubsequence(r.reControlList, leaves)
            && IsSubsequence(r.reMatchingList, leaves)
  {
    ListAllAppendsFiltered(EmptyInfo, leaves);
    var r := ListAll(EmptyInfo, leaves);
    assert r.reControlList == Filter(IsControlRegexp, leaves);
    assert r.reMatchingList == Filter(NotControlRegexp, leaves);
    FilterSatisfies(IsControlRegexp, leaves);
    FilterSatisfies(NotControlRegexp, leaves);
    FilterIsSubsequence(IsControlRegexp, leaves);
    FilterIsSubsequence(NotControlRegexp, leaves);
  }

  /** Walks the tree and lists the nodes the code generator emits code for. */
  class RegexpLister {
    const rinfo: RegexpInfo

    constructor (rinfo: RegexpInfo)
      ensures this.rinfo == rinfo
    {
      this.rinfo := rinfo;
    }

    method List(re: Regexp)
      modifies rinfo
      ensures IsControlRegexp(re) ==>
                rinfo.reControlList == old(rinfo.reControlList) + [re]
                && rinfo.reMatchingList == old(rinfo.reMatchingList)
      ensures !IsControlRegexp(re) ==>
                rinfo.reMatchingList == old(rinfo.reMatchingList) + [re]
                && rinfo.reControlList == old(rinfo.reControlList)
      ensures rinfo.State() == ListStep(old(rinfo.State()), re)
    {
      if IsControlRegexp(re) {
        rinfo.reControlList := rinfo.reControlList + [re];
      } else {
        rinfo.reMatchingList := rinfo.reMatchingList + [re];
      }
    }

    /** List a node the lister allocated, registering it for release. */
    method ListNew(re: Regexp)
      modifies rinfo
      ensures rinfo.extraAllocated == old(rinfo.extraAllocated) + [re]
      ensures rinfo.State()
              == ListStep(old(rinfo.State()).(extraAllocated := old(rinfo.extraAllocated) + [re]), re)
    {
      rinfo.extraAllocated := rinfo.extraAllocated + [re];
      List(re);
    }

    method VisitRegexp(re: Regexp)
      modifies rinfo
      ensures rinfo.State() == ListStep(old(rinfo.State()), re)
    {
      List(re);
    }

    /** The per-kind leaf visitors: each forwards to `VisitRegexp`. */
    method VisitLeaf(re: Regexp)
      requires IsTreeLeafKind(re.kind)
      modifies rinfo
      ensures rinfo.State() == ListStep(old(rinfo.State()), re)
    {
      match re.kind
      case MultipleChar => VisitRegexp(re);
      case Period => VisitRegexp(re);
      case Bracket => VisitRegexp(re);
      case StartOfLine => VisitRegexp(re);
      case EndOfLine => VisitRegexp(re);
    }
  }

  // ---------------------------------------------------------------------
  // Fast-forward finder: candidate registration.

  /** The effect of registering one fast-forward candidate. */
  function RegisterFF(s: InfoState, re: Regexp): (r: InfoState)
  {
    s.(ffList := s.ffList + [re])
  }

  /** The effect of registering `candidates` one after the other. */
  function RegisterAllFF(s: InfoState, candidates: seq<Regexp>): (r: InfoState)
    decreases |candidates|
  {
    if candidates == [] then s
    else RegisterFF(RegisterAllFF(s, candidates[..|candidates| - 1]),
                    candidates[|candidates| - 1])
  }

  /** Registering candidates one by one appends them all to the fast-forward
      list in visiting order and leaves the other lists alone. */
  lemma {:induction false} RegisterAllFFAppends(s: InfoState, candidates: seq<Regexp>)
    ensures RegisterAllFF(s, candidates).ffList == s.ffList + candidates
    ensures RegisterAllFF(s, candidates).(ffList := s.ffList) == s
    decreases |candidates|
  {
    if candidates != [] {
      var init := candidates[..|candidates| - 1];
      RegisterAllFFAppends(s, init);
      assert init + [candidates[|candidates| - 1]] == candidates;
    }
  }

  class FFFinder {
    const rinfo: RegexpInfo

    constructor (rinfo: RegexpInfo)
      ensures this.rinfo == rinfo
    {
      this.rinfo := rinfo;
    }

    method VisitRegexp(re: Regexp) returns (found: bool)
      modifies rinfo
      ensures found
      ensures rinfo.ffList == old(rinfo.ffList) + [re]
      ensures rinfo.State() == RegisterFF(old(rinfo.State()), re)
    {
      rinfo.ffList := rinfo.ffList + [re];
      found := true;
    }

    /** The simple per-kind visitors: each forwards to `VisitRegexp`. */
    method VisitLeaf(re: Regexp) returns (found: bool)
      requires IsTreeLeafKind(re.kind)
      modifies rinfo
      ensures found
      ensures rinfo.State() == RegisterFF(old(rinfo.State()), re)
    {
      match re.kind
      case MultipleChar => found := VisitRegexp(re);
      case Period => found := VisitRegexp(re);
      case Bracket => found := VisitRegexp(re);
      case StartOfLine => found := VisitRegexp(re);
      case EndOfLine => found := VisitRegexp(re);
    }
  }

  // ---------------------------------------------------------------------
  // Fast-forward generator.

  datatype Behaviour =
    | SetStateFallThrough  // seed the entry states of potential matches, then fall through
    | FallThrough          // fall through without seeding any state

  /** What the generator asks the code generator to seed on a hit. */
  datatype Seed =
    | StateFound(time: int, state: int)
    | EntryStatesSet(regexps: seq<Regexp>)

  /** The single-element test emitted for each physical kind. */
  datatype SingleTest =
    | SingleMultipleChar | SinglePeriod | SingleBracket
    | SingleStartOfLine | SingleEndOfLine | SingleEpsilon

  /** The node kind a single-element test is written for. */
  function TestedKind(t: SingleTest): (k: Kind)
    ensures IsPhysicalKind(k)
  {
    match t
    case SingleMultipleChar => MultipleChar
    case SinglePeriod => Period
    case SingleBracket => Bracket
    case SingleStartOfLine => StartOfLine
    case SingleEndOfLine => EndOfLine
    case SingleEpsilon => Epsilon
  }

  /** Dispatch on the kind of a fast-forward element; flow kinds cannot
      reach it. */
  function VisitSingle(k: Kind): (t: SingleTest)
    requires IsPhysicalKind(k)
    ensures TestedKind(t) == k
  {
    match k
    case MultipleChar => SingleMultipleChar
    case Period => SinglePeriod
    case Bracket => SingleBracket
    case StartOfLine => SingleStartOfLine
    case EndOfLine => SingleEndOfLine
    case Epsilon => SingleEpsilon
  }

  /** Every single-element test is reached by exactly the kind it is for. */
  lemma VisitSingleIsOnto(t: SingleTest)
    ensures VisitSingle(TestedKind(t)) == t
  {
  }

  class FastForwardGen {
    const ffList: seq<Regexp>
    const behaviour: Behaviour
    /** The state seeding requested so far, in order. */
    var seeded: seq<Seed>

    /** `onMatchBehaviour` is the behaviour the generator is run with. */
    constructor (list: seq<Regexp>, onMatchBehaviour: Behaviour := SetStateFallThrough)
      ensures ffList == list && behaviour == onMatchBehaviour && seeded == []
    {
      ffList := list;
      behaviour := onMatchBehaviour;
      seeded := [];
    }

    method PotentialMatches(regexps: seq<Regexp>)
      modifies this`seeded
      ensures behaviour == SetStateFallThrough ==>
                seeded == old(seeded) + [EntryStatesSet(regexps)]
      ensures behaviour == FallThrough ==> seeded == old(seeded)
    {
      match behaviour
      case SetStateFallThrough => seeded := seeded + [EntryStatesSet(regexps)];
      case FallThrough =>
    }

    method PotentialMatch(re: Regexp)
      modifies this`seeded
      ensures behaviour == SetStateFallThrough ==>
                seeded == old(seeded) + [StateFound(0, re.entryState)]
      ensures behaviour == FallThrough ==> seeded == old(seeded)
    {
      match behaviour
      case SetStateFallThrough => seeded := seeded + [StateFound(0, re.entryState)];
      case FallThrough =>
    }
  }
}

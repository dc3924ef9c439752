/** What an include expansion means, without depths and without a second pass, and the proof that the
    depth-limited two-pass expander computes it. */
module IncludeMeaning {
  import opened Wrappers
  import opened YamlTree
  import opened Includes
  import opened ExpandedTrees

  /** Every chain of readable includes that starts in `n` has at most `h` links. */
  ghost predicate Chain(store: Store, n: Node, h: nat)
    decreases h, 1, n
  {
    match n
    case Scalar(_, text) => IsIncludeTagged(n) ==> TargetChain(store, text, h)
    case Sequence(_, items) => forall item :: item in items ==> Chain(store, item, h)
    case Mapping(_, pairs) => forall p :: p in pairs ==> PairChain(store, p, h)
  }

  ghost predicate PairChain(store: Store, p: Pair, h: nat)
    decreases h, 1, p
  {
    Chain(store, p.value, h) && (PairMarker(p).Some? ==> TargetChain(store, PairMarker(p).value, h))
  }

  ghost predicate TargetChain(store: Store, path: string, h: nat)
    decreases h, 0
  {
    match Root(store, path)
    case Some(root) => h > 0 && Chain(store, root, h - 1)
    case None => true
  }

  lemma EntryMarkerChain(store: Store, item: Node, h: nat)
    requires EntryMarker(item).Some? && Chain(store, item, h)
    ensures TargetChain(store, EntryMarker(item).value, h)
  {
    EntryMarkerIsPairMarker(item);
    assert PairChain(store, Pair("include", Lookup(item.pairs, "include").value), h);
  }

  /** The depth-free expansion: one pass, recursing into every include.  `h` only bounds the recursion. */
  ghost function Meaning(store: Store, n: Node, h: nat): Option<Node>
    requires Chain(store, n, h)
    decreases h, 1, n, 0
  {
    match n
    case Scalar(_, text) => if IsIncludeTagged(n) then Target(store, text, h) else Some(n)
    case Sequence(_, items) => Some(Sequence(None, MeaningItems(store, items, h)))
    case Mapping(_, pairs) => Some(Mapping(None, Assemble([], MeaningPairs(store, pairs, h))))
  }

  ghost function Target(store: Store, path: string, h: nat): Option<Node>
    requires TargetChain(store, path, h)
    decreases h, 0
  {
    match Root(store, path)
    case Some(root) => Meaning(store, root, h - 1)
    case None => None
  }

  ghost function MeaningEntry(store: Store, item: Node, h: nat): Option<Node>
    requires Chain(store, item, h)
    decreases h, 1, item, 1
  {
    var included := if EntryMarker(item).Some? then
                      EntryMarkerChain(store, item, h);
                      Target(store, EntryMarker(item).value, h)
                    else None;
    if included.Some? then included else Meaning(store, item, h)
  }

  ghost function MeaningItems(store: Store, items: seq<Node>, h: nat): seq<Node>
    requires forall item :: item in items ==> Chain(store, item, h)
    decreases h, 1, items, 0
  {
    if items == [] then [] else OptionToSeq(MeaningEntry(store, items[0], h)) + MeaningItems(store, items[1..], h)
  }

  ghost function MeaningPair(store: Store, p: Pair, h: nat): Contribution
    requires PairChain(store, p, h)
    decreases h, 1, p, 0
  {
    var included := if PairMarker(p).Some? then Target(store, PairMarker(p).value, h) else None;
    if included.Some? then Included(included.value) else OwnPair(p.key, Meaning(store, p.value, h))
  }

  ghost function MeaningPairs(store: Store, pairs: seq<Pair>, h: nat): seq<Contribution>
    requires forall p :: p in pairs ==> PairChain(store, p, h)
    decreases h, 1, pairs, 0
  {
    if pairs == [] then [] else [MeaningPair(store, pairs[0], h)] + MeaningPairs(store, pairs[1..], h)
  }

  /** A failed include stays failed at every depth. */
  lemma {:induction false} FailedTarget(store: Store, path: string, h: nat)
    requires TargetChain(store, path, h) && Target(store, path, h).None?
    ensures path in Unresolvable(store)
    decreases h
  {
    if Root(store, path).Some? {
      var root := Root(store, path).value;
      assert IsIncludeTagged(root);
      FailedTarget(store, root.text, h - 1);
      forall depth: nat ensures Include(store, path, depth).None? {
        if depth + 1 < MAX_INCLUDE_DEPTH {
          assert Include(store, root.text, depth + 1).None?;
        }
      }
    }
  }

  lemma {:induction false} MeaningSettled(store: Store, n: Node, h: nat)
    requires Chain(store, n, h)
    ensures Meaning(store, n, h).Some? ==> Settled(Unresolvable(store), Meaning(store, n, h).value)
    decreases h, 1, n, 0
  {
    match n
    case Scalar(_, text) => if IsIncludeTagged(n) { TargetSettled(store, text, h); }
    case Sequence(_, items) =>
      MeaningItemsSettled(store, items, h);
      UntaggedItems(MeaningItems(store, items, h));
    case Mapping(_, pairs) =>
      MeaningPairsSettled(store, pairs, h);
      AssembleSettled(Unresolvable(store), [], MeaningPairs(store, pairs, h));
  }

  lemma {:induction false} TargetSettled(store: Store, path: string, h: nat)
    requires TargetChain(store, path, h)
    ensures Target(store, path, h).Some? ==> Settled(Unresolvable(store), Target(store, path, h).value)
    decreases h, 0
  {
    if Root(store, path).Some? {
      MeaningSettled(store, Root(store, path).value, h - 1);
    }
  }

  lemma {:induction false} MeaningItemsSettled(store: Store, items: seq<Node>, h: nat)
    requires forall item :: item in items ==> Chain(store, item, h)
    ensures forall item :: item in MeaningItems(store, items, h) ==> Settled(Unresolvable(store), item)
    decreases h, 1, items, 0
  {
    if items != [] {
      if EntryMarker(items[0]).Some? {
        EntryMarkerChain(store, items[0], h);
        TargetSettled(store, EntryMarker(items[0]).value, h);
      }
      MeaningSettled(store, items[0], h);
      MeaningItemsSettled(store, items[1..], h);
    }
  }

  lemma {:induction false} MeaningPairsSettled(store: Store, pairs: seq<Pair>, h: nat)
    requires forall p :: p in pairs ==> PairChain(store, p, h)
    ensures forall c :: c in MeaningPairs(store, pairs, h) ==> SettledContribution(Unresolvable(store), c)
    decreases h, 1, pairs, 0
  {
    if pairs != [] {
      var p := pairs[0];
      assert PairChain(store, p, h);
      if PairMarker(p).Some? {
        TargetSettled(store, PairMarker(p).value, h);
        if Target(store, PairMarker(p).value, h).None? {
          FailedTarget(store, PairMarker(p).value, h);
        }
      }
      MeaningSettled(store, p.value, h);
      MeaningPairsSettled(store, pairs[1..], h);
    }
  }

  // ---------- meaning preservation ----------

  /** The expander computes the depth-free expansion wherever the include chains fit under the limit. */
  lemma {:induction false} CopyIsMeaning(store: Store, n: Node, depth: nat, h: nat)
    requires Chain(store, n, h) && h + depth < MAX_INCLUDE_DEPTH
    ensures Copy(store, n, depth) == Meaning(store, n, h)
    decreases h, 1, n, 0
  {
    match n
    case Scalar(_, text) =>
      if IsIncludeTagged(n) {
        IncludeIsTarget(store, text, depth, h);
        RepeatedCopy(store, text, depth, h);
      }
    case Sequence(_, items) => CopyItemsIsMeaning(store, items, depth, h);
    case Mapping(_, pairs) => ContributionsAreMeaning(store, pairs, depth, h);
  }

  lemma {:induction false} IncludeIsTarget(store: Store, path: string, depth: nat, h: nat)
    requires TargetChain(store, path, h) && h + depth < MAX_INCLUDE_DEPTH
    ensures Include(store, path, depth) == Target(store, path, h)
    decreases h, 0
  {
    if Root(store, path).Some? {
      CopyIsMeaning(store, Root(store, path).value, depth + 1, h - 1);
    }
  }

  /** The second pass over an expanded target changes nothing. */
  lemma RepeatedCopy(store: Store, path: string, depth: nat, h: nat)
    requires TargetChain(store, path, h) && h + depth < MAX_INCLUDE_DEPTH
    ensures Target(store, path, h).Some?
        ==> Copy(store, Target(store, path, h).value, depth + 1) == Target(store, path, h)
  {
    if Target(store, path, h).Some? {
      TargetSettled(store, path, h);
      CopyQuiet(store, Target(store, path, h).value, depth + 1);
    }
  }

  lemma {:induction false} CopyItemsIsMeaning(store: Store, items: seq<Node>, depth: nat, h: nat)
    requires (forall item :: item in items ==> Chain(store, item, h)) && h + depth < MAX_INCLUDE_DEPTH
    ensures CopyItems(store, items, depth) == MeaningItems(store, items, h)
    decreases h, 1, items, 0
  {
    if items != [] {
      if EntryMarker(items[0]).Some? {
        EntryMarkerChain(store, items[0], h);
        IncludeIsTarget(store, EntryMarker(items[0]).value, depth, h);
        RepeatedCopy(store, EntryMarker(items[0]).value, depth, h);
      }
      CopyIsMeaning(store, items[0], depth, h);
      CopyItemsIsMeaning(store, items[1..], depth, h);
    }
  }

  lemma {:induction false} ContributionsAreMeaning(store: Store, pairs: seq<Pair>, depth: nat, h: nat)
    requires (forall p :: p in pairs ==> PairChain(store, p, h)) && h + depth < MAX_INCLUDE_DEPTH
    ensures Contributions(store, pairs, depth) == MeaningPairs(store, pairs, h)
    decreases h, 1, pairs, 0
  {
    if pairs != [] {
      assert PairChain(store, pairs[0], h);
      if PairMarker(pairs[0]).Some? {
        IncludeIsTarget(store, PairMarker(pairs[0]).value, depth, h);
      }
      CopyIsMeaning(store, pairs[0].value, depth, h);
      ContributionsAreMeaning(store, pairs[1..], depth, h);
    }
  }

  // ---------- consequences ----------

  /** Under the chain bound every marker left in an expansion is unresolvable, and expanding the expansion
      again, at any depth below the limit, gives it back. */
  lemma ExpansionIsFinal(store: Store, n: Node, depth: nat, h: nat, again: nat)
    requires Chain(store, n, h) && h + depth < MAX_INCLUDE_DEPTH && again < MAX_INCLUDE_DEPTH
    requires Copy(store, n, depth).Some?
    ensures Settled(Unresolvable(store), Copy(store, n, depth).value)
    ensures Copy(store, Copy(store, n, depth).value, again) == Copy(store, n, depth)
  {
    CopyIsMeaning(store, n, depth, h);
    MeaningSettled(store, n, h);
    CopyQuiet(store, Copy(store, n, depth).value, again);
  }

  /** A chain bound may be enlarged without changing the meaning. */
  lemma {:induction false} MeaningMonotone(store: Store, n: Node, h: nat, k: nat)
    requires Chain(store, n, h) && h <= k
    ensures Chain(store, n, k) && Meaning(store, n, k) == Meaning(store, n, h)
    decreases h, 1, n, 0
  {
    match n
    case Scalar(_, text) => if IsIncludeTagged(n) { TargetMonotone(store, text, h, k); }
    case Sequence(_, items) => MeaningItemsMonotone(store, items, h, k);
    case Mapping(_, pairs) => MeaningPairsMonotone(store, pairs, h, k);
  }

  lemma {:induction false} TargetMonotone(store: Store, path: string, h: nat, k: nat)
    requires TargetChain(store, path, h) && h <= k
    ensures TargetChain(store, path, k) && Target(store, path, k) == Target(store, path, h)
    decreases h, 0
  {
    if Root(store, path).Some? {
      MeaningMonotone(store, Root(store, path).value, h - 1, k - 1);
    }
  }

  lemma {:induction false} MeaningItemsMonotone(store: Store, items: seq<Node>, h: nat, k: nat)
    requires (forall item :: item in items ==> Chain(store, item, h)) && h <= k
    ensures forall item :: item in items ==> Chain(store, item, k)
    ensures MeaningItems(store, items, k) == MeaningItems(store, items, h)
    decreases h, 1, items, 0
  {
    if items != [] {
      if EntryMarker(items[0]).Some? {
        EntryMarkerChain(store, items[0], h);
        TargetMonotone(store, EntryMarker(items[0]).value, h, k);
      }
      MeaningMonotone(store, items[0], h, k);
      MeaningItemsMonotone(store, items[1..], h, k);
      assert items == [items[0]] + items[1..];
    }
  }

  lemma {:induction false} MeaningPairsMonotone(store: Store, pairs: seq<Pair>, h: nat, k: nat)
    requires (forall p :: p in pairs ==> PairChain(store, p, h)) && h <= k
    ensures forall p :: p in pairs ==> PairChain(store, p, k)
    ensures MeaningPairs(store, pairs, k) == MeaningPairs(store, pairs, h)
    decreases h, 1, pairs, 0
  {
    if pairs != [] {
      assert PairChain(store, pairs[0], h);
      if PairMarker(pairs[0]).Some? {
        TargetMonotone(store, PairMarker(pairs[0]).value, h, k);
      }
      MeaningMonotone(store, pairs[0].value, h, k);
      MeaningPairsMonotone(store, pairs[1..], h, k);
      assert pairs == [pairs[0]] + pairs[1..];
    }
  }

  /** The bound on the chains does not matter, as long as it is one. */
  lemma MeaningIsUnique(store: Store, n: Node, h: nat, k: nat)
    requires Chain(store, n, h) && Chain(store, n, k)
    ensures Meaning(store, n, h) == Meaning(store, n, k)
  {
    if h <= k {
      MeaningMonotone(store, n, h, k);
    } else {
      MeaningMonotone(store, n, k, h);
    }
  }

  // ---------- acyclic stores ----------

  /** Every marker in `n` that names a readable target names one of rank below `bound`. */
  ghost predicate Below(store: Store, rank: map<string, nat>, n: Node, bound: nat) {
    match n
    case Scalar(_, text) => IsIncludeTagged(n) ==> PathBelow(store, rank, text, bound)
    case Sequence(_, items) => forall item :: item in items ==> Below(store, rank, item, bound)
    case Mapping(_, pairs) => forall p :: p in pairs ==> PairBelow(store, rank, p, bound)
  }

  ghost predicate PairBelow(store: Store, rank: map<string, nat>, p: Pair, bound: nat) {
    Below(store, rank, p.value, bound) && (PairMarker(p).Some? ==> PathBelow(store, rank, PairMarker(p).value, bound))
  }

  ghost predicate PathBelow(store: Store, rank: map<string, nat>, path: string, bound: nat) {
    Root(store, path).Some? ==> path in rank && rank[path] < bound
  }

  /** The include graph is acyclic: some rank falls along every include. */
  ghost predicate Ranked(store: Store, rank: map<string, nat>) {
    forall path :: path in rank && Root(store, path).Some? ==> Below(store, rank, Root(store, path).value, rank[path])
  }

  lemma {:induction false} RankBoundsChains(store: Store, rank: map<string, nat>, n: Node, bound: nat)
    requires Ranked(store, rank) && Below(store, rank, n, bound)
    ensures Chain(store, n, bound)
    decreases bound, 1, n
  {
    match n
    case Scalar(_, text) => if IsIncludeTagged(n) { RankBoundsTarget(store, rank, text, bound); }
    case Sequence(_, items) =>
      forall item | item in items ensures Chain(store, item, bound) { RankBoundsChains(store, rank, item, bound); }
    case Mapping(_, pairs) =>
      forall p | p in pairs ensures PairChain(store, p, bound) {
        assert PairBelow(store, rank, p, bound);
        RankBoundsChains(store, rank, p.value, bound);
        if PairMarker(p).Some? {
          RankBoundsTarget(store, rank, PairMarker(p).value, bound);
        }
      }
  }

  lemma {:induction false} RankBoundsTarget(store: Store, rank: map<string, nat>, path: string, bound: nat)
    requires Ranked(store, rank) && PathBelow(store, rank, path, bound)
    ensures TargetChain(store, path, bound)
    decreases bound, 0
  {
    if Root(store, path).Some? {
      var root := Root(store, path).value;
      RankBoundsChains(store, rank, root, rank[path]);
      MeaningMonotone(store, root, rank[path], bound - 1);
    }
  }

  /** The least bound for the chains of a tree. */
  ghost function LeastChain(store: Store, n: Node, h: nat): (least: nat)
    requires Chain(store, n, h)
    ensures Chain(store, n, least) && forall k: nat :: Chain(store, n, k) ==> least <= k
    decreases h
  {
    if h > 0 && Chain(store, n, h - 1) then LeastChain(store, n, h - 1)
    else
      assert forall k: nat :: Chain(store, n, k) ==> h <= k by {
        forall k: nat | Chain(store, n, k) ensures h <= k {
          if k < h { MeaningMonotone(store, n, k, h - 1); }
        }
      }
      h
  }

  ghost predicate Covers(store: Store, rank: map<string, nat>) {
    forall path :: Root(store, path).Some? ==> path in rank
  }

  ghost predicate ChainsBounded(store: Store) {
    forall path :: Root(store, path).Some? ==> exists h: nat :: Chain(store, Root(store, path).value, h)
  }

  ghost predicate NotAbove(store: Store, rank: map<string, nat>, path: string, k: nat)
    requires path in rank
  {
    Root(store, path).Some? && Chain(store, Root(store, path).value, k) ==> rank[path] <= k
  }

  ghost predicate LeastRank(store: Store, rank: map<string, nat>) {
    Covers(store, rank) && forall path, k: nat :: path in rank ==> NotAbove(store, rank, path, k)
  }

  lemma LeastRankBelow(store: Store, rank: map<string, nat>, path: string, h: nat)
    requires LeastRank(store, rank) && TargetChain(store, path, h)
    ensures PathBelow(store, rank, path, h)
  {
    if Root(store, path).Some? {
      assert NotAbove(store, rank, path, h - 1);
    }
  }

  lemma {:induction false} LeastChainsRank(store: Store, rank: map<string, nat>, n: Node, h: nat)
    requires LeastRank(store, rank) && Chain(store, n, h)
    ensures Below(store, rank, n, h)
    decreases n
  {
    match n
    case Scalar(_, text) => if IsIncludeTagged(n) { LeastRankBelow(store, rank, text, h); }
    case Sequence(_, items) =>
      forall item | item in items ensures Below(store, rank, item, h) { LeastChainsRank(store, rank, item, h); }
    case Mapping(_, pairs) =>
      forall p | p in pairs ensures PairBelow(store, rank, p, h) {
        assert PairChain(store, p, h);
        LeastChainsRank(store, rank, p.value, h);
        if PairMarker(p).Some? { LeastRankBelow(store, rank, PairMarker(p).value, h); }
      }
  }

  /** The include chains of all files are bounded, so that the depth-free expansion exists, exactly when the
      include graph is acyclic. */
  lemma BoundedIffAcyclic(store: Store)
    ensures ChainsBounded(store) <==> exists rank :: Covers(store, rank) && Ranked(store, rank)
  {
    if ChainsBounded(store) {
      var rank := map path | path in store && Root(store, path).Some? ::
        (var h: nat :| Chain(store, Root(store, path).value, h); LeastChain(store, Root(store, path).value, h));
      forall path | path in rank && Root(store, path).Some?
        ensures Below(store, rank, Root(store, path).value, rank[path])
      {
        LeastChainsRank(store, rank, Root(store, path).value, rank[path]);
      }
      assert Covers(store, rank) && Ranked(store, rank);
    }
    if rank :| Covers(store, rank) && Ranked(store, rank) {
      forall path | Root(store, path).Some? ensures exists h: nat :: Chain(store, Root(store, path).value, h) {
        RankBoundsChains(store, rank, Root(store, path).value, rank[path]);
      }
    }
  }
}

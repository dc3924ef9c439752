/** The shape of expanded trees, and why expanding them again changes nothing. */
module ExpandedTrees {
  import opened Wrappers
  import opened YamlTree
  import opened Includes

  lemma EntryMarkerIsPairMarker(item: Node)
    requires EntryMarker(item).Some?
    ensures Pair("include", Lookup(item.pairs, "include").value) in item.pairs
    ensures PairMarker(Pair("include", Lookup(item.pairs, "include").value)) == EntryMarker(item)
  {
    LookupFindsPair(item.pairs, "include");
    var p := Pair("include", Lookup(item.pairs, "include").value);
    assert p.key[0..][..|"include"|] == "include";
    assert Contains(p.key, "include");
  }

  ghost predicate NeverIncluded(store: Store, path: string) {
    forall depth: nat :: Include(store, path, depth).None?
  }

  /** The paths whose include fails at every depth. */
  ghost function Unresolvable(store: Store): iset<string> {
    iset path: string | NeverIncluded(store, path)
  }

  ghost function AnyPath(): iset<string> {
    iset path: string | 0 <= |path|
  }

  /** No include tag, distinct keys at every level, and every remaining marker names a path in `allowed`. */
  ghost predicate Quiet(allowed: iset<string>, n: Node) {
    match n
    case Scalar(_, _) => !IsIncludeTagged(n)
    case Sequence(_, items) => forall item :: item in items ==> Quiet(allowed, item)
    case Mapping(_, pairs) => Distinct(Keys(pairs)) && forall p :: p in pairs ==> QuietPair(allowed, p)
  }

  ghost predicate QuietPair(allowed: iset<string>, p: Pair) {
    Quiet(allowed, p.value) && (PairMarker(p).Some? ==> PairMarker(p).value in allowed)
  }

  /** The copier builds its collections without a tag. */
  function DropTags(n: Node): Node {
    match n
    case Scalar(_, _) => n
    case Sequence(_, items) => Sequence(None, DropItemTags(items))
    case Mapping(_, pairs) => Mapping(None, DropPairTags(pairs))
  }

  function DropItemTags(items: seq<Node>): seq<Node> {
    if items == [] then [] else [DropTags(items[0])] + DropItemTags(items[1..])
  }

  function DropPairTags(pairs: seq<Pair>): seq<Pair> {
    if pairs == [] then [] else [Pair(pairs[0].key, DropTags(pairs[0].value))] + DropPairTags(pairs[1..])
  }

  /** A tree on which tag dropping has nothing to do. */
  ghost predicate Untagged(n: Node) {
    DropTags(n) == n
  }

  lemma {:induction false} DropPairTagsKeys(pairs: seq<Pair>)
    ensures Keys(DropPairTags(pairs)) == Keys(pairs)
  {
    if pairs != [] {
      DropPairTagsKeys(pairs[1..]);
      assert Keys(pairs) == [pairs[0].key] + Keys(pairs[1..]);
      assert Keys(DropPairTags(pairs)) == [pairs[0].key] + Keys(DropPairTags(pairs[1..]));
    }
  }

  // ---------- identity on quiet trees ----------

  /** A quiet tree is reproduced at every depth below the limit, up to the tags on its collections. */
  lemma {:induction false} CopyQuiet(store: Store, n: Node, depth: nat)
    requires Quiet(Unresolvable(store), n) && depth < MAX_INCLUDE_DEPTH
    ensures Copy(store, n, depth) == Some(DropTags(n))
    decreases n
  {
    match n
    case Scalar(_, _) =>
    case Sequence(_, items) => CopyQuietItems(store, items, depth);
    case Mapping(_, pairs) =>
      CopyQuietPairs(store, pairs, depth);
      DropPairTagsKeys(pairs);
      assert [] + DropPairTags(pairs) == DropPairTags(pairs);
      AssembleOwn([], DropPairTags(pairs));
  }

  lemma {:induction false} CopyQuietItems(store: Store, items: seq<Node>, depth: nat)
    requires (forall item :: item in items ==> Quiet(Unresolvable(store), item)) && depth < MAX_INCLUDE_DEPTH
    ensures CopyItems(store, items, depth) == DropItemTags(items)
    decreases items
  {
    if items != [] {
      assert Quiet(Unresolvable(store), items[0]);
      if EntryMarker(items[0]).Some? {
        EntryMarkerIsPairMarker(items[0]);
        assert QuietPair(Unresolvable(store), Pair("include", Lookup(items[0].pairs, "include").value));
        assert Include(store, EntryMarker(items[0]).value, depth).None?;
      }
      CopyQuiet(store, items[0], depth);
      assert CopyEntry(store, items[0], depth) == Some(DropTags(items[0]));
      CopyQuietItems(store, items[1..], depth);
    }
  }

  lemma {:induction false} CopyQuietPairs(store: Store, pairs: seq<Pair>, depth: nat)
    requires (forall p :: p in pairs ==> QuietPair(Unresolvable(store), p)) && depth < MAX_INCLUDE_DEPTH
    ensures Contributions(store, pairs, depth) == Owns(DropPairTags(pairs))
    decreases pairs
  {
    if pairs != [] {
      assert QuietPair(Unresolvable(store), pairs[0]);
      if PairMarker(pairs[0]).Some? {
        assert Include(store, PairMarker(pairs[0]).value, depth).None?;
      }
      CopyQuiet(store, pairs[0].value, depth);
      CopyQuietPairs(store, pairs[1..], depth);
      assert DropPairTags(pairs)[1..] == DropPairTags(pairs[1..]);
      assert Owns(DropPairTags(pairs))
          == [Own(Pair(pairs[0].key, DropTags(pairs[0].value)))] + Owns(DropPairTags(pairs[1..]));
    }
  }

  function Owns(pairs: seq<Pair>): seq<Contribution> {
    if pairs == [] then [] else [Own(pairs[0])] + Owns(pairs[1..])
  }

  lemma {:induction false} AssembleOwn(built: seq<Pair>, pairs: seq<Pair>)
    requires Distinct(Keys(built + pairs))
    ensures Assemble(built, Owns(pairs)) == built + pairs
    decreases pairs
  {
    if pairs == [] {
      assert built + pairs == built;
    } else {
      NextKeyIsNew(built, pairs);
      assert built + [pairs[0]] + pairs[1..] == built + pairs;
      AssembleOwn(built + [pairs[0]], pairs[1..]);
      assert Owns(pairs)[1..] == Owns(pairs[1..]);
    }
  }

  // ---------- building expanded mappings ----------

  ghost predicate Settled(allowed: iset<string>, n: Node) {
    Quiet(allowed, n) && Untagged(n)
  }

  ghost predicate SettledPair(allowed: iset<string>, p: Pair) {
    QuietPair(allowed, p) && Untagged(p.value)
  }

  lemma {:induction false} UntaggedItems(items: seq<Node>)
    ensures DropItemTags(items) == items <==> forall item :: item in items ==> Untagged(item)
  {
    if items != [] {
      UntaggedItems(items[1..]);
      assert DropItemTags(items)[0] == DropTags(items[0]);
      assert DropItemTags(items)[1..] == DropItemTags(items[1..]);
      assert items == [items[0]] + items[1..];
      assert DropItemTags(items) == items <==> Untagged(items[0]) && DropItemTags(items[1..]) == items[1..];
    }
  }

  lemma {:induction false} UntaggedPairs(pairs: seq<Pair>)
    ensures DropPairTags(pairs) == pairs <==> forall p :: p in pairs ==> Untagged(p.value)
  {
    if pairs != [] {
      UntaggedPairs(pairs[1..]);
      assert DropPairTags(pairs)[0].value == DropTags(pairs[0].value);
      assert DropPairTags(pairs)[1..] == DropPairTags(pairs[1..]);
      assert pairs == [pairs[0]] + pairs[1..];
    }
  }

  ghost predicate SettledContribution(allowed: iset<string>, c: Contribution) {
    match c
    case Nothing => true
    case Own(p) => SettledPair(allowed, p)
    case Included(root) => Settled(allowed, root)
  }

  lemma {:induction false} AssembleSettled(allowed: iset<string>, built: seq<Pair>, cs: seq<Contribution>)
    requires Distinct(Keys(built)) && forall p :: p in built ==> SettledPair(allowed, p)
    requires forall c :: c in cs ==> SettledContribution(allowed, c)
    ensures Settled(allowed, Mapping(None, Assemble(built, cs)))
    decreases cs
  {
    if cs == [] {
      UntaggedPairs(built);
    } else {
      var next := Apply(built, cs[0]);
      assert SettledContribution(allowed, cs[0]);
      match cs[0] {
        case Nothing =>
        case Own(p) => AppendKeys(built, p);
        case Included(root) =>
          if root.Mapping? {
            UntaggedPairs(root.pairs);
            InsertKeys(built, root.pairs);
            AddKeysDistinct(Keys(built), Keys(root.pairs));
            InsertMembers(built, root.pairs);
          }
      }
      AssembleSettled(allowed, next, cs[1..]);
    }
  }

  // ---------- every expansion is well formed ----------

  /** Whatever the file store holds, cyclic includes too, an expansion has no include tag and no collection
      tag left, and the keys of each of its mappings are distinct. */
  lemma {:induction false} CopyWellFormed(store: Store, n: Node, depth: nat)
    ensures Copy(store, n, depth).Some? ==> Settled(AnyPath(), Copy(store, n, depth).value)
    decreases MAX_INCLUDE_DEPTH - depth, 1, n, 0
  {
    if depth < MAX_INCLUDE_DEPTH {
      if IsIncludeTagged(n) {
        IncludeWellFormed(store, n.text, depth);
        if Include(store, n.text, depth).Some? {
          CopyWellFormed(store, Include(store, n.text, depth).value, depth + 1);
        }
      } else {
        match n
        case Scalar(_, _) =>
        case Sequence(_, items) =>
          CopyItemsWellFormed(store, items, depth);
          UntaggedItems(CopyItems(store, items, depth));
        case Mapping(_, pairs) =>
          ContributionsWellFormed(store, pairs, depth);
          AssembleSettled(AnyPath(), [], Contributions(store, pairs, depth));
      }
    }
  }

  lemma {:induction false} IncludeWellFormed(store: Store, path: string, depth: nat)
    ensures Include(store, path, depth).Some? ==> Settled(AnyPath(), Include(store, path, depth).value)
    decreases MAX_INCLUDE_DEPTH - depth, 0
  {
    if depth < MAX_INCLUDE_DEPTH && Root(store, path).Some? {
      CopyWellFormed(store, Root(store, path).value, depth + 1);
    }
  }

  lemma {:induction false} CopyItemsWellFormed(store: Store, items: seq<Node>, depth: nat)
    requires depth < MAX_INCLUDE_DEPTH
    ensures forall item :: item in CopyItems(store, items, depth) ==> Settled(AnyPath(), item)
    decreases MAX_INCLUDE_DEPTH - depth, 1, items, 0
  {
    if items != [] {
      if EntryMarker(items[0]).Some? {
        var path := EntryMarker(items[0]).value;
        IncludeWellFormed(store, path, depth);
        if Include(store, path, depth).Some? {
          CopyWellFormed(store, Include(store, path, depth).value, depth + 1);
        }
      }
      CopyWellFormed(store, items[0], depth);
      CopyItemsWellFormed(store, items[1..], depth);
    }
  }

  lemma {:induction false} ContributionsWellFormed(store: Store, pairs: seq<Pair>, depth: nat)
    requires depth < MAX_INCLUDE_DEPTH
    ensures forall c :: c in Contributions(store, pairs, depth) ==> SettledContribution(AnyPath(), c)
    decreases MAX_INCLUDE_DEPTH - depth, 1, pairs, 0
  {
    if pairs != [] {
      if PairMarker(pairs[0]).Some? {
        IncludeWellFormed(store, PairMarker(pairs[0]).value, depth);
      }
      CopyWellFormed(store, pairs[0].value, depth);
      ContributionsWellFormed(store, pairs[1..], depth);
    }
  }

  // ---------- trees without markers ----------

  lemma {:induction false} QuietMonotone(a: iset<string>, b: iset<string>, n: Node)
    requires a <= b && Quiet(a, n)
    ensures Quiet(b, n)
    decreases n
  {
    match n
    case Scalar(_, _) =>
    case Sequence(_, items) =>
      forall item | item in items ensures Quiet(b, item) { QuietMonotone(a, b, item); }
    case Mapping(_, pairs) =>
      forall p | p in pairs ensures QuietPair(b, p) {
        assert QuietPair(a, p);
        QuietMonotone(a, b, p.value);
      }
  }

  /** A tree with distinct keys and no include marker is reproduced, whatever the store and the depth. */
  lemma CopyWithoutMarkers(store: Store, n: Node, depth: nat)
    requires Quiet(iset{}, n) && depth < MAX_INCLUDE_DEPTH
    ensures Copy(store, n, depth) == Some(DropTags(n))
  {
    QuietMonotone(iset{}, Unresolvable(store), n);
    CopyQuiet(store, n, depth);
  }

  /** Merging an expanded profile into an expanded document keeps all keys distinct. */
  lemma MergeWellFormed(main: Node, included: Node)
    requires Settled(AnyPath(), main) && Settled(AnyPath(), included)
    ensures Settled(AnyPath(), MergeNodes(main, included))
  {
    if main.Mapping? && included.Mapping? {
      UntaggedPairs(main.pairs);
      assert SettledContribution(AnyPath(), Included(included));
      AssembleSettled(AnyPath(), main.pairs, [Included(included)]);
      assert Assemble(main.pairs, [Included(included)]) == Insert(main.pairs, included.pairs);
    }
  }
}

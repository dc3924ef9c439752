/** Which value a key of an expanded mapping gets, and in which order the keys stand. */
module IncludePrecedence {
  import opened Wrappers
  import opened YamlTree
  import opened Includes
  import opened ExpandedTrees
  import opened IncludeLaws

  /** The value a contribution defines for `key` by way of an include. */
  function IncludedValue(c: Contribution, key: string): Option<Node> {
    if c.Included? && c.root.Mapping? then Lookup(c.root.pairs, key) else None
  }

  predicate IsOwn(c: Contribution, key: string) {
    c.Own? && c.pair.key == key
  }

  function LastIncluded(cs: seq<Contribution>, key: string): Option<Node> {
    if cs == [] then None
    else if LastIncluded(cs[1..], key).Some? then LastIncluded(cs[1..], key)
    else IncludedValue(cs[0], key)
  }

  function FirstOwn(cs: seq<Contribution>, key: string): Option<Node> {
    if cs == [] then None
    else if IsOwn(cs[0], key) then Some(cs[0].pair.value)
    else FirstOwn(cs[1..], key)
  }

  function ContributedKeys(cs: seq<Contribution>): seq<string> {
    if cs == [] then []
    else (match cs[0]
          case Nothing => []
          case Own(p) => [p.key]
          case Included(root) => if root.Mapping? then Keys(root.pairs) else []) + ContributedKeys(cs[1..])
  }

  ghost predicate DistinctIncludes(cs: seq<Contribution>) {
    forall c :: c in cs && c.Included? && c.root.Mapping? ==> Distinct(Keys(c.root.pairs))
  }

  lemma {:induction false} AssembleLookup(built: seq<Pair>, cs: seq<Contribution>, key: string)
    requires DistinctIncludes(cs)
    ensures Lookup(Assemble(built, cs), key)
         == if LastIncluded(cs, key).Some? then LastIncluded(cs, key)
            else if Lookup(built, key).Some? then Lookup(built, key)
            else FirstOwn(cs, key)
    decreases cs
  {
    if cs != [] {
      var next := Apply(built, cs[0]);
      AssembleLookup(next, cs[1..], key);
      match cs[0]
      case Nothing =>
      case Own(p) =>
        LookupConcat(built, [p], key);
        LookupSomeIffKey(built, p.key);
      case Included(root) =>
        if root.Mapping? {
          assert cs[0] in cs;
          InsertLookup(built, root.pairs, key);
        }
    }
  }

  lemma {:induction false} LastIncludedAt(cs: seq<Contribution>, key: string, i: nat)
    requires i < |cs| && IncludedValue(cs[i], key).Some?
    requires forall j :: i < j < |cs| ==> IncludedValue(cs[j], key).None?
    ensures LastIncluded(cs, key) == IncludedValue(cs[i], key)
  {
    if i == 0 {
      NoneIncluded(cs[1..], key);
    } else {
      LastIncludedAt(cs[1..], key, i - 1);
    }
  }

  lemma {:induction false} NoneIncluded(cs: seq<Contribution>, key: string)
    requires forall j :: 0 <= j < |cs| ==> IncludedValue(cs[j], key).None?
    ensures LastIncluded(cs, key).None?
  {
    if cs != [] {
      NoneIncluded(cs[1..], key);
    }
  }

  lemma {:induction false} FirstOwnAt(cs: seq<Contribution>, key: string, i: nat)
    requires i < |cs| && IsOwn(cs[i], key) && forall j :: 0 <= j < i ==> !IsOwn(cs[j], key)
    ensures FirstOwn(cs, key) == Some(cs[i].pair.value)
  {
    if i > 0 {
      FirstOwnAt(cs[1..], key, i - 1);
    }
  }

  lemma {:induction false} NoOwn(cs: seq<Contribution>, key: string)
    requires forall j :: 0 <= j < |cs| ==> !IsOwn(cs[j], key)
    ensures FirstOwn(cs, key).None?
  {
    if cs != [] {
      NoOwn(cs[1..], key);
    }
  }

  lemma {:induction false} ContributionAt(store: Store, pairs: seq<Pair>, depth: nat, i: nat)
    requires depth < MAX_INCLUDE_DEPTH && i < |pairs|
    ensures Contributions(store, pairs, depth)[i] == Contribute(store, pairs[i], depth)
  {
    if i > 0 {
      ContributionAt(store, pairs[1..], depth, i - 1);
    }
  }

  /** The value that the include in source pair `p` defines for `key`, if `p` is an include and succeeds. */
  ghost function IncludeDefines(store: Store, p: Pair, depth: nat, key: string): Option<Node> {
    if IsIncludePair(p) && TargetRoot(store, p.value.text, depth).Some?
       && TargetRoot(store, p.value.text, depth).value.Mapping?
    then Lookup(TargetRoot(store, p.value.text, depth).value.pairs, key)
    else None
  }

  /** The value that source pair `p` itself gives to `key`: not a successful include, and copied successfully. */
  ghost function OwnDefines(store: Store, p: Pair, depth: nat, key: string): Option<Node> {
    if p.key != key || (IsIncludePair(p) && TargetRoot(store, p.value.text, depth).Some?) then None
    else Copy(store, p.value, depth)
  }

  lemma ExpandedLookup(store: Store, pairs: seq<Pair>, depth: nat, key: string)
    requires depth < MAX_INCLUDE_DEPTH
    ensures var cs := Contributions(store, pairs, depth);
            Lookup(Expanded(store, pairs, depth), key)
            == if LastIncluded(cs, key).Some? then LastIncluded(cs, key) else FirstOwn(cs, key)
  {
    var cs := Contributions(store, pairs, depth);
    ContributionsWellFormed(store, pairs, depth);
    forall c | c in cs && c.Included? && c.root.Mapping? ensures Distinct(Keys(c.root.pairs)) {
      assert SettledContribution(AnyPath(), c);
    }
    AssembleLookup([], cs, key);
  }

  lemma ContributionDefines(store: Store, pairs: seq<Pair>, depth: nat, key: string)
    requires depth < MAX_INCLUDE_DEPTH
    ensures var cs := Contributions(store, pairs, depth);
            forall i :: 0 <= i < |pairs| ==>
              IncludedValue(cs[i], key) == IncludeDefines(store, pairs[i], depth, key)
              && OwnDefines(store, pairs[i], depth, key)
                 == if IsOwn(cs[i], key) then Some(cs[i].pair.value) else None
  {
    var cs := Contributions(store, pairs, depth);
    forall i | 0 <= i < |pairs|
      ensures IncludedValue(cs[i], key) == IncludeDefines(store, pairs[i], depth, key)
      ensures OwnDefines(store, pairs[i], depth, key)
           == if IsOwn(cs[i], key) then Some(cs[i].pair.value) else None
    {
      ContributionAt(store, pairs, depth, i);
      PairMarkerIs(pairs[i]);
      if pairs[i].value.Scalar? {
        IncludeIs(store, pairs[i].value.text, depth);
      }
    }
  }

  /** A key takes its value from the last include that defines it, wherever its own entries stand. */
  lemma LastIncludeWins(store: Store, pairs: seq<Pair>, depth: nat, key: string, i: nat)
    requires depth < MAX_INCLUDE_DEPTH && i < |pairs|
    requires IncludeDefines(store, pairs[i], depth, key).Some?
    requires forall j :: i < j < |pairs| ==> IncludeDefines(store, pairs[j], depth, key).None?
    ensures Lookup(Expanded(store, pairs, depth), key) == IncludeDefines(store, pairs[i], depth, key)
  {
    ContributionDefines(store, pairs, depth, key);
    LastIncludedAt(Contributions(store, pairs, depth), key, i);
    ExpandedLookup(store, pairs, depth, key);
  }

  /** A pair with "include" anywhere in its key gives every key of its target's mapping, unless a later include
      defines that key. */
  lemma IncludedKeysAreThere(store: Store, before: seq<Pair>, a: string, b: string, tag: Option<string>, path: string,
                             after: seq<Pair>, depth: nat, key: string)
    requires depth < 5 && TargetRoot(store, path, depth).Some? && TargetRoot(store, path, depth).value.Mapping?
    requires Lookup(TargetRoot(store, path, depth).value.pairs, key).Some?
    requires forall j :: 0 <= j < |after| ==> IncludeDefines(store, after[j], depth, key).None?
    ensures var pairs := before + [Pair(a + "include" + b, Scalar(tag, path))] + after;
            Lookup(Expanded(store, pairs, depth), key) == Lookup(TargetRoot(store, path, depth).value.pairs, key)
  {
    var p := Pair(a + "include" + b, Scalar(tag, path));
    var pairs := before + [p] + after;
    assert pairs[|before|] == p && p.key == a + "include" + b;
    forall j | |before| < j < |pairs| ensures IncludeDefines(store, pairs[j], depth, key).None? {
      assert pairs[j] == after[j - |before| - 1];
    }
    LastIncludeWins(store, pairs, depth, key, |before|);
  }

  ghost predicate NoIncludeDefines(store: Store, pairs: seq<Pair>, depth: nat, key: string) {
    forall j :: 0 <= j < |pairs| ==> IncludeDefines(store, pairs[j], depth, key).None?
  }

  /** Only when no include defines the key does the first of its own entries count. */
  lemma FirstOwnEntryWins(store: Store, pairs: seq<Pair>, depth: nat, key: string, i: nat)
    requires depth < MAX_INCLUDE_DEPTH && i < |pairs|
    requires NoIncludeDefines(store, pairs, depth, key)
    requires OwnDefines(store, pairs[i], depth, key).Some?
    requires forall j :: 0 <= j < i ==> OwnDefines(store, pairs[j], depth, key).None?
    ensures Lookup(Expanded(store, pairs, depth), key) == OwnDefines(store, pairs[i], depth, key)
  {
    var cs := Contributions(store, pairs, depth);
    ContributionDefines(store, pairs, depth, key);
    NoneIncluded(cs, key);
    FirstOwnAt(cs, key, i);
    ExpandedLookup(store, pairs, depth, key);
  }

  /** A key that nothing defines is absent. */
  lemma UndefinedKeyIsAbsent(store: Store, pairs: seq<Pair>, depth: nat, key: string)
    requires depth < MAX_INCLUDE_DEPTH
    requires NoIncludeDefines(store, pairs, depth, key)
    requires forall j :: 0 <= j < |pairs| ==> OwnDefines(store, pairs[j], depth, key).None?
    ensures Lookup(Expanded(store, pairs, depth), key).None?
  {
    var cs := Contributions(store, pairs, depth);
    ContributionDefines(store, pairs, depth, key);
    NoneIncluded(cs, key);
    NoOwn(cs, key);
    ExpandedLookup(store, pairs, depth, key);
  }

  // ---------- key order ----------

  function FirstIndex(keys: seq<string>, key: string): nat {
    if keys == [] || keys[0] == key then 0 else 1 + FirstIndex(keys[1..], key)
  }

  ghost predicate InOrderOf(keys: seq<string>, all: seq<string>) {
    forall i, j :: 0 <= i < j < |keys| ==> FirstIndex(all, keys[i]) < FirstIndex(all, keys[j])
  }

  lemma {:induction false} FirstIndexConcat(a: seq<string>, b: seq<string>, key: string)
    ensures key in a ==> FirstIndex(a + b, key) == FirstIndex(a, key) < |a|
    ensures key !in a ==> FirstIndex(a + b, key) == |a| + FirstIndex(b, key)
  {
    if a == [] {
      assert a + b == b;
    } else {
      assert (a + b)[1..] == a[1..] + b;
      FirstIndexConcat(a[1..], b, key);
    }
  }

  /** Adding the keys `more` after `done` were added: the result holds exactly the keys met so far, each once,
      in the order of their first appearance. */
  lemma {:induction false} AddKeysOrder(keys: seq<string>, done: seq<string>, more: seq<string>)
    requires InOrderOf(keys, done) && forall k :: k in keys <==> k in done
    ensures InOrderOf(AddKeys(keys, more), done + more)
    ensures forall k :: k in AddKeys(keys, more) <==> k in done + more
    decreases more
  {
    if more == [] {
      assert done + more == done;
    } else {
      var k := more[0];
      assert done + [k] + more[1..] == done + more;
      forall x | x in done + [k]
        ensures x in done ==> FirstIndex(done + [k], x) == FirstIndex(done, x) < |done|
        ensures x !in done ==> FirstIndex(done + [k], x) == |done|
      {
        FirstIndexConcat(done, [k], x);
      }
      AddKeysOrder(AddKey(keys, k), done + [k], more[1..]);
    }
  }

  lemma {:induction false} AssembleKeys(built: seq<Pair>, cs: seq<Contribution>)
    ensures Keys(Assemble(built, cs)) == AddKeys(Keys(built), ContributedKeys(cs))
    decreases cs
  {
    if cs != [] {
      AssembleKeys(Apply(built, cs[0]), cs[1..]);
      match cs[0]
      case Nothing => assert ContributedKeys(cs) == ContributedKeys(cs[1..]);
      case Own(p) =>
        AppendKeys(built, p);
        assert ContributedKeys(cs)[1..] == ContributedKeys(cs[1..]);
      case Included(root) =>
        if root.Mapping? {
          InsertKeys(built, root.pairs);
          AddKeysConcat(Keys(built), Keys(root.pairs), ContributedKeys(cs[1..]));
        } else {
          assert ContributedKeys(cs) == ContributedKeys(cs[1..]);
        }
    }
  }

  lemma {:induction false} AddKeysConcat(keys: seq<string>, a: seq<string>, b: seq<string>)
    ensures AddKeys(keys, a + b) == AddKeys(AddKeys(keys, a), b)
    decreases a
  {
    if a == [] {
      assert a + b == b;
    } else {
      assert (a + b)[1..] == a[1..] + b;
      AddKeysConcat(AddKey(keys, a[0]), a[1..], b);
    }
  }

  /** The keys of an expanded mapping are exactly the keys its source pairs contribute, each once, in the
      order of their first appearance. */
  lemma KeysKeepFirstAppearance(store: Store, pairs: seq<Pair>, depth: nat)
    requires depth < MAX_INCLUDE_DEPTH
    ensures var keys := Keys(Expanded(store, pairs, depth));
            var contributed := ContributedKeys(Contributions(store, pairs, depth));
            InOrderOf(keys, contributed) && forall k :: k in keys <==> k in contributed
  {
    var cs := Contributions(store, pairs, depth);
    AssembleKeys([], cs);
    assert Keys([]) == [];
    assert [] + ContributedKeys(cs) == ContributedKeys(cs);
    AddKeysOrder([], [], ContributedKeys(cs));
  }
}

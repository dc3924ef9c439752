/** How sharp the depth limit is: the exact chain length up to which depth does not matter, and a chain of
    five includes that the second pass completes anyway. */
module IncludeLimit {
  import opened Wrappers
  import opened YamlTree
  import opened Includes
  import opened ExpandedTrees
  import opened IncludeMeaning

  function Path(i: nat): (path: string)
    ensures |path| == i
  {
    seq(i, _ => 'a')
  }

  /** The document in the i-th file of a ladder of `top` files: each includes the next, the last holds a value. */
  function Rung(i: nat, top: nat): Node {
    if i < top then Mapping(None, [Pair("include", Scalar(None, Path(i + 1)))])
    else Mapping(None, [Pair("k", Scalar(None, "v"))])
  }

  function Ladder(top: nat): Store {
    map path | path in (set i | 1 <= i <= top :: Path(i)) :: Document(Rung(|path|, top))
  }

  lemma LadderRoot(top: nat, i: nat)
    requires 1 <= i <= top
    ensures Root(Ladder(top), Path(i)) == Some(Rung(i, top))
  {
  }

  lemma IncludeKey(value: Node)
    requires value.Scalar?
    ensures PairMarker(Pair("include", value)) == Some(value.text)
  {
    assert "include"[0..][..|"include"|] == "include";
  }

  lemma OnePair(store: Store, p: Pair, depth: nat, h: nat)
    ensures depth < MAX_INCLUDE_DEPTH ==> Contributions(store, [p], depth) == [Contribute(store, p, depth)]
    ensures PairChain(store, p, h) ==> MeaningPairs(store, [p], h) == [MeaningPair(store, p, h)]
    ensures Assemble([], [Own(p)]) == [p]
  {
  }

  lemma TopRungHasNoMarker(top: nat)
    ensures Quiet(iset{}, Rung(top, top)) && DropTags(Rung(top, top)) == Rung(top, top)
  {
  }

  lemma TopRung(top: nat)
    ensures Chain(Ladder(top), Rung(top, top), 0)
    ensures Meaning(Ladder(top), Rung(top, top), 0) == Some(Rung(top, top))
  {
    TopRungHasNoMarker(top);
    assert !Contains("k", "include");
    OnePair(Ladder(top), Rung(top, top).pairs[0], 0, 0);
  }

  lemma {:induction false} LadderChain(top: nat, i: nat)
    requires i <= top
    ensures Chain(Ladder(top), Rung(i, top), top - i)
    ensures Meaning(Ladder(top), Rung(i, top), top - i) == Some(Rung(top, top))
    decreases top - i
  {
    if i == top {
      TopRung(top);
    } else {
      var store := Ladder(top);
      var p := Rung(i, top).pairs[0];
      IncludeKey(p.value);
      LadderRoot(top, i + 1);
      LadderChain(top, i + 1);
      hide Ladder;
      assert top - i - 1 == top - (i + 1);
      assert TargetChain(store, Path(i + 1), top - i);
      assert PairChain(store, p, top - i);
      OnePair(store, p, 0, top - i);
      assert MeaningPairs(store, [p], top - i) == [Included(Rung(top, top))];
      AssembleOne(Rung(top, top));
      hide Contains;
    }
  }

  lemma AssembleOne(root: Node)
    requires root.Mapping? && |root.pairs| == 1
    ensures Assemble([], [Included(root)]) == root.pairs
  {
    assert Insert([], root.pairs) == [root.pairs[0]];
  }

  /** A rung with an include is a mapping with one pair. */
  lemma CopyRung(store: Store, i: nat, top: nat, depth: nat)
    requires i < top && depth < MAX_INCLUDE_DEPTH
    ensures var p := Rung(i, top).pairs[0];
            PairMarker(p) == Some(Path(i + 1))
            && Copy(store, Rung(i, top), depth) == Some(Mapping(None, Assemble([], [Contribute(store, p, depth)])))
  {
    var p := Rung(i, top).pairs[0];
    IncludeKey(p.value);
    OnePair(store, p, depth, 0);
  }

  /** Climbing from rung i at the depth that reaches the limit one rung too early leaves the last include undone. */
  lemma {:induction false} LadderCutOff(top: nat, i: nat)
    requires i < top <= MAX_INCLUDE_DEPTH
    ensures Copy(Ladder(top), Rung(i, top), MAX_INCLUDE_DEPTH - top + i) == Some(Rung(top - 1, top))
    decreases top - i
  {
    var store := Ladder(top);
    var depth := MAX_INCLUDE_DEPTH - top + i;
    var p := Rung(i, top).pairs[0];
    CopyRung(store, i, top, depth);
    LadderRoot(top, i + 1);
    if i + 1 == top {
      hide Ladder, PairMarker, Root;
      assert Include(store, Path(top), depth).None?;
      assert Contribute(store, p, depth) == Own(p);
      OnePair(store, p, depth, 0);
    } else {
      LadderCutOff(top, i + 1);
      hide Ladder, PairMarker, Copy;
      assert Include(store, Path(i + 1), depth) == Some(Rung(top - 1, top));
      assert Contribute(store, p, depth) == Included(Rung(top - 1, top));
      AssembleOne(Rung(top - 1, top));
    }
  }

  ghost predicate DepthIsHarmless(h: nat, depth: nat) {
    forall store: Store, n: Node :: Chain(store, n, h) ==> Copy(store, n, depth) == Meaning(store, n, h)
  }

  lemma BelowLimitIsHarmless(h: nat, depth: nat)
    requires h + depth < MAX_INCLUDE_DEPTH
    ensures DepthIsHarmless(h, depth)
  {
    forall store: Store, n: Node | Chain(store, n, h)
      ensures Copy(store, n, depth) == Meaning(store, n, h)
    {
      CopyIsMeaning(store, n, depth, h);
    }
  }

  lemma AtLimitIsHarmful(h: nat, depth: nat)
    requires h + depth >= MAX_INCLUDE_DEPTH
    ensures exists store: Store, n: Node :: Chain(store, n, h) && Copy(store, n, depth) != Meaning(store, n, h)
  {
    if depth >= MAX_INCLUDE_DEPTH {
      var n := Scalar(None, "");
      assert Chain(map[], n, h) && Copy(map[], n, depth) != Meaning(map[], n, h);
    } else {
      var top := MAX_INCLUDE_DEPTH - depth;
      LadderCutOff(top, 0);
      LadderChain(top, 0);
      MeaningMonotone(Ladder(top), Rung(0, top), top, h);
      assert Rung(top - 1, top).pairs[0].key != Rung(top, top).pairs[0].key;
      assert Copy(Ladder(top), Rung(0, top), depth) != Meaning(Ladder(top), Rung(0, top), h);
    }
  }

  /** Depth never matters for chains of at most h includes exactly when h + depth stays below the limit. */
  lemma LimitIsExact(h: nat, depth: nat)
    ensures DepthIsHarmless(h, depth) <==> h + depth < 5
  {
    if h + depth < MAX_INCLUDE_DEPTH {
      BelowLimitIsHarmless(h, depth);
    } else {
      AtLimitIsHarmful(h, depth);
    }
  }

  /** The limit bounds the call depth, not the number of nested includes: five chained includes behind a tag
      expand completely at depth 0, because the second pass retries the include left over by the first. */
  lemma SecondPassRetries()
    ensures var n := Scalar(Some("!include"), Path(1));
            Chain(Ladder(5), n, 5) && !(5 + 0 < MAX_INCLUDE_DEPTH)
            && Copy(Ladder(5), n, 0) == Meaning(Ladder(5), n, 5)
  {
    var store := Ladder(5);
    var n := Scalar(Some("!include"), Path(1));
    LadderRoot(5, 1);
    LadderChain(5, 1);
    LadderCutOff(5, 1);
    LadderRoot(5, 5);
    TopRungHasNoMarker(5);
    CopyWithoutMarkers(store, Rung(5, 5), 2);
    assert Include(store, Path(1), 0) == Some(Rung(4, 5));
    var p := Rung(4, 5).pairs[0];
    IncludeKey(p.value);
    OnePair(store, p, 1, 0);
    assert Contributions(store, [p], 1) == [Included(Rung(5, 5))];
    AssembleOne(Rung(5, 5));
  }
}

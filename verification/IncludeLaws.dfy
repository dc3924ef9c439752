/** What the copier does with each kind of node, in terms of the tree and the store alone.  Together the laws
    determine every expansion. */
module IncludeLaws {
  import opened Wrappers
  import opened YamlTree
  import opened Includes

  // ---------- targets and markers ----------

  /** The expanded root of a target met at some depth; none when it cannot be read or does not expand. */
  function TargetRoot(store: Store, path: string, depth: nat): Option<Node> {
    if depth < 5 && path in store && store[path].Document? then Copy(store, store[path].root, depth + 1) else None
  }

  lemma IncludeIs(store: Store, path: string, depth: nat)
    ensures Include(store, path, depth) == TargetRoot(store, path, depth)
  {
  }

  /** A key with "include" anywhere in it, and a scalar of any tag as value. */
  ghost predicate IsIncludePair(p: Pair) {
    p.value.Scalar? && exists a: string, b: string :: p.key == a + "include" + b
  }

  lemma ContainsIsSplit(buffer: string, pattern: string)
    ensures Contains(buffer, pattern) <==> pattern != "" && exists a: string, b: string :: buffer == a + pattern + b
  {
    if Contains(buffer, pattern) {
      var i :| 0 <= i <= |buffer| - |pattern| && buffer[i..][..|pattern|] == pattern;
      assert buffer == buffer[..i] + buffer[i..][..|pattern|] + buffer[i + |pattern|..];
    }
    if pattern != "" && exists a: string, b: string :: buffer == a + pattern + b {
      var a: string, b: string :| buffer == a + pattern + b;
      assert buffer[|a|..][..|pattern|] == pattern;
    }
  }

  lemma PairMarkerIs(p: Pair)
    ensures PairMarker(p) == if IsIncludePair(p) then Some(p.value.text) else None
  {
    ContainsIsSplit(p.key, "include");
  }

  // ---------- scalars ----------

  /** A scalar tagged with a prefix of `!include` becomes its target, expanded a second time, or nothing. */
  lemma TaggedScalarLaw(store: Store, tag: string, path: string, depth: nat)
    requires depth < 5 && tag <= "!include"
    ensures var included := TargetRoot(store, path, depth);
            Copy(store, Scalar(Some(tag), path), depth)
            == if included.Some? then Copy(store, included.value, depth + 1) else None
  {
    IncludeIs(store, path, depth);
  }

  lemma PlainScalarLaw(store: Store, tag: Option<string>, text: string, depth: nat)
    requires tag.Some? ==> !(tag.value <= "!include")
    ensures Copy(store, Scalar(tag, text), depth) == if depth < 5 then Some(Scalar(tag, text)) else None
  {
  }

  // ---------- sequences ----------

  /** The expanded items of a sequence. */
  function Items(store: Store, items: seq<Node>, depth: nat): seq<Node>
    requires depth < 5
  {
    Copy(store, Sequence(None, items), depth).value.items
  }

  lemma {:induction false} CopyItemsConcat(store: Store, a: seq<Node>, b: seq<Node>, depth: nat)
    requires depth < 5
    ensures CopyItems(store, a + b, depth) == CopyItems(store, a, depth) + CopyItems(store, b, depth)
    decreases a
  {
    if a == [] {
      assert a + b == b;
    } else {
      assert (a + b)[1..] == a[1..] + b;
      CopyItemsConcat(store, a[1..], b, depth);
    }
  }

  /** What the entry between a and b becomes. */
  lemma ItemBetween(store: Store, a: seq<Node>, item: Node, b: seq<Node>, depth: nat)
    requires depth < 5
    ensures Items(store, a + [item] + b, depth)
         == Items(store, a, depth) + OptionToSeq(CopyEntry(store, item, depth)) + Items(store, b, depth)
  {
    var entry := OptionToSeq(CopyEntry(store, item, depth));
    assert CopyItems(store, [item], depth) == entry by {
      assert [item][1..] == [] && CopyItems(store, [], depth) == [];
      hide Copy, CopyEntry;
    }
    CopyItemsConcat(store, a + [item], b, depth);
    CopyItemsConcat(store, a, [item], depth);
    hide CopyItems, CopyEntry;
  }

  /** An entry with an `include` key of any scalar becomes its target, expanded a second time. */
  lemma IncludeEntryLaw(store: Store, tag: Option<string>, a: seq<Node>, entry: Node, valueTag: Option<string>,
                        path: string, b: seq<Node>, depth: nat)
    requires depth < 5 && entry.Mapping? && Lookup(entry.pairs, "include") == Some(Scalar(valueTag, path))
    requires TargetRoot(store, path, depth).Some?
    requires Copy(store, TargetRoot(store, path, depth).value, depth + 1).Some?
    ensures Copy(store, Sequence(tag, a + [entry] + b), depth)
         == Some(Sequence(None, Items(store, a, depth)
                                + [Copy(store, TargetRoot(store, path, depth).value, depth + 1).value]
                                + Items(store, b, depth)))
  {
    IncludeIs(store, path, depth);
    ItemBetween(store, a, entry, b, depth);
  }

  /** Any other entry, and one whose include fails in either pass, becomes its own copy, or nothing. */
  lemma OtherEntryLaw(store: Store, tag: Option<string>, a: seq<Node>, entry: Node, b: seq<Node>, depth: nat)
    requires depth < 5
    requires entry.Mapping? && Lookup(entry.pairs, "include").Some? && Lookup(entry.pairs, "include").value.Scalar? ==>
               var included := TargetRoot(store, Lookup(entry.pairs, "include").value.text, depth);
               included.None? || Copy(store, included.value, depth + 1).None?
    ensures Copy(store, Sequence(tag, a + [entry] + b), depth)
         == match Copy(store, entry, depth)
            case Some(copied) => Some(Sequence(None, Items(store, a, depth) + [copied] + Items(store, b, depth)))
            case None => Some(Sequence(None, Items(store, a, depth) + Items(store, b, depth)))
  {
    if EntryMarker(entry).Some? {
      IncludeIs(store, EntryMarker(entry).value, depth);
    }
    ItemBetween(store, a, entry, b, depth);
    assert Items(store, a, depth) + [] == Items(store, a, depth);
  }

  lemma EmptySequenceLaw(store: Store, tag: Option<string>, depth: nat)
    requires depth < 5
    ensures Copy(store, Sequence(tag, []), depth) == Some(Sequence(None, []))
  {
  }

  // ---------- mappings ----------

  /** The expanded pairs of a mapping. */
  function Expanded(store: Store, pairs: seq<Pair>, depth: nat): seq<Pair>
    requires depth < 5
  {
    Copy(store, Mapping(None, pairs), depth).value.pairs
  }

  lemma {:induction false} ContributionsConcat(store: Store, a: seq<Pair>, b: seq<Pair>, depth: nat)
    requires depth < 5
    ensures Contributions(store, a + b, depth) == Contributions(store, a, depth) + Contributions(store, b, depth)
    decreases a
  {
    if a == [] {
      assert a + b == b;
    } else {
      assert (a + b)[1..] == a[1..] + b;
      ContributionsConcat(store, a[1..], b, depth);
    }
  }

  lemma {:induction false} AssembleConcat(built: seq<Pair>, a: seq<Contribution>, b: seq<Contribution>)
    ensures Assemble(built, a + b) == Assemble(Assemble(built, a), b)
    decreases a
  {
    if a == [] {
      assert a + b == b;
    } else {
      assert (a + b)[1..] == a[1..] + b;
      AssembleConcat(Apply(built, a[0]), a[1..], b);
    }
  }

  /** What the last pair of a mapping does to the expansion of the pairs before it. */
  lemma LastPair(store: Store, before: seq<Pair>, p: Pair, depth: nat)
    requires depth < 5
    ensures Expanded(store, before + [p], depth)
         == Apply(Expanded(store, before, depth), Contribute(store, p, depth))
  {
    ContributionsConcat(store, before, [p], depth);
    var c := Contribute(store, p, depth);
    assert [p][1..] == [] && Contributions(store, [p], depth) == [c];
    AssembleConcat([], Contributions(store, before, depth), [c]);
    assert [c][1..] == [];
  }

  /** A pair whose key holds "include" anywhere, with a readable target, merges the target's mapping into what the
      pairs before it gave; a target that is no mapping adds nothing. */
  lemma IncludePairLaw(store: Store, before: seq<Pair>, a: string, b: string, tag: Option<string>, path: string,
                       depth: nat)
    requires depth < 5 && TargetRoot(store, path, depth).Some?
    ensures var root := TargetRoot(store, path, depth).value;
            Expanded(store, before + [Pair(a + "include" + b, Scalar(tag, path))], depth)
            == if root.Mapping? then Insert(Expanded(store, before, depth), root.pairs)
               else Expanded(store, before, depth)
  {
    var p := Pair(a + "include" + b, Scalar(tag, path));
    PairMarkerIs(p);
    IncludeIs(store, path, depth);
    LastPair(store, before, p, depth);
  }

  /** Any other pair, and one whose include fails, contributes its own copy unless the key is already there. */
  lemma OwnPairLaw(store: Store, before: seq<Pair>, p: Pair, depth: nat)
    requires depth < 5
    requires p.value.Scalar? && (exists a: string, b: string :: p.key == a + "include" + b) ==>
               TargetRoot(store, p.value.text, depth).None?
    ensures var done := Expanded(store, before, depth);
            Expanded(store, before + [p], depth)
            == match Copy(store, p.value, depth)
               case Some(v) => if exists q :: q in done && q.key == p.key then done else done + [Pair(p.key, v)]
               case None => done
  {
    var done := Expanded(store, before, depth);
    PairMarkerIs(p);
    if p.value.Scalar? {
      IncludeIs(store, p.value.text, depth);
    }
    LastPair(store, before, p, depth);
    assert p.key in Keys(done) <==> exists q :: q in done && q.key == p.key by {
      if exists q :: q in done && q.key == p.key {
        var q :| q in done && q.key == p.key;
        var i :| 0 <= i < |done| && done[i] == q;
        assert Keys(done)[i] == p.key;
      }
      if p.key in Keys(done) {
        var i :| 0 <= i < |done| && Keys(done)[i] == p.key;
        assert done[i] in done;
      }
    }
  }

  /** A mapping is copied without its tag. */
  lemma MappingLaw(store: Store, tag: Option<string>, pairs: seq<Pair>, depth: nat)
    requires depth < 5
    ensures Copy(store, Mapping(tag, pairs), depth) == Some(Mapping(None, Expanded(store, pairs, depth)))
    ensures Expanded(store, [], depth) == []
  {
  }

  /** Nothing is copied at the limit. */
  lemma LimitLaw(store: Store, n: Node, depth: nat)
    ensures Copy(store, n, depth).Some? ==> depth < 5
    ensures depth < 5 && !n.Scalar? ==> Copy(store, n, depth).Some?
  {
  }
}

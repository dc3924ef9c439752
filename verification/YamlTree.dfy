/** The parsed YAML trees the library works on, and the three libfyaml operations that build mappings.

    The behaviour of those operations is an assumption about libfyaml:
    - `fy_node_mapping_append` refuses a key that is already there and then changes nothing;
    - `fy_node_insert` on two mappings replaces, in place, the value of a key already there and appends
      the other pairs in order;
    - `fy_node_mapping_lookup_by_string` finds the first pair with the key. */
module YamlTree {
  import opened Wrappers

  datatype Node =
    | Scalar(tag: Option<string>, text: string)
    | Sequence(tag: Option<string>, items: seq<Node>)
    | Mapping(tag: Option<string>, pairs: seq<Pair>)

  datatype Pair = Pair(key: string, value: Node)

  function Lookup(pairs: seq<Pair>, key: string): Option<Node> {
    if pairs == [] then None
    else if pairs[0].key == key then Some(pairs[0].value)
    else Lookup(pairs[1..], key)
  }

  function Keys(pairs: seq<Pair>): seq<string> {
    seq(|pairs|, i requires 0 <= i < |pairs| => pairs[i].key)
  }

  predicate Distinct(keys: seq<string>) {
    forall i, j :: 0 <= i < j < |keys| ==> keys[i] != keys[j]
  }

  /** `fy_node_mapping_append`. */
  function Append(pairs: seq<Pair>, p: Pair): seq<Pair> {
    if p.key in Keys(pairs) then pairs else pairs + [p]
  }

  /** `fy_node_insert` for one pair. */
  function Put(pairs: seq<Pair>, p: Pair): seq<Pair> {
    if pairs == [] then [p]
    else if pairs[0].key == p.key then [p] + pairs[1..]
    else [pairs[0]] + Put(pairs[1..], p)
  }

  /** `fy_node_insert` for all the pairs of a mapping. */
  function Insert(pairs: seq<Pair>, more: seq<Pair>): seq<Pair>
    decreases more
  {
    if more == [] then pairs else Insert(Put(pairs, more[0]), more[1..])
  }

  /** A key takes the place after all earlier keys, unless it is one of them. */
  function AddKey(keys: seq<string>, key: string): seq<string> {
    if key in keys then keys else keys + [key]
  }

  function AddKeys(keys: seq<string>, more: seq<string>): seq<string>
    decreases more
  {
    if more == [] then keys else AddKeys(AddKey(keys, more[0]), more[1..])
  }

  lemma LookupSomeIffKey(pairs: seq<Pair>, key: string)
    ensures Lookup(pairs, key).Some? <==> key in Keys(pairs)
  {
    if pairs != [] {
      assert Keys(pairs) == [pairs[0].key] + Keys(pairs[1..]);
    }
  }

  lemma {:induction false} LookupConcat(a: seq<Pair>, b: seq<Pair>, key: string)
    ensures Lookup(a + b, key) == if Lookup(a, key).Some? then Lookup(a, key) else Lookup(b, key)
  {
    if a == [] {
      assert a + b == b;
    } else {
      assert (a + b)[1..] == a[1..] + b;
      LookupConcat(a[1..], b, key);
    }
  }

  /** A found value belongs to a pair of the mapping, and in a mapping with distinct keys every pair is found. */
  lemma {:induction false} LookupFindsPair(pairs: seq<Pair>, key: string)
    ensures Lookup(pairs, key).Some? ==> Pair(key, Lookup(pairs, key).value) in pairs
    ensures Distinct(Keys(pairs)) ==> forall v :: Pair(key, v) in pairs ==> Lookup(pairs, key) == Some(v)
  {
    if pairs != [] {
      LookupFindsPair(pairs[1..], key);
      assert Keys(pairs) == [pairs[0].key] + Keys(pairs[1..]);
      assert pairs == [pairs[0]] + pairs[1..];
      if Distinct(Keys(pairs)) {
        forall i, j | 0 <= i < j < |pairs[1..]| ensures Keys(pairs[1..])[i] != Keys(pairs[1..])[j] {
          assert Keys(pairs)[i + 1] != Keys(pairs)[j + 1];
        }
        forall v | Pair(key, v) in pairs ensures Lookup(pairs, key) == Some(v) {
          var i :| 0 <= i < |pairs| && pairs[i] == Pair(key, v);
          if i > 0 {
            assert Keys(pairs)[0] != Keys(pairs)[i];
            assert pairs[1..][i - 1] == Pair(key, v);
          }
        }
      }
    }
  }

  lemma {:induction false} PutKeys(pairs: seq<Pair>, p: Pair)
    ensures Keys(Put(pairs, p)) == AddKey(Keys(pairs), p.key)
  {
    if pairs != [] {
      PutKeys(pairs[1..], p);
      assert Keys(pairs) == [pairs[0].key] + Keys(pairs[1..]);
      assert Keys([p] + pairs[1..]) == [p.key] + Keys(pairs[1..]);
      assert Keys([pairs[0]] + Put(pairs[1..], p)) == [pairs[0].key] + Keys(Put(pairs[1..], p));
    }
  }

  lemma AppendKeys(pairs: seq<Pair>, p: Pair)
    ensures Keys(Append(pairs, p)) == AddKey(Keys(pairs), p.key)
  {
  }

  lemma {:induction false} InsertKeys(pairs: seq<Pair>, more: seq<Pair>)
    ensures Keys(Insert(pairs, more)) == AddKeys(Keys(pairs), Keys(more))
    decreases more
  {
    if more != [] {
      PutKeys(pairs, more[0]);
      InsertKeys(Put(pairs, more[0]), more[1..]);
      assert Keys(more)[1..] == Keys(more[1..]);
    }
  }

  lemma {:induction false} AddKeysDistinct(keys: seq<string>, more: seq<string>)
    requires Distinct(keys)
    ensures Distinct(AddKeys(keys, more))
    decreases more
  {
    if more != [] {
      AddKeysDistinct(AddKey(keys, more[0]), more[1..]);
    }
  }

  lemma {:induction false} PutLookup(pairs: seq<Pair>, p: Pair, key: string)
    ensures Lookup(Put(pairs, p), key) == if key == p.key then Some(p.value) else Lookup(pairs, key)
    ensures forall q :: q in Put(pairs, p) ==> q in pairs || q == p
  {
    if pairs != [] {
      PutLookup(pairs[1..], p, key);
    }
  }

  /** With distinct keys, the next pair brings a key not seen before. */
  lemma NextKeyIsNew(done: seq<Pair>, more: seq<Pair>)
    requires more != [] && Distinct(Keys(done + more))
    ensures more[0].key !in Keys(done)
  {
    forall i | 0 <= i < |done| ensures Keys(done)[i] != more[0].key {
      assert Keys(done + more)[i] != Keys(done + more)[|done|];
    }
  }

  lemma HeadKeyIsNew(pairs: seq<Pair>)
    requires pairs != [] && Distinct(Keys(pairs))
    ensures pairs[0].key !in Keys(pairs[1..])
  {
    forall i | 0 <= i < |pairs[1..]| ensures Keys(pairs[1..])[i] != pairs[0].key {
      assert Keys(pairs)[0] != Keys(pairs)[i + 1];
    }
  }

  /** Last definition wins: a key of the inserted mapping takes its value from there, every other key keeps its own. */
  lemma {:induction false} InsertLookup(pairs: seq<Pair>, more: seq<Pair>, key: string)
    requires Distinct(Keys(more))
    ensures Lookup(Insert(pairs, more), key)
         == if Lookup(more, key).Some? then Lookup(more, key) else Lookup(pairs, key)
    decreases more
  {
    if more != [] {
      assert Keys(more) == [more[0].key] + Keys(more[1..]);
      assert Distinct(Keys(more[1..])) by {
        forall i, j | 0 <= i < j < |more[1..]| ensures Keys(more[1..])[i] != Keys(more[1..])[j] {
          assert Keys(more)[i + 1] != Keys(more)[j + 1];
        }
      }
      InsertLookup(Put(pairs, more[0]), more[1..], key);
      PutLookup(pairs, more[0], key);
      LookupSomeIffKey(more[1..], key);
      HeadKeyIsNew(more);
    }
  }

  lemma {:induction false} InsertMembers(pairs: seq<Pair>, more: seq<Pair>)
    ensures forall q :: q in Insert(pairs, more) ==> q in pairs || q in more
    decreases more
  {
    if more != [] {
      PutLookup(pairs, more[0], "");
      InsertMembers(Put(pairs, more[0]), more[1..]);
    }
  }

  /** Inserting the pairs of a mapping with distinct keys one by one into the empty mapping rebuilds it. */
  lemma {:induction false} InsertIntoEmpty(done: seq<Pair>, more: seq<Pair>)
    requires Distinct(Keys(done + more))
    ensures Insert(done, more) == done + more
    decreases more
  {
    if more == [] {
      assert done + more == done;
    } else {
      NextKeyIsNew(done, more);
      PutNewKey(done, more[0]);
      assert done + [more[0]] + more[1..] == done + more;
      InsertIntoEmpty(done + [more[0]], more[1..]);
    }
  }

  lemma {:induction false} PutNewKey(pairs: seq<Pair>, p: Pair)
    requires p.key !in Keys(pairs)
    ensures Put(pairs, p) == pairs + [p]
  {
    if pairs != [] {
      assert Keys(pairs) == [pairs[0].key] + Keys(pairs[1..]);
      PutNewKey(pairs[1..], p);
    }
  }

  /** `merge_nodes`: only two mappings merge.  A scalar main node is left alone as well, because the
      source replaces only its local pointer. */
  function MergeNodes(main: Node, included: Node): Node {
    if main.Mapping? && included.Mapping? then Mapping(main.tag, Insert(main.pairs, included.pairs)) else main
  }
}

/** The key test of `ut_kvp_fieldPresent`: dots become slashes, and the path leads from the root to a node. */
module FieldPaths {
  import opened Wrappers
  import opened YamlTree
  import opened CNumbers

  const MAX_ELEMENT_SIZE: nat := 256

  // ---------- keys and paths ----------

  function DotToSlash(key: string): string {
    seq(|key|, i requires 0 <= i < |key| => if key[i] == '.' then '/' else key[i])
  }

  /** The key as looked up: dots become slashes; a key without dots is cut to the buffer by `snprintf`. */
  function ConvertedKey(key: string): (converted: string)
    ensures |key| < MAX_ELEMENT_SIZE ==> converted == DotToSlash(key)
  {
    if '.' in key then DotToSlash(key)
    else
      assert DotToSlash(key) == key by {
        assert forall i :: 0 <= i < |key| ==> key[i] in key;
      }
      if |key| < MAX_ELEMENT_SIZE then key else key[..MAX_ELEMENT_SIZE - 1]
  }

  /** `convert_dot_to_slash` writes the converted key and its NUL to the front of the output buffer.  The loop for
      dotted keys has no room for longer ones. */
  method ConvertDotToSlash(key: string, output: array<char>)
    requires output.Length == MAX_ELEMENT_SIZE && ('.' in key ==> |key| < MAX_ELEMENT_SIZE)
    modifies output
    ensures output[..] == ConvertedKey(key) + ['\0'] + old(output[..])[|ConvertedKey(key)| + 1..]
  {
    if '.' in key {
      var i := 0;
      while i <= MAX_ELEMENT_SIZE
        invariant i <= |key|
        invariant forall k :: 0 <= k < i ==> output[k] == DotToSlash(key)[k]
        invariant forall k :: i <= k < output.Length ==> output[k] == old(output[k])
      {
        if i == |key| {
          break;
        }
        if key[i] == '.' {
          output[i] := '/';
        } else {
          output[i] := key[i];
        }
        i := i + 1;
      }
      output[|key|] := '\0';
    } else {
      var n := if |key| < MAX_ELEMENT_SIZE then |key| else MAX_ELEMENT_SIZE - 1;
      forall i | 0 <= i < n {
        output[i] := key[i];
      }
      output[n] := '\0';
    }
  }

  /** The components of a path, without the empty ones. */
  function Components(path: string, current: string := ""): seq<string>
    decreases |path|
  {
    if path == "" then (if current == "" then [] else [current])
    else if path[0] == '/' then (if current == "" then [] else [current]) + Components(path[1..], "")
    else Components(path[1..], current + [path[0]])
  }

  /** `fy_node_by_path`, reduced to mapping keys and sequence indices. */
  function NodeAt(n: Node, components: seq<string>): Option<Node>
    decreases components
  {
    if components == [] then Some(n)
    else
      match n
      case Scalar(_, _) => None
      case Sequence(_, items) =>
        if IsNumeral(components[0], 10) && Value(components[0], 10) < |items|
        then NodeAt(items[Value(components[0], 10)], components[1..])
        else None
      case Mapping(_, pairs) =>
        match Lookup(pairs, components[0])
        case Some(v) => NodeAt(v, components[1..])
        case None => None
  }

  /** `ut_kvp_fieldPresent` on an open document. */
  predicate FieldPresent(root: Node, key: string) {
    NodeAt(root, Components(ConvertedKey(key))).Some?
  }

  // ---------- which fields are present ----------

  lemma {:induction false} ComponentsJoin(first: string, rest: string, current: string)
    requires '/' !in first && current + first != ""
    ensures Components(first, current) == [current + first]
    ensures Components(first + "/" + rest, current) == [current + first] + Components(rest)
    decreases first
  {
    var path := first + "/" + rest;
    if first == "" {
      assert path[1..] == rest && current + first == current;
    } else {
      assert first[0] in first && path[0] == first[0] && path[1..] == first[1..] + "/" + rest;
      assert current + [first[0]] + first[1..] == current + first;
      ComponentsJoin(first[1..], rest, current + [first[0]]);
    }
  }

  /** A key that is one component of a path. */
  predicate IsComponent(key: string) {
    key != "" && '.' !in key && '/' !in key
  }

  lemma KeyAlone(key: string)
    requires IsComponent(key) && |key| < 256
    ensures Components(ConvertedKey(key)) == [key]
  {
    ComponentsJoin(key, "", "");
    assert "" + key == key;
  }

  lemma KeyBefore(first: string, separator: char, rest: string)
    requires IsComponent(first) && separator in "./" && |first| + 1 + |rest| < 256
    ensures Components(ConvertedKey(first + [separator] + rest)) == [first] + Components(ConvertedKey(rest))
    ensures ([first] + Components(ConvertedKey(rest)))[1..] == Components(ConvertedKey(rest))
  {
    var key := first + [separator] + rest;
    forall i | 0 <= i < |first| ensures DotToSlash(key)[i] == first[i] {
      assert key[i] == first[i] && first[i] in first;
    }
    assert DotToSlash(key) == first + "/" + DotToSlash(rest);
    assert "" + first == first;
    ComponentsJoin(first, DotToSlash(rest), "");
  }

  /** A path of one component ends at the child it names. */
  lemma StepTo(root: Node, key: string, child: Node)
    requires (root.Mapping? && Lookup(root.pairs, key) == Some(child))
          || (root.Sequence? && IsNumeral(key, 10) && Value(key, 10) < |root.items|
              && child == root.items[Value(key, 10)])
    ensures NodeAt(root, [key]) == Some(child)
  {
    hide Value, IsNumeral;
    assert NodeAt(root, [key]) == NodeAt(child, [key][1..]);
    assert [key][1..] == [];
  }

  /** A plain key is present in a mapping iff it is one of its keys, in a sequence iff it spells an index in decimal
      that the sequence has, and never in a scalar. */
  lemma PlainKeyPresent(root: Node, key: string)
    requires IsComponent(key) && |key| < 256
    ensures FieldPresent(root, key) <==>
            || (root.Mapping? && Lookup(root.pairs, key).Some?)
            || (root.Sequence? && IsNumeral(key, 10) && Value(key, 10) < |root.items|)
  {
    KeyAlone(key);
    hide Components, ConvertedKey, Value, IsNumeral;
    if root.Mapping? && Lookup(root.pairs, key).Some? {
      StepTo(root, key, Lookup(root.pairs, key).value);
    } else if root.Sequence? && IsNumeral(key, 10) && Value(key, 10) < |root.items| {
      StepTo(root, key, root.items[Value(key, 10)]);
    }
  }

  /** A key with a separator, `.` or `/`, descends: `first.rest` is present in a mapping iff `first` is a key of it and
      `rest` is present in its value, and likewise in a sequence for an index. */
  lemma DottedKeyDescends(root: Node, first: string, separator: char, rest: string)
    requires IsComponent(first) && separator in "./" && |first| + 1 + |rest| < 256
    ensures FieldPresent(root, first + [separator] + rest) <==>
            || (root.Mapping? && Lookup(root.pairs, first).Some?
                && FieldPresent(Lookup(root.pairs, first).value, rest))
            || (root.Sequence? && IsNumeral(first, 10) && Value(first, 10) < |root.items|
                && FieldPresent(root.items[Value(first, 10)], rest))
  {
    KeyBefore(first, separator, rest);
    hide Components, ConvertedKey, Value, IsNumeral;
  }

  /** A separator in front of a key adds nothing, and what is left behind the last one is the node itself. */
  lemma SeparatorsCollapse(root: Node, separator: char, rest: string)
    requires separator in "./" && 1 + |rest| < 256
    ensures FieldPresent(root, [separator] + rest) <==> FieldPresent(root, rest)
    ensures FieldPresent(root, "")
  {
    var key := [separator] + rest;
    assert DotToSlash(key) == "/" + DotToSlash(rest);
    assert Components(DotToSlash(key)) == Components(DotToSlash(rest)) by {
      assert DotToSlash(key)[1..] == DotToSlash(rest);
      assert [] + Components(DotToSlash(rest)) == Components(DotToSlash(rest));
    }
  }

  /** A key without dots is cut to 255 characters. */
  lemma LongKeyIsCut(root: Node, key: string, more: string)
    requires |key| == 255 && '.' !in key && '.' !in more
    ensures FieldPresent(root, key + more) <==> FieldPresent(root, key)
  {
    assert (key + more)[..255] == key && (more == "" ==> key + more == key);
    assert forall i :: 0 <= i < |key| ==> key[i] in key;
    assert DotToSlash(key) == key;
  }
}

/** The expander as src/ut_kvp.c runs it: loops that grow a sequence or a mapping, mutual recursion, and the
    files it opens and closes.  Its results are those of `Includes`, its files those of `IncludeResources`. */
module IncludeExpander {
  import opened Wrappers
  import opened YamlTree
  import opened Includes
  import opened IncludeResources

  /** `find_pattern_from_buffer`: the offset of the first match. */
  method FindPattern(buffer: string, pattern: string) returns (at: Option<nat>)
    ensures at.Some? <==> Contains(buffer, pattern)
    ensures at.Some? ==> at.value + |pattern| <= |buffer| && buffer[at.value..][..|pattern|] == pattern
    ensures at.Some? ==> forall i :: 0 <= i < at.value ==> buffer[i..][..|pattern|] != pattern
  {
    if |buffer| == 0 || |pattern| == 0 || |buffer| < |pattern| {
      return None;
    }
    var i := 0;
    while i + |pattern| <= |buffer|
      invariant forall k :: 0 <= k < i && k + |pattern| <= |buffer| ==> buffer[k..][..|pattern|] != pattern
    {
      if buffer[i..][..|pattern|] == pattern {
        return Some(i);
      }
      i := i + 1;
    }
    return None;
  }

  lemma Concat<T>(a: seq<T>, b: seq<T>, c: seq<T>)
    ensures a + (b + c) == a + b + c
  {
  }

  /** What the item at i adds to the result and to the events. */
  lemma NextItem(store: Store, items: seq<Node>, i: nat, depth: nat)
    requires i < |items| && depth < MAX_INCLUDE_DEPTH
    ensures CopyItems(store, items[i..], depth)
         == OptionToSeq(CopyEntry(store, items[i], depth)) + CopyItems(store, items[i + 1..], depth)
    ensures TraceItems(store, items[i..], depth)
         == TraceEntry(store, items[i], depth) + TraceItems(store, items[i + 1..], depth)
  {
    assert items[i..][1..] == items[i + 1..];
  }

  class Expander {
    const store: Store
    var events: seq<Event>

    constructor (store: Store)
      ensures this.store == store && events == []
    {
      this.store := store;
      events := [];
    }

    method ProcessInclude(path: string, depth: nat) returns (root: Option<Node>)
      modifies this
      ensures root == Include(store, path, depth)
      ensures events == old(events) + TraceInclude(store, path, depth)
      decreases MAX_INCLUDE_DEPTH - depth, 0, 1
    {
      hide Copy, TraceCopy, TraceTarget;
      root := None;
      if depth >= MAX_INCLUDE_DEPTH {
        return;
      }
      ghost var inner := TraceTarget(store, path, depth);
      Concat(events, [Entered(path, depth)], inner);
      Concat(events, [Entered(path, depth)] + inner, [Left(path, depth)]);
      events := events + [Entered(path, depth)];
      root := ProcessTarget(path, depth);
      events := events + [Left(path, depth)];
    }

    /** The body of `process_include` after the depth test. */
    method ProcessTarget(path: string, depth: nat) returns (root: Option<Node>)
      requires depth < MAX_INCLUDE_DEPTH
      modifies this
      ensures root == Include(store, path, depth)
      ensures events == old(events) + TraceTarget(store, path, depth)
      decreases MAX_INCLUDE_DEPTH - depth, 0, 0
    {
      hide Copy, TraceCopy;
      root := None;
      if path !in store {
        return;
      }
      events := events + [Opened(KindOf(path), path, depth)];
      match store[path] {
        case Malformed =>
          if IsUrl(path) {
            return;
          }
        case Empty =>
        case Document(parsed) =>
          root := ProcessNodeCopy(parsed, depth + 1);
      }
      events := events + [Closed(KindOf(path), path, depth)];
    }

    method ProcessNodeCopy(src: Node, depth: nat) returns (copied: Option<Node>)
      modifies this
      ensures copied == Copy(store, src, depth)
      ensures events == old(events) + TraceCopy(store, src, depth)
      decreases MAX_INCLUDE_DEPTH - depth, 1, src, 0
    {
      if depth >= MAX_INCLUDE_DEPTH {
        return None;
      }
      if IsIncludeTagged(src) {
        var included := ProcessInclude(src.text, depth);
        if included.Some? {
          copied := ProcessNodeCopy(included.value, depth + 1);
        } else {
          copied := None;
        }
        return;
      }
      match src
      case Scalar(_, _) => copied := Some(src);
      case Sequence(_, items) =>
        var newSeq := ProcessItems(items, depth);
        copied := Some(Sequence(None, newSeq));
      case Mapping(_, pairs) =>
        var newMap := ProcessPairs(pairs, depth);
        copied := Some(Mapping(None, newMap));
    }

    /** The sequence branch of `process_node_copy`. */
    method ProcessItems(items: seq<Node>, depth: nat) returns (newSeq: seq<Node>)
      requires depth < MAX_INCLUDE_DEPTH
      modifies this
      ensures newSeq == CopyItems(store, items, depth)
      ensures events == old(events) + TraceItems(store, items, depth)
      decreases MAX_INCLUDE_DEPTH - depth, 1, items, 0
    {
      newSeq := [];
      var i := 0;
      while i < |items|
        invariant i <= |items|
        invariant newSeq + CopyItems(store, items[i..], depth) == CopyItems(store, items, depth)
        invariant events + TraceItems(store, items[i..], depth) == old(events) + TraceItems(store, items, depth)
      {
        NextItem(store, items, i, depth);
        Concat(events, TraceEntry(store, items[i], depth), TraceItems(store, items[i + 1..], depth));
        var copiedEntry := ProcessEntry(items[i], depth);
        Concat(newSeq, OptionToSeq(copiedEntry), CopyItems(store, items[i + 1..], depth));
        if copiedEntry.Some? {
          newSeq := newSeq + [copiedEntry.value];
        }
        i := i + 1;
      }
    }

    /** One round of that loop. */
    method ProcessEntry(entry: Node, depth: nat) returns (copiedEntry: Option<Node>)
      requires depth < MAX_INCLUDE_DEPTH
      modifies this
      ensures copiedEntry == CopyEntry(store, entry, depth)
      ensures events == old(events) + TraceEntry(store, entry, depth)
      decreases MAX_INCLUDE_DEPTH - depth, 1, entry, 1
    {
      hide Copy, Include, TraceCopy, TraceInclude;
      copiedEntry := None;
      var path := EntryMarker(entry);
      if path.Some? {
        var included := ProcessInclude(path.value, depth);
        if included.Some? {
          copiedEntry := ProcessNodeCopy(included.value, depth + 1);
        }
      }
      if copiedEntry.None? {
        copiedEntry := ProcessNodeCopy(entry, depth);
      }
    }

    /** The mapping branch of `process_node_copy`. */
    method ProcessPairs(pairs: seq<Pair>, depth: nat) returns (newMap: seq<Pair>)
      requires depth < MAX_INCLUDE_DEPTH
      modifies this
      ensures newMap == Assemble([], Contributions(store, pairs, depth))
      ensures events == old(events) + TracePairs(store, pairs, depth)
      decreases MAX_INCLUDE_DEPTH - depth, 1, pairs, 0
    {
      newMap := [];
      var i := 0;
      while i < |pairs|
        invariant i <= |pairs|
        invariant Assemble(newMap, Contributions(store, pairs[i..], depth))
               == Assemble([], Contributions(store, pairs, depth))
        invariant events + TracePairs(store, pairs[i..], depth) == old(events) + TracePairs(store, pairs, depth)
      {
        ghost var eventsBefore := events;
        assert pairs[i..][1..] == pairs[i + 1..];
        newMap := ProcessPair(newMap, pairs[i], depth);
        Concat(eventsBefore, TracePair(store, pairs[i], depth), TracePairs(store, pairs[i + 1..], depth));
        i := i + 1;
      }
    }

    /** One round of that loop. */
    method ProcessPair(built: seq<Pair>, p: Pair, depth: nat) returns (newMap: seq<Pair>)
      requires depth < MAX_INCLUDE_DEPTH
      modifies this
      ensures newMap == Apply(built, Contribute(store, p, depth))
      ensures events == old(events) + TracePair(store, p, depth)
      decreases MAX_INCLUDE_DEPTH - depth, 1, p, 0
    {
      newMap := built;
      var at := FindPattern(p.key, "include");
      if p.value.Scalar? && at.Some? {
        var included := ProcessInclude(p.value.text, depth);
        if included.Some? {
          newMap := MergeNodes(Mapping(None, newMap), included.value).pairs;
          return;
        }
      }
      var copiedVal := ProcessNodeCopy(p.value, depth);
      if copiedVal.Some? {
        newMap := Append(newMap, Pair(p.key, copiedVal.value));
      }
    }
  }
}

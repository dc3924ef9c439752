/** The include expander of src/ut_kvp.c as a function of the file store, the tree and the depth. */
module Includes {
  import opened Wrappers
  import opened YamlTree

  const MAX_INCLUDE_DEPTH: nat := 5

  /** What an include target holds.  A path outside the store cannot be opened (or downloaded).  `Malformed` means
      that no document can be built from it, `Empty` that its document has no root. */
  datatype FileContent = Malformed | Empty | Document(root: Node)

  type Store = map<string, FileContent>

  /** The parsed root of a target, when there is one. */
  function Root(store: Store, path: string): Option<Node> {
    if path in store && store[path].Document? then Some(store[path].root) else None
  }

  /** `find_pattern_from_buffer` finds a match. */
  predicate Contains(buffer: string, pattern: string) {
    pattern != "" && exists i :: 0 <= i <= |buffer| - |pattern| && buffer[i..][..|pattern|] == pattern
  }

  /** The tag test `strncmp(tag, "!include", tag_len) == 0`; `TagTestAcceptsPrefixes` shows that it holds of the
      prefixes of `!include`, the empty tag and `!` among them, and of nothing else. */
  predicate IsIncludeTagged(n: Node) {
    n.Scalar? && n.tag.Some? && n.tag.value <= "!include"
  }

  /** The path named by a pair such as `include_0: path`. */
  function PairMarker(p: Pair): Option<string> {
    if p.value.Scalar? && Contains(p.key, "include") then Some(p.value.text) else None
  }

  /** The path named by a sequence entry `{include: path}`. */
  function EntryMarker(item: Node): Option<string> {
    if item.Mapping? then
      match Lookup(item.pairs, "include")
      case Some(v) => if v.Scalar? then Some(v.text) else None
      case None => None
    else
      None
  }

  /** What one source pair does to the mapping under construction. */
  datatype Contribution = Nothing | Own(pair: Pair) | Included(root: Node)

  function Apply(built: seq<Pair>, c: Contribution): seq<Pair> {
    match c
    case Nothing => built
    case Own(p) => Append(built, p)
    case Included(root) => MergeNodes(Mapping(None, built), root).pairs
  }

  function Assemble(built: seq<Pair>, cs: seq<Contribution>): seq<Pair>
    decreases cs
  {
    if cs == [] then built else Assemble(Apply(built, cs[0]), cs[1..])
  }

  /** `process_node_copy`.  Tagged scalars and sequence entries are expanded a second time, one level
      deeper, after `process_include` has already expanded them. */
  function Copy(store: Store, n: Node, depth: nat): Option<Node>
    decreases MAX_INCLUDE_DEPTH - depth, 1, n, 0
  {
    if depth >= MAX_INCLUDE_DEPTH then None
    else if IsIncludeTagged(n) then
      match Include(store, n.text, depth)
      case Some(included) => Copy(store, included, depth + 1)
      case None => None
    else
      match n
      case Scalar(_, _) => Some(n)
      case Sequence(_, items) => Some(Sequence(None, CopyItems(store, items, depth)))
      case Mapping(_, pairs) => Some(Mapping(None, Assemble([], Contributions(store, pairs, depth))))
  }

  /** `process_include`. */
  function Include(store: Store, path: string, depth: nat): Option<Node>
    decreases MAX_INCLUDE_DEPTH - depth, 0
  {
    if depth >= MAX_INCLUDE_DEPTH then None
    else
      match Root(store, path)
      case Some(root) => Copy(store, root, depth + 1)
      case None => None
  }

  /** One entry of a sequence: the expanded include when there is one, otherwise a copy of the entry. */
  function CopyEntry(store: Store, item: Node, depth: nat): Option<Node>
    requires depth < MAX_INCLUDE_DEPTH
    decreases MAX_INCLUDE_DEPTH - depth, 1, item, 1
  {
    var included := match EntryMarker(item)
                    case Some(path) => Include(store, path, depth)
                    case None => None;
    var copied := match included
                  case Some(root) => Copy(store, root, depth + 1)
                  case None => None;
    if copied.Some? then copied else Copy(store, item, depth)
  }

  function CopyItems(store: Store, items: seq<Node>, depth: nat): seq<Node>
    requires depth < MAX_INCLUDE_DEPTH
    decreases MAX_INCLUDE_DEPTH - depth, 1, items, 0
  {
    if items == [] then [] else OptionToSeq(CopyEntry(store, items[0], depth)) + CopyItems(store, items[1..], depth)
  }

  function OptionToSeq(o: Option<Node>): seq<Node> {
    match o
    case Some(n) => [n]
    case None => []
  }

  function OwnPair(key: string, value: Option<Node>): Contribution {
    match value
    case Some(v) => Own(Pair(key, v))
    case None => Nothing
  }

  /** One pair of a mapping: a successful include is merged, anything else is an ordinary pair. */
  function Contribute(store: Store, p: Pair, depth: nat): Contribution
    requires depth < MAX_INCLUDE_DEPTH
    decreases MAX_INCLUDE_DEPTH - depth, 1, p, 0
  {
    var included := match PairMarker(p)
                    case Some(path) => Include(store, path, depth)
                    case None => None;
    match included
    case Some(root) => Included(root)
    case None => OwnPair(p.key, Copy(store, p.value, depth))
  }

  function Contributions(store: Store, pairs: seq<Pair>, depth: nat): (cs: seq<Contribution>)
    requires depth < MAX_INCLUDE_DEPTH
    ensures |cs| == |pairs|
    decreases MAX_INCLUDE_DEPTH - depth, 1, pairs, 0
  {
    if pairs == [] then [] else [Contribute(store, pairs[0], depth)] + Contributions(store, pairs[1..], depth)
  }

  // ---------- the tag test ----------

  /** The character of a C string at the start of `s`. */
  function FirstChar(s: string): char {
    if s == "" then '\0' else s[0]
  }

  /** `strncmp(a, b, n) == 0` (section 7.24.4.4 of ISO C11) for two C strings. */
  predicate StrncmpEqual(a: string, b: string, n: nat) {
    n == 0
    || (FirstChar(a) == FirstChar(b) && (FirstChar(a) == '\0' || StrncmpEqual(a[1..], b[1..], n - 1)))
  }

  lemma {:induction false} StrncmpIsPrefix(a: string, b: string)
    requires '\0' !in a && '\0' !in b
    ensures StrncmpEqual(a, b, |a|) <==> a <= b
  {
    if a != "" {
      assert a[0] in a && (b != "" ==> b[0] in b);
      if b != "" && a[0] == b[0] {
        StrncmpIsPrefix(a[1..], b[1..]);
        assert a == [a[0]] + a[1..] && b == [b[0]] + b[1..];
        assert a <= b <==> a[1..] <= b[1..] by {
          if a[1..] <= b[1..] {
            assert a <= b;
          }
        }
      }
    }
  }

  lemma TagTestAcceptsPrefixes(n: Node)
    requires n.Scalar? && n.tag.Some? && '\0' !in n.tag.value
    ensures IsIncludeTagged(n) <==> StrncmpEqual(n.tag.value, "!include", |n.tag.value|)
  {
    StrncmpIsPrefix(n.tag.value, "!include");
  }
}

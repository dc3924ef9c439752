/** The files an expansion opens and closes, as a sequence of events, and what holds of every such sequence. */
module IncludeResources {
  import opened Wrappers
  import opened YamlTree
  import opened Includes

  /** A local include holds its file open; a download holds its content in a temporary file. */
  datatype Kind = Local | Download

  /** `Entered` and `Left` bracket an activation of `process_include`. */
  datatype Event =
    | Entered(path: string, depth: nat)
    | Left(path: string, depth: nat)
    | Opened(kind: Kind, path: string, depth: nat)
    | Closed(kind: Kind, path: string, depth: nat)

  predicate IsUrl(path: string) {
    "http:" <= path || "https:" <= path
  }

  function KindOf(path: string): Kind {
    if IsUrl(path) then Download else Local
  }

  /** What an activation of `process_include` does inside.  A path outside the store is neither opened nor
      downloaded.  A download that does not parse leaves its temporary file open (src/ut_kvp.c:1179-1185); a local
      file that does not parse is closed. */
  function TraceTarget(store: Store, path: string, depth: nat): seq<Event>
    decreases MAX_INCLUDE_DEPTH - depth, 0, 0
  {
    if depth >= MAX_INCLUDE_DEPTH || path !in store then []
    else
      var start := [Opened(KindOf(path), path, depth)];
      var finish := [Closed(KindOf(path), path, depth)];
      match store[path]
      case Malformed => if IsUrl(path) then start else start + finish
      case Empty => start + finish
      case Document(root) => start + TraceCopy(store, root, depth + 1) + finish
  }

  function TraceInclude(store: Store, path: string, depth: nat): seq<Event>
    decreases MAX_INCLUDE_DEPTH - depth, 0, 1
  {
    if depth >= MAX_INCLUDE_DEPTH then []
    else [Entered(path, depth)] + TraceTarget(store, path, depth) + [Left(path, depth)]
  }

  function TraceCopy(store: Store, n: Node, depth: nat): seq<Event>
    decreases MAX_INCLUDE_DEPTH - depth, 1, n, 0
  {
    if depth >= MAX_INCLUDE_DEPTH then []
    else if IsIncludeTagged(n) then TraceInclude(store, n.text, depth) + TraceAgain(store, n.text, depth)
    else
      match n
      case Scalar(_, _) => []
      case Sequence(_, items) => TraceItems(store, items, depth)
      case Mapping(_, pairs) => TracePairs(store, pairs, depth)
  }

  /** The second pass over an expanded target. */
  function TraceAgain(store: Store, path: string, depth: nat): seq<Event>
    decreases MAX_INCLUDE_DEPTH - depth, 0, 1
  {
    if depth >= MAX_INCLUDE_DEPTH then []
    else
      match Include(store, path, depth)
      case Some(included) => TraceCopy(store, included, depth + 1)
      case None => []
  }

  function TraceEntry(store: Store, item: Node, depth: nat): seq<Event>
    requires depth < MAX_INCLUDE_DEPTH
    decreases MAX_INCLUDE_DEPTH - depth, 1, item, 1
  {
    match EntryMarker(item)
    case None => TraceCopy(store, item, depth)
    case Some(path) =>
      var included := Include(store, path, depth);
      var tried := TraceInclude(store, path, depth) + TraceAgain(store, path, depth);
      if included.Some? && Copy(store, included.value, depth + 1).Some? then tried
      else tried + TraceCopy(store, item, depth)
  }

  function TraceItems(store: Store, items: seq<Node>, depth: nat): seq<Event>
    requires depth < MAX_INCLUDE_DEPTH
    decreases MAX_INCLUDE_DEPTH - depth, 1, items, 0
  {
    if items == [] then [] else TraceEntry(store, items[0], depth) + TraceItems(store, items[1..], depth)
  }

  function TracePair(store: Store, p: Pair, depth: nat): seq<Event>
    requires depth < MAX_INCLUDE_DEPTH
    decreases MAX_INCLUDE_DEPTH - depth, 1, p, 0
  {
    match PairMarker(p)
    case None => TraceCopy(store, p.value, depth)
    case Some(path) =>
      if Include(store, path, depth).Some? then TraceInclude(store, path, depth)
      else TraceInclude(store, path, depth) + TraceCopy(store, p.value, depth)
  }

  function TracePairs(store: Store, pairs: seq<Pair>, depth: nat): seq<Event>
    requires depth < MAX_INCLUDE_DEPTH
    decreases MAX_INCLUDE_DEPTH - depth, 1, pairs, 0
  {
    if pairs == [] then [] else TracePair(store, pairs[0], depth) + TracePairs(store, pairs[1..], depth)
  }

  // ---------- nested activations and the files they hold ----------

  /** What became of the file of an activation of `process_include`. */
  datatype FileState = Untouched | Holding(kind: Kind) | Released

  datatype Activation = Activation(path: string, depth: nat, file: FileState)

  /** The activations that have not returned, innermost last, and the number of temporary files nobody will close. */
  datatype Moment = Moment(active: seq<Activation>, lost: nat)

  predicate AllBelow(active: seq<Activation>, depth: nat) {
    forall a :: a in active ==> a.depth < depth
  }

  /** A download that does not parse. */
  predicate IsLost(store: Store, path: string) {
    ("http:" <= path || "https:" <= path) && path in store && store[path].Malformed?
  }

  /** Follow one event.  None when it breaks a rule: an activation begins at a depth above every active one and below
      the limit; only the innermost activation acts; it opens the file at its path once, if there is one, as a
      download when the path begins with `http:` or `https:`; it closes what it holds; and it returns only when it
      has closed its file, or had none, or lost a download that does not parse. */
  function FollowOne(store: Store, now: Moment, e: Event): Option<Moment> {
    var n := |now.active|;
    match e
    case Entered(path, depth) =>
      if AllBelow(now.active, depth) && depth < 5
      then Some(now.(active := now.active + [Activation(path, depth, Untouched)])) else None
    case Opened(kind, path, depth) =>
      if n > 0 && now.active[n - 1] == Activation(path, depth, Untouched) && path in store
         && (kind.Download? <==> "http:" <= path || "https:" <= path)
      then Some(WithFile(now, Holding(kind))) else None
    case Closed(kind, path, depth) =>
      if n > 0 && now.active[n - 1] == Activation(path, depth, Holding(kind)) && !IsLost(store, path)
      then Some(WithFile(now, Released)) else None
    case Left(path, depth) =>
      if n == 0 || now.active[n - 1].path != path || now.active[n - 1].depth != depth then None
      else
        match now.active[n - 1].file
        case Untouched => if path !in store then Some(now.(active := now.active[..n - 1])) else None
        case Released => Some(now.(active := now.active[..n - 1]))
        case Holding(kind) =>
          if kind.Download? && IsLost(store, path) then Some(Moment(now.active[..n - 1], now.lost + 1)) else None
  }

  /** The innermost activation, with a new state of its file. */
  function WithFile(now: Moment, file: FileState): Moment
    requires |now.active| > 0
  {
    var n := |now.active|;
    now.(active := now.active[..n - 1] + [now.active[n - 1].(file := file)])
  }

  function Follow(store: Store, now: Moment, events: seq<Event>): Option<Moment>
    decreases events
  {
    if events == [] then Some(now)
    else
      match FollowOne(store, now, events[0])
      case Some(next) => Follow(store, next, events[1..])
      case None => None
  }

  /** The events are possible now, and afterwards the same activations hold the same files. */
  ghost predicate Balanced(store: Store, now: Moment, events: seq<Event>) {
    Follow(store, now, events).Some? && Follow(store, now, events).value.active == now.active
  }

  lemma {:induction false} FollowConcat(store: Store, now: Moment, a: seq<Event>, b: seq<Event>)
    ensures Follow(store, now, a + b)
         == if Follow(store, now, a).Some? then Follow(store, Follow(store, now, a).value, b) else None
    decreases a
  {
    if a == [] {
      assert a + b == b;
    } else {
      assert (a + b)[1..] == a[1..] + b;
      match FollowOne(store, now, a[0])
      case Some(next) => FollowConcat(store, next, a[1..], b);
      case None =>
    }
  }

  lemma FollowSingle(store: Store, now: Moment, e: Event)
    ensures Follow(store, now, [e]) == FollowOne(store, now, e)
  {
    assert [e][1..] == [];
    match FollowOne(store, now, e)
    case Some(next) => assert Follow(store, next, []) == Some(next);
    case None =>
  }

  lemma BalancedConcat(store: Store, now: Moment, a: seq<Event>, b: seq<Event>)
    requires Balanced(store, now, a) && Balanced(store, Follow(store, now, a).value, b)
    ensures Balanced(store, now, a + b)
  {
    FollowConcat(store, now, a, b);
  }

  /** Opening a file, doing something balanced, and closing the file, inside the innermost activation. */
  lemma OpenInnerClose(store: Store, now: Moment, path: string, depth: nat, inner: seq<Event>)
    requires |now.active| > 0 && now.active[|now.active| - 1] == Activation(path, depth, Untouched)
    requires path in store && !IsLost(store, path) && Balanced(store, WithFile(now, Holding(KindOf(path))), inner)
    ensures var last := Follow(store, now, [Opened(KindOf(path), path, depth)] + inner
                                           + [Closed(KindOf(path), path, depth)]);
            last.Some? && last.value.active == WithFile(now, Released).active
  {
    var kind := KindOf(path);
    var start, finish := Opened(kind, path, depth), Closed(kind, path, depth);
    FollowSingle(store, now, start);
    FollowConcat(store, now, [start], inner);
    var within := Follow(store, WithFile(now, Holding(kind)), inner).value;
    FollowConcat(store, now, [start] + inner, [finish]);
    FollowSingle(store, within, finish);
    assert within.active[..|now.active| - 1] == now.active[..|now.active| - 1];
  }

  lemma {:induction false} IncludeBalanced(store: Store, path: string, depth: nat, now: Moment)
    requires AllBelow(now.active, depth)
    ensures Balanced(store, now, TraceInclude(store, path, depth))
    decreases MAX_INCLUDE_DEPTH - depth, 0, 0
  {
    if depth < MAX_INCLUDE_DEPTH {
      var enter, leave := Entered(path, depth), Left(path, depth);
      var inside := now.(active := now.active + [Activation(path, depth, Untouched)]);
      var inner := TraceTarget(store, path, depth);
      TargetFollowed(store, path, depth, inside);
      FollowSingle(store, now, enter);
      FollowConcat(store, now, [enter], inner);
      FollowConcat(store, now, [enter] + inner, [leave]);
      var last := Follow(store, inside, inner).value;
      FollowSingle(store, last, leave);
      assert last.active[..|last.active| - 1] == now.active;
    }
  }

  /** What becomes of the file of an activation in the end. */
  function FileAtEnd(store: Store, path: string): FileState {
    if path !in store then Untouched else if IsLost(store, path) then Holding(Download) else Released
  }

  /** Inside its activation an include opens, expands and closes its file, or leaves a malformed download open. */
  lemma {:induction false} TargetFollowed(store: Store, path: string, depth: nat, inside: Moment)
    requires depth < MAX_INCLUDE_DEPTH && |inside.active| > 0
    requires inside.active[|inside.active| - 1] == Activation(path, depth, Untouched)
    requires AllBelow(inside.active, depth + 1)
    ensures var last := Follow(store, inside, TraceTarget(store, path, depth));
            last.Some? && last.value.active == WithFile(inside, FileAtEnd(store, path)).active
    decreases MAX_INCLUDE_DEPTH - depth - 1, 2
  {
    var open := WithFile(inside, Holding(KindOf(path)));
    var start, finish := [Opened(KindOf(path), path, depth)], [Closed(KindOf(path), path, depth)];
    if path in store {
      if store[path].Document? {
        assert AllBelow(open.active, depth + 1);
        CopyBalanced(store, store[path].root, depth + 1, open);
        OpenInnerClose(store, inside, path, depth, TraceCopy(store, store[path].root, depth + 1));
      } else if IsLost(store, path) {
        FollowSingle(store, inside, Opened(Download, path, depth));
      } else {
        assert Balanced(store, open, []);
        OpenInnerClose(store, inside, path, depth, []);
        assert start + [] + finish == start + finish;
      }
    }
  }

  lemma {:induction false} CopyBalanced(store: Store, n: Node, depth: nat, now: Moment)
    requires AllBelow(now.active, depth)
    ensures Balanced(store, now, TraceCopy(store, n, depth))
    decreases MAX_INCLUDE_DEPTH - depth, 1, n, 0
  {
    if depth < MAX_INCLUDE_DEPTH {
      if IsIncludeTagged(n) {
        TwoPassesBalanced(store, n.text, depth, now);
      } else {
        match n
        case Scalar(_, _) =>
        case Sequence(_, items) => ItemsBalanced(store, items, depth, now);
        case Mapping(_, pairs) => PairsBalanced(store, pairs, depth, now);
      }
    }
  }

  lemma {:induction false} TwoPassesBalanced(store: Store, path: string, depth: nat, now: Moment)
    requires AllBelow(now.active, depth)
    ensures Balanced(store, now, TraceInclude(store, path, depth) + TraceAgain(store, path, depth))
    decreases MAX_INCLUDE_DEPTH - depth, 0, 1
  {
    IncludeBalanced(store, path, depth, now);
    var next := Follow(store, now, TraceInclude(store, path, depth)).value;
    if depth < MAX_INCLUDE_DEPTH && Include(store, path, depth).Some? {
      CopyBalanced(store, Include(store, path, depth).value, depth + 1, next);
    }
    BalancedConcat(store, now, TraceInclude(store, path, depth), TraceAgain(store, path, depth));
  }

  lemma {:induction false} ItemsBalanced(store: Store, items: seq<Node>, depth: nat, now: Moment)
    requires depth < MAX_INCLUDE_DEPTH && AllBelow(now.active, depth)
    ensures Balanced(store, now, TraceItems(store, items, depth))
    decreases MAX_INCLUDE_DEPTH - depth, 1, items, 0
  {
    if items != [] {
      EntryBalanced(store, items[0], depth, now);
      var next := Follow(store, now, TraceEntry(store, items[0], depth)).value;
      ItemsBalanced(store, items[1..], depth, next);
      BalancedConcat(store, now, TraceEntry(store, items[0], depth), TraceItems(store, items[1..], depth));
    }
  }

  lemma {:induction false} EntryBalanced(store: Store, item: Node, depth: nat, now: Moment)
    requires depth < MAX_INCLUDE_DEPTH && AllBelow(now.active, depth)
    ensures Balanced(store, now, TraceEntry(store, item, depth))
    decreases MAX_INCLUDE_DEPTH - depth, 1, item, 1
  {
    match EntryMarker(item)
    case None => CopyBalanced(store, item, depth, now);
    case Some(path) =>
      TwoPassesBalanced(store, path, depth, now);
      var tried := TraceInclude(store, path, depth) + TraceAgain(store, path, depth);
      CopyBalanced(store, item, depth, Follow(store, now, tried).value);
      BalancedConcat(store, now, tried, TraceCopy(store, item, depth));
  }

  lemma {:induction false} PairsBalanced(store: Store, pairs: seq<Pair>, depth: nat, now: Moment)
    requires depth < MAX_INCLUDE_DEPTH && AllBelow(now.active, depth)
    ensures Balanced(store, now, TracePairs(store, pairs, depth))
    decreases MAX_INCLUDE_DEPTH - depth, 1, pairs, 0
  {
    if pairs != [] {
      PairBalanced(store, pairs[0], depth, now);
      var next := Follow(store, now, TracePair(store, pairs[0], depth)).value;
      PairsBalanced(store, pairs[1..], depth, next);
      BalancedConcat(store, now, TracePair(store, pairs[0], depth), TracePairs(store, pairs[1..], depth));
    }
  }

  lemma {:induction false} PairBalanced(store: Store, p: Pair, depth: nat, now: Moment)
    requires depth < MAX_INCLUDE_DEPTH && AllBelow(now.active, depth)
    ensures Balanced(store, now, TracePair(store, p, depth))
    decreases MAX_INCLUDE_DEPTH - depth, 1, p, 0
  {
    match PairMarker(p)
    case None => CopyBalanced(store, p.value, depth, now);
    case Some(path) =>
      IncludeBalanced(store, path, depth, now);
      CopyBalanced(store, p.value, depth, Follow(store, now, TraceInclude(store, path, depth)).value);
      BalancedConcat(store, now, TraceInclude(store, path, depth), TraceCopy(store, p.value, depth));
  }

  predicate Nested(active: seq<Activation>) {
    AllBelow(active, MAX_INCLUDE_DEPTH)
    && forall i, j :: 0 <= i < j < |active| ==> active[i].depth < active[j].depth
  }

  lemma {:induction false} FollowNested(store: Store, now: Moment, events: seq<Event>)
    requires Nested(now.active)
    ensures Follow(store, now, events).Some? ==> Nested(Follow(store, now, events).value.active)
    decreases events
  {
    if events != [] && FollowOne(store, now, events[0]).Some? {
      FollowNested(store, FollowOne(store, now, events[0]).value, events[1..]);
    }
  }

  lemma {:induction false} NestedIsShort(active: seq<Activation>, k: nat)
    requires Nested(active) && k < |active|
    ensures k <= active[k].depth
  {
    if k > 0 {
      NestedIsShort(active, k - 1);
    }
  }

  /** The files of one kind that active includes hold open. */
  function Held(active: seq<Activation>, kind: Kind): nat {
    if active == [] then 0
    else Held(active[..|active| - 1], kind) + (if active[|active| - 1].file == Holding(kind) then 1 else 0)
  }

  lemma {:induction false} HeldTogether(active: seq<Activation>)
    ensures Held(active, Local) + Held(active, Download) <= |active|
    decreases |active|
  {
    if active != [] {
      HeldTogether(active[..|active| - 1]);
    }
  }

  /** Files of a kind opened but not closed by the events. */
  function LeftOpen(events: seq<Event>, kind: Kind): int {
    if events == [] then 0
    else LeftOpen(events[1..], kind) +
         (if events[0].Opened? && events[0].kind == kind then 1
          else if events[0].Closed? && events[0].kind == kind then -1
          else 0)
  }

  function Lost(now: Moment, kind: Kind): nat {
    if kind == Download then now.lost else 0
  }

  lemma HeldLast(active: seq<Activation>, a: Activation, kind: Kind)
    ensures Held(active + [a], kind) == Held(active, kind) + (if a.file == Holding(kind) then 1 else 0)
  {
    assert (active + [a])[..|active|] == active;
  }

  lemma LeftOpenOne(e: Event, kind: Kind)
    ensures LeftOpen([e], kind)
         == (if e.Opened? && e.kind == kind then 1 else if e.Closed? && e.kind == kind then -1 else 0)
  {
    assert [e][1..] == [];
  }

  lemma HeldOne(store: Store, now: Moment, e: Event, kind: Kind)
    requires FollowOne(store, now, e).Some?
    ensures var next := FollowOne(store, now, e).value;
            Held(next.active, kind) + Lost(next, kind) == Held(now.active, kind) + Lost(now, kind) + LeftOpen([e], kind)
  {
    LeftOpenOne(e, kind);
    hide LeftOpen, Held, AllBelow;
    if e.Entered? {
      HeldLast(now.active, Activation(e.path, e.depth, Untouched), kind);
    } else {
      var n := |now.active|;
      var outer, a := now.active[..n - 1], now.active[n - 1];
      assert now.active == outer + [a];
      HeldLast(outer, a, kind);
      if !e.Left? {
        HeldLast(outer, a.(file := if e.Opened? then Holding(e.kind) else Released), kind);
      }
    }
  }

  /** Every file opened and not yet closed is held by an active include, or is a lost temporary file. */
  lemma {:induction false} FilesAreHeld(store: Store, now: Moment, events: seq<Event>, kind: Kind)
    requires Follow(store, now, events).Some?
    ensures var last := Follow(store, now, events).value;
            Held(last.active, kind) + Lost(last, kind)
            == Held(now.active, kind) + Lost(now, kind) + LeftOpen(events, kind)
    decreases events
  {
    if events != [] {
      HeldOne(store, now, events[0], kind);
      FilesAreHeld(store, FollowOne(store, now, events[0]).value, events[1..], kind);
      LeftOpenOne(events[0], kind);
    }
  }

  const START: Moment := Moment([], 0)

  /** At every moment of every expansion the active includes, local files and downloads alike, stand at strictly
      increasing depths below the limit, so there are at most five; the local files and the temporary files they hold
      open are at most five together; and at the end no include is active and no local file is open. */
  lemma OpenFilesBounded(store: Store, n: Node, moment: nat)
    requires moment <= |TraceCopy(store, n, 0)|
    ensures var past := TraceCopy(store, n, 0)[..moment];
            var now := Follow(store, START, past);
            now.Some? && Nested(now.value.active) && |now.value.active| <= MAX_INCLUDE_DEPTH
            && LeftOpen(past, Local) + LeftOpen(past, Download) - now.value.lost <= MAX_INCLUDE_DEPTH
    ensures Balanced(store, START, TraceCopy(store, n, 0)) && LeftOpen(TraceCopy(store, n, 0), Local) == 0
  {
    var events := TraceCopy(store, n, 0);
    var past := events[..moment];
    CopyBalanced(store, n, 0, START);
    assert events == past + events[moment..];
    FollowConcat(store, START, past, events[moment..]);
    FollowNested(store, START, past);
    var now := Follow(store, START, past).value;
    if now.active != [] {
      NestedIsShort(now.active, |now.active| - 1);
      assert now.active[|now.active| - 1] in now.active;
    }
    FilesAreHeld(store, START, past, Local);
    FilesAreHeld(store, START, past, Download);
    HeldTogether(now.active);
    FilesAreHeld(store, START, events, Local);
  }

  // ---------- temporary files ----------

  ghost predicate DownloadsParse(store: Store) {
    forall path :: path in store && ("http:" <= path || "https:" <= path) ==> !store[path].Malformed?
  }

  lemma {:induction false} NothingLost(store: Store, now: Moment, events: seq<Event>)
    requires DownloadsParse(store) && Follow(store, now, events).Some?
    ensures Follow(store, now, events).value.lost == now.lost
    decreases events
  {
    if events != [] {
      NothingLost(store, FollowOne(store, now, events[0]).value, events[1..]);
    }
  }

  /** A download that does not parse costs a temporary file. */
  lemma MalformedDownloadLosesFile(store: Store, path: string)
    requires IsLost(store, path)
    ensures LeftOpen(TraceCopy(store, Scalar(Some("!include"), path), 0), Download) == 1
  {
    var n := Scalar(Some("!include"), path);
    assert Include(store, path, 0).None?;
    var events := TraceCopy(store, n, 0);
    assert TraceTarget(store, path, 0) == [Opened(Download, path, 0)] && TraceAgain(store, path, 0) == [];
    assert TraceInclude(store, path, 0) == [Entered(path, 0), Opened(Download, path, 0), Left(path, 0)];
    assert events == [Entered(path, 0), Opened(Download, path, 0), Left(path, 0)];
    assert events[1..] == [Opened(Download, path, 0), Left(path, 0)];
    assert events[1..][1..] == [Left(path, 0)] && events[1..][1..][1..] == [];
    assert LeftOpen(events[1..][1..], Download) == 0;
    assert LeftOpen(events, Download) == 1;
  }

  ghost predicate AllDownloadsClosed(store: Store) {
    forall n: Node :: LeftOpen(TraceCopy(store, n, 0), Download) == 0
  }

  /** With a given store, no expansion at all leaves a temporary file open exactly when every download parses. */
  lemma TemporaryFilesClosed(store: Store)
    ensures AllDownloadsClosed(store) <==> DownloadsParse(store)
  {
    if DownloadsParse(store) {
      forall n: Node ensures LeftOpen(TraceCopy(store, n, 0), Download) == 0 {
        CopyBalanced(store, n, 0, START);
        NothingLost(store, START, TraceCopy(store, n, 0));
        FilesAreHeld(store, START, TraceCopy(store, n, 0), Download);
      }
    } else {
      var path :| path in store && IsLost(store, path);
      MalformedDownloadLosesFile(store, path);
    }
  }
}

/** A profile instance: `ut_kvp_open` folds the expansions of several files into one document. */
module Profiles {
  import opened Wrappers
  import opened YamlTree
  import opened Includes
  import opened ExpandedTrees
  import opened IncludeExpander

  datatype Status = SUCCESS | FILE_OPEN_ERROR | INVALID_INSTANCE | INVALID_PARAM | PARSING_ERROR

  /** A call on one instance; `Open(None)` passes a NULL file name. */
  datatype Op = Open(file: Option<string>) | Close

  /** The expansion of a file; none when it does not parse, has no root, or does not expand. */
  function Loaded(store: Store, name: string): Option<Node> {
    if name in store && store[name].Document? then Copy(store, store[name].root, 0) else None
  }

  function MergeDocument(document: Option<Node>, root: Node): Node {
    match document
    case None => root
    case Some(main) => MergeNodes(main, root)
  }

  /** The document after an operation. */
  function After(store: Store, document: Option<Node>, op: Op): Option<Node> {
    match op
    case Close => None
    case Open(None) => document
    case Open(Some(name)) =>
      if name !in store then document
      else if Loaded(store, name).None? then None
      else Some(MergeDocument(document, Loaded(store, name).value))
  }

  class Instance {
    const store: Store
    /** The root of `fy_handle`; None while there is no handle.  A handle without a root never outlives a call. */
    var document: Option<Node>

    constructor (store: Store)
      ensures this.store == store && document.None?
    {
      this.store := store;
      document := None;
    }

    method OpenFile(file: Option<string>) returns (status: Status)
      modifies this
      ensures status == INVALID_PARAM <==> file.None?
      ensures status == FILE_OPEN_ERROR <==> file.Some? && file.value !in store
      ensures status == SUCCESS <==> file.Some? && file.value in store && store[file.value].Document?
                                     && Copy(store, store[file.value].root, 0).Some?
      ensures status in {INVALID_PARAM, FILE_OPEN_ERROR, SUCCESS, PARSING_ERROR}
      ensures status in {INVALID_PARAM, FILE_OPEN_ERROR} ==> document == old(document)
      ensures status == PARSING_ERROR ==> document.None?
      ensures status == SUCCESS ==>
                var root := Copy(store, store[file.value].root, 0).value;
                document == Some(if old(document).None? then root else MergeNodes(old(document).value, root))
      ensures document == After(store, old(document), Open(file))
    {
      if file.None? {
        return INVALID_PARAM;
      }
      if file.value !in store {
        return FILE_OPEN_ERROR;
      }
      if !store[file.value].Document? {
        CloseDocument();
        return PARSING_ERROR;
      }
      var expander := new Expander(store);
      var copiedRoot := expander.ProcessNodeCopy(store[file.value].root, 0);
      if copiedRoot.None? {
        CloseDocument();
        return PARSING_ERROR;
      }
      if document.None? {
        document := copiedRoot;
      } else {
        document := Some(MergeNodes(document.value, copiedRoot.value));
      }
      return SUCCESS;
    }

    method CloseDocument()
      modifies this
      ensures document.None? && document == After(store, old(document), Close)
    {
      document := None;
    }
  }

  /** `ut_kvp_open`: the instance is checked before the file name. */
  method OpenProfile(instance: Instance?, file: Option<string>) returns (status: Status)
    modifies if instance == null then {} else {instance}
    ensures status == INVALID_INSTANCE <==> instance == null
    ensures instance != null ==> instance.document == After(instance.store, old(instance.document), Open(file))
  {
    if instance == null {
      return INVALID_INSTANCE;
    }
    status := instance.OpenFile(file);
  }

  // ---------- whole runs ----------

  /** The document after a run of operations on a new instance. */
  function Run(store: Store, ops: seq<Op>): Option<Node> {
    if ops == [] then None else After(store, Run(store, ops[..|ops| - 1]), ops[|ops| - 1])
  }

  /** A close, and an open of a file that is there but does not parse or expand, loses the document. */
  predicate Loses(store: Store, op: Op) {
    op.Close?
    || (op.file.Some? && op.file.value in store
        && !(store[op.file.value].Document? && Copy(store, store[op.file.value].root, 0).Some?))
  }

  /** An open of a file that is there, parses and expands. */
  predicate Loads(store: Store, op: Op) {
    op.Open? && op.file.Some? && op.file.value in store
    && store[op.file.value].Document? && Copy(store, store[op.file.value].root, 0).Some?
  }

  /** The operations after the last one that lost the document. */
  function SinceLastLoss(store: Store, ops: seq<Op>): seq<Op> {
    if ops == [] then []
    else if exists op :: op in ops && Loses(store, op) then SinceLastLoss(store, ops[1..])
    else ops
  }

  /** The expansions of the files that the operations opened successfully, in order. */
  function OpenedRoots(store: Store, ops: seq<Op>): seq<Node> {
    if ops == [] then []
    else (if Loads(store, ops[0]) then [Copy(store, store[ops[0].file.value].root, 0).value] else [])
         + OpenedRoots(store, ops[1..])
  }

  /** The left fold of the merge; no document when there is nothing to merge. */
  function MergeAll(roots: seq<Node>): Option<Node> {
    if roots == [] then None
    else Some(MergeDocument(MergeAll(roots[..|roots| - 1]), roots[|roots| - 1]))
  }

  lemma {:induction false} SinceLastLossConcat(store: Store, ops: seq<Op>, op: Op)
    ensures SinceLastLoss(store, ops + [op])
         == if Loses(store, op) then [] else SinceLastLoss(store, ops) + [op]
  {
    var all := ops + [op];
    if ops == [] {
      assert all == [op];
    } else {
      assert all[1..] == ops[1..] + [op];
      SinceLastLossConcat(store, ops[1..], op);
      if exists o :: o in ops && Loses(store, o) {
        var o :| o in ops && Loses(store, o);
        assert o in all;
      } else if Loses(store, op) {
        assert op in all;
      } else {
        SinceLastLossId(store, ops[1..]);
      }
    }
  }

  lemma SinceLastLossId(store: Store, ops: seq<Op>)
    requires forall op :: op in ops ==> !Loses(store, op)
    ensures SinceLastLoss(store, ops) == ops
  {
  }

  lemma {:induction false} OpenedRootsConcat(store: Store, a: seq<Op>, b: seq<Op>)
    ensures OpenedRoots(store, a + b) == OpenedRoots(store, a) + OpenedRoots(store, b)
  {
    if a == [] {
      assert a + b == b;
    } else {
      assert (a + b)[1..] == a[1..] + b;
      OpenedRootsConcat(store, a[1..], b);
    }
  }

  /** After any run, the document is the left fold of the merge over the expansions of the files opened
      successfully since the last close or parsing error. */
  lemma {:induction false} DocumentIsMergeOfOpened(store: Store, ops: seq<Op>)
    ensures Run(store, ops) == MergeAll(OpenedRoots(store, SinceLastLoss(store, ops)))
    decreases |ops|
  {
    if ops != [] {
      var before, op := ops[..|ops| - 1], ops[|ops| - 1];
      assert ops == before + [op];
      DocumentIsMergeOfOpened(store, before);
      SinceLastLossConcat(store, before, op);
      if !Loses(store, op) {
        var roots := OpenedRoots(store, SinceLastLoss(store, before));
        OpenedRootsConcat(store, SinceLastLoss(store, before), [op]);
        if Loads(store, op) {
          var root := Loaded(store, op.file.value).value;
          assert OpenedRoots(store, [op]) == [root];
          assert (roots + [root])[..|roots|] == roots;
        } else {
          assert OpenedRoots(store, [op]) == [];
          assert roots + [] == roots;
        }
      }
    }
  }

  /** The profile that decides a key: the last one that defines it. */
  function LastDefinition(roots: seq<Node>, key: string): Option<Node> {
    if roots == [] then None
    else
      var last := roots[|roots| - 1];
      if last.Mapping? && Lookup(last.pairs, key).Some? then Lookup(last.pairs, key)
      else LastDefinition(roots[..|roots| - 1], key)
  }

  lemma {:induction false} MergedKeys(roots: seq<Node>, key: string)
    requires roots != [] && roots[0].Mapping?
    requires forall root :: root in roots ==> Settled(AnyPath(), root)
    ensures var merged := MergeAll(roots);
            merged.Some? && merged.value.Mapping? && Settled(AnyPath(), merged.value)
            && Lookup(merged.value.pairs, key) == LastDefinition(roots, key)
    decreases |roots|
  {
    var before, last := roots[..|roots| - 1], roots[|roots| - 1];
    if before == [] {
      assert LastDefinition(before, key).None?;
    } else {
      assert before[0] == roots[0] && forall root :: root in before ==> root in roots;
      MergedKeys(before, key);
      assert last in roots;
      MergeWellFormed(MergeAll(before).value, last);
      if last.Mapping? {
        InsertLookup(MergeAll(before).value.pairs, last.pairs, key);
      }
    }
  }

  /** A first profile that is no mapping is never changed by later ones. */
  lemma {:induction false} NonMappingFirst(roots: seq<Node>)
    requires roots != [] && !roots[0].Mapping?
    ensures MergeAll(roots) == Some(roots[0])
    decreases |roots|
  {
    if |roots| > 1 {
      NonMappingFirst(roots[..|roots| - 1]);
    }
  }

  lemma {:induction false} OpenedRootsSettled(store: Store, ops: seq<Op>)
    ensures forall root :: root in OpenedRoots(store, ops) ==> Settled(AnyPath(), root)
  {
    if ops != [] {
      OpenedRootsSettled(store, ops[1..]);
      if Loads(store, ops[0]) {
        CopyWellFormed(store, store[ops[0].file.value].root, 0);
      }
    }
  }

  /** After any run the document is well formed; when the first live profile is a mapping, every key has the
      value of the last live profile that defines it, and otherwise the document is that first profile. */
  lemma LastProfileWins(store: Store, ops: seq<Op>, key: string)
    ensures var roots := OpenedRoots(store, SinceLastLoss(store, ops));
            var document := Run(store, ops);
            (document.None? <==> roots == [])
            && (roots != [] ==> Settled(AnyPath(), document.value))
            && (roots != [] && roots[0].Mapping? ==>
                  document.value.Mapping? && Lookup(document.value.pairs, key) == LastDefinition(roots, key))
            && (roots != [] && !roots[0].Mapping? ==> document.value == roots[0])
  {
    var roots := OpenedRoots(store, SinceLastLoss(store, ops));
    DocumentIsMergeOfOpened(store, ops);
    OpenedRootsSettled(store, SinceLastLoss(store, ops));
    if roots != [] {
      if roots[0].Mapping? {
        MergedKeys(roots, key);
      } else {
        NonMappingFirst(roots);
      }
    }
  }
}

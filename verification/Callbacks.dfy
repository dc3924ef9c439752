/** The callback table and the dispatch of one message. */
module Callbacks {
  import opened Wrappers
  import opened YamlTree
  import opened FieldPaths

  const MAX_CALLBACK_ENTRIES: nat := 32

  datatype Slot = Slot(key: string, callback: nat, userData: nat)

  datatype Status = OK | LIST_FULL | INVALID_HANDLE | INVALID_PARAM

  const EMPTY_SLOT: Slot := Slot("", 0, 0)

  /** The entries below n whose key is present, in registration order. */
  function Invoked(root: Node, slots: seq<Slot>, n: nat): seq<nat>
    requires n <= |slots|
  {
    if n == 0 then []
    else Invoked(root, slots, n - 1) + (if FieldPresent(root, slots[n - 1].key) then [n - 1] else [])
  }

  lemma {:induction false} InvokedContains(root: Node, slots: seq<Slot>, n: nat)
    requires n <= |slots|
    ensures forall i: nat :: i in Invoked(root, slots, n) <==> i < n && FieldPresent(root, slots[i].key)
  {
    hide FieldPresent;
    if n > 0 {
      InvokedContains(root, slots, n - 1);
      var before, present := Invoked(root, slots, n - 1), FieldPresent(root, slots[n - 1].key);
      assert Invoked(root, slots, n) == before + (if present then [n - 1] else []);
      hide Invoked;
    }
  }

  ghost predicate Increasing(indices: seq<nat>) {
    forall i, j :: 0 <= i < j < |indices| ==> indices[i] < indices[j]
  }

  /** Exactly the examined entries with a present key, each once, in registration order. */
  lemma {:induction false} InvokedExactly(root: Node, slots: seq<Slot>, n: nat)
    requires n <= |slots|
    ensures forall i: nat :: i in Invoked(root, slots, n) <==> i < n && FieldPresent(root, slots[i].key)
    ensures Increasing(Invoked(root, slots, n))
  {
    hide FieldPresent;
    InvokedContains(root, slots, n);
    if n > 0 {
      InvokedExactly(root, slots, n - 1);
      var before, present := Invoked(root, slots, n - 1), FieldPresent(root, slots[n - 1].key);
      assert Invoked(root, slots, n) == before + (if present then [n - 1] else []);
      hide Invoked;
      forall k | 0 <= k < |before| ensures before[k] < n - 1 {
        assert before[k] in before;
      }
    }
  }

  lemma {:induction false} InvokedFrame(root: Node, slots: seq<Slot>, others: seq<Slot>, n: nat)
    requires n <= |slots| && n <= |others| && slots[..n] == others[..n]
    ensures Invoked(root, slots, n) == Invoked(root, others, n)
  {
    if n > 0 {
      assert slots[n - 1] == slots[..n][n - 1] == others[n - 1];
      assert slots[..n - 1] == slots[..n][..n - 1] == others[..n - 1];
      InvokedFrame(root, slots, others, n - 1);
    }
  }

  class Table {
    const slots: array<Slot>
    var index: nat

    ghost predicate Valid()
      reads this
    {
      slots.Length == MAX_CALLBACK_ENTRIES && index <= MAX_CALLBACK_ENTRIES
    }

    ghost function Entries(): seq<Slot>
      requires Valid()
      reads this, slots
    {
      slots[..index]
    }

    constructor ()
      ensures Valid() && Entries() == [] && fresh(slots)
    {
      slots := new Slot[MAX_CALLBACK_ENTRIES](_ => EMPTY_SLOT);
      index := 0;
    }

    /** Registration on an existing instance; None stands for a NULL argument. */
    method Register(key: Option<string>, callback: Option<nat>, userData: Option<nat>) returns (status: Status)
      requires Valid()
      requires key.Some? ==> |key.value| < MAX_ELEMENT_SIZE
      modifies this`index, slots
      ensures Valid()
      ensures status == if key.None? || callback.None? || userData.None? then INVALID_PARAM
                        else if |old(Entries())| == 32 then LIST_FULL
                        else OK
      ensures Entries() == if status == OK
                           then old(Entries()) + [Slot(key.value, callback.value, userData.value)]
                           else old(Entries())
    {
      if key.None? || callback.None? || userData.None? {
        return INVALID_PARAM;
      }
      if index >= MAX_CALLBACK_ENTRIES {
        return LIST_FULL;
      }
      slots[index] := slots[index].(key := key.value);
      slots[index] := slots[index].(callback := callback.value);
      slots[index] := slots[index].(userData := userData.value);
      index := index + 1;
      return OK;
    }

    /** The loop of `call_callback_on_match` over a parsed message; `calls` are the entries called. */
    method CallOnMatch(root: Node) returns (calls: seq<nat>)
      requires Valid()
      ensures calls == Invoked(root, Entries(), |Entries()|)
    {
      hide FieldPresent;
      calls := [];
      var i := 0;
      while i < index
        invariant i <= index
        invariant calls == Invoked(root, Entries(), i)
      {
        if FieldPresent(root, slots[i].key) {
          calls := calls + [i];
        }
        i := i + 1;
      }
    }
  }

  /** `UT_ControlPlane_RegisterCallbackOnMessage`: the handle is checked first. */
  method RegisterCallbackOnMessage(instance: Table?, key: Option<string>, callback: Option<nat>, userData: Option<nat>)
    returns (status: Status)
    requires instance != null ==> instance.Valid()
    requires key.Some? ==> |key.value| < MAX_ELEMENT_SIZE
    modifies if instance == null then {} else {instance, instance.slots}
    ensures instance == null <==> status == INVALID_HANDLE
    ensures instance != null ==>
              && instance.Valid()
              && (status == INVALID_PARAM <==> key.None? || callback.None? || userData.None?)
              && (status == OK ==>
                    instance.Entries() == old(instance.Entries()) + [Slot(key.value, callback.value, userData.value)])
              && (status != OK ==> instance.Entries() == old(instance.Entries()))
              && (status == LIST_FULL ==> |instance.Entries()| == 32)
  {
    if instance == null {
      return INVALID_HANDLE;
    }
    status := instance.Register(key, callback, userData);
  }
}

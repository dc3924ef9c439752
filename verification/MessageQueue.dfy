/** The bounded message queue of src/ut_control_plane.c: an array whose first element is dequeued by shifting
    the others down.  The bodies here run while the queue mutex is held. */
module MessageQueue {
  import opened Wrappers

  type Byte = n: nat | n < 256

  /** A queued message; `buffer` identifies the allocation that holds the bytes.  EXIT carries no buffer. */
  datatype Message = Data(buffer: nat, bytes: seq<Byte>) | Exit

  const MAX_MESSAGES: nat := 32

  /** The queue after `enqueue_message`: a full queue drops the message silently. */
  function Enqueued(queue: seq<Message>, message: Message): seq<Message> {
    if |queue| < MAX_MESSAGES then queue + [message] else queue
  }

  class Queue {
    const slots: array<Message>
    var count: nat

    ghost predicate Valid()
      reads this, slots
    {
      slots.Length == MAX_MESSAGES && count <= MAX_MESSAGES
    }

    ghost function Contents(): seq<Message>
      requires Valid()
      reads this, slots
    {
      slots[..count]
    }

    constructor ()
      ensures Valid() && Contents() == [] && fresh(slots)
    {
      slots := new Message[MAX_MESSAGES](_ => Exit);
      count := 0;
    }

    /** `stored` tells whether the waiting consumer is signalled. */
    method Enqueue(message: Message) returns (stored: bool)
      requires Valid()
      modifies this`count, slots
      ensures Valid() && Contents() == Enqueued(old(Contents()), message)
      ensures stored <==> |old(Contents())| < 32
      ensures Contents() == if stored then old(Contents()) + [message] else old(Contents())
    {
      stored := count < MAX_MESSAGES;
      if stored {
        slots[count] := message;
        count := count + 1;
      }
    }

    /** None when the caller has to wait. */
    method Dequeue() returns (message: Option<Message>)
      requires Valid()
      modifies this`count, slots
      ensures Valid()
      ensures message.None? <==> old(Contents()) == []
      ensures match message
              case None => Contents() == old(Contents())
              case Some(m) => [m] + Contents() == old(Contents())
    {
      if count == 0 {
        return None;
      }
      message := Some(slots[0]);
      ghost var before := slots[..count];
      var i := 0;
      while i < count - 1
        invariant Valid() && count == old(count)
        invariant 0 <= i <= count - 1
        invariant forall k :: 0 <= k < i ==> slots[k] == before[k + 1]
        invariant forall k :: i <= k < count ==> slots[k] == before[k]
      {
        slots[i] := slots[i + 1];
        i := i + 1;
      }
      count := count - 1;
      assert Contents() == before[1..];
    }
  }
}

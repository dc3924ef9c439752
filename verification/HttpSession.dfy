/** The per-session body buffer of `callback_http`. */
module HttpSession {
  import opened MessageQueue

  const MAX_POST_DATA_SIZE: nat := 4096

  predicate Fits(stored: seq<Byte>, chunk: seq<Byte>) {
    |stored| + |chunk| < MAX_POST_DATA_SIZE
  }

  class Session {
    const postData: array<Byte>
    var postDataLen: nat

    ghost predicate Valid()
      reads this
    {
      postData.Length == MAX_POST_DATA_SIZE && postDataLen < MAX_POST_DATA_SIZE
    }

    ghost function Stored(): seq<Byte>
      requires Valid()
      reads this, postData
    {
      postData[..postDataLen]
    }

    constructor ()
      ensures Valid() && Stored() == [] && fresh(postData)
    {
      postData := new Byte[MAX_POST_DATA_SIZE](_ => 0);
      postDataLen := 0;
    }

    /** LWS_CALLBACK_HTTP_BODY: a chunk that does not fit is refused and leaves the buffer alone. */
    method Body(chunk: seq<Byte>) returns (accepted: bool)
      requires Valid()
      modifies this`postDataLen, postData
      ensures Valid()
      ensures accepted <==> |old(Stored())| + |chunk| < 4096
      ensures Stored() == if accepted then old(Stored()) + chunk else old(Stored())
    {
      accepted := postDataLen + |chunk| < MAX_POST_DATA_SIZE;
      if accepted {
        ghost var before := postData[..postDataLen];
        forall i | 0 <= i < |chunk| {
          postData[postDataLen + i] := chunk[i];
        }
        postDataLen := postDataLen + |chunk|;
        assert postData[..postDataLen] == before + chunk;
      }
    }

    /** LWS_CALLBACK_HTTP_BODY_COMPLETION: the message gets its own copy of the bytes; the buffer is reset. */
    method Completion() returns (message: array<Byte>)
      requires Valid()
      modifies this`postDataLen
      ensures Valid() && Stored() == []
      ensures fresh(message) && message[..] == old(Stored()) + [0]
    {
      message := new Byte[postDataLen + 1];
      forall i | 0 <= i < postDataLen {
        message[i] := postData[i];
      }
      message[postDataLen] := 0;
      assert message[..] == postData[..postDataLen] + [0];
      postDataLen := 0;
    }
  }
}

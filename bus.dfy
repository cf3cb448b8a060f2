/** The part of the luna-service2 bus the service touches: an inbound
    request message with its reference count, the replies sent on it, and
    the fields the handlers read from it. */
module Bus {
  import opened Common
  import opened JsonValue

  /** The property-store error codes the service names; any other code the
      store returns is carried as `StoreError`. */
  datatype LPErr =
    | ErrNone
    | ErrPerm
    | ErrParam
    | ErrInternal
    | ErrValueNotJson
    | StoreError(code: int)

  /** A reply frame, by the helper that builds it:
      - `Error(text, payload)`: `{"returnValue": false, "errorText": text}`,
        with the request text echoed as "errorPayload" when present;
      - `ErrorCode(err)`: errorReplyErr, whose text is LPErrorString(err);
      - `Success`: `{"returnValue": true}`;
      - `KeyValue(key, value)`: replyWithKeyValue;
      - `Document(doc)`: a JSON document serialised as it is. */
  datatype Reply =
    | Error(text: string, payload: Option<string>)
    | ErrorCode(err: LPErr)
    | Success
    | KeyValue(key: string, value: string)
    | Document(doc: Json)

  /** An inbound request. The bus holds one reference while the handler
      runs; a handler that answers later takes another with Ref and gives it
      back with Unref. A message whose count has dropped to zero is gone:
      it can neither be replied to nor released again. */
  class Message {
    var refCount: nat
    var replies: seq<Reply>
    /** LSMessageGetPayload */
    const payload: Payload
    /** LSMessageGetMethod */
    const methodName: string
    /** LSMessageGetKind: the category and method, "/category/method" */
    const kind: string
    /** LSMessageGetSenderServiceName */
    const senderServiceName: Option<string>
    /** LSMessageGetSender */
    const sender: Option<string>

    constructor (payload: Payload, methodName: string, kind: string,
                 senderServiceName: Option<string>, sender: Option<string>)
      ensures refCount == 1 && replies == []
      ensures this.payload == payload && this.methodName == methodName && this.kind == kind
      ensures this.senderServiceName == senderServiceName && this.sender == sender
    {
      this.payload := payload;
      this.methodName := methodName;
      this.kind := kind;
      this.senderServiceName := senderServiceName;
      this.sender := sender;
      refCount := 1;
      replies := [];
    }

    /** LSMessageRef */
    method Ref()
      modifies this
      ensures refCount == old(refCount) + 1 && replies == old(replies)
    {
      refCount := refCount + 1;
    }

    /** LSMessageUnref */
    method Unref()
      requires refCount > 0
      modifies this
      ensures refCount == old(refCount) - 1 && replies == old(replies)
    {
      refCount := refCount - 1;
    }

    /** LSMessageReply: the frame goes out whether or not the bus reports
        success; `delivered` is what the bus reports. */
    method Send(r: Reply, delivered: bool) returns (ok: bool)
      requires refCount > 0
      modifies this
      ensures replies == old(replies) + [r] && refCount == old(refCount) && ok == delivered
    {
      replies := replies + [r];
      ok := delivered;
    }

    /** errorReplyStr */
    method ReplyError(text: string)
      requires refCount > 0
      modifies this
      ensures replies == old(replies) + [Error(text, None)] && refCount == old(refCount)
    {
      var _ := Send(Error(text, None), true);
    }

    /** errorReplyErr: nothing is sent for LP_ERR_NONE. */
    method ReplyErr(err: LPErr)
      requires refCount > 0
      modifies this
      ensures replies == old(replies) + ErrReplies(err) && refCount == old(refCount)
    {
      if err != ErrNone {
        var _ := Send(ErrorCode(err), true);
      }
    }

    /** successReply */
    method ReplySuccess()
      requires refCount > 0
      modifies this
      ensures replies == old(replies) + [Success] && refCount == old(refCount)
    {
      var _ := Send(Success, true);
    }
  }

  /** The frames errorReplyErr sends: one error for a real error, none for
      LP_ERR_NONE. */
  function ErrReplies(err: LPErr): (r: seq<Reply>)
    ensures |r| <= 1
    ensures r == [] <==> err == ErrNone
    ensures r != [] ==> r[0] == ErrorCode(err)
  {
    if err == ErrNone then [] else [ErrorCode(err)]
  }

  /** errorReplyStrMissingParam */
  function MissingParam(param: string): string
  {
    "Missing required parameter '" + param + "'."
  }

  /** The parameter name is recovered from the message text. */
  lemma MissingParamNames(a: string, b: string)
    ensures MissingParam(a) == MissingParam(b) ==> a == b
  {
    var pre := "Missing required parameter '";
    if MissingParam(a) == MissingParam(b) {
      assert |a| == |b|;
      assert a == MissingParam(a)[|pre|..|pre| + |a|];
      assert b == MissingParam(b)[|pre|..|pre| + |b|];
    }
  }
}

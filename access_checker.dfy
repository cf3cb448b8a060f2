/** accesschecker.c: the authorization gate. checkAccess asks the bus's
    permission oracle whether the sender of a request may call a URI and
    parks a heap context (the request and the continuation to resume) with
    the pending call; processReply consumes that context when the oracle
    answers. */
module AccessChecker {
  import opened Common
  import opened JsonValue
  import opened Bus

  /** The permission oracle's endpoint. */
  const IsCallAllowedUri: string := "luna://com.webos.service.bus/isCallAllowed"

  /** The continuation a gated handler hands to checkAccess: one of the
      main.c callbacks. */
  datatype Continuation = SysGetKeysObj | SysGetSomeObj | SysGetAllObj | SysGetValue

  /** A nested single-reply call put on the bus. */
  datatype Call = Call(uri: string, payload: string)

  /** What the environment decides for one checkAccess: whether malloc of
      the context succeeds, whether g_strdup_printf yields a payload, and
      whether LSCallOneReply dispatches the call. */
  datatype CallEnv = CallEnv(allocates: bool, formats: bool, dispatches: bool)

  /** The heap `callbackContext`: the request and the continuation. `live`
      is false once it has been freed. */
  class CallbackContext {
    var live: bool
    const message: Message
    const callback: Option<Continuation>

    constructor (message: Message, callback: Option<Continuation>)
      ensures live && this.message == message && this.callback == callback
    {
      live := true;
      this.message := message;
      this.callback := callback;
    }

    /** free(ctx) */
    method Free()
      requires live
      modifies this
      ensures !live
    {
      live := false;
    }
  }

  /** The identity the oracle is asked about: the sender's service name,
      else its unique bus name; none when the bus knows neither. */
  function Requester(serviceName: Option<string>, sender: Option<string>): (r: Option<string>)
    ensures r.Some? <==> serviceName.Some? || sender.Some?
    ensures serviceName.Some? ==> r == serviceName
    ensures serviceName.None? ==> r == sender
  {
    if serviceName.Some? then serviceName else sender
  }

  const QueryOpen: string := "{\"requester\":\""
  const QueryMiddle: string := "\",\"uri\":\""
  const QueryClose: string := "\"}"

  /** The query checkAccess sends: `{"requester":"<identity>","uri":"<uri>"}`,
      with both texts pasted in verbatim. */
  function QueryPayload(requester: string, uri: string): string
  {
    QueryOpen + requester + QueryMiddle + uri + QueryClose
  }

  /** Reads back a text of the form `open + first + middle + second + close`
      in which `first` runs up to the first quote and `second` holds none. */
  function DecodePair(s: string, open: string, middle: string, close: string): (r: Option<(string, string)>)
    ensures r.Some? ==> '"' !in r.value.0 && '"' !in r.value.1
    ensures r.Some? ==> s == open + r.value.0 + middle + r.value.1 + close
  {
    match Unframe(s, open, close)
    case None => None
    case Some(body) =>
      match FirstIndexOf(body, '"')
      case None => None
      case Some(i) =>
        match Unprefix(body[i..], middle)
        case None => None
        case Some(second) =>
          Reassemble(s, open, body, close, i, middle, second);
          if '"' in second then None else Some((body[..i], second))
  }

  lemma Reassemble(s: string, open: string, body: string, close: string, i: nat, middle: string, second: string)
    requires i <= |body| && s == open + body + close && body[i..] == middle + second
    ensures s == open + body[..i] + middle + second + close
  {
    assert body == body[..i] + (middle + second);
  }

  lemma {:induction false} DecodePairOf(open: string, first: string, middle: string, second: string, close: string)
    requires '"' !in first && '"' !in second && middle != [] && middle[0] == '"'
    ensures DecodePair(open + first + middle + second + close, open, middle, close) == Some((first, second))
  {
    var body := first + middle + second;
    BodyFramed(open, first, middle, second, close);
    UnframeOf(open, body, close);
    QuoteSplit(first, middle, second);
    FirstIndexOfAfter(first, '"', middle[1..] + second);
    UnprefixOf(middle, second);
  }

  lemma BodyFramed(open: string, first: string, middle: string, second: string, close: string)
    ensures open + first + middle + second + close == open + (first + middle + second) + close
  {
  }

  lemma QuoteSplit(first: string, middle: string, second: string)
    requires middle != [] && middle[0] == '"'
    ensures first + middle + second == first + ['"'] + (middle[1..] + second)
    ensures (first + middle + second)[..|first|] == first
    ensures (first + middle + second)[|first|..] == middle + second
  {
    assert middle == ['"'] + middle[1..];
    assert first + middle + second == first + (middle + second);
  }

  /** Reads a query back: the requester runs up to the first quote, the
      URI up to the closing quote. */
  function DecodeQuery(s: string): (r: Option<(string, string)>)
    ensures r.Some? ==> '"' !in r.value.0 && '"' !in r.value.1
  {
    DecodePair(s, QueryOpen, QueryMiddle, QueryClose)
  }

  /** The query is read back as the identity and URI it was built from,
      as long as neither holds a quote. */
  lemma QueryRoundTrip(requester: string, uri: string)
    requires '"' !in requester && '"' !in uri
    ensures DecodeQuery(QueryPayload(requester, uri)) == Some((requester, uri))
  {
    DecodePairOf(QueryOpen, requester, QueryMiddle, uri, QueryClose);
  }

  /** A text that reads back as a query is exactly that query. */
  lemma DecodeQueryExact(s: string)
    requires DecodeQuery(s).Some?
    ensures s == QueryPayload(DecodeQuery(s).value.0, DecodeQuery(s).value.1)
  {
    var r := DecodePair(s, QueryOpen, QueryMiddle, QueryClose);
    assert s == QueryOpen + r.value.0 + QueryMiddle + r.value.1 + QueryClose;
  }

  /** How processReply reads the oracle's answer: no document at all, a
      document whose "returnValue" is false, or an answer carrying the
      "allowed" flag. Both flags go through json_object_get_boolean. */
  datatype Verdict = Unreadable | Refused | Answer(allowed: bool)

  function VerdictOf(reply: Payload): Verdict
  {
    match Doc(reply)
    case None => Unreadable
    case Some(d) =>
      if !AsBoolean(Get(d, "returnValue")) then Refused
      else Answer(AsBoolean(Get(d, "allowed")))
  }

  /** The oracle's two reply shapes are read as intended: a successful
      reply as the answer it carries, an error reply as a refusal; a
      payload that does not parse is unreadable. */
  lemma VerdictOfOracleReplies(raw: string, allowed: bool, errorText: string)
    ensures VerdictOf(Text(raw, Some(JObject(map["returnValue" := JBool(true), "allowed" := JBool(allowed)])))) == Answer(allowed)
    ensures VerdictOf(Text(raw, Some(JObject(map["returnValue" := JBool(false), "errorText" := JString(errorText)])))) == Refused
    ensures VerdictOf(Text(raw, None)) == Unreadable
  {
    var ok := JObject(map["returnValue" := JBool(true), "allowed" := JBool(allowed)]);
    assert Get(ok, "returnValue") == Some(JBool(true));
    assert Get(ok, "allowed") == Some(JBool(allowed));
    var err := JObject(map["returnValue" := JBool(false), "errorText" := JString(errorText)]);
    assert Get(err, "returnValue") == Some(JBool(false));
  }

  /** A reply without "allowed" never grants access: the flag reads as false. */
  lemma MissingAllowedDenies(reply: Payload)
    requires Doc(reply).Some? && Get(Doc(reply).value, "allowed").None?
    ensures VerdictOf(reply) != Answer(true)
  {
  }

  /** checkAccess: picks the identity, builds the query, parks a context
      holding the request and the continuation, and dispatches the call.
      It never touches the request's reference count or replies; on every
      failure the context is freed again. `call` is the call attempted. */
  method CheckAccess(msg: Message, uri: string, callback: Continuation, env: CallEnv)
    returns (ok: bool, ctx: CallbackContext?, call: Option<Call>)
    ensures ok <==> env.allocates && Requester(msg.senderServiceName, msg.sender).Some? && env.formats && env.dispatches
    ensures ctx == null <==> !env.allocates
    ensures ctx != null ==> fresh(ctx) && ctx.live == ok && ctx.message == msg && ctx.callback == Some(callback)
    ensures call.Some? <==> env.allocates && Requester(msg.senderServiceName, msg.sender).Some? && env.formats
    ensures call.Some? ==>
      call.value == Call(IsCallAllowedUri, QueryPayload(Requester(msg.senderServiceName, msg.sender).value, uri))
    ensures msg.refCount == old(msg.refCount) && msg.replies == old(msg.replies)
  {
    call := None;
    if !env.allocates {
      return false, null, None;
    }
    ctx := new CallbackContext(msg, Some(callback));
    var serviceName := msg.senderServiceName;
    if serviceName.None? {
      serviceName := msg.sender;
      if serviceName.None? {
        ctx.Free();
        return false, ctx, None;
      }
    }
    if !env.formats {
      ctx.Free();
      return false, ctx, None;
    }
    var payload := QueryPayload(serviceName.value, uri);
    call := Some(Call(IsCallAllowedUri, payload));
    if !env.dispatches {
      ctx.Free();
      return false, ctx, call;
    }
    ok := true;
  }

  /** processReply as written. A null context is ignored. A refusal
      releases the request and drops it without a reply. An answer resumes
      the continuation with the "allowed" flag (returned as `invoke`; the
      continuation itself replies and releases). An unreadable reply frees
      the context and nothing else: the request's extra reference is
      never released. */
  method ProcessReply(ctx: CallbackContext?, reply: Payload) returns (invoke: Option<(Continuation, bool)>)
    requires ctx != null ==> ctx.live && ctx.message.refCount > 0
    modifies ctx, if ctx != null then {ctx.message} else {}
    ensures ctx == null ==> invoke.None?
    ensures ctx != null ==> !ctx.live && ctx.message.replies == old(ctx.message.replies)
    ensures ctx != null && VerdictOf(reply) == Unreadable ==>
      invoke.None? && ctx.message.refCount == old(ctx.message.refCount)
    ensures ctx != null && VerdictOf(reply) == Refused ==>
      invoke.None? && ctx.message.refCount == old(ctx.message.refCount) - 1
    ensures ctx != null && VerdictOf(reply).Answer? ==>
      ctx.message.refCount == old(ctx.message.refCount) &&
      invoke == (if ctx.callback.Some? then Some((ctx.callback.value, VerdictOf(reply).allowed)) else None)
  {
    invoke := None;
    if ctx == null {
      return;
    }
    var doc := Doc(reply);
    if doc.Some? {
      if !AsBoolean(Get(doc.value, "returnValue")) {
        ctx.message.Unref();
        ctx.Free();
        return;
      }
      if ctx.callback.Some? {
        invoke := Some((ctx.callback.value, AsBoolean(Get(doc.value, "allowed"))));
      }
    }
    ctx.Free();
  }

  /** processReply as evidently intended: an unreadable reply is treated
      like a refusal, so the request's extra reference is released on
      every path that does not resume the continuation. */
  method ProcessReplyReleasing(ctx: CallbackContext?, reply: Payload) returns (invoke: Option<(Continuation, bool)>)
    requires ctx != null ==> ctx.live && ctx.message.refCount > 0
    modifies ctx, if ctx != null then {ctx.message} else {}
    ensures ctx == null ==> invoke.None?
    ensures ctx != null ==> !ctx.live && ctx.message.replies == old(ctx.message.replies)
    ensures ctx != null && !VerdictOf(reply).Answer? ==>
      invoke.None? && ctx.message.refCount == old(ctx.message.refCount) - 1
    ensures ctx != null && VerdictOf(reply).Answer? ==>
      ctx.message.refCount == old(ctx.message.refCount) &&
      invoke == (if ctx.callback.Some? then Some((ctx.callback.value, VerdictOf(reply).allowed)) else None)
  {
    invoke := None;
    if ctx == null {
      return;
    }
    var verdict := VerdictOf(reply);
    if !verdict.Answer? {
      ctx.message.Unref();
      ctx.Free();
      return;
    }
    if ctx.callback.Some? {
      invoke := Some((ctx.callback.value, verdict.allowed));
    }
    ctx.Free();
  }
}

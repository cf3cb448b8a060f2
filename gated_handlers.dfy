/** The four gated system-property handlers of main.c (sysGetKeysObj,
    sysGetSomeObj, sysGetAllObj, sysGetValue) and the life of one request
    through them: the handler takes an extra reference and asks the
    permission oracle; the oracle's reply resumes the continuation, which
    answers and gives the reference back. */
module GatedHandlers {
  import opened Common
  import opened JsonValue
  import opened Bus
  import opened AccessChecker
  import opened Callbacks

  const ServiceRootUri: string := "luna://com.palm.preferences"

  /** formURI: the URI the oracle is asked about, the service root
      followed by the request's "/category/method". */
  function FormUri(kind: string): string
  {
    ServiceRootUri + kind
  }

  /** Every formed URI lies under the service root, and distinct request
      kinds are checked as distinct URIs. */
  lemma FormUriInjective(a: string, b: string)
    ensures |FormUri(a)| == |ServiceRootUri| + |a|
    ensures FormUri(a)[..|ServiceRootUri|] == ServiceRootUri
    ensures FormUri(a) == FormUri(b) ==> a == b
  {
    assert FormUri(a)[|ServiceRootUri|..] == a;
    assert FormUri(b)[|ServiceRootUri|..] == b;
  }

  /** Whether checkAccess dispatches the oracle call. */
  predicate GateOpens(msg: Message, env: CallEnv)
  {
    env.allocates && Requester(msg.senderServiceName, msg.sender).Some? && env.formats && env.dispatches
  }

  /** The body shared by the four gated handlers: take a reference, ask
      the oracle; when that fails, answer LP_ERR_PERM and give the
      reference back. When it succeeds the request is parked, with the
      extra reference, in a live context. */
  method Gate(msg: Message, cont: Continuation, env: CallEnv) returns (ctx: CallbackContext?, call: Option<Call>)
    requires msg.refCount > 0
    modifies msg
    ensures GateOpens(msg, env) ==>
      ctx != null && fresh(ctx) && ctx.live && ctx.message == msg && ctx.callback == Some(cont) &&
      msg.refCount == old(msg.refCount) + 1 && msg.replies == old(msg.replies)
    ensures !GateOpens(msg, env) ==>
      (ctx == null || !ctx.live) &&
      msg.refCount == old(msg.refCount) && msg.replies == old(msg.replies) + [ErrorCode(ErrPerm)]
    ensures GateOpens(msg, env) ==> call.Some?
    ensures call.Some? ==> Requester(msg.senderServiceName, msg.sender).Some?
    ensures call.Some? ==>
      call.value == Call(IsCallAllowedUri, QueryPayload(Requester(msg.senderServiceName, msg.sender).value, FormUri(msg.kind)))
  {
    var uri := FormUri(msg.kind);
    msg.Ref();
    var ok;
    ok, ctx, call := CheckAccess(msg, uri, cont, env);
    if !ok {
      msg.ReplyErr(ErrPerm);
      msg.Unref();
    }
  }

  /** What the property store promises: each getter that succeeds hands
      back an array. */
  predicate ArraysFetched(props: SystemProps)
  {
    (props.keys.err == ErrNone ==> props.keys.doc.JArray?) &&
    (props.publicKeys.err == ErrNone ==> props.publicKeys.doc.JArray?) &&
    (props.all.err == ErrNone ==> props.all.doc.JArray?) &&
    (props.publicAll.err == ErrNone ==> props.publicAll.doc.JArray?)
  }

  /** The replies a continuation sends when resumed with `allowed`. */
  function ContinuationReplies(cont: Continuation, msg: Message, allowed: bool, props: SystemProps, delivered: bool): seq<Reply>
    requires ArraysFetched(props)
  {
    match cont
    case SysGetKeysObj => [SysGetReply(KeysFetch(props, allowed), msg.methodName == GetSysKeysObjApi)]
    case SysGetSomeObj => [SomeObjReply(msg.payload, msg.methodName, allowed, props)]
    case SysGetAllObj => [SysGetReply(AllFetch(props, allowed), msg.methodName == GetAllSysPropObjApi)]
    case SysGetValue => SysGetValueReplies(msg.payload, allowed, props, delivered)
  }

  /** The call processReply makes through the context's function pointer. */
  method RunContinuation(cont: Continuation, msg: Message, allowed: bool, props: SystemProps, delivered: bool)
    requires msg.refCount > 0 && ArraysFetched(props)
    modifies msg
    ensures msg.replies == old(msg.replies) + ContinuationReplies(cont, msg, allowed, props, delivered)
    ensures msg.refCount == old(msg.refCount) - 1
  {
    match cont
    case SysGetKeysObj => SysGetKeysObjCallback(msg, allowed, props);
    case SysGetSomeObj => SysGetSomeObjCallback(msg, allowed, props);
    case SysGetAllObj => SysGetAllObjCallback(msg, allowed, props);
    case SysGetValue => SysGetValueCallback(msg, allowed, props, delivered);
  }

  /** One request through a gated handler and the oracle's `reply`: the
      change of the request's reference count and the replies sent on it.
      `releasing` selects processReply as evidently intended instead of
      as written. */
  function GatedOutcome(msg: Message, cont: Continuation, env: CallEnv, reply: Payload,
                        props: SystemProps, delivered: bool, releasing: bool): (int, seq<Reply>)
    requires ArraysFetched(props)
  {
    if !GateOpens(msg, env) then (0, [ErrorCode(ErrPerm)])
    else
      match VerdictOf(reply)
      case Unreadable => (if releasing then 0 else 1, [])
      case Refused => (0, [])
      case Answer(allowed) => (0, ContinuationReplies(cont, msg, allowed, props, delivered))
  }

  /** A gated request as written: handler, oracle reply, continuation. */
  method ServeGated(msg: Message, cont: Continuation, env: CallEnv, reply: Payload, props: SystemProps, delivered: bool)
    requires msg.refCount > 0 && ArraysFetched(props)
    modifies msg
    ensures msg.refCount == old(msg.refCount) + GatedOutcome(msg, cont, env, reply, props, delivered, false).0
    ensures msg.replies == old(msg.replies) + GatedOutcome(msg, cont, env, reply, props, delivered, false).1
  {
    var ctx, _ := Gate(msg, cont, env);
    if ctx != null && ctx.live {
      var invoke := ProcessReply(ctx, reply);
      if invoke.Some? {
        RunContinuation(invoke.value.0, msg, invoke.value.1, props, delivered);
      }
    }
  }

  /** The same request with processReply releasing on an unreadable reply. */
  method ServeGatedReleasing(msg: Message, cont: Continuation, env: CallEnv, reply: Payload, props: SystemProps, delivered: bool)
    requires msg.refCount > 0 && ArraysFetched(props)
    modifies msg
    ensures msg.refCount == old(msg.refCount) + GatedOutcome(msg, cont, env, reply, props, delivered, true).0
    ensures msg.replies == old(msg.replies) + GatedOutcome(msg, cont, env, reply, props, delivered, true).1
  {
    var ctx, _ := Gate(msg, cont, env);
    if ctx != null && ctx.live {
      var invoke := ProcessReplyReleasing(ctx, reply);
      if invoke.Some? {
        RunContinuation(invoke.value.0, msg, invoke.value.1, props, delivered);
      }
    }
  }

  /** Reference balance: with processReply as intended every path gives
      back the reference the handler took; as written, exactly the path of
      an unreadable oracle reply keeps it for good. */
  lemma GatedReferenceBalance(msg: Message, cont: Continuation, env: CallEnv, reply: Payload,
                              props: SystemProps, delivered: bool)
    requires ArraysFetched(props)
    ensures GatedOutcome(msg, cont, env, reply, props, delivered, true).0 == 0
    ensures GatedOutcome(msg, cont, env, reply, props, delivered, false).0 ==
      if GateOpens(msg, env) && VerdictOf(reply) == Unreadable then 1 else 0
    ensures GatedOutcome(msg, cont, env, reply, props, delivered, true).1 ==
      GatedOutcome(msg, cont, env, reply, props, delivered, false).1
  {
  }

  /** Replies: a closed gate answers with exactly one permission error; a
      refusal and an unreadable reply leave the request unanswered; an
      answer yields exactly one reply, except that sysGetValue sends none
      for a successful lookup without a value and adds LP_ERR_INTERNAL
      when its value reply is not delivered. */
  lemma GatedReplies(msg: Message, cont: Continuation, env: CallEnv, reply: Payload,
                     props: SystemProps, delivered: bool)
    requires ArraysFetched(props)
    ensures var rs := GatedOutcome(msg, cont, env, reply, props, delivered, false).1;
      (!GateOpens(msg, env) ==> rs == [ErrorCode(ErrPerm)]) &&
      (rs == [] <==>
         GateOpens(msg, env) &&
         (!VerdictOf(reply).Answer? ||
          (cont == SysGetValue && SilentValue(msg.payload, VerdictOf(reply).allowed, props)))) &&
      |rs| <= 2 &&
      (|rs| == 2 ==> cont == SysGetValue && !delivered && rs[1] == ErrorCode(ErrInternal))
  {
    if GateOpens(msg, env) && VerdictOf(reply).Answer? && cont == SysGetValue {
      SysGetValueGate(msg.payload, VerdictOf(reply).allowed, props, delivered);
    }
  }

  /** End to end, a value reaches the caller only under a key that the
      oracle allowed or that is public, and it is the stored value. */
  lemma GatedValueOnlyWhenPermitted(msg: Message, env: CallEnv, reply: Payload, props: SystemProps, delivered: bool)
    requires ArraysFetched(props)
    ensures var rs := GatedOutcome(msg, SysGetValue, env, reply, props, delivered, false).1;
      forall i | 0 <= i < |rs| && rs[i].KeyValue? ::
        GateOpens(msg, env) && VerdictOf(reply).Answer? &&
        (VerdictOf(reply).allowed || props.isPublic(rs[i].key)) &&
        props.lookup(rs[i].key).value == Some(rs[i].value)
  {
    if GateOpens(msg, env) && VerdictOf(reply).Answer? {
      SysGetValueGate(msg.payload, VerdictOf(reply).allowed, props, delivered);
    }
  }
}

/** The per-application property handlers of main.c that decide what to
    answer: appSetValue (setAppProperty) and appGetValue (getAppProperty).
    The per-application store (LPAppGetHandle, LPAppSetValue,
    LPAppCopyValue) is foreign code and enters as the functions of
    `AppStore`; a handle is identified with the application id it was
    obtained for. */
module AppHandlers {
  import opened Common
  import opened JsonValue
  import opened Bus
  import opened Callbacks

  const NoAppIdOrKey: string := "no appId or key parameter found"

  /** What LPAppCopyValue hands back: an error code and, on success, the
      value (replyWithKeyValue asserts that it is not NULL). */
  datatype AppLookup = AppLookup(err: LPErr, value: string)

  datatype AppStore = AppStore(
    getHandle: string -> LPErr,
    setValue: (string, string, string) -> LPErr,
    copyValue: (string, string) -> AppLookup,
    render: Json -> string)

  /** getStringParam: a member that is present and a string. */
  function GetStringParam(param: Option<Json>): (r: Option<string>)
    ensures r.Some? <==> IsString(param)
    ensures r.Some? ==> param == Some(JString(r.value))
  {
    if IsString(param) then Some(param.value.s) else None
  }

  // ---------------------------------------------------------------------
  // appSetValue
  // ---------------------------------------------------------------------

  /** The parameter appSetValue reports missing for a parsed request, in
      the order it checks them; None when all three are acceptable. An
      appId made only of white space counts as missing. */
  function MissingSetParam(doc: Json): Option<string>
  {
    var appId := GetStringParam(Get(doc, "appId"));
    if appId.None? || Strip(appId.value) == [] then Some("appId")
    else if GetStringParam(Get(doc, "key")).None? then Some("key")
    else if Get(doc, "value").None? then Some("value")
    else None
  }

  /** The replies of appSetValue. The handle is asked for with the
      stripped appId; the value is stored as its text. */
  function SetValueReplies(payload: Payload, store: AppStore): seq<Reply>
  {
    match Doc(payload)
    case None => []
    case Some(doc) =>
      match MissingSetParam(doc)
      case Some(param) => [Error(MissingParam(param), None)]
      case None =>
        var appId := Strip(Get(doc, "appId").value.s);
        var err := store.getHandle(appId);
        if err != ErrNone then [ErrorCode(err)]
        else
          var stored := store.setValue(appId, Get(doc, "key").value.s, StringOf(Get(doc, "value").value, store.render));
          if stored == ErrNone then [Success] else [ErrorCode(stored)]
  }

  /** appSetValue */
  method AppSetValue(msg: Message, store: AppStore)
    requires msg.refCount > 0
    modifies msg
    ensures msg.replies == old(msg.replies) + SetValueReplies(msg.payload, store)
    ensures msg.refCount == old(msg.refCount)
  {
    var success := false;
    var payload := Doc(msg.payload);
    if payload.Some? {
      var appId := GetStringParam(Get(payload.value, "appId"));
      var key := GetStringParam(Get(payload.value, "key"));
      var value := Get(payload.value, "value");
      if appId.None? {
        msg.ReplyError(MissingParam("appId"));
      } else if Strip(appId.value) == "" {
        msg.ReplyError(MissingParam("appId"));
      } else if key.None? {
        msg.ReplyError(MissingParam("key"));
      } else if value.None? {
        msg.ReplyError(MissingParam("value"));
      } else {
        var appIdString := Strip(appId.value);
        var err := store.getHandle(appIdString);
        if err == ErrNone {
          var valString := StringOf(value.value, store.render);
          err := store.setValue(appIdString, key.value, valString);
          success := err == ErrNone;
        }
        msg.ReplyErr(err);
      }
    }
    if success {
      msg.ReplySuccess();
    }
  }

  /** A request whose payload parses gets exactly one reply, one that
      does not parse gets none. The reply names the first unacceptable
      parameter, and only a request whose three parameters are acceptable
      reaches the store; success is reported exactly when the store took
      the value under the stripped appId. */
  lemma SetValueOneReply(payload: Payload, store: AppStore)
    ensures |SetValueReplies(payload, store)| == if Doc(payload).Some? then 1 else 0
    ensures Doc(payload).Some? && MissingSetParam(Doc(payload).value).Some? ==>
      SetValueReplies(payload, store) == [Error(MissingParam(MissingSetParam(Doc(payload).value).value), None)]
    ensures SetValueReplies(payload, store) == [Success] <==>
      Doc(payload).Some? && MissingSetParam(Doc(payload).value).None? &&
      var doc := Doc(payload).value;
      var appId := Strip(Get(doc, "appId").value.s);
      store.getHandle(appId) == ErrNone &&
      store.setValue(appId, Get(doc, "key").value.s, StringOf(Get(doc, "value").value, store.render)) == ErrNone
  {
  }

  /** The checks come in order: a bad appId is reported whatever the key
      and value are, a bad key only after a good appId, a missing value
      only after both. Each missing parameter is named by a distinct text. */
  lemma SetParamOrder(doc: Json)
    ensures MissingSetParam(doc) == Some("appId") <==>
      !IsString(Get(doc, "appId")) || Strip(Get(doc, "appId").value.s) == []
    ensures MissingSetParam(doc) == Some("key") <==>
      IsString(Get(doc, "appId")) && Strip(Get(doc, "appId").value.s) != [] && !IsString(Get(doc, "key"))
    ensures MissingSetParam(doc) == Some("value") <==>
      IsString(Get(doc, "appId")) && Strip(Get(doc, "appId").value.s) != [] && IsString(Get(doc, "key")) &&
      Get(doc, "value").None?
    ensures MissingParam("appId") != MissingParam("key") && MissingParam("key") != MissingParam("value") &&
      MissingParam("appId") != MissingParam("value")
  {
    MissingParamNames("appId", "key");
    MissingParamNames("key", "value");
    MissingParamNames("appId", "value");
  }

  // ---------------------------------------------------------------------
  // appGetValue
  // ---------------------------------------------------------------------

  /** The replies of appGetValue. */
  function GetValueReplies(payload: Payload, store: AppStore): seq<Reply>
  {
    match Doc(payload)
    case None => [Error(NoAppIdOrKey, None)]
    case Some(doc) =>
      if !IsString(Get(doc, "appId")) || !IsString(Get(doc, "key")) then [Error(NoAppIdOrKey, None)]
      else
        var appId := Get(doc, "appId").value.s;
        var key := Get(doc, "key").value.s;
        if store.getHandle(appId) != ErrNone then []
        else
          var found := store.copyValue(appId, key);
          if found.err != ErrNone then [ErrorCode(found.err)] else [KeyValue(key, found.value)]
  }

  /** appGetValue. `delivered` is whether the bus accepts the key/value
      reply; a refused reply is not reported. */
  method AppGetValue(msg: Message, store: AppStore, delivered: bool)
    requires msg.refCount > 0
    modifies msg
    ensures msg.replies == old(msg.replies) + GetValueReplies(msg.payload, store)
    ensures msg.refCount == old(msg.refCount)
  {
    var ok, values := ParseMessage(msg.payload, ["appId", "key"]);
    if ok {
      var appId := values[0];
      var key := values[1];
      assert Get(Doc(msg.payload).value, "appId") == Some(JString(appId));
      assert Get(Doc(msg.payload).value, "key") == Some(JString(key));
      var err := store.getHandle(appId);
      if err == ErrNone {
        var found := store.copyValue(appId, key);
        err := found.err;
        if err == ErrNone {
          var _ := msg.Send(KeyValue(key, found.value), delivered);
        }
        msg.ReplyErr(err);
      }
    } else {
      msg.ReplyError(NoAppIdOrKey);
    }
  }

  /** appGetValue answers at most once, and not at all exactly when the
      request is well formed but no handle can be had for the appId; a
      value sent is the one stored under the requested key. */
  lemma GetValueReplyShape(payload: Payload, store: AppStore)
    ensures |GetValueReplies(payload, store)| <= 1
    ensures GetValueReplies(payload, store) == [] <==>
      Doc(payload).Some? && IsString(Get(Doc(payload).value, "appId")) && IsString(Get(Doc(payload).value, "key")) &&
      store.getHandle(Get(Doc(payload).value, "appId").value.s) != ErrNone
    ensures GetValueReplies(payload, store) != [] && GetValueReplies(payload, store)[0].KeyValue? ==>
      var doc := Doc(payload).value;
      GetValueReplies(payload, store)[0] ==
        KeyValue(Get(doc, "key").value.s, store.copyValue(Get(doc, "appId").value.s, Get(doc, "key").value.s).value)
  {
  }
}

/** The continuations of the gated system-property methods in main.c and
    the request helpers they share: parseMessage, wrapArray and the
    per-element rule of getSomeSysProperties. Each continuation answers
    its request and releases the reference the gate took. The property
    store is foreign code and enters as the values and functions of
    `SystemProps`. */
module Callbacks {
  import opened Common
  import opened JsonValue
  import opened Bus

  const GetSysKeysObjApi: string := "getSysKeysObj"
  const GetSomeSysPropObjApi: string := "getSomeSysPropertiesObj"
  const GetAllSysPropObjApi: string := "getAllSysPropertiesObj"
  const MissingKeyElement: string := "missing 'key' parameter"
  const MissingKeyParam: string := "missing parameter key"

  /** What a SysGetter (LPSystemCopyKeysCJ and friends) hands back. */
  datatype Fetch = Fetch(err: LPErr, doc: Json)

  /** What LPSystemCopyStringValue hands back for one key: an error code
      and the value out-parameter, None when it is left NULL. */
  datatype Lookup = Lookup(err: LPErr, value: Option<string>)

  /** The system property store as the service sees it:
      - `keys`, `publicKeys`, `all`, `publicAll`: the four getters;
      - `lookup`: LPSystemCopyStringValue;
      - `isPublic`: onWhitelist (LPSystemKeyIsPublic);
      - `errorString`: LPErrorString;
      - `render`: json_object_get_string of a value that is not a string. */
  datatype SystemProps = SystemProps(
    keys: Fetch,
    publicKeys: Fetch,
    all: Fetch,
    publicAll: Fetch,
    lookup: string -> Lookup,
    isPublic: string -> bool,
    errorString: LPErr -> string,
    render: Json -> string)

  // ---------------------------------------------------------------------
  // parseMessage
  // ---------------------------------------------------------------------

  /** parseMessage: the payload must parse and every key in `keys` must be
      present with a string value; the values come back in key order. */
  method ParseMessage(payload: Payload, keys: seq<string>) returns (ok: bool, values: seq<string>)
    ensures ok <==> Doc(payload).Some? && forall i | 0 <= i < |keys| :: IsString(Get(Doc(payload).value, keys[i]))
    ensures ok ==> |values| == |keys|
    ensures ok ==> forall i | 0 <= i < |keys| :: Get(Doc(payload).value, keys[i]) == Some(JString(values[i]))
  {
    values := [];
    var doc := Doc(payload);
    if doc.None? {
      return false, [];
    }
    var i := 0;
    while i < |keys|
      invariant 0 <= i <= |keys| && |values| == i
      invariant forall j | 0 <= j < i :: Get(doc.value, keys[j]) == Some(JString(values[j]))
    {
      var m := Get(doc.value, keys[i]);
      if m.None? || !m.value.JString? {
        return false, values;
      }
      values := values + [m.value.s];
      i := i + 1;
    }
    ok := true;
  }

  // ---------------------------------------------------------------------
  // wrapArray
  // ---------------------------------------------------------------------

  /** An element that reports an error: an object with an "errorText" member. */
  predicate IsErrorElement(e: Json)
  {
    e.JObject? && Get(e, "errorText").Some?
  }

  /** The object wrapArray builds around an array. */
  function Wrapped(items: seq<Json>): Json
  {
    JObject(map["values" := JArray(items),
                "returnValue" := JBool(forall i | 0 <= i < |items| :: !IsErrorElement(items[i]))])
  }

  /** wrapArray: scans for an error element, stopping at the first, and
      wraps the array unchanged under "values" with "returnValue" false
      exactly when an element reports an error. */
  method WrapArray(items: seq<Json>) returns (r: Json)
    ensures r.JObject? && r.fields.Keys == {"values", "returnValue"}
    ensures r.fields["values"] == JArray(items)
    ensures r.fields["returnValue"] == JBool(false) <==> exists i | 0 <= i < |items| :: IsErrorElement(items[i])
    ensures r.fields["returnValue"].JBool?
    ensures r == Wrapped(items)
  {
    var returnValue := true;
    var i := 0;
    while i < |items|
      invariant 0 <= i <= |items|
      invariant returnValue
      invariant forall j | 0 <= j < i :: !IsErrorElement(items[j])
    {
      if IsErrorElement(items[i]) {
        returnValue := false;
        break;
      }
      i := i + 1;
    }
    r := JObject(map["values" := JArray(items), "returnValue" := JBool(returnValue)]);
  }

  // ---------------------------------------------------------------------
  // sysGet_internal and its two callers
  // ---------------------------------------------------------------------

  /** The reply sysGet_internal sends for a getter's result. */
  function SysGetReply(fetch: Fetch, asObj: bool): Reply
    requires asObj && fetch.err == ErrNone ==> fetch.doc.JArray?
  {
    if fetch.err != ErrNone then ErrorCode(fetch.err)
    else if asObj then Document(Wrapped(fetch.doc.items))
    else Document(fetch.doc)
  }

  /** A getter's failure is reported and its document never sent; on
      success the document goes out, wrapped for the "...Obj" methods. */
  lemma SysGetReplyShape(fetch: Fetch, asObj: bool)
    requires asObj && fetch.err == ErrNone ==> fetch.doc.JArray?
    ensures SysGetReply(fetch, asObj).ErrorCode? <==> fetch.err != ErrNone
    ensures fetch.err == ErrNone && !asObj ==> SysGetReply(fetch, asObj) == Document(fetch.doc)
    ensures fetch.err == ErrNone && asObj ==>
      SysGetReply(fetch, asObj).doc.fields["values"] == fetch.doc
  {
  }

  /** sysGet_internal: one reply, then the request is released. */
  method SysGetInternal(msg: Message, fetch: Fetch, asObj: bool)
    requires msg.refCount > 0
    requires asObj && fetch.err == ErrNone ==> fetch.doc.JArray?
    modifies msg
    ensures msg.replies == old(msg.replies) + [SysGetReply(fetch, asObj)]
    ensures msg.refCount == old(msg.refCount) - 1
  {
    if fetch.err != ErrNone {
      msg.ReplyErr(fetch.err);
      msg.Unref();
      return;
    }
    var json := fetch.doc;
    if asObj {
      json := WrapArray(fetch.doc.items);
    }
    var _ := msg.Send(Document(json), true);
    msg.Unref();
  }

  /** The getter a continuation uses: the full one for an allowed caller. */
  function KeysFetch(props: SystemProps, allowed: bool): Fetch
  {
    if allowed then props.keys else props.publicKeys
  }

  function AllFetch(props: SystemProps, allowed: bool): Fetch
  {
    if allowed then props.all else props.publicAll
  }

  /** sysGetKeysObj_callback */
  method SysGetKeysObjCallback(msg: Message, allowed: bool, props: SystemProps)
    requires msg.refCount > 0
    requires msg.methodName == GetSysKeysObjApi && KeysFetch(props, allowed).err == ErrNone ==>
      KeysFetch(props, allowed).doc.JArray?
    modifies msg
    ensures msg.replies == old(msg.replies) + [SysGetReply(KeysFetch(props, allowed), msg.methodName == GetSysKeysObjApi)]
    ensures msg.refCount == old(msg.refCount) - 1
  {
    SysGetInternal(msg, if allowed then props.keys else props.publicKeys, msg.methodName == GetSysKeysObjApi);
  }

  /** sysGetAllObj_callback */
  method SysGetAllObjCallback(msg: Message, allowed: bool, props: SystemProps)
    requires msg.refCount > 0
    requires msg.methodName == GetAllSysPropObjApi && AllFetch(props, allowed).err == ErrNone ==>
      AllFetch(props, allowed).doc.JArray?
    modifies msg
    ensures msg.replies == old(msg.replies) + [SysGetReply(AllFetch(props, allowed), msg.methodName == GetAllSysPropObjApi)]
    ensures msg.refCount == old(msg.refCount) - 1
  {
    SysGetInternal(msg, if allowed then props.all else props.publicAll, msg.methodName == GetAllSysPropObjApi);
  }

  // ---------------------------------------------------------------------
  // sysGetSomeObj_callback
  // ---------------------------------------------------------------------

  /** addKeyValueToArray's element: `{key: value}`. */
  function Entry(key: string, value: string): Json
  {
    JObject(map[key := JString(value)])
  }

  /** The element for a successful lookup: `{key: value}`, with a JSON
      null where the store handed back no value. */
  function ValueEntry(key: string, value: Option<string>): Json
  {
    JObject(map[key := if value.Some? then JString(value.value) else JNull])
  }

  /** The output element for one input element. */
  function SomeElement(elem: Json, allowed: bool, props: SystemProps): Json
  {
    if elem.JObject? && Get(elem, "key").Some? then
      var k := StringOf(Get(elem, "key").value, props.render);
      if !allowed && !props.isPublic(k) then Entry("errorText", props.errorString(ErrPerm))
      else
        var found := props.lookup(k);
        if found.err == ErrNone then ValueEntry(k, found.value)
        else Entry("errorText", props.errorString(found.err))
    else Entry("errorText", MissingKeyElement)
  }

  function SomeElements(items: seq<Json>, allowed: bool, props: SystemProps): (out: seq<Json>)
    ensures |out| == |items|
    ensures forall i | 0 <= i < |items| :: out[i] == SomeElement(items[i], allowed, props)
  {
    seq(|items|, i requires 0 <= i < |items| => SomeElement(items[i], allowed, props))
  }

  /** The reply of sysGetSomeObj_callback: the element array (wrapped for
      getSomeSysPropertiesObj), or LP_ERR_PARAM_ERR when the payload is
      not a JSON array. */
  function SomeObjReply(payload: Payload, methodName: string, allowed: bool, props: SystemProps): Reply
  {
    match Doc(payload)
    case Some(JArray(items)) =>
      var out := SomeElements(items, allowed, props);
      Document(if methodName == GetSomeSysPropObjApi then Wrapped(out) else JArray(out))
    case _ => ErrorCode(ErrParam)
  }

  /** The key an input element names, if it is an object with one. */
  function ElementKey(elem: Json, props: SystemProps): Option<string>
  {
    if elem.JObject? && Get(elem, "key").Some? then Some(StringOf(Get(elem, "key").value, props.render)) else None
  }

  /** The gate on each element: a property value is output under key `k`
      exactly when the element names `k`, the caller is allowed or `k` is
      public, and the lookup succeeds; the value is then the stored one. */
  lemma SomeElementGate(elem: Json, allowed: bool, props: SystemProps, k: string)
    requires k != "errorText"
    ensures SomeElement(elem, allowed, props).JObject?
    ensures k in SomeElement(elem, allowed, props).fields <==>
      ElementKey(elem, props) == Some(k) && (allowed || props.isPublic(k)) && props.lookup(k).err == ErrNone
    ensures k in SomeElement(elem, allowed, props).fields ==>
      SomeElement(elem, allowed, props) == ValueEntry(k, props.lookup(k).value)
  {
  }

  /** Every element that is not served is an error element: a missing key,
      a refused key and a failed lookup all report "errorText". */
  lemma SomeElementReportsError(elem: Json, allowed: bool, props: SystemProps)
    ensures (ElementKey(elem, props).None? ||
             (!allowed && !props.isPublic(ElementKey(elem, props).value)) ||
             props.lookup(ElementKey(elem, props).value).err != ErrNone) ==>
      IsErrorElement(SomeElement(elem, allowed, props))
    ensures ElementKey(elem, props).None? ==> SomeElement(elem, allowed, props) == Entry("errorText", MissingKeyElement)
    ensures ElementKey(elem, props).Some? && !allowed && !props.isPublic(ElementKey(elem, props).value) ==>
      SomeElement(elem, allowed, props) == Entry("errorText", props.errorString(ErrPerm))
  {
    assert Get(Entry("errorText", MissingKeyElement), "errorText").Some?;
  }

  /** sysGetSomeObj_callback: builds one output element per input element,
      in order, answers once and releases the request. */
  method SysGetSomeObjCallback(msg: Message, allowed: bool, props: SystemProps)
    requires msg.refCount > 0
    modifies msg
    ensures msg.replies == old(msg.replies) + [SomeObjReply(msg.payload, msg.methodName, allowed, props)]
    ensures msg.refCount == old(msg.refCount) - 1
  {
    var doc := Doc(msg.payload);
    if doc.Some? && doc.value.JArray? {
      var items := doc.value.items;
      var arrayOut: seq<Json> := [];
      var ii := 0;
      while ii < |items|
        invariant 0 <= ii <= |items| && |arrayOut| == ii
        invariant forall j | 0 <= j < ii :: arrayOut[j] == SomeElement(items[j], allowed, props)
      {
        var elem := items[ii];
        var out: Json;
        if elem.JObject? && Get(elem, "key").Some? {
          var keyText := StringOf(Get(elem, "key").value, props.render);
          if !allowed && !props.isPublic(keyText) {
            out := Entry("errorText", props.errorString(ErrPerm));
          } else {
            var found := props.lookup(keyText);
            if found.err == ErrNone {
              out := ValueEntry(keyText, found.value);
            } else {
              out := Entry("errorText", props.errorString(found.err));
            }
          }
        } else {
          out := Entry("errorText", MissingKeyElement);
        }
        arrayOut := arrayOut + [out];
        ii := ii + 1;
      }
      assert arrayOut == SomeElements(items, allowed, props);
      var result := JArray(arrayOut);
      if msg.methodName == GetSomeSysPropObjApi {
        result := WrapArray(arrayOut);
      }
      var _ := msg.Send(Document(result), true);
    } else {
      msg.ReplyErr(ErrParam);
    }
    msg.Unref();
  }

  // ---------------------------------------------------------------------
  // sysGetValue_callback
  // ---------------------------------------------------------------------

  /** The replies of sysGetValue_callback; `delivered` is whether the bus
      accepts the key/value reply. */
  function SysGetValueReplies(payload: Payload, allowed: bool, props: SystemProps, delivered: bool): seq<Reply>
  {
    match Doc(payload)
    case None => [Error(MissingKeyParam, None)]
    case Some(d) =>
      if !IsString(Get(d, "key")) then [Error(MissingKeyParam, None)]
      else
        var key := Get(d, "key").value.s;
        if !allowed && !props.isPublic(key) then [ErrorCode(ErrPerm)]
        else
          var found := props.lookup(key);
          if found.err != ErrNone then [ErrorCode(found.err)]
          else if found.value.None? then []
          else if delivered then [KeyValue(key, found.value.value)]
          else [KeyValue(key, found.value.value), ErrorCode(ErrInternal)]
  }

  /** The one request sysGetValue_callback leaves unanswered: a readable
      key the caller may see whose lookup succeeds without a value. */
  predicate SilentValue(payload: Payload, allowed: bool, props: SystemProps)
  {
    Doc(payload).Some? && IsString(Get(Doc(payload).value, "key")) &&
    var key := Get(Doc(payload).value, "key").value.s;
    (allowed || props.isPublic(key)) && props.lookup(key) == Lookup(ErrNone, None)
  }

  /** A caller that is not allowed never sees a value whose key is not
      public; there is no reply exactly for a successful lookup without a
      value, else one reply, or two when the value reply fails and
      LP_ERR_INTERNAL follows it. */
  lemma SysGetValueGate(payload: Payload, allowed: bool, props: SystemProps, delivered: bool)
    ensures var rs := SysGetValueReplies(payload, allowed, props, delivered);
      (forall i | 0 <= i < |rs| && rs[i].KeyValue? ::
         (allowed || props.isPublic(rs[i].key)) && props.lookup(rs[i].key).value == Some(rs[i].value)) &&
      |rs| <= 2 &&
      (rs == [] <==> SilentValue(payload, allowed, props)) &&
      (|rs| == 2 <==> !delivered && rs != [] && rs[0].KeyValue?)
  {
  }

  /** sysGetValue_callback */
  method SysGetValueCallback(msg: Message, allowed: bool, props: SystemProps, delivered: bool)
    requires msg.refCount > 0
    modifies msg
    ensures msg.replies == old(msg.replies) + SysGetValueReplies(msg.payload, allowed, props, delivered)
    ensures msg.refCount == old(msg.refCount) - 1
  {
    var err := ErrNone;
    var ok, values := ParseMessage(msg.payload, ["key"]);
    if ok {
      var key := values[0];
      assert Get(Doc(msg.payload).value, "key") == Some(JString(key));
      if !allowed && !props.isPublic(key) {
        err := ErrPerm;
      } else {
        var found := props.lookup(key);
        err := found.err;
        if err == ErrNone && found.value.Some? {
          var sent := msg.Send(KeyValue(key, found.value.value), delivered);
          if !sent {
            err := ErrInternal;
          }
        }
      }
    } else {
      msg.ReplyError(MissingKeyParam);
    }
    msg.ReplyErr(err);
    msg.Unref();
  }
}

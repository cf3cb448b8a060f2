/** postRestore (main.c): the backup service's "restore finished" call.
    The request names a temporary directory and a list of files; every
    listed file whose path mentions the snapshot file name is handed to
    try_restore, each with its own reply, and a final success reply
    follows in every case that reaches the list. */
module RestoreHandler {
  import opened Common
  import opened JsonValue
  import opened Bus
  import opened DatabaseSpec
  import opened Database

  const CannotGetPayload: string := "Cannot get payload"
  const CannotParsePayload: string := "Cannot parse payload"
  const TempDirMissing: string := "Required parameter \"tempDir\" is missing"
  const TempDirNotString: string := "Parameter \"tempDir\" must have value type string"
  const FilesMissing: string := "Required parameter \"files\" is missing"
  const FilesNotArray: string := "Parameter \"files\" must have value type array"
  const RestoreFailed: string := "unable to restore preference db"

  /** The path an element of "files" stands for: a `null` element is
      skipped; a name without '/' lies in the temporary directory, any
      other text is taken as the path itself. */
  function FileArg(elem: Json, tempDir: string, render: Json -> string): Option<string>
  {
    if elem == JNull then None
    else
      var name := StringOf(elem, render);
      Some(if '/' in name then name else JoinPath(tempDir, name))
  }

  /** The paths the elements of "files" stand for, element by element. */
  function FileArgs(items: seq<Json>, tempDir: string, render: Json -> string): (args: seq<Option<string>>)
    ensures |args| == |items|
    ensures forall i | 0 <= i < |items| :: args[i] == FileArg(items[i], tempDir, render)
  {
    seq(|items|, i requires 0 <= i < |items| => FileArg(items[i], tempDir, render))
  }

  /** The paths postRestore restores, in list order: those that mention
      the snapshot file name. */
  function Selected(args: seq<Option<string>>): seq<string>
  {
    if args == [] then []
    else
      var before := Selected(args[..|args| - 1]);
      var arg := args[|args| - 1];
      if arg.Some? && Contains(arg.value, BackupFileName) then before + [arg.value] else before
  }

  lemma SelectedSnoc(args: seq<Option<string>>, arg: Option<string>)
    ensures Selected(args + [arg]) ==
      if arg.Some? && Contains(arg.value, BackupFileName) then Selected(args) + [arg.value] else Selected(args)
  {
    assert (args + [arg])[..|args|] == args;
  }

  function SelectedPaths(items: seq<Json>, tempDir: string, render: Json -> string): seq<string>
  {
    Selected(FileArgs(items, tempDir, render))
  }

  function RestoreReply(ok: bool): Reply
  {
    if ok then Success else Error(RestoreFailed, None)
  }

  /** try_restore on each path in turn, each followed by its reply; the
      replies and the disk at the end. */
  function RestoreAll(d: Disk, paths: seq<string>, env: Faults): (r: (seq<Reply>, Disk))
    requires d.Valid()
    ensures r.1.Valid()
    ensures |r.0| == |paths|
  {
    if paths == [] then ([], d)
    else
      var before := RestoreAll(d, paths[..|paths| - 1], env);
      var step := TryRestoreSpec(before.1, Some(paths[|paths| - 1]), env, false);
      (before.0 + [RestoreReply(step.0)], step.1)
  }

  lemma RestoreAllSnoc(d: Disk, paths: seq<string>, p: string, env: Faults)
    requires d.Valid()
    ensures var before := RestoreAll(d, paths, env);
      var step := TryRestoreSpec(before.1, Some(p), env, false);
      RestoreAll(d, paths + [p], env) == (before.0 + [RestoreReply(step.0)], step.1)
  {
    assert (paths + [p])[..|paths|] == paths;
  }

  /** The replies postRestore sends and the disk after it. */
  function PostRestoreSpec(payload: Payload, d: Disk, env: Faults, render: Json -> string): (r: (seq<Reply>, Disk))
    requires d.Valid()
    ensures r.1.Valid()
  {
    match payload
    case NoPayload => ([Error(CannotGetPayload, None)], d)
    case Text(raw, _) =>
      match Doc(payload)
      case None => ([Error(CannotParsePayload, Some(raw))], d)
      case Some(doc) =>
        var tempDir := Get(doc, "tempDir");
        var files := Get(doc, "files");
        if tempDir.None? then ([Error(TempDirMissing, Some(raw))], d)
        else if !tempDir.value.JString? then ([Error(TempDirNotString, Some(raw))], d)
        else if files.None? then ([Error(FilesMissing, Some(raw))], d)
        else if !files.value.JArray? then ([Error(FilesNotArray, Some(raw))], d)
        else
          var restored := RestoreAll(d, SelectedPaths(files.value.items, tempDir.value.s, render), env);
          (restored.0 + [Success], restored.1)
  }

  /** What one element of the list does: a selected path is restored and
      answered; any other element is passed over. */
  function ListedStep(d: Disk, arg: Option<string>, env: Faults): (r: (seq<Reply>, Disk))
    requires d.Valid()
    ensures r.1.Valid()
  {
    if arg.Some? && Contains(arg.value, BackupFileName) then
      var step := TryRestoreSpec(d, arg, env, false);
      ([RestoreReply(step.0)], step.1)
    else ([], d)
  }

  /** One pass of postRestore's loop. */
  method RestoreListed(msg: Message, engine: BackupEngine, arg: Option<string>, env: Faults)
    requires msg.refCount > 0 && engine.Valid()
    modifies msg, engine
    ensures engine.Valid()
    ensures msg.refCount == old(msg.refCount) && engine.backupDbPath == old(engine.backupDbPath)
    ensures msg.replies == old(msg.replies) + ListedStep(old(engine.disk), arg, env).0
    ensures engine.disk == ListedStep(old(engine.disk), arg, env).1
  {
    if arg.Some? && Contains(arg.value, BackupFileName) {
      var ok := engine.TryRestore(arg, env);
      if !ok {
        msg.ReplyError(RestoreFailed);
      } else {
        msg.ReplySuccess();
      }
    }
  }

  /** postRestore. `render` is json-c's printer for a list element that
      is not a string. */
  method PostRestore(msg: Message, engine: BackupEngine, env: Faults, render: Json -> string)
    requires msg.refCount > 0 && engine.Valid()
    modifies msg, engine
    ensures engine.Valid()
    ensures msg.replies == old(msg.replies) + PostRestoreSpec(msg.payload, old(engine.disk), env, render).0
    ensures engine.disk == PostRestoreSpec(msg.payload, old(engine.disk), env, render).1
    ensures msg.refCount == old(msg.refCount) && engine.backupDbPath == old(engine.backupDbPath)
  {
    if msg.payload.NoPayload? {
      msg.ReplyError(CannotGetPayload);
      return;
    }
    var raw := msg.payload.raw;
    var payload := Doc(msg.payload);
    if payload.None? {
      var _ := msg.Send(Error(CannotParsePayload, Some(raw)), true);
      return;
    }
    var tempDirLabel := Get(payload.value, "tempDir");
    if tempDirLabel.None? {
      var _ := msg.Send(Error(TempDirMissing, Some(raw)), true);
      return;
    }
    if !tempDirLabel.value.JString? {
      var _ := msg.Send(Error(TempDirNotString, Some(raw)), true);
      return;
    }
    var tempDir := tempDirLabel.value.s;
    var files := Get(payload.value, "files");
    if files.None? {
      var _ := msg.Send(Error(FilesMissing, Some(raw)), true);
      return;
    }
    if !files.value.JArray? {
      var _ := msg.Send(Error(FilesNotArray, Some(raw)), true);
      return;
    }
    RestoreFiles(msg, engine, files.value.items, tempDir, render, env);
    msg.ReplySuccess();
  }

  /** postRestore's loop over "files". */
  method RestoreFiles(msg: Message, engine: BackupEngine, fileArray: seq<Json>, tempDir: string,
                      render: Json -> string, env: Faults)
    requires msg.refCount > 0 && engine.Valid()
    modifies msg, engine
    ensures engine.Valid()
    ensures msg.replies == old(msg.replies) + RestoreAll(old(engine.disk), SelectedPaths(fileArray, tempDir, render), env).0
    ensures engine.disk == RestoreAll(old(engine.disk), SelectedPaths(fileArray, tempDir, render), env).1
    ensures msg.refCount == old(msg.refCount) && engine.backupDbPath == old(engine.backupDbPath)
  {
    ghost var args := FileArgs(fileArray, tempDir, render);
    ghost var d0 := engine.disk;
    ghost var replies0 := msg.replies;
    ghost var done := RestoreAll(d0, Selected([]), env);
    var index := 0;
    while index < |fileArray|
      invariant 0 <= index <= |fileArray|
      invariant engine.Valid() && msg.refCount == old(msg.refCount) && engine.backupDbPath == old(engine.backupDbPath)
      invariant done == RestoreAll(d0, Selected(args[..index]), env)
      invariant msg.replies == replies0 + done.0 && engine.disk == done.1
    {
      var finalPath := FileArg(fileArray[index], tempDir, render);
      RestoreStep(d0, args, index, env);
      ghost var step := ListedStep(done.1, finalPath, env);
      RestoreListed(msg, engine, finalPath, env);
      assert msg.replies == replies0 + (done.0 + step.0);
      done := (done.0 + step.0, step.1);
      index := index + 1;
    }
    assert args[..|fileArray|] == args;
  }

  /** One more element of the list: a selected path adds its restore and
      its reply to what the elements before it did; any other element
      changes nothing. */
  lemma RestoreStep(d0: Disk, args: seq<Option<string>>, index: nat, env: Faults)
    requires d0.Valid() && index < |args|
    ensures var before := RestoreAll(d0, Selected(args[..index]), env);
      var step := ListedStep(before.1, args[index], env);
      RestoreAll(d0, Selected(args[..index + 1]), env) == (before.0 + step.0, step.1)
  {
    assert args[..index + 1] == args[..index] + [args[index]];
    SelectedSnoc(args[..index], args[index]);
    if args[index].Some? && Contains(args[index].value, BackupFileName) {
      RestoreAllSnoc(d0, Selected(args[..index]), args[index].value, env);
    } else {
      assert RestoreAll(d0, Selected(args[..index]), env).0 + [] == RestoreAll(d0, Selected(args[..index]), env).0;
    }
  }

  /** The paths restored are exactly the listed paths that mention the
      snapshot name, and there are no more of them than list elements. */
  lemma {:induction false} SelectedExactly(args: seq<Option<string>>, p: string)
    ensures p in Selected(args) <==> Contains(p, BackupFileName) && Some(p) in args
    ensures |Selected(args)| <= |args|
  {
    if args != [] {
      var init := args[..|args| - 1];
      SelectedExactly(init, p);
      assert args == init + [args[|args| - 1]];
    }
  }

  /** A bare file name is looked for in the temporary directory; a name
      with a '/' is used as given; a `null` element is skipped. */
  lemma FileArgPlacement(name: string, tempDir: string, render: Json -> string)
    ensures '/' !in name ==> FileArg(JString(name), tempDir, render) == Some(JoinPath(tempDir, name))
    ensures '/' in name ==> FileArg(JString(name), tempDir, render) == Some(name)
    ensures FileArg(JNull, tempDir, render) == None
  {
  }

  /** try_restore of a path that does not exist succeeds without touching
      anything, so a run over such paths answers success for each and
      leaves the disk as it was. */
  lemma {:induction false} RestoreAllMissing(d: Disk, paths: seq<string>, env: Faults)
    requires d.Valid()
    requires forall i | 0 <= i < |paths| :: !d.Exists(paths[i])
    ensures RestoreAll(d, paths, env).1 == d
    ensures forall i | 0 <= i < |paths| :: RestoreAll(d, paths, env).0[i] == Success
  {
    if paths != [] {
      RestoreAllMissing(d, paths[..|paths| - 1], env);
    }
  }

  /** Every request gets at least one reply. A request that reaches the
      list gets one reply per selected file and then one success more,
      so k selected files make k + 1 replies; any other request gets a
      single error reply and the disk is untouched. */
  lemma PostRestoreReplyCount(payload: Payload, d: Disk, env: Faults, render: Json -> string)
    requires d.Valid()
    ensures var r := PostRestoreSpec(payload, d, env, render).0;
      |r| >= 1 &&
      if Doc(payload).Some? && IsString(Get(Doc(payload).value, "tempDir")) &&
         Get(Doc(payload).value, "files").Some? && Get(Doc(payload).value, "files").value.JArray?
      then
        |r| == |SelectedPaths(Get(Doc(payload).value, "files").value.items, Get(Doc(payload).value, "tempDir").value.s, render)| + 1 &&
        r[|r| - 1] == Success
      else
        |r| == 1 && r[0].Error? && PostRestoreSpec(payload, d, env, render).1 == d
  {
  }
}

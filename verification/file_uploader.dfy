/** The decisions of the upload script: which configuration is accepted, how
    a router entry becomes connection parameters, which remote directory is
    created, where each local file lands, and which uploads are attempted.
    SSH, SCP, remote commands and the local file system are parameters: the
    outcome of a connection attempt, the exit status of a remote command, the
    outcome of a copy and the existence of a local file. */
module FileUploader {
  import opened Wrappers
  import opened Yaml
  import opened PyStr
  import opened PosixPath

  /** What the script raises (and does not catch where it is raised). */
  datatype Error =
    | TypeError                    // indexing, `in` or iteration on a value of the wrong type
    | KeyError(key: string)        // `d[key]` on a mapping without `key`
    | MissingSection(key: string)  // the ValueError of `load_config`
    | UnorderedKeys                // a non-empty mapping iterated as `remote_paths` (not modelled)

  // ---------------------------------------------------------------------
  // load_config

  /** The top-level sections `load_config` demands, in the order it checks them. */
  const RequiredSections: seq<string> := ["routers", "file_mappings"]

  /** Python's `key in container`: key membership for a mapping, element
      equality for a list, substring for a string; anything else raises. */
  function Contains(container: Value, key: string): (r: Result<bool, Error>)
    ensures r.Failure? <==> !(container.Dict? || container.List? || container.Str?)
    ensures container.Dict? ==> r == Success(key in container.fields)
    ensures container.List? ==> r == Success(exists k :: 0 <= k < |container.items| && container.items[k] == Str(key))
  {
    match container
    case Dict(fields) => Success(key in fields)
    case List(items) => Success(Str(key) in items)
    case Str(s) => Success(IsSubstring(key, s))
    case _ => Failure(TypeError)
  }

  /** The validation loop of `load_config` over `keys`, as a function. */
  function CheckSections(config: Value, keys: seq<string>): Result<Value, Error>
  {
    if keys == [] then Success(config)
    else
      match Contains(config, keys[0])
      case Failure(e) => Failure(e)
      case Success(present) =>
        if present then CheckSections(config, keys[1..]) else Failure(MissingSection(keys[0]))
  }

  /** `load_config` after parsing: the parsed document, checked section by section. */
  method LoadConfig(config: Value) returns (r: Result<Value, Error>)
    ensures r == CheckSections(config, RequiredSections)
    ensures r.Success? ==> r.value == config
  {
    for i := 0 to |RequiredSections|
      invariant CheckSections(config, RequiredSections) == CheckSections(config, RequiredSections[i..])
    {
      var key := RequiredSections[i];
      assert RequiredSections[i..][1..] == RequiredSections[i + 1..];
      var present := Contains(config, key);
      if present.Failure? {
        return Failure(present.error);
      }
      if !present.value {
        return Failure(MissingSection(key));
      }
    }
    r := Success(config);
    CheckSectionsMeaning(config, RequiredSections);
  }

  /** The check accepts exactly when every key is present, returns the
      document unchanged, and otherwise reports the first key (in order) that
      is absent or could not be looked up. */
  lemma {:induction false} CheckSectionsMeaning(config: Value, keys: seq<string>)
    ensures var r := CheckSections(config, keys);
      && (r.Success? <==> forall k :: 0 <= k < |keys| ==> Contains(config, keys[k]) == Success(true))
      && (r.Success? ==> r.value == config)
      && (r.Failure? ==> exists i :: (0 <= i < |keys| && FirstRejected(config, keys, i)
            && r.error == (if Contains(config, keys[i]).Failure? then Contains(config, keys[i]).error
                           else MissingSection(keys[i]))))
  {
    if keys != [] {
      CheckSectionsMeaning(config, keys[1..]);
      var r := CheckSections(config, keys);
      if Contains(config, keys[0]) == Success(true) {
        if r.Failure? {
          var j :| 0 <= j < |keys| - 1 && FirstRejected(config, keys[1..], j)
            && r.error == (if Contains(config, keys[1..][j]).Failure? then Contains(config, keys[1..][j]).error
                           else MissingSection(keys[1..][j]));
          assert FirstRejected(config, keys, j + 1);
        } else {
          forall k | 0 <= k < |keys| ensures Contains(config, keys[k]) == Success(true) {
            if k > 0 { assert keys[k] == keys[1..][k - 1]; }
          }
        }
      } else {
        assert FirstRejected(config, keys, 0);
      }
    }
  }

  /** `keys[i]` is the first key the check does not get past. */
  predicate FirstRejected(config: Value, keys: seq<string>, i: nat)
    requires i < |keys|
  {
    Contains(config, keys[i]) != Success(true)
    && forall k :: 0 <= k < i ==> Contains(config, keys[k]) == Success(true)
  }

  /** A document without `routers` is refused for `routers`, whether or not
      `file_mappings` is there. */
  lemma RoutersCheckedFirst(config: Value)
    requires Contains(config, "routers") == Success(false)
    ensures CheckSections(config, RequiredSections) == Failure(MissingSection("routers"))
  {
  }

  // ---------------------------------------------------------------------
  // create_ssh_connection

  /** The credential handed to `connect`. */
  datatype Auth = Password(secret: Value) | KeyFile(path: string)

  /** The arguments of the `connect` call. `searchKeys` is paramiko's
      `allow_agent` and `look_for_keys`: switched off for a password login and
      left at their defaults (on) for a key file. */
  datatype ConnectParams = ConnectParams(host: Value, port: Value, username: Value, auth: Auth, searchKeys: bool)

  /** What `create_ssh_connection` would pass to `connect`, or `None` when it
      gives up before connecting (no credential, or a key file that
      `expanduser` rejects). `home` and `homes` are the current user's and
      the other users' home directories. */
  function ConnectionPlan(router: Value, home: Option<string>, homes: map<string, string>): (r: Result<Option<ConnectParams>, Error>)
    ensures r.Failure? <==> !router.Dict? || "host" !in router.fields
    ensures !router.Dict? ==> r == Failure(TypeError)
    ensures router.Dict? && "host" !in router.fields ==> r == Failure(KeyError("host"))
    ensures r.Success? && r.value.Some? ==>
      && r.value.value.host == router.fields["host"]
      && (r.value.value.auth.Password? <==> "password" in router.fields)
      && (r.value.value.searchKeys <==> r.value.value.auth.KeyFile?)
  {
    if !router.Dict? then Failure(TypeError)
    else
      var fields := router.fields;
      if "host" !in fields then Failure(KeyError("host"))
      else
        var host := fields["host"];
        var port := Get(fields, "port", Int(22));
        var username := Get(fields, "username", Str("admin"));
        if "password" in fields then
          Success(Some(ConnectParams(host, port, username, Password(fields["password"]), false)))
        else if "key_file" in fields then
          match fields["key_file"]
          case Str(p) => Success(Some(ConnectParams(host, port, username, KeyFile(ExpandUser(p, home, homes)), true)))
          case _ => Success(None)
        else Success(None)
  }

  /** `create_ssh_connection`: the parameters of the session it returns, or
      `None` when it gives up or `connects` (the outcome of the attempt)
      fails; only a missing or unreadable `host` escapes to the caller. */
  function CreateSshConnection(router: Value, home: Option<string>, homes: map<string, string>,
                               connects: ConnectParams -> bool): (r: Result<Option<ConnectParams>, Error>)
    ensures r.Failure? <==> !router.Dict? || "host" !in router.fields
    ensures !router.Dict? ==> r == Failure(TypeError)
    ensures router.Dict? && "host" !in router.fields ==> r == Failure(KeyError("host"))
    ensures r.Success? && r.value.Some? ==>
      ConnectionPlan(router, home, homes) == r && connects(r.value.value)
    ensures var plan := ConnectionPlan(router, home, homes);
      plan.Success? && plan.value.Some? && connects(plan.value.value) ==> r == plan
  {
    match ConnectionPlan(router, home, homes)
    case Failure(e) => Failure(e)
    case Success(plan) =>
      if plan.Some? && connects(plan.value) then Success(plan) else Success(None)
  }

  /** The port is 22 and the user `admin` unless the router entry says otherwise. */
  lemma DefaultsApply(router: Value, home: Option<string>, homes: map<string, string>)
    requires ConnectionPlan(router, home, homes).Success?
    requires ConnectionPlan(router, home, homes).value.Some?
    ensures var p := ConnectionPlan(router, home, homes).value.value;
      && p.port == (if "port" in router.fields then router.fields["port"] else Int(22))
      && p.username == (if "username" in router.fields then router.fields["username"] else Str("admin"))
  {
  }

  /** A password wins over a key file, and a password login does not search
      for local keys. */
  lemma PasswordWins(router: Value, home: Option<string>, homes: map<string, string>)
    requires router.Dict? && "host" in router.fields && "password" in router.fields
    ensures var r := ConnectionPlan(router, home, homes);
      r.Success? && r.value.Some?
      && r.value.value.auth == Password(router.fields["password"]) && !r.value.value.searchKeys
  {
  }

  /** Without a password, a key file is used after `~` expansion. */
  lemma KeyFileExpanded(router: Value, home: Option<string>, homes: map<string, string>)
    requires router.Dict? && "host" in router.fields && "password" !in router.fields
    requires "key_file" in router.fields && router.fields["key_file"].Str?
    ensures var r := ConnectionPlan(router, home, homes);
      r.Success? && r.value.Some?
      && r.value.value.auth == KeyFile(ExpandUser(router.fields["key_file"].s, home, homes))
  {
  }

  /** With neither credential the error is caught inside: no session, nothing
      raised, whatever a connection attempt would have done. */
  lemma MissingAuthCaught(router: Value, home: Option<string>, homes: map<string, string>,
                          connects: ConnectParams -> bool)
    requires router.Dict? && "host" in router.fields
    requires "password" !in router.fields && "key_file" !in router.fields
    ensures CreateSshConnection(router, home, homes, connects) == Success(None)
  {
  }

  /** A planned connection that succeeds returns its session. */
  lemma ConnectSuccessReturnsSession(router: Value, home: Option<string>, homes: map<string, string>,
                                     connects: ConnectParams -> bool, p: ConnectParams)
    requires ConnectionPlan(router, home, homes) == Success(Some(p)) && connects(p)
    ensures CreateSshConnection(router, home, homes, connects) == Success(Some(p))
  {
  }

  /** A failed connection attempt is caught too. */
  lemma ConnectFailureCaught(router: Value, home: Option<string>, homes: map<string, string>,
                             connects: ConnectParams -> bool, p: ConnectParams)
    requires ConnectionPlan(router, home, homes) == Success(Some(p)) && !connects(p)
    ensures CreateSshConnection(router, home, homes, connects) == Success(None)
  {
  }

  // ---------------------------------------------------------------------
  // ensure_remote_path_exists

  /** The directory `ensure_remote_path_exists` creates: the parent of the
      path without its trailing slashes. It is empty exactly when that path
      has no '/' left, and it is always a prefix of the path. */
  function RemoteDir(remotePath: string): (dir: string)
    ensures dir == [] <==> '/' !in RStripChar(remotePath, '/')
    ensures StartsWith(remotePath, dir)
  {
    var trimmed := RStripChar(remotePath, '/');
    var dir := Dirname(trimmed);
    assert remotePath[..|dir|] == trimmed[..|dir|];
    dir
  }

  /** The remote command issued for `remotePath`: none when the directory is
      empty, else exactly `mkdir -p <dir>`. */
  function MkdirCommand(remotePath: string): (cmd: Option<string>)
    ensures cmd.None? <==> '/' !in RStripChar(remotePath, '/')
    ensures cmd.Some? ==> cmd.value == "mkdir -p " + RemoteDir(remotePath) && RemoteDir(remotePath) != []
  {
    var dir := RemoteDir(remotePath);
    if dir == [] then None else Some("mkdir -p " + dir)
  }

  /** Why one upload target failed; each is caught and logged. */
  datatype UploadError =
    | NotAString                          // the target is not a string (`endswith` fails)
    | MkdirFailed(dir: string, status: int)
    | PutFailed(target: string)

  /** `ensure_remote_path_exists`: the command it ran, if any, or the failure
      it raises when the command exits with a nonzero status (`exitStatus`). */
  function EnsureRemotePathExists(remotePath: string, exitStatus: string -> int): (r: Result<Option<string>, UploadError>)
    ensures r.Failure? <==> MkdirCommand(remotePath).Some? && exitStatus(MkdirCommand(remotePath).value) != 0
    ensures r.Success? ==> r.value == MkdirCommand(remotePath)
    ensures r.Failure? ==> r.error == MkdirFailed(RemoteDir(remotePath), exitStatus(MkdirCommand(remotePath).value))
  {
    match MkdirCommand(remotePath)
    case None => Success(None)
    case Some(cmd) =>
      var status := exitStatus(cmd);
      if status != 0 then Failure(MkdirFailed(RemoteDir(remotePath), status)) else Success(Some(cmd))
  }

  // ---------------------------------------------------------------------
  // upload_files

  /** The full remote path of one upload: a directory (ending in '/') gets
      the local file's name appended, with backslashes turned into slashes;
      any other path is used as it is. */
  function ResolveRemote(localPath: string, remotePath: string): (target: string)
    ensures !EndsWith(remotePath, "/") ==> target == remotePath
    ensures EndsWith(remotePath, "/") ==> target == ReplaceChar(remotePath + Basename(localPath), '\\', '/')
  {
    if EndsWith(remotePath, "/") then
      var name := Basename(localPath);
      JoinIntoDir(remotePath, name);
      ReplaceChar(Join(remotePath, name), '\\', '/')
    else remotePath
  }

  /** A path that ends in '/' followed by a name without '/' has that name
      as its basename. */
  lemma BasenameAfterSlash(dir: string, name: string)
    requires dir != [] && dir[|dir| - 1] == '/' && '/' !in name
    ensures Basename(dir + name) == name
  {
    var p := dir + name;
    assert p[|dir| - 1] == '/';
    assert forall k :: |dir| <= k < |p| ==> p[k] != '/' by {
      forall k | |dir| <= k < |p| ensures p[k] != '/' {
        assert p[k] == name[k - |dir|];
      }
    }
    assert RFind(p, '/') == |dir| - 1;
    assert p[|dir|..] == name;
  }

  /** Backslashes outside `name` do not reach it. */
  lemma ReplaceCharAppend(s: string, name: string)
    requires '\\' !in name
    ensures ReplaceChar(s + name, '\\', '/') == ReplaceChar(s, '\\', '/') + name
  {
    var l, r := ReplaceChar(s + name, '\\', '/'), ReplaceChar(s, '\\', '/') + name;
    forall k | 0 <= k < |l| ensures l[k] == r[k] {
      if k >= |s| { assert (s + name)[k] == name[k - |s|]; }
    }
  }

  /** An upload into a directory keeps the file's name. */
  lemma KeepsFileName(localPath: string, remotePath: string)
    requires EndsWith(remotePath, "/") && '\\' !in Basename(localPath)
    ensures Basename(ResolveRemote(localPath, remotePath)) == Basename(localPath)
  {
    var name := Basename(localPath);
    ReplaceCharAppend(remotePath, name);
    var dir := ReplaceChar(remotePath, '\\', '/');
    assert remotePath[|remotePath| - 1] == "/"[0];
    assert dir[|dir| - 1] == '/';
    BasenameAfterSlash(dir, name);
  }

  /** The parent of a path ending in '/' followed by a non-empty name
      without '/' is that directory without its trailing slashes, unless
      it is nothing but slashes. */
  lemma DirnameAfterSlash(dir: string, name: string)
    requires dir != [] && dir[|dir| - 1] == '/' && name != [] && '/' !in name
    ensures Dirname(dir + name) == if AllSlashes(dir) then dir else RStripChar(dir, '/')
  {
    var p := dir + name;
    var i := RFind(p, '/');
    assert p[|dir| - 1] == '/';
    assert i == |dir| - 1;
    assert p[..i + 1] == dir;
  }

  /** Without backslashes, an upload into a directory targets the directory
      followed by the file's name. */
  lemma ResolveIntoDir(localPath: string, remotePath: string)
    requires EndsWith(remotePath, "/") && '\\' !in remotePath && '\\' !in Basename(localPath)
    ensures ResolveRemote(localPath, remotePath) == remotePath + Basename(localPath)
  {
    ReplaceCharAppend(remotePath, Basename(localPath));
    assert ReplaceChar(remotePath, '\\', '/') == remotePath;
  }

  /** The directory created for a name inside `dir` is `dir` itself. */
  lemma RemoteDirOfName(dir: string, name: string)
    requires dir != [] && dir[|dir| - 1] == '/' && name != [] && '/' !in name
    ensures RemoteDir(dir + name) == if AllSlashes(dir) then dir else RStripChar(dir, '/')
  {
    var p := dir + name;
    assert RStripChar(p, '/') == p by {
      assert p[|p| - 1] == name[|name| - 1];
    }
    DirnameAfterSlash(dir, name);
  }

  /** An upload into a directory creates that very directory (without its
      trailing slashes, unless it is nothing but slashes) before copying. */
  lemma MkdirMakesTargetDir(localPath: string, remotePath: string)
    requires EndsWith(remotePath, "/") && '\\' !in remotePath
    requires Basename(localPath) != [] && '\\' !in Basename(localPath)
    ensures RemoteDir(ResolveRemote(localPath, remotePath))
      == if AllSlashes(remotePath) then remotePath else RStripChar(remotePath, '/')
  {
    ResolveIntoDir(localPath, remotePath);
    assert remotePath[|remotePath| - 1] == '/' by {
      assert remotePath[|remotePath| - 1] == "/"[0];
    }
    RemoteDirOfName(remotePath, Basename(localPath));
  }

  /** The outcome of one mapping-and-target pair. */
  datatype Step =
    | Skipped(local: string)                                   // the local file does not exist
    | Uploaded(local: string, target: string, mkdir: Option<string>)
    | Failed(local: string, remote: Value, reason: UploadError)

  /** One pass of the inner loop, inside its `try`: resolve the target,
      make its directory, copy (`puts` is the outcome of the copy). */
  function TargetStep(localPath: string, remote: Value, exitStatus: string -> int,
                      puts: (string, string) -> bool): (step: Step)
    ensures !step.Skipped? && step.local == localPath
    ensures step.Uploaded? <==>
      remote.Str? && EnsureRemotePathExists(ResolveRemote(localPath, remote.s), exitStatus).Success?
      && puts(localPath, ResolveRemote(localPath, remote.s))
    ensures step.Uploaded? ==>
      step.target == ResolveRemote(localPath, remote.s) && step.mkdir == MkdirCommand(step.target)
    ensures step.Failed? ==> step.remote == remote
    ensures step.Failed? && step.reason.PutFailed? ==>
      remote.Str? && EnsureRemotePathExists(ResolveRemote(localPath, remote.s), exitStatus).Success?
  {
    match remote
    case Str(s) =>
      var target := ResolveRemote(localPath, s);
      (match EnsureRemotePathExists(target, exitStatus)
       case Failure(e) => Failed(localPath, remote, e)
       case Success(cmd) =>
         if puts(localPath, target) then Uploaded(localPath, target, cmd)
         else Failed(localPath, remote, PutFailed(target)))
    case _ => Failed(localPath, remote, NotAString)
  }

  /** What `for remote_path in remote_paths` visits: a list's items, a
      string's characters or a binary value's octets; an empty mapping visits
      nothing. */
  function RemoteList(remotePaths: Value): (r: Result<seq<Value>, Error>)
    ensures r.Failure? <==> !(remotePaths.List? || remotePaths.Str? || remotePaths.Bytes? || remotePaths == Dict(map[]))
    ensures remotePaths.Str? ==> r.Success? && |r.value| == |remotePaths.s|
    ensures remotePaths.Bytes? ==> r.Success? && forall k :: 0 <= k < |r.value| ==> !r.value[k].Str?
  {
    match remotePaths
    case List(items) => Success(items)
    case Str(s) => Success(Chars(s))
    case Bytes(b) => Success(Octets(b))
    case Dict(fields) => if fields == map[] then Success([]) else Failure(UnorderedKeys)
    case _ => Failure(TypeError)
  }

  /** The steps of one mapping: lookups that raise escape the loop; a
      missing local file is skipped; otherwise one step per target. */
  function MappingSteps(mapping: Value, isFile: string -> bool, exitStatus: string -> int,
                        puts: (string, string) -> bool): (r: Result<seq<Step>, Error>)
    ensures r.Success? ==> mapping.Dict? && "remote_paths" in mapping.fields && "local_path" in mapping.fields
    ensures !mapping.Dict? ==> r == Failure(TypeError)
    ensures mapping.Dict? && "local_path" !in mapping.fields ==> r == Failure(KeyError("local_path"))
    ensures mapping.Dict? && "local_path" in mapping.fields && "remote_paths" !in mapping.fields ==>
      r == Failure(KeyError("remote_paths"))
    ensures r.Success? ==> mapping.fields["local_path"].Str?
    ensures r.Success? && !isFile(mapping.fields["local_path"].s) ==> r.value == [Skipped(mapping.fields["local_path"].s)]
    ensures r.Success? && isFile(mapping.fields["local_path"].s) ==>
      RemoteList(mapping.fields["remote_paths"]).Success? &&
      |r.value| == |RemoteList(mapping.fields["remote_paths"]).value|
  {
    if !mapping.Dict? then Failure(TypeError)
    else if "local_path" !in mapping.fields then Failure(KeyError("local_path"))
    else if "remote_paths" !in mapping.fields then Failure(KeyError("remote_paths"))
    else if !mapping.fields["local_path"].Str? then Failure(TypeError)
    else
      var localPath := mapping.fields["local_path"].s;
      if !isFile(localPath) then Success([Skipped(localPath)])
      else
        match RemoteList(mapping.fields["remote_paths"])
        case Failure(e) => Failure(e)
        case Success(remotes) =>
          Success(TargetSteps(localPath, remotes, exitStatus, puts))
  }

  /** One step per target, in order. */
  function TargetSteps(localPath: string, remotes: seq<Value>, exitStatus: string -> int,
                       puts: (string, string) -> bool): seq<Step>
  {
    seq(|remotes|, k requires 0 <= k < |remotes| => TargetStep(localPath, remotes[k], exitStatus, puts))
  }

  /** A mapping whose local file is missing yields one `Skipped` step and
      attempts no target, even one that could not be iterated. */
  lemma MissingLocalSkipped(mapping: Value, isFile: string -> bool, exitStatus: string -> int,
                            puts: (string, string) -> bool)
    requires mapping.Dict? && "local_path" in mapping.fields && "remote_paths" in mapping.fields
    requires mapping.fields["local_path"].Str? && !isFile(mapping.fields["local_path"].s)
    ensures MappingSteps(mapping, isFile, exitStatus, puts) == Success([Skipped(mapping.fields["local_path"].s)])
  {
  }

  /** Every target of an existing file is attempted, in order, whatever the
      earlier targets' outcomes: a failed target does not end the mapping. */
  lemma EveryTargetAttempted(mapping: Value, isFile: string -> bool, exitStatus: string -> int,
                             puts: (string, string) -> bool)
    requires mapping.Dict? && "local_path" in mapping.fields && "remote_paths" in mapping.fields
    requires mapping.fields["local_path"].Str? && isFile(mapping.fields["local_path"].s)
    requires RemoteList(mapping.fields["remote_paths"]).Success?
    ensures var r := MappingSteps(mapping, isFile, exitStatus, puts);
      var remotes := RemoteList(mapping.fields["remote_paths"]).value;
      r.Success? && |r.value| == |remotes|
      && forall k :: 0 <= k < |remotes| ==>
           r.value[k] == TargetStep(mapping.fields["local_path"].s, remotes[k], exitStatus, puts)
  {
  }

  /** The steps taken and what, if anything, escaped `upload_files`. */
  datatype Outcome = Outcome(steps: seq<Step>, raised: Option<Error>)

  /** The outer loop over a sequence of mappings: steps accumulate until a
      mapping raises, and that error ends the loop. */
  function UploadSpec(mappings: seq<Value>, isFile: string -> bool, exitStatus: string -> int,
                      puts: (string, string) -> bool): Outcome
  {
    if mappings == [] then Outcome([], None)
    else
      var before := UploadSpec(mappings[..|mappings| - 1], isFile, exitStatus, puts);
      if before.raised.Some? then before
      else
        match MappingSteps(mappings[|mappings| - 1], isFile, exitStatus, puts)
        case Failure(e) => Outcome(before.steps, Some(e))
        case Success(steps) => Outcome(before.steps + steps, None)
  }

  /** The steps of mappings that all go through, concatenated. */
  function AllSteps(mappings: seq<Value>, isFile: string -> bool, exitStatus: string -> int,
                    puts: (string, string) -> bool): seq<Step>
  {
    if mappings == [] then []
    else
      var last := MappingSteps(mappings[|mappings| - 1], isFile, exitStatus, puts);
      AllSteps(mappings[..|mappings| - 1], isFile, exitStatus, puts) + (if last.Success? then last.value else [])
  }

  /** When no mapping raises, every mapping's steps are taken and nothing escapes. */
  lemma {:induction false} UploadCompletes(mappings: seq<Value>, isFile: string -> bool, exitStatus: string -> int,
                                           puts: (string, string) -> bool)
    requires forall k :: 0 <= k < |mappings| ==> MappingSteps(mappings[k], isFile, exitStatus, puts).Success?
    ensures UploadSpec(mappings, isFile, exitStatus, puts) == Outcome(AllSteps(mappings, isFile, exitStatus, puts), None)
  {
    if mappings != [] {
      var init := mappings[..|mappings| - 1];
      assert forall k :: 0 <= k < |init| ==> init[k] == mappings[k];
      UploadCompletes(init, isFile, exitStatus, puts);
    }
  }

  /** The first mapping that raises ends the run: the steps of the mappings
      before it are kept and its error escapes. */
  lemma {:induction false} UploadStopsAtFirstError(mappings: seq<Value>, i: nat, isFile: string -> bool,
                                                   exitStatus: string -> int, puts: (string, string) -> bool)
    requires i < |mappings| && MappingSteps(mappings[i], isFile, exitStatus, puts).Failure?
    requires forall k :: 0 <= k < i ==> MappingSteps(mappings[k], isFile, exitStatus, puts).Success?
    ensures UploadSpec(mappings, isFile, exitStatus, puts)
      == Outcome(AllSteps(mappings[..i], isFile, exitStatus, puts),
                 Some(MappingSteps(mappings[i], isFile, exitStatus, puts).error))
  {
    var init := mappings[..|mappings| - 1];
    if i == |mappings| - 1 {
      assert forall k :: 0 <= k < |init| ==> init[k] == mappings[k];
      UploadCompletes(init, isFile, exitStatus, puts);
      assert mappings[..i] == init;
    } else {
      assert forall k :: 0 <= k < |init| ==> init[k] == mappings[k];
      UploadStopsAtFirstError(init, i, isFile, exitStatus, puts);
      assert init[..i] == mappings[..i];
    }
  }

  /** Once a prefix has raised, the rest of the mappings change nothing. */
  lemma {:induction false} UploadSpecSticky(mappings: seq<Value>, i: nat, isFile: string -> bool,
                                            exitStatus: string -> int, puts: (string, string) -> bool)
    requires i <= |mappings| && UploadSpec(mappings[..i], isFile, exitStatus, puts).raised.Some?
    ensures UploadSpec(mappings, isFile, exitStatus, puts) == UploadSpec(mappings[..i], isFile, exitStatus, puts)
  {
    if i < |mappings| {
      var init := mappings[..|mappings| - 1];
      assert init[..i] == mappings[..i];
      UploadSpecSticky(init, i, isFile, exitStatus, puts);
    } else {
      assert mappings[..i] == mappings;
    }
  }

  /** `upload_files` on whatever `file_mappings` holds: a list, string or
      binary value is iterated; the keys of a mapping are strings, on which the first lookup
      raises; anything else cannot be iterated. */
  function UploadFilesSpec(fileMappings: Value, isFile: string -> bool, exitStatus: string -> int,
                           puts: (string, string) -> bool): Outcome
  {
    match fileMappings
    case List(items) => UploadSpec(items, isFile, exitStatus, puts)
    case Str(s) => UploadSpec(Chars(s), isFile, exitStatus, puts)
    case Bytes(b) => UploadSpec(Octets(b), isFile, exitStatus, puts)
    case Dict(fields) => if fields == map[] then Outcome([], None) else Outcome([], Some(TypeError))
    case _ => Outcome([], Some(TypeError))
  }

  /** The body of the outer loop for one mapping, with the inner loop over its targets. */
  method UploadMapping(mapping: Value, isFile: string -> bool, exitStatus: string -> int,
                       puts: (string, string) -> bool) returns (r: Result<seq<Step>, Error>)
    ensures r == MappingSteps(mapping, isFile, exitStatus, puts)
  {
    if !mapping.Dict? {
      return Failure(TypeError);
    }
    var fields := mapping.fields;
    if "local_path" !in fields {
      return Failure(KeyError("local_path"));
    }
    if "remote_paths" !in fields {
      return Failure(KeyError("remote_paths"));
    }
    if !fields["local_path"].Str? {
      return Failure(TypeError);
    }
    var localPath := fields["local_path"].s;
    if !isFile(localPath) {
      return Success([Skipped(localPath)]);
    }
    var remotes := RemoteList(fields["remote_paths"]);
    if remotes.Failure? {
      return Failure(remotes.error);
    }
    var steps := UploadTargets(localPath, remotes.value, exitStatus, puts);
    r := Success(steps);
  }

  /** The inner loop: every target of one existing local file, in order. */
  method UploadTargets(localPath: string, remotes: seq<Value>, exitStatus: string -> int,
                       puts: (string, string) -> bool) returns (steps: seq<Step>)
    ensures steps == TargetSteps(localPath, remotes, exitStatus, puts)
  {
    steps := [];
    for j := 0 to |remotes|
      invariant |steps| == j
      invariant forall k :: 0 <= k < j ==> steps[k] == TargetStep(localPath, remotes[k], exitStatus, puts)
    {
      steps := steps + [TargetStep(localPath, remotes[j], exitStatus, puts)];
    }
  }

  /** `upload_files`: the steps it takes, in order, and the error that
      escapes it, if any. */
  method UploadFiles(fileMappings: Value, isFile: string -> bool, exitStatus: string -> int,
                     puts: (string, string) -> bool) returns (steps: seq<Step>, raised: Option<Error>)
    ensures Outcome(steps, raised) == UploadFilesSpec(fileMappings, isFile, exitStatus, puts)
  {
    var mappings: seq<Value>;
    match fileMappings {
      case List(items) => mappings := items;
      case Str(s) => mappings := Chars(s);
      case Bytes(b) => mappings := Octets(b);
      case Dict(fields) =>
        if fields == map[] {
          return [], None;
        }
        return [], Some(TypeError);
      case _ =>
        return [], Some(TypeError);
    }
    steps, raised := UploadAll(mappings, isFile, exitStatus, puts);
  }

  /** The outer loop over a sequence of mappings. */
  method UploadAll(mappings: seq<Value>, isFile: string -> bool, exitStatus: string -> int,
                   puts: (string, string) -> bool) returns (steps: seq<Step>, raised: Option<Error>)
    ensures Outcome(steps, raised) == UploadSpec(mappings, isFile, exitStatus, puts)
  {
    steps := [];
    for i := 0 to |mappings|
      invariant UploadSpec(mappings[..i], isFile, exitStatus, puts) == Outcome(steps, None)
    {
      assert mappings[..i + 1][..i] == mappings[..i];
      var r := UploadMapping(mappings[i], isFile, exitStatus, puts);
      if r.Failure? {
        UploadSpecSticky(mappings, i + 1, isFile, exitStatus, puts);
        return steps, Some(r.error);
      }
      steps := steps + r.value;
    }
    assert mappings[..|mappings|] == mappings;
    raised := None;
  }
}

/**
 * Properties of UploadFile: the refusal of append in staged mode, what the
 * destination holds after a direct or staged upload, what a failed move leaves
 * behind, and how an upload and a later download of the same file relate.
 */
module UploadLemmas {
  import opened Wrappers
  import opened Basics
  import opened Paths
  import opened Remote
  import opened Scratch
  import opened FileContentModel
  import opened FileInfoModel
  import opened Outcomes
  import opened SftpRules
  import opened Semantics
  import Base64Codec
  import Utf8Codec

  /** A temporary folder that is not blank stays not blank once combined with the root. */
  lemma NotBlankAfterJoin(root: string, t: string)
    requires !AllWhiteSpace(t)
    ensures !AllWhiteSpace(ForwardSlashes(Join(root, t)))
  {
    var i :| 0 <= i < |t| && !IsWhiteSpace(t[i]);
    var joined := Join(root, t);
    var k := |joined| - |t| + i;
    if root != [] {
      var sep :| sep in {"", [DirectorySeparator]} && joined == root + sep + t;
      assert joined[k] == t[i];
    } else {
      assert joined[k] == t[i];
    }
    assert ForwardSlashes(joined)[k] == (if t[i] == DirectorySeparator then AltDirectorySeparator else t[i]);
  }

  /**
   * Appending in staged mode is refused with BadRequest before anything happens: no
   * validation error is collected and the server is not touched.
   */
  lemma StagedAppendIsRefused(c: Config, env: Env, content: Option<FileContent>, filePath: Option<string>,
                              temporaryFolder: Option<string>)
    requires !IsNullOrWhiteSpace(temporaryFolder)
    ensures UploadFile(c, env, content, filePath, true, temporaryFolder) == (BadRequest, env)
  {
    if ResolveTemporaryFolder(c.rootFolderPath, temporaryFolder).Success? {
      NotBlankAfterJoin(c.rootFolderPath, temporaryFolder.value);
    }
  }

  /** With a blank temporary folder the upload is direct, once validation passes and the stream can be built. */
  lemma DirectModeChosen(c: Config, env: Env, content: FileContent, bytes: seq<byte>, folder: string, name: string,
                         appendIfExist: bool, temporaryFolder: Option<string>)
    requires Ready(c, env) && StreamBytes(content) == Success(bytes) && IsNullOrWhiteSpace(temporaryFolder)
    ensures UploadTransport(c, env, content, folder, name, appendIfExist, temporaryFolder)
         == DirectUpload(c, env, bytes, folder, name, appendIfExist)
  {
    assert Validate(c, env) == (true, env);
  }

  /** A direct upload whose put succeeds answers with the descriptor and leaves the store the put made. */
  lemma DirectUploadSucceeds(c: Config, env: Env, bytes: seq<byte>, folder: string, name: string, appendIfExist: bool,
                             s1: StoreState)
    requires UploadToFolder(c.limits, env.store, bytes, folder, name, appendIfExist) == Success(s1)
    ensures DirectUpload(c, env, bytes, folder, name, appendIfExist) == (UploadedResponse(c, folder, name), env.(store := s1))
  {
  }

  /** Appending to a file that exists puts its old bytes followed by the new ones. */
  lemma AppendToExisting(limits: Limits, s: StoreState, bytes: seq<byte>, folder: string, name: string, existing: seq<byte>)
    requires folder != "" && AltDirectorySeparator !in name
    requires Download(s, RemotePath(folder, name)) == Success(existing)
    requires |name| <= limits.maxFileNameLength && |existing| + |bytes| <= limits.capacity
    ensures Upload(s, RemotePath(folder, name), existing + bytes).Success?
    ensures UploadToFolder(limits, s, bytes, folder, name, true) == Success(Upload(s, RemotePath(folder, name), existing + bytes).value)
  {
    SplitRemotePath(folder, name);
    assert Exists(s, RemotePath(folder, name)) == Success(true);
  }

  /** Without append, or with no file of that name, exactly the new bytes are put. */
  lemma PutNew(limits: Limits, s: StoreState, bytes: seq<byte>, folder: string, name: string, appendIfExist: bool)
    requires folder != "" && AltDirectorySeparator !in name
    requires folder in s.folders && folder !in s.denied
    requires Lookup(s.folders[folder], name) != Some(Directory)
    requires appendIfExist ==> Lookup(s.folders[folder], name).None?
    requires |name| <= limits.maxFileNameLength && |bytes| <= limits.capacity
    ensures Upload(s, RemotePath(folder, name), bytes).Success?
    ensures UploadToFolder(limits, s, bytes, folder, name, appendIfExist) == Success(Upload(s, RemotePath(folder, name), bytes).value)
  {
    NothingToAppend(s, folder, name, appendIfExist);
    UploadIntoFolder(s, bytes, folder, name);
    UploadToFolderFresh(limits, s, bytes, folder, name, appendIfExist);
  }

  /** With an empty scratch file to start from, UploadToFolder is the put of exactly the new bytes. */
  lemma UploadToFolderFresh(limits: Limits, s: StoreState, bytes: seq<byte>, folder: string, name: string, appendIfExist: bool)
    requires ExistingBytes(s, RemotePath(folder, name), appendIfExist) == Success([])
    requires |name| <= limits.maxFileNameLength && |bytes| <= limits.capacity
    requires Upload(s, RemotePath(folder, name), bytes).Success?
    ensures UploadToFolder(limits, s, bytes, folder, name, appendIfExist) == Success(Upload(s, RemotePath(folder, name), bytes).value)
  {
    assert [] + bytes == bytes;
    UploadToFolderWritten(limits, s, bytes, folder, name, appendIfExist, [], bytes);
  }

  /** Without append, or with no file of that name, the scratch file starts empty. */
  lemma NothingToAppend(s: StoreState, folder: string, name: string, appendIfExist: bool)
    requires folder != "" && AltDirectorySeparator !in name
    requires folder in s.folders && folder !in s.denied
    requires appendIfExist ==> Lookup(s.folders[folder], name).None?
    ensures ExistingBytes(s, RemotePath(folder, name), appendIfExist) == Success([])
  {
    SplitRemotePath(folder, name);
    if appendIfExist {
      assert Exists(s, RemotePath(folder, name)) == Success(false);
    }
  }

  /** Once the scratch file is written, UploadToFolder is the put of the existing bytes and then the new ones. */
  lemma UploadToFolderWritten(limits: Limits, s: StoreState, bytes: seq<byte>, folder: string, name: string,
                              appendIfExist: bool, existing: seq<byte>, data: seq<byte>)
    requires ExistingBytes(s, RemotePath(folder, name), appendIfExist) == Success(existing)
    requires AppendOutcome(limits, existing, name, bytes) == Written
    requires data == existing + bytes && Upload(s, RemotePath(folder, name), data).Success?
    ensures UploadToFolder(limits, s, bytes, folder, name, appendIfExist)
         == Success(Upload(s, RemotePath(folder, name), data).value)
  {
  }

  /** A put into a readable folder succeeds unless a directory holds the name. */
  lemma UploadIntoFolder(s: StoreState, bytes: seq<byte>, folder: string, name: string)
    requires folder != "" && AltDirectorySeparator !in name
    requires folder in s.folders && folder !in s.denied
    requires Lookup(s.folders[folder], name) != Some(Directory)
    ensures Upload(s, RemotePath(folder, name), bytes).Success?
  {
    SplitRemotePath(folder, name);
  }

  /** Appending to a file that exists leaves it holding its old bytes followed by the new ones. */
  lemma DirectAppendConcatenates(c: Config, env: Env, content: FileContent, bytes: seq<byte>,
                                 folder: string, name: string, existing: seq<byte>)
    requires Ready(c, env) && StreamBytes(content) == Success(bytes)
    requires folder != "" && AltDirectorySeparator !in name
    requires Download(env.store, RemotePath(folder, name)) == Success(existing)
    requires |name| <= c.limits.maxFileNameLength && |existing| + |bytes| <= c.limits.capacity
    ensures var (r, env1) := UploadTransport(c, env, content, folder, name, true, None);
      && r == UploadedResponse(c, folder, name)
      && Download(env1.store, RemotePath(folder, name)) == Success(existing + bytes)
  {
    DirectModeChosen(c, env, content, bytes, folder, name, true, None);
    AppendToExisting(c.limits, env.store, bytes, folder, name, existing);
    var s1 := Upload(env.store, RemotePath(folder, name), existing + bytes).value;
    DirectUploadSucceeds(c, env, bytes, folder, name, true, s1);
    DownloadAfterUpload(env.store, RemotePath(folder, name), existing + bytes);
  }

  /**
   * Without append, or when no file of that name exists, the destination holds exactly
   * the new bytes afterwards, whatever file was there before.
   */
  lemma DirectUploadOverwrites(c: Config, env: Env, content: FileContent, bytes: seq<byte>,
                               folder: string, name: string, appendIfExist: bool)
    requires Ready(c, env) && StreamBytes(content) == Success(bytes)
    requires folder != "" && AltDirectorySeparator !in name
    requires folder in env.store.folders && folder !in env.store.denied
    requires Lookup(env.store.folders[folder], name) != Some(Directory)
    requires appendIfExist ==> Lookup(env.store.folders[folder], name).None?
    requires |name| <= c.limits.maxFileNameLength && |bytes| <= c.limits.capacity
    ensures var (r, env1) := UploadTransport(c, env, content, folder, name, appendIfExist, None);
      && r == UploadedResponse(c, folder, name)
      && Download(env1.store, RemotePath(folder, name)) == Success(bytes)
  {
    if appendIfExist {
      DirectPutNew(c, env, content, bytes, folder, name, true);
    } else {
      DirectPutNew(c, env, content, bytes, folder, name, false);
    }
  }

  lemma DirectPutNew(c: Config, env: Env, content: FileContent, bytes: seq<byte>,
                     folder: string, name: string, appendIfExist: bool)
    requires Ready(c, env) && StreamBytes(content) == Success(bytes)
    requires folder != "" && AltDirectorySeparator !in name
    requires folder in env.store.folders && folder !in env.store.denied
    requires Lookup(env.store.folders[folder], name) != Some(Directory)
    requires appendIfExist ==> Lookup(env.store.folders[folder], name).None?
    requires |name| <= c.limits.maxFileNameLength && |bytes| <= c.limits.capacity
    ensures var s1 := Upload(env.store, RemotePath(folder, name), bytes);
      && s1.Success? && Download(s1.value, RemotePath(folder, name)) == Success(bytes)
      && UploadTransport(c, env, content, folder, name, appendIfExist, None) == (UploadedResponse(c, folder, name), env.(store := s1.value))
  {
    PutNew(c.limits, env.store, bytes, folder, name, appendIfExist);
    var s1 := Upload(env.store, RemotePath(folder, name), bytes).value;
    DownloadAfterUpload(env.store, RemotePath(folder, name), bytes);
    DirectPutAnswers(c, env, content, bytes, folder, name, appendIfExist, s1);
  }

  lemma DirectPutAnswers(c: Config, env: Env, content: FileContent, bytes: seq<byte>,
                         folder: string, name: string, appendIfExist: bool, s1: StoreState)
    requires Ready(c, env) && StreamBytes(content) == Success(bytes)
    requires UploadToFolder(c.limits, env.store, bytes, folder, name, appendIfExist) == Success(s1)
    ensures UploadTransport(c, env, content, folder, name, appendIfExist, None) == (UploadedResponse(c, folder, name), env.(store := s1))
  {
    DirectModeChosen(c, env, content, bytes, folder, name, appendIfExist, None);
    DirectUploadSucceeds(c, env, bytes, folder, name, appendIfExist, s1);
  }

  /** What a staged upload needs of the server: both folders readable, and room on the scratch disk. */
  predicate StagingPossible(c: Config, env: Env, bytes: seq<byte>, folder: string, name: string, temporaryFolder: string)
  {
    && folder != "" && temporaryFolder != "" && folder != temporaryFolder && !AllWhiteSpace(temporaryFolder)
    && AltDirectorySeparator !in name
    && temporaryFolder in env.store.folders && temporaryFolder !in env.store.denied
    && Lookup(env.store.folders[temporaryFolder], name) != Some(Directory)
    && folder !in env.store.denied
    && |name| <= c.limits.maxFileNameLength && |bytes| <= c.limits.capacity
  }

  /** The state after the content is put to the temporary folder. */
  lemma StagingPut(c: Config, env: Env, bytes: seq<byte>, folder: string, name: string, temporaryFolder: string)
    requires StagingPossible(c, env, bytes, folder, name, temporaryFolder)
    ensures UploadToFolder(c.limits, env.store, bytes, temporaryFolder, name, false).Success?
    ensures var s1 := UploadToFolder(c.limits, env.store, bytes, temporaryFolder, name, false).value;
      && s1.denied == env.store.denied
      && temporaryFolder in s1.folders
      && Lookup(s1.folders[temporaryFolder], name) == Some(RegularFile(bytes))
      && (forall f :: f != temporaryFolder ==> (f in s1.folders <==> f in env.store.folders))
      && (forall f :: f != temporaryFolder && f in s1.folders ==> s1.folders[f] == env.store.folders[f])
  {
    var tempPath := RemotePath(temporaryFolder, name);
    SplitRemotePath(temporaryFolder, name);
    assert [] + bytes == bytes;
    UploadStores(env.store, tempPath, bytes);
  }

  /** With a temporary folder that is not blank, and no append, the upload is staged. */
  lemma StagedModeChosen(c: Config, env: Env, content: FileContent, bytes: seq<byte>, folder: string, name: string,
                         temporaryFolder: string)
    requires Ready(c, env) && StreamBytes(content) == Success(bytes) && !AllWhiteSpace(temporaryFolder)
    ensures UploadTransport(c, env, content, folder, name, false, Some(temporaryFolder))
         == StagedUpload(c, env, bytes, folder, name, temporaryFolder)
  {
    assert Validate(c, env) == (true, env);
  }

  /**
   * Once the staged file is in the temporary folder: the destination is found readable,
   * removed when present, and the staged file's move into place succeeds.
   */
  lemma MoveAfterRemove(s1: StoreState, bytes: seq<byte>, folder: string, name: string, temporaryFolder: string)
    requires folder != "" && temporaryFolder != "" && folder != temporaryFolder && AltDirectorySeparator !in name
    requires folder in s1.folders && folder !in s1.denied
    requires temporaryFolder in s1.folders && temporaryFolder !in s1.denied
    requires Lookup(s1.folders[temporaryFolder], name) == Some(RegularFile(bytes))
    ensures var destinationPath := RemotePath(folder, name);
      Exists(s1, destinationPath).Success? &&
      var s2 := if Exists(s1, destinationPath).value then RemoveUnchecked(s1, destinationPath) else s1;
      && Move(s2, RemotePath(temporaryFolder, name), destinationPath).Success?
      && Download(Move(s2, RemotePath(temporaryFolder, name), destinationPath).value, destinationPath) == Success(bytes)
      && Exists(Move(s2, RemotePath(temporaryFolder, name), destinationPath).value, RemotePath(temporaryFolder, name)) == Success(false)
  {
    var destinationPath := RemotePath(folder, name);
    DestinationCleared(s1, folder, name, temporaryFolder);
    var s2 := if Exists(s1, destinationPath).value then RemoveUnchecked(s1, destinationPath) else s1;
    StagedFileLands(s2, bytes, folder, name, temporaryFolder);
  }

  /** Removing a destination that is present leaves no entry of that name there, and the other folder as it was. */
  lemma DestinationCleared(s1: StoreState, folder: string, name: string, temporaryFolder: string)
    requires folder != "" && folder != temporaryFolder && AltDirectorySeparator !in name
    requires folder in s1.folders && folder !in s1.denied
    requires temporaryFolder in s1.folders
    ensures var destinationPath := RemotePath(folder, name);
      Exists(s1, destinationPath).Success? &&
      var s2 := if Exists(s1, destinationPath).value then RemoveUnchecked(s1, destinationPath) else s1;
      && s2.denied == s1.denied && folder in s2.folders && temporaryFolder in s2.folders
      && Lookup(s2.folders[folder], name).None?
      && s2.folders[temporaryFolder] == s1.folders[temporaryFolder]
  {
    SplitRemotePath(folder, name);
    WithoutRemovesName(s1.folders[folder], name);
  }

  /** A staged file moved into a folder without that name lands there and leaves the temporary folder. */
  lemma StagedFileLands(s2: StoreState, bytes: seq<byte>, folder: string, name: string, temporaryFolder: string)
    requires folder != "" && temporaryFolder != "" && folder != temporaryFolder && AltDirectorySeparator !in name
    requires folder in s2.folders && folder !in s2.denied
    requires temporaryFolder in s2.folders && temporaryFolder !in s2.denied
    requires Lookup(s2.folders[temporaryFolder], name) == Some(RegularFile(bytes))
    requires Lookup(s2.folders[folder], name).None?
    ensures var destinationPath := RemotePath(folder, name);
      && Move(s2, RemotePath(temporaryFolder, name), destinationPath).Success?
      && Download(Move(s2, RemotePath(temporaryFolder, name), destinationPath).value, destinationPath) == Success(bytes)
      && Exists(Move(s2, RemotePath(temporaryFolder, name), destinationPath).value, RemotePath(temporaryFolder, name)) == Success(false)
  {
    var destinationPath := RemotePath(folder, name);
    var tempPath := RemotePath(temporaryFolder, name);
    SplitRemotePath(folder, name);
    SplitRemotePath(temporaryFolder, name);
    var entries := s2.folders[temporaryFolder];
    var s2a := s2.(folders := s2.folders[temporaryFolder := Without(entries, name)]);
    var targetEntries := s2a.folders[folder];
    LookupAppended(targetEntries, Entry(name, RegularFile(bytes)));
    WithoutRemovesName(entries, name);
    var s3 := Move(s2, tempPath, destinationPath).value;
    assert s3.folders[folder] == targetEntries + [Entry(name, RegularFile(bytes))];
  }
  /**
   * Staged mode: the content is put to the temporary folder, an existing destination is
   * removed, and the staged file is moved into place, so the destination holds the new
   * bytes and the temporary folder no longer holds the file.
   */
  lemma StagedUploadMovesIntoPlace(c: Config, env: Env, content: FileContent, bytes: seq<byte>,
                                   folder: string, name: string, temporaryFolder: string)
    requires Ready(c, env) && StreamBytes(content) == Success(bytes)
    requires StagingPossible(c, env, bytes, folder, name, temporaryFolder)
    requires folder in env.store.folders
    ensures var (r, env1) := UploadTransport(c, env, content, folder, name, false, Some(temporaryFolder));
      && r == UploadedResponse(c, folder, name)
      && Download(env1.store, RemotePath(folder, name)) == Success(bytes)
      && Exists(env1.store, RemotePath(temporaryFolder, name)) == Success(false)
  {
    StagedModeChosen(c, env, content, bytes, folder, name, temporaryFolder);
    StagingPut(c, env, bytes, folder, name, temporaryFolder);
    var s1 := UploadToFolder(c.limits, env.store, bytes, temporaryFolder, name, false).value;
    MoveAfterRemove(s1, bytes, folder, name, temporaryFolder);
  }

  /**
   * A staged upload whose move fails answers NotFound, and the staged copy stays in
   * the temporary folder: nothing cleans it up.
   */
  lemma FailedMoveKeepsStagedCopy(c: Config, env: Env, content: FileContent, bytes: seq<byte>,
                                  folder: string, name: string, temporaryFolder: string)
    requires Ready(c, env) && StreamBytes(content) == Success(bytes)
    requires StagingPossible(c, env, bytes, folder, name, temporaryFolder)
    requires folder !in env.store.folders
    ensures var (r, env1) := UploadTransport(c, env, content, folder, name, false, Some(temporaryFolder));
      && r == NotFound
      && Download(env1.store, RemotePath(temporaryFolder, name)) == Success(bytes)
  {
    SplitRemotePath(folder, name);
    SplitRemotePath(temporaryFolder, name);
    StagingPut(c, env, bytes, folder, name, temporaryFolder);
  }

  /** An upload that succeeds describes the destination folder and name, in either mode. */
  lemma UploadDescribesDestination(c: Config, env: Env, content: FileContent, folder: string, name: string,
                                   appendIfExist: bool, temporaryFolder: Option<string>)
    ensures var r := UploadTransport(c, env, content, folder, name, appendIfExist, temporaryFolder).0;
      r.Ok? ==>
        && r.payload.Descriptor?
        && r.payload.info.folderPath == Some(folder) && r.payload.info.fileName == Some(name)
        && r.payload.info.serverAddress == c.connection.serverAddress
  {
    var r := UploadTransport(c, env, content, folder, name, appendIfExist, temporaryFolder).0;
    var (ok, env1) := Validate(c, env);
    if !IsNullOrWhiteSpace(temporaryFolder) && appendIfExist {
      assert r == BadRequest;
    } else if !ok || !env1.store.reachable || StreamBytes(content).Failure? {
      assert r == BadRequest;
    } else if IsNullOrWhiteSpace(temporaryFolder) {
      assert r == DirectUpload(c, env1, StreamBytes(content).value, folder, name, appendIfExist).0;
      DirectUploadResponse(c, env1, StreamBytes(content).value, folder, name, appendIfExist);
    } else {
      assert r == StagedUpload(c, env1, StreamBytes(content).value, folder, name, temporaryFolder.value).0;
      StagedUploadResponse(c, env1, StreamBytes(content).value, folder, name, temporaryFolder.value);
    }
    UploadedResponseDescribes(c, folder, name);
  }

  /** The descriptor of an upload names the destination folder and file and the server. */
  lemma UploadedResponseDescribes(c: Config, folder: string, name: string)
    ensures var r := UploadedResponse(c, folder, name);
      r.Ok? ==>
        && r.payload.Descriptor?
        && r.payload.info.folderPath == Some(folder) && r.payload.info.fileName == Some(name)
        && r.payload.info.serverAddress == c.connection.serverAddress
  {
  }

  /** A direct upload answers OK only with the descriptor of the destination. */
  lemma DirectUploadResponse(c: Config, env: Env, bytes: seq<byte>, folder: string, name: string, appendIfExist: bool)
    ensures var r := DirectUpload(c, env, bytes, folder, name, appendIfExist).0;
      r.Ok? ==> r == UploadedResponse(c, folder, name)
  {
    var u := UploadToFolder(c.limits, env.store, bytes, folder, name, appendIfExist);
    if u.Failure? {
      assert DirectUpload(c, env, bytes, folder, name, appendIfExist).0 == UploadFailureResponse(u.error);
    }
  }

  /** A staged upload answers OK only with the descriptor of the destination. */
  lemma StagedUploadResponse(c: Config, env: Env, bytes: seq<byte>, folder: string, name: string, temporaryFolder: string)
    ensures var r := StagedUpload(c, env, bytes, folder, name, temporaryFolder).0;
      r.Ok? ==> r == UploadedResponse(c, folder, name)
  {
    var r := StagedUpload(c, env, bytes, folder, name, temporaryFolder).0;
    var u := UploadToFolder(c.limits, env.store, bytes, temporaryFolder, name, false);
    if u.Failure? {
      assert r == UploadFailureResponse(u.error);
    } else {
      var destinationPath := RemotePath(folder, name);
      var present := Exists(u.value, destinationPath);
      if present.Failure? {
        assert r == ErrorResponse(present.error);
      } else {
        var s2 := if present.value then RemoveUnchecked(u.value, destinationPath) else u.value;
        var moved := Move(s2, RemotePath(temporaryFolder, name), destinationPath);
        if moved.Failure? {
          assert r == NotFound;
        } else {
          assert r == UploadedResponse(c, folder, name);
        }
      }
    }
  }

  /**
   * The catch clauses of a direct upload: a remote error while reading the existing
   * file or putting the new one is classified by its message, a name too long for the
   * scratch path answers BadRequest and a scratch file that outgrows the disk
   * ServiceUnavailable; in every case the server is left as it was.
   */
  lemma UploadFailureClasses(c: Config, env: Env, bytes: seq<byte>, folder: string, name: string, appendIfExist: bool)
    ensures var upload := DirectUpload(c, env, bytes, folder, name, appendIfExist);
      match ExistingBytes(env.store, RemotePath(folder, name), appendIfExist)
      case Failure(e) => upload == (ErrorResponse(e), env)
      case Success(existing) =>
        && (AppendOutcome(c.limits, existing, name, bytes) == PathTooLong ==> upload == (BadRequest, env))
        && (AppendOutcome(c.limits, existing, name, bytes) == DiskFull ==> upload == (ServiceUnavailable, env))
        && (AppendOutcome(c.limits, existing, name, bytes) == Written && Upload(env.store, RemotePath(folder, name), existing + bytes).Failure?
            ==> upload == (ErrorResponse(Upload(env.store, RemotePath(folder, name), existing + bytes).error), env))
  {
    var upload := DirectUpload(c, env, bytes, folder, name, appendIfExist);
    var remotePath := RemotePath(folder, name);
    match ExistingBytes(env.store, remotePath, appendIfExist)
    case Failure(e) =>
      assert UploadToFolder(c.limits, env.store, bytes, folder, name, appendIfExist) == Failure(SessionFailure(e));
    case Success(existing) =>
      match AppendOutcome(c.limits, existing, name, bytes)
      case PathTooLong =>
        assert UploadToFolder(c.limits, env.store, bytes, folder, name, appendIfExist) == Failure(LocalPathTooLong);
      case DiskFull =>
        assert UploadToFolder(c.limits, env.store, bytes, folder, name, appendIfExist) == Failure(LocalIoFailure);
      case Written =>
        var put := Upload(env.store, remotePath, existing + bytes);
        if put.Failure? {
          assert UploadToFolder(c.limits, env.store, bytes, folder, name, appendIfExist) == Failure(SessionFailure(put.error));
        }
  }

  /**
   * The same catch clauses around the staging put: the scratch file holds only the new
   * bytes, and a local or remote failure answers before anything reaches the server.
   */
  lemma StagedUploadFailureClasses(c: Config, env: Env, bytes: seq<byte>, folder: string, name: string, temporaryFolder: string)
    ensures var upload := StagedUpload(c, env, bytes, folder, name, temporaryFolder);
      && (AppendOutcome(c.limits, [], name, bytes) == PathTooLong ==> upload == (BadRequest, env))
      && (AppendOutcome(c.limits, [], name, bytes) == DiskFull ==> upload == (ServiceUnavailable, env))
      && (AppendOutcome(c.limits, [], name, bytes) == Written && Upload(env.store, RemotePath(temporaryFolder, name), bytes).Failure?
          ==> upload == (ErrorResponse(Upload(env.store, RemotePath(temporaryFolder, name), bytes).error), env))
  {
    var remotePath := RemotePath(temporaryFolder, name);
    assert ExistingBytes(env.store, remotePath, false) == Success([]);
    match AppendOutcome(c.limits, [], name, bytes)
    case PathTooLong =>
      assert UploadToFolder(c.limits, env.store, bytes, temporaryFolder, name, false) == Failure(LocalPathTooLong);
    case DiskFull =>
      assert UploadToFolder(c.limits, env.store, bytes, temporaryFolder, name, false) == Failure(LocalIoFailure);
    case Written =>
      assert [] + bytes == bytes;
      var put := Upload(env.store, remotePath, bytes);
      if put.Failure? {
        assert UploadToFolder(c.limits, env.store, bytes, temporaryFolder, name, false) == Failure(SessionFailure(put.error));
      }
  }

  /** A server the session cannot open: every transport operation answers BadRequest and leaves the server as it was. */
  lemma UnreachableIsBadRequest(c: Config, env: Env, content: FileContent, folder: string, name: string,
                                appendIfExist: bool, temporaryFolder: Option<string>, encoding: ContentTransferEncoding)
    requires IsNullOrWhiteSpace(temporaryFolder) || !appendIfExist
    requires !env.store.reachable
    ensures UploadTransport(c, env, content, folder, name, appendIfExist, temporaryFolder).0 == BadRequest
    ensures UploadTransport(c, env, content, folder, name, appendIfExist, temporaryFolder).1.store == env.store
    ensures DeleteTransport(c, env, folder, name).0 == BadRequest && DeleteTransport(c, env, folder, name).1.store == env.store
    ensures GetTransport(c, env, folder, name, encoding).0 == BadRequest && GetTransport(c, env, folder, name, encoding).1.store == env.store
    ensures ListTransport(c, env, folder).0 == BadRequest && ListTransport(c, env, folder).1.store == env.store
  {
  }

  /** What a server needs for a direct upload of name into folder to succeed. */
  predicate DirectUploadPossible(c: Config, env: Env, bytes: seq<byte>, folder: string, name: string)
  {
    && folder != "" && AltDirectorySeparator !in name
    && !HasInvalidPathChars(folder) && !HasInvalidPathChars(name)
    && folder in env.store.folders && folder !in env.store.denied
    && Lookup(env.store.folders[folder], name) != Some(Directory)
    && |name| <= c.limits.maxFileNameLength && |bytes| <= c.limits.capacity
  }

  /** A direct upload that succeeds leaves the controller in working order, holding the bytes. */
  lemma DirectUploadStores(c: Config, env: Env, content: FileContent, bytes: seq<byte>, folder: string, name: string)
    requires Ready(c, env) && StreamBytes(content) == Success(bytes)
    requires DirectUploadPossible(c, env, bytes, folder, name)
    ensures var env1 := UploadTransport(c, env, content, folder, name, false, None).1;
      Ready(c, env1) && Download(env1.store, RemotePath(folder, name)) == Success(bytes)
  {
    DirectModeChosen(c, env, content, bytes, folder, name, false, None);
    PutNew(c.limits, env.store, bytes, folder, name, false);
    UploadStores(env.store, RemotePath(folder, name), bytes);
    UpdatesKeepAccess(env.store, RemotePath(folder, name), "", bytes);
  }

  /** Getting a file the server holds returns its bytes, in the encoding asked, under the folder and name requested. */
  lemma GetStoredFile(c: Config, env: Env, folder: string, name: string, bytes: seq<byte>, encoding: ContentTransferEncoding)
    requires Ready(c, env) && !HasInvalidPathChars(folder) && !HasInvalidPathChars(name)
    requires Download(env.store, RemotePath(folder, name)) == Success(bytes)
    ensures var r := GetTransport(c, env, folder, name, encoding).0;
      && r.Ok? && r.payload.Document?
      && r.payload.file == DownloadedFile(NewFileInfo(c.connection.serverAddress, folder, name).value, bytes, encoding)
  {
    assert Validate(c, env) == (true, env);
  }

  /**
   * Uploading text and then getting the file in Text mode gives the text back, in a
   * File that describes the folder and name requested.
   */
  lemma TextUploadThenGet(c: Config, env: Env, text: string, folder: string, name: string)
    requires Ready(c, env) && (text == [] || text[0] != Utf8Codec.ByteOrderMark)
    requires DirectUploadPossible(c, env, Utf8Codec.Encode(text), folder, name)
    ensures var (_, env1) := UploadTransport(c, env, FileContent(Some(text), EncodingNone), folder, name, false, None);
      var r := GetTransport(c, env1, folder, name, EncodingNone).0;
      && r.Ok? && r.payload.Document?
      && r.payload.file.content == Some(text) && r.payload.file.contentTransferEncoding == EncodingNone
      && r.payload.file.folderPath == Some(folder) && r.payload.file.fileName == Some(name)
  {
    var bytes := Utf8Codec.Encode(text);
    var content := FileContent(Some(text), EncodingNone);
    TextRoundTrip(text);
    DirectUploadStores(c, env, content, bytes, folder, name);
    var env1 := UploadTransport(c, env, content, folder, name, false, None).1;
    GetStoredFile(c, env1, folder, name, bytes, EncodingNone);
  }

  /**
   * Uploading base64 content and then getting the file in Binary mode gives content
   * that decodes to the same bytes.
   */
  lemma BinaryUploadThenGet(c: Config, env: Env, content: string, bytes: seq<byte>, folder: string, name: string)
    requires Ready(c, env) && Base64Codec.Decode(content) == Some(bytes)
    requires DirectUploadPossible(c, env, bytes, folder, name)
    ensures var (_, env1) := UploadTransport(c, env, FileContent(Some(content), EncodingBase64), folder, name, false, None);
      var r := GetTransport(c, env1, folder, name, EncodingBase64).0;
      && r.Ok? && r.payload.Document?
      && StreamBytes(ContentPart(r.payload.file)) == Success(bytes)
      && r.payload.file.folderPath == Some(folder) && r.payload.file.fileName == Some(name)
  {
    var fc := FileContent(Some(content), EncodingBase64);
    DirectUploadStores(c, env, fc, bytes, folder, name);
    var env1 := UploadTransport(c, env, fc, folder, name, false, None).1;
    GetStoredFile(c, env1, folder, name, bytes, EncodingBase64);
    Base64RoundTrip(bytes);
  }
}

/**
 * The SFTP controller and its transport fetcher as objects: the controller's
 * configuration properties, the validation errors and regex fields it updates, the
 * session's server and the local scratch disk. Every entry point is proved to do
 * what its definition in Semantics says.
 */
module Connector {
  import opened Wrappers
  import opened Basics
  import opened Paths
  import opened Remote
  import opened Scratch
  import opened Streams
  import opened FileContentModel
  import opened FileInfoModel
  import opened Masks
  import opened Outcomes
  import opened SftpRules
  import opened Semantics

  class SftpController {
    const rootFolderPath: string
    const serverAddress: Option<string>
    const serverPort: ushort
    const userName: Option<string>
    const password: Option<string>
    const privateKeyFilePath: Option<string>
    const privateKeyPassword: Option<string>
    const acceptAnySshServerHostKey: bool
    const sshServerHostKey: Option<string>
    const encryptCipher: EncryptionCipher
    const isConfigurationValid: bool
    /** The .NET regex engine, for the syntax the masks do not model. */
    const engine: RegexEngine

    var validationErrors: seq<ValidationError>
    var includeRegex: Option<Regex>
    var excludeRegex: Option<Regex>

    /** The server every session talks to. */
    const store: RemoteStore
    /** The machine's temporary path. */
    const disk: LocalDisk

    ghost predicate Valid()
      reads this, disk
    {
      disk.Valid()
    }

    function Connection(): ConnectionSettings
    {
      ConnectionSettings(serverAddress, serverPort, userName, password, privateKeyFilePath, privateKeyPassword,
        acceptAnySshServerHostKey, sshServerHostKey, encryptCipher)
    }

    function Config(): Config
    {
      Semantics.Config(rootFolderPath, Connection(), isConfigurationValid, disk.limits, engine)
    }

    function Env(): Env
      reads this, store
    {
      Semantics.Env(validationErrors, store.State())
    }

    function Filter(): Filter
      reads this
    {
      Masks.Filter(includeRegex, excludeRegex)
    }

    /**
     * The base and SFTP constructors, given the application settings and the
     * authentication details read from storage.
     */
    constructor (settings: map<string, string>, userName: Option<string>, password: Option<string>,
                 privateKeyFilePath: Option<string>, privateKeyPassword: Option<string>,
                 engine: RegexEngine, store: RemoteStore, disk: LocalDisk)
      requires disk.Valid()
      ensures Valid() && this.store == store && this.disk == disk && this.engine == engine
      ensures validationErrors == [] && includeRegex.None? && excludeRegex.None?
      ensures var p := ParseSettings(settings);
        && rootFolderPath == p.rootFolderPath && serverAddress == p.serverAddress && serverPort == p.serverPort
        && acceptAnySshServerHostKey == p.acceptAnySshServerHostKey && encryptCipher == p.encryptCipher
        && sshServerHostKey == p.sshServerHostKey && isConfigurationValid == p.configurationError.None?
      ensures this.userName == userName && this.password == password
      ensures this.privateKeyFilePath == privateKeyFilePath && this.privateKeyPassword == privateKeyPassword
    {
      var p := ParseSettings(settings);
      rootFolderPath := p.rootFolderPath;
      serverAddress := p.serverAddress;
      serverPort := p.serverPort;
      acceptAnySshServerHostKey := p.acceptAnySshServerHostKey;
      encryptCipher := p.encryptCipher;
      sshServerHostKey := p.sshServerHostKey;
      isConfigurationValid := p.configurationError.None?;
      this.userName := userName;
      this.password := password;
      this.privateKeyFilePath := privateKeyFilePath;
      this.privateKeyPassword := privateKeyPassword;
      this.engine := engine;
      this.store := store;
      this.disk := disk;
      validationErrors := [];
      includeRegex := None;
      excludeRegex := None;
    }

    // ----- ValidateController and OpenSession -----

    method ValidateController() returns (ok: bool)
      modifies this`validationErrors
      ensures (ok, Env()) == Validate(Config(), old(Env()))
    {
      var errors := ValidationErrors(Connection());
      validationErrors := validationErrors + errors;
      ok := |validationErrors| == 0;
    }

    /**
     * OpenSession: OK when the session opens, BadRequest when Session.Open throws. The
     * SessionOptions it passes (SftpRules.GetSessionOptions) do not decide the outcome in
     * this model: whether a session opens is the store's reachability.
     */
    method OpenSession() returns (r: Response)
      ensures r == if store.reachable then Ok(Empty) else BadRequest
    {
      var err := store.Open();
      r := if err.None? then Ok(Empty) else BadRequest;
    }

    // ----- SetRegex and CheckRegex -----

    method SetRegex(fileIncludeMask: Option<string>, fileExcludeMask: Option<string>) returns (compiled: bool)
      modifies this`includeRegex, this`excludeRegex
      ensures (Filter(), compiled) == Masks.SetRegex(engine, fileIncludeMask, fileExcludeMask, old(Filter()))
    {
      var includeMask := fileIncludeMask;
      if IsNullOrEmpty(includeMask) {
        includeMask := Some(DefaultMask);
      }
      var includePattern := Translate(includeMask.value);
      if !Compiles(engine, includePattern) {
        return false;
      }
      includeRegex := Some(Regex(includePattern));
      if !IsNullOrEmpty(fileExcludeMask) {
        var excludePattern := Translate(fileExcludeMask.value);
        if !Compiles(engine, excludePattern) {
          return false;
        }
        excludeRegex := Some(Regex(excludePattern));
      }
      return true;
    }

    method CheckRegex(file: string) returns (passes: bool)
      ensures passes == Masks.CheckRegex(engine, Filter(), file)
    {
      var checkExcludeRegex := true;
      var checkIncludeRegex := true;
      if excludeRegex.Some? && IsMatch(engine, excludeRegex.value, file) {
        checkExcludeRegex := false;
      }
      if includeRegex.Some? && !IsMatch(engine, includeRegex.value, file) {
        checkIncludeRegex := false;
      }
      passes := checkExcludeRegex && checkIncludeRegex;
    }

    // ----- Delete -----

    method DeleteTransportSpecificFile(folderPath: string, fileName: string) returns (r: Response)
      modifies this`validationErrors, store
      ensures (r, Env()) == DeleteTransport(Config(), old(Env()), folderPath, fileName)
    {
      var path := RemotePath(folderPath, fileName);
      var ok := ValidateController();
      if !ok {
        return BadRequest;
      }
      var session := OpenSession();
      if session != Ok(Empty) {
        return session;
      }
      var err := store.RemoveFiles(path);
      if err.Some? {
        return ErrorResponse(err.value);
      }
      return Ok(Deleted);
    }

    method DeleteFile(filePath: Option<string>) returns (r: Response)
      modifies this`validationErrors, store
      ensures (r, Env()) == Semantics.DeleteFile(Config(), old(Env()), filePath)
    {
      if !isConfigurationValid {
        return BadRequest;
      }
      var resolved := ResolveFile(rootFolderPath, filePath);
      if resolved.None? {
        return BadRequest;
      }
      var (folderPath, fileName) := resolved.value;
      r := DeleteTransportSpecificFile(folderPath, fileName);
    }

    // ----- Get -----

    /** The stream a downloaded file is read into, and the File built from it. */
    method BuildFile(bytes: seq<byte>, info: FileInfo, encoding: ContentTransferEncoding) returns (file: File)
      ensures file == DownloadedFile(info, bytes, encoding)
    {
      var stream := new Stream(bytes, true, 0);
      var fc := FromStream(stream, encoding);
      file := FileOf(info, fc.value);
    }

    /** The download inside the open session, through the scratch folder g. */
    method Fetch(folderPath: string, fileName: string, encoding: ContentTransferEncoding, g: nat) returns (r: Response)
      requires Valid() && g in disk.folders
      modifies disk
      ensures Valid() && g in disk.folders && disk.folders - {g} == old(disk.folders) - {g}
      ensures r == Fetched(Config(), store.State(), folderPath, fileName, encoding)
    {
      var downloaded := store.GetFiles(RemotePath(folderPath, fileName));
      if downloaded.Failure? {
        return ErrorResponse(downloaded.error);
      }
      disk.WriteFile(g, fileName, downloaded.value);
      var info := NewFileInfo(serverAddress, folderPath, fileName);
      if info.Failure? {
        return BadRequest;
      }
      var local := disk.ReadFile(g, fileName);
      var file := BuildFile(local.value, info.value, encoding);
      return Ok(Document(file));
    }

    method GetTransportSpecificFile(folderPath: string, fileName: string, encoding: ContentTransferEncoding) returns (r: Response)
      requires Valid()
      modifies this`validationErrors, disk
      ensures Valid() && disk.folders == old(disk.folders)
      ensures (r, Env()) == GetTransport(Config(), old(Env()), folderPath, fileName, encoding)
    {
      var temporaryPath := disk.NewTemporaryPath();
      var ok := ValidateController();
      if !ok {
        return BadRequest;
      }
      disk.CreateDirectory(temporaryPath);
      var session := OpenSession();
      if session != Ok(Empty) {
        r := session;
      } else {
        r := Fetch(folderPath, fileName, encoding, temporaryPath);
      }
      disk.DeleteDirectory(temporaryPath);
      assert disk.folders == old(disk.folders);
    }

    method GetFile(filePath: Option<string>, fileType: FileType) returns (r: Response)
      requires Valid()
      modifies this`validationErrors, disk
      ensures Valid() && disk.folders == old(disk.folders)
      ensures (r, Env()) == Semantics.GetFile(Config(), old(Env()), filePath, fileType)
    {
      if !isConfigurationValid {
        return BadRequest;
      }
      var resolved := ResolveFile(rootFolderPath, filePath);
      if resolved.None? {
        return BadRequest;
      }
      var (folderPath, fileName) := resolved.value;
      r := GetTransportSpecificFile(folderPath, fileName, GetEncodingBasedOnFileType(fileType));
    }

    // ----- List -----

    /** The loop over the directory's entries. */
    method CollectDescriptors(folderPath: string, names: seq<string>) returns (r: Result<seq<FileInfo>, PathError>)
      ensures r == Descriptors(serverAddress, folderPath, names)
    {
      var files: seq<FileInfo> := [];
      for i := 0 to |names|
        invariant Descriptors(serverAddress, folderPath, names[..i]) == Success(files)
      {
        assert names[..i + 1][..i] == names[..i];
        var fileName := names[i];
        if fileName != "." && fileName != ".." {
          var info := NewFileInfo(serverAddress, folderPath, fileName);
          if info.Failure? {
            DescriptorsKeepFailure(serverAddress, folderPath, names, i + 1);
            return Failure(info.error);
          }
          files := files + [info.value];
        }
      }
      assert names[..|names|] == names;
      return Success(files);
    }

    method ListTransportSpecificFile(folderPath: string) returns (r: Response)
      modifies this`validationErrors
      ensures (r, Env()) == ListTransport(Config(), old(Env()), folderPath)
    {
      var ok := ValidateController();
      if !ok {
        return BadRequest;
      }
      var session := OpenSession();
      if session != Ok(Empty) {
        return session;
      }
      var listing := store.ListDirectory(folderPath);
      if listing.Failure? {
        return ErrorResponse(listing.error);
      }
      var files := CollectDescriptors(folderPath, listing.value);
      if files.Failure? {
        return BadRequest;
      }
      return Ok(Listing(files.value));
    }

    method ListFiles(folderPath: Option<string>) returns (r: Response)
      modifies this`validationErrors
      ensures (r, Env()) == Semantics.ListFiles(Config(), old(Env()), folderPath)
    {
      if !isConfigurationValid {
        return BadRequest;
      }
      var resolved := ResolvePath(rootFolderPath, folderPath);
      if resolved.None? {
        return BadRequest;
      }
      r := ListTransportSpecificFile(resolved.value);
    }

    // ----- Upload -----

    /** The first part of UploadToFolder: when appending to a file that exists, its bytes go to the scratch file. */
    method StageExisting(remotePath: string, fileName: string, g: nat, appendIfExist: bool) returns (err: Option<RemoteError>)
      requires Valid() && g in disk.folders && disk.folders[g] == map[]
      modifies disk
      ensures Valid() && g in disk.folders && disk.folders - {g} == old(disk.folders) - {g}
      ensures var existing := ExistingBytes(store.State(), remotePath, appendIfExist);
        && (existing.Failure? ==> err == Some(existing.error))
        && (existing.Success? ==> err.None? && FileOr(disk.folders[g], fileName) == existing.value)
    {
      if appendIfExist {
        var present := store.FileExists(remotePath);
        if present.Failure? {
          return Some(present.error);
        }
        if present.value {
          var downloaded := store.GetFiles(remotePath);
          if downloaded.Failure? {
            return Some(downloaded.error);
          }
          disk.WriteFile(g, fileName, downloaded.value);
        }
      }
      return None;
    }

    /**
     * The scratch file of UploadToFolder: the remote file's bytes when appending to an
     * existing one, then the rest of the content stream.
     */
    method WriteScratch(content: Stream, remotePath: string, fileName: string, g: nat, appendIfExist: bool)
        returns (err: Option<UploadFailure>)
      requires Valid() && g in disk.folders && disk.folders[g] == map[]
      requires content.Valid() && content.isOpen
      modifies disk, content`position
      ensures Valid() && g in disk.folders
      ensures disk.folders - {g} == old(disk.folders) - {g}
      ensures match ExistingBytes(store.State(), remotePath, appendIfExist)
        case Failure(e) => err == Some(SessionFailure(e))
        case Success(existing) =>
          match AppendOutcome(disk.limits, existing, fileName, old(content.data[content.position..]))
          case PathTooLong => err == Some(LocalPathTooLong)
          case DiskFull => err == Some(LocalIoFailure)
          case Written =>
            err.None? && fileName in disk.folders[g] && disk.folders[g][fileName] == existing + old(content.data[content.position..])
    {
      var staged := StageExisting(remotePath, fileName, g, appendIfExist);
      if staged.Some? {
        return Some(SessionFailure(staged.value));
      }
      var data := content.ReadToEnd();
      var written := disk.AppendFile(g, fileName, data);
      if written == PathTooLong {
        return Some(LocalPathTooLong);
      }
      if written == DiskFull {
        return Some(LocalIoFailure);
      }
      return None;
    }

    /**
     * UploadToFolder: the scratch file is written as WriteScratch writes it, and is put
     * with overwrite to folder/fileName, the local copy removed afterwards.
     */
    method UploadToFolder(content: Stream, folderPath: string, fileName: string, g: nat, appendIfExist: bool)
        returns (err: Option<UploadFailure>)
      requires Valid() && g in disk.folders && disk.folders[g] == map[]
      requires content.Valid() && content.isOpen
      modifies store, disk, content`position
      ensures Valid() && g in disk.folders
      ensures disk.folders - {g} == old(disk.folders) - {g}
      ensures var u := Semantics.UploadToFolder(disk.limits, old(store.State()), old(content.data[content.position..]),
                                                 folderPath, fileName, appendIfExist);
        && (u.Success? ==> err.None? && store.State() == u.value)
        && (u.Failure? ==> err == Some(u.error) && store.State() == old(store.State()))
    {
      var remotePath := RemotePath(folderPath, fileName);
      err := WriteScratch(content, remotePath, fileName, g, appendIfExist);
      if err.Some? {
        return;
      }
      var local := disk.ReadFile(g, fileName);
      var put := store.PutFiles(remotePath, local.value);
      if put.Some? {
        return Some(SessionFailure(put.value));
      }
      disk.DeleteFile(g, fileName);
      return None;
    }

    /** The staged mode, once the content is in the temporary folder. */
    method MoveIntoPlace(folderPath: string, fileName: string, temporaryFolder: string) returns (r: Response)
      modifies store
      ensures var s1 := old(store.State());
        var destinationPath := RemotePath(folderPath, fileName);
        match Exists(s1, destinationPath)
        case Failure(e) => r == ErrorResponse(e) && store.State() == s1
        case Success(present) =>
          var s2 := if present then RemoveUnchecked(s1, destinationPath) else s1;
          match Move(s2, RemotePath(temporaryFolder, fileName), destinationPath)
          case Failure(_) => r == NotFound && store.State() == s2
          case Success(s3) => r == UploadedResponse(Config(), folderPath, fileName) && store.State() == s3
    {
      var tempPath := RemotePath(temporaryFolder, fileName);
      var destinationPath := RemotePath(folderPath, fileName);
      var present := store.FileExists(destinationPath);
      if present.Failure? {
        return ErrorResponse(present.error);
      }
      if present.value {
        var _ := store.RemoveFiles(destinationPath);
      }
      var moved := store.MoveFile(tempPath, destinationPath);
      if moved.Some? {
        return NotFound;
      }
      r := UploadedResponse(Config(), folderPath, fileName);
    }

    /** The upload inside the open session, through the scratch folder g. */
    method Transfer(content: Stream, folderPath: string, fileName: string, appendIfExist: bool,
                    temporaryFolder: Option<string>, g: nat) returns (r: Response)
      requires Valid() && g in disk.folders && disk.folders[g] == map[]
      requires content.Valid() && content.isOpen && content.position == 0
      requires temporaryFolder.Some? && !IsNullOrWhiteSpace(temporaryFolder) ==> !appendIfExist
      modifies store, disk, content`position
      ensures Valid() && g in disk.folders && disk.folders - {g} == old(disk.folders) - {g}
      ensures var env := Semantics.Env(validationErrors, old(store.State()));
        var (response, env1) :=
          if IsNullOrWhiteSpace(temporaryFolder) then DirectUpload(Config(), env, content.data, folderPath, fileName, appendIfExist)
          else StagedUpload(Config(), env, content.data, folderPath, fileName, temporaryFolder.value);
        r == response && Env() == env1
    {
      if IsNullOrWhiteSpace(temporaryFolder) {
        var err := UploadToFolder(content, folderPath, fileName, g, appendIfExist);
        if err.Some? {
          return UploadFailureResponse(err.value);
        }
        r := UploadedResponse(Config(), folderPath, fileName);
      } else {
        var err := UploadToFolder(content, temporaryFolder.value, fileName, g, false);
        if err.Some? {
          return UploadFailureResponse(err.value);
        }
        r := MoveIntoPlace(folderPath, fileName, temporaryFolder.value);
      }
    }

    method UploadTransportSpecificFile(content: FileContent, folderPath: string, fileName: string,
                                       appendIfExist: bool, temporaryFolder: Option<string>) returns (r: Response)
      requires Valid()
      modifies this`validationErrors, store, disk
      ensures Valid() && disk.folders == old(disk.folders)
      ensures (r, Env()) == UploadTransport(Config(), old(Env()), content, folderPath, fileName, appendIfExist, temporaryFolder)
    {
      if !IsNullOrWhiteSpace(temporaryFolder) && appendIfExist {
        // The ArgumentException thrown here becomes BadRequest in UploadFile.
        return BadRequest;
      }
      var ok := ValidateController();
      if !ok {
        return BadRequest;
      }
      var temporaryPath := disk.NewTemporaryPath();
      disk.CreateDirectory(temporaryPath);
      var session := OpenSession();
      if session != Ok(Empty) {
        r := session;
      } else {
        var stream := GetStream(content);
        if stream.Failure? {
          // ContentNullException and ContentInvalidBase64Exception become BadRequest in UploadFile.
          r := BadRequest;
        } else {
          r := Transfer(stream.value, folderPath, fileName, appendIfExist, temporaryFolder, temporaryPath);
        }
      }
      disk.DeleteDirectory(temporaryPath);
      assert disk.folders == old(disk.folders);
    }

    method UploadFile(content: Option<FileContent>, filePath: Option<string>, appendIfExists: bool,
                      temporaryFolder: Option<string>) returns (r: Response)
      requires Valid()
      modifies this`validationErrors, store, disk
      ensures Valid() && disk.folders == old(disk.folders)
      ensures (r, Env()) == Semantics.UploadFile(Config(), old(Env()), content, filePath, appendIfExists, temporaryFolder)
    {
      if !isConfigurationValid {
        return BadRequest;
      }
      if content.None? {
        return BadRequest;
      }
      var combined := Combine(Some(rootFolderPath), filePath);
      if combined.Failure? {
        return BadRequest;
      }
      var path := ForwardSlashes(combined.value);
      var temporary := ResolveTemporaryFolder(rootFolderPath, temporaryFolder);
      if temporary.Failure? {
        return BadRequest;
      }
      if AllWhiteSpace(path) {
        return BadRequest;
      }
      var (folderPath, fileName) := SplitPath(path);
      r := UploadTransportSpecificFile(content.value, folderPath, fileName, appendIfExists, temporary.value);
    }

    // ----- The polling trigger -----

    method OnDeliveryCompletion(fileName: Option<string>, folderPath: Option<string>) returns (r: Result<Response, PathError>)
      modifies this`validationErrors, store
      ensures (r, Env()) == DeliveryCompletion(Config(), old(Env()), fileName, folderPath)
    {
      if !IsNullOrEmpty(fileName) {
        var path := Combine(folderPath, fileName);
        if path.Failure? {
          return Failure(path.error);
        }
        var deletionResponse := DeleteFile(Some(path.value));
        if deletionResponse != NotFound {
          return Success(deletionResponse);
        }
      }
      return Success(Ok(Empty));
    }

    /** The loop of GetNextFile: the first name of the fetch list whose resource can be fetched. */
    method FirstFile(fetcher: TransportFetcher, names: seq<string>, fileType: FileType) returns (file: Result<Option<File>, PathError>)
      requires Valid() && fetcher.baseController == this
      modifies this`validationErrors, disk
      ensures Valid() && disk.folders == old(disk.folders)
      ensures (file, Env()) == Scan(Config(), old(Env()), fetcher.pollingPath, names, fileType)
    {
      var i := 0;
      while i < |names|
        invariant 0 <= i <= |names|
        invariant Valid() && disk.folders == old(disk.folders)
        invariant Scan(Config(), old(Env()), fetcher.pollingPath, names, fileType)
               == Scan(Config(), Env(), fetcher.pollingPath, names[i..], fileType)
      {
        assert names[i..][0] == names[i] && names[i..][1..] == names[i + 1..];
        var fileDescription := fetcher.GetResource(names[i], fileType);
        if fileDescription.Failure? || fileDescription.value.Some? {
          return fileDescription;
        }
        i := i + 1;
      }
      return Success(None);
    }

    method GetNextFile(path: Option<string>, fileType: FileType) returns (file: Result<Option<File>, PathError>, message: Response)
      requires Valid()
      modifies this`validationErrors, disk
      ensures Valid() && disk.folders == old(disk.folders)
      ensures (file, message, Env()) == NextFile(Config(), old(Env()), Filter(), path, fileType)
    {
      var fetcher := new TransportFetcher(this, path);
      var listOfFiles;
      listOfFiles, message := fetcher.OnListing();
      file := FirstFile(fetcher, listOfFiles, fileType);
    }

    /** TriggerOnFileAvailable once the masks compiled: the delivery, then the next file. */
    method DeliverAndPoll(triggerState: Option<string>, folderPath: Option<string>, fileType: FileType) returns (r: Response)
      requires Valid()
      modifies this`validationErrors, store, disk
      ensures Valid() && disk.folders == old(disk.folders)
      ensures (r, Env()) == Semantics.DeliverAndPoll(Config(), old(Env()), Filter(), triggerState, folderPath, fileType)
    {
      var delivery := OnDeliveryCompletion(triggerState, folderPath);
      if delivery.Failure? {
        return InternalError;
      }
      if !IsSuccessStatusCode(delivery.value) {
        return delivery.value;
      }
      var polled, listResponseMessage := GetNextFile(folderPath, fileType);
      if polled.Failure? {
        return InternalError;
      }
      if !IsSuccessStatusCode(listResponseMessage) {
        return listResponseMessage;
      }
      if polled.value.Some? {
        var polledObject := polled.value.value;
        return Ok(Event(polledObject, polledObject.fileName));
      }
      return Accepted("");
    }

    method TriggerOnFileAvailable(triggerState: Option<string>, folderPath: Option<string>, fileMask: Option<string>,
                                  excludeFileMask: Option<string>, fileType: FileType) returns (r: Response)
      requires Valid()
      modifies this`validationErrors, this`includeRegex, this`excludeRegex, store, disk
      ensures Valid() && disk.folders == old(disk.folders)
      ensures (r, Env(), Filter()) ==
        Poll(Config(), old(Env()), old(Filter()), triggerState, folderPath, fileMask, excludeFileMask, fileType)
    {
      if !isConfigurationValid {
        return BadRequest;
      }
      var compiled := SetRegex(fileMask, excludeFileMask);
      if !compiled {
        return BadRequest;
      }
      r := DeliverAndPoll(triggerState, folderPath, fileType);
    }
  }

  /** A failure building one descriptor is the failure of the whole listing however many names follow. */
  lemma {:induction false} DescriptorsKeepFailure(server: Option<string>, folder: string, names: seq<string>, k: nat)
    requires k <= |names| && Descriptors(server, folder, names[..k]).Failure?
    ensures Descriptors(server, folder, names) == Descriptors(server, folder, names[..k])
    decreases |names| - k
  {
    if k < |names| {
      assert names[..k + 1][..k] == names[..k];
      DescriptorsKeepFailure(server, folder, names, k + 1);
    } else {
      assert names[..k] == names;
    }
  }

  class TransportFetcher {
    const baseController: SftpController
    const pollingPath: Option<string>

    constructor (baseTransportController: SftpController, path: Option<string>)
      ensures baseController == baseTransportController && pollingPath == path
    {
      baseController := baseTransportController;
      pollingPath := path;
    }

    method OnListing() returns (files: seq<string>, response: Response)
      modifies baseController`validationErrors
      ensures (files, response, baseController.Env()) ==
        FileMetadata(baseController.Config(), old(baseController.Env()), baseController.Filter(), pollingPath)
    {
      files, response := GetFileMetadata();
    }

    /** The loop of GetFileMetadata: the names CheckRegex accepts, in listing order. */
    method FilesToFetch(filedata: seq<FileInfo>) returns (filesToFetch: seq<string>)
      requires AllNamed(filedata)
      ensures filesToFetch == FetchList(baseController.engine, baseController.Filter(), filedata)
    {
      filesToFetch := [];
      for i := 0 to |filedata|
        invariant filesToFetch == FetchList(baseController.engine, baseController.Filter(), filedata[..i])
      {
        assert filedata[..i + 1][..i] == filedata[..i];
        var passes := baseController.CheckRegex(filedata[i].fileName.value);
        if passes {
          filesToFetch := filesToFetch + [filedata[i].fileName.value];
        }
      }
      assert filedata[..|filedata|] == filedata;
    }

    /** GetFileMetadata: the listing, and the names of it to fetch. */
    method GetFileMetadata() returns (filesToFetch: seq<string>, response: Response)
      modifies baseController`validationErrors
      ensures (filesToFetch, response, baseController.Env()) ==
        FileMetadata(baseController.Config(), old(baseController.Env()), baseController.Filter(), pollingPath)
    {
      filesToFetch := [];
      response := baseController.ListFiles(pollingPath);
      if response.Ok? && response.payload.Listing? && AllNamed(response.payload.infos) {
        filesToFetch := FilesToFetch(response.payload.infos);
      }
    }

    method GetResource(resourceMetadata: string, fileType: FileType) returns (r: Result<Option<File>, PathError>)
      requires baseController.Valid()
      modifies baseController`validationErrors, baseController.disk
      ensures baseController.Valid() && baseController.disk.folders == old(baseController.disk.folders)
      ensures (r, baseController.Env()) ==
        Resource(baseController.Config(), old(baseController.Env()), pollingPath, resourceMetadata, fileType)
    {
      var path := Combine(pollingPath, Some(resourceMetadata));
      if path.Failure? {
        return Failure(path.error);
      }
      var response := baseController.GetFile(Some(path.value), fileType);
      r := Success(FileOfResponse(response));
    }
  }
}

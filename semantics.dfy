/**
 * What every entry point of the connector does, stated on values: the response it
 * returns and the state it leaves (the validation errors the controller has
 * collected and the remote store). The controller classes are proved to follow
 * these definitions, and the properties of the connector are lemmas about them.
 */
module Semantics {
  import opened Wrappers
  import opened Basics
  import opened Paths
  import opened Remote
  import opened Scratch
  import opened FileContentModel
  import opened FileInfoModel
  import opened Masks
  import opened Outcomes
  import opened SftpRules

  /** The configuration of a controller, fixed once it is constructed. */
  datatype Config = Config(
    rootFolderPath: string,
    connection: ConnectionSettings,
    isConfigurationValid: bool,
    limits: Limits,
    engine: RegexEngine)

  /** The state a request may change: the validation errors collected so far, and the server. */
  datatype Env = Env(validationErrors: seq<ValidationError>, store: StoreState)

  // ----- ValidateController and the session -----

  /** ValidateController: the new errors are appended to those already collected, which are never cleared. */
  function Validate(c: Config, env: Env): (r: (bool, Env))
    ensures r.1 == env.(validationErrors := env.validationErrors + ValidationErrors(c.connection))
    ensures r.0 <==> env.validationErrors == [] && ValidationErrors(c.connection) == []
  {
    var errors := env.validationErrors + ValidationErrors(c.connection);
    (|errors| == 0, env.(validationErrors := errors))
  }

  /**
   * The errors collected never go away: once a validation fails, every later one
   * fails too, and a validation that passes changes nothing.
   */
  lemma ValidationIsStable(c: Config, env: Env)
    ensures Validate(c, env).0 ==> Validate(c, env).1 == env
    ensures !Validate(c, env).0 ==> !Validate(c, Validate(c, env).1).0
  {
  }

  /**
   * A controller in working order: its settings parsed, the connection properties
   * valid, no validation error collected yet, and the server reachable.
   */
  predicate Ready(c: Config, env: Env)
  {
    c.isConfigurationValid && env.validationErrors == [] && ValidationErrors(c.connection) == [] && env.store.reachable
  }

  // ----- The path prologue of the entry points -----

  /**
   * Path.Combine(RootFolderPath, path).Replace("\\", "/") followed by ValidateParameter:
   * None when Combine throws or the result is white space.
   */
  function ResolvePath(root: string, path: Option<string>): (r: Option<string>)
    ensures r.Some? <==>
      path.Some? && !HasInvalidPathChars(root) && !HasInvalidPathChars(path.value)
      && !AllWhiteSpace(ForwardSlashes(Join(root, path.value)))
    ensures r.Some? ==> r.value == ForwardSlashes(Join(root, path.value)) && DirectorySeparator !in r.value
  {
    match Combine(Some(root), path)
    case Failure(_) => None
    case Success(p) =>
      var normalized := ForwardSlashes(p);
      if AllWhiteSpace(normalized) then None else Some(normalized)
  }

  /** The folder and file name of the resolved path: GetDirectoryName and GetFileName. */
  function ResolveFile(root: string, path: Option<string>): (r: Option<(string, string)>)
    ensures r.Some? <==> ResolvePath(root, path).Some?
    ensures r.Some? ==> r.value == SplitPath(ResolvePath(root, path).value)
  {
    match ResolvePath(root, path)
    case None => None
    case Some(p) => Some(SplitPath(p))
  }

  /** The path the SFTP session is given for a file. */
  function RemotePath(folder: string, name: string): string
  {
    folder + "/" + name
  }

  // ----- DeleteFile -----

  function DeleteTransport(c: Config, env: Env, folder: string, name: string): (r: (Response, Env))
  {
    var (ok, env1) := Validate(c, env);
    if !ok then (BadRequest, env1)
    else if !env1.store.reachable then (BadRequest, env1)
    else
      match Remove(env1.store, RemotePath(folder, name))
      case Failure(e) => (ErrorResponse(e), env1)
      case Success(s) => (Ok(Deleted), env1.(store := s))
  }

  function DeleteFile(c: Config, env: Env, filePath: Option<string>): (r: (Response, Env))
  {
    if !c.isConfigurationValid then (BadRequest, env)
    else
      match ResolveFile(c.rootFolderPath, filePath)
      case None => (BadRequest, env)
      case Some((folder, name)) => DeleteTransport(c, env, folder, name)
  }

  // ----- GetFile -----

  /** The File a download returns: the requested folder and name, and the bytes in the chosen encoding. */
  function DownloadedFile(info: FileInfo, bytes: seq<byte>, encoding: ContentTransferEncoding): File
  {
    FileOf(info, FileContent(Some(ContentOf(bytes, encoding)), encoding))
  }

  /** The part of GetTransportSpecificFile inside the open session: download, then the descriptor and content. */
  function Fetched(c: Config, s: StoreState, folder: string, name: string, encoding: ContentTransferEncoding): (r: Response)
  {
    match Download(s, RemotePath(folder, name))
    case Failure(e) => ErrorResponse(e)
    case Success(bytes) =>
      match NewFileInfo(c.connection.serverAddress, folder, name)
      case Failure(_) => BadRequest
      case Success(info) => Ok(Document(DownloadedFile(info, bytes, encoding)))
  }

  function GetTransport(c: Config, env: Env, folder: string, name: string, encoding: ContentTransferEncoding): (r: (Response, Env))
    ensures r.1 == Validate(c, env).1
  {
    var (ok, env1) := Validate(c, env);
    if !ok then (BadRequest, env1)
    else if !env1.store.reachable then (BadRequest, env1)
    else (Fetched(c, env1.store, folder, name, encoding), env1)
  }

  function GetFile(c: Config, env: Env, filePath: Option<string>, fileType: FileType): (r: (Response, Env))
  {
    if !c.isConfigurationValid then (BadRequest, env)
    else
      match ResolveFile(c.rootFolderPath, filePath)
      case None => (BadRequest, env)
      case Some((folder, name)) => GetTransport(c, env, folder, name, GetEncodingBasedOnFileType(fileType))
  }

  // ----- ListFiles -----

  /**
   * The listing loop: a descriptor for every name but "." and "..", in the server's
   * order; a descriptor that cannot be built ends the loop with its exception.
   */
  function Descriptors(server: Option<string>, folder: string, names: seq<string>): (r: Result<seq<FileInfo>, PathError>)
  {
    if names == [] then Success([])
    else
      var last := names[|names| - 1];
      match Descriptors(server, folder, names[..|names| - 1])
      case Failure(e) => Failure(e)
      case Success(infos) =>
        if last == "." || last == ".." then Success(infos)
        else
          match NewFileInfo(server, folder, last)
          case Failure(e) => Failure(e)
          case Success(info) => Success(infos + [info])
  }

  function ListTransport(c: Config, env: Env, folder: string): (r: (Response, Env))
    ensures r.1 == Validate(c, env).1
  {
    var (ok, env1) := Validate(c, env);
    if !ok then (BadRequest, env1)
    else if !env1.store.reachable then (BadRequest, env1)
    else
      match ListNames(env1.store, folder)
      case Failure(e) => (ErrorResponse(e), env1)
      case Success(names) =>
        match Descriptors(c.connection.serverAddress, folder, names)
        case Failure(_) => (BadRequest, env1)
        case Success(infos) => (Ok(Listing(infos)), env1)
  }

  function ListFiles(c: Config, env: Env, folderPath: Option<string>): (r: (Response, Env))
  {
    if !c.isConfigurationValid then (BadRequest, env)
    else
      match ResolvePath(c.rootFolderPath, folderPath)
      case None => (BadRequest, env)
      case Some(folder) => ListTransport(c, env, folder)
  }

  // ----- UploadFile -----

  /** Why UploadToFolder stops: a SessionRemoteException, a PathTooLongException or another IOException. */
  datatype UploadFailure = SessionFailure(error: RemoteError) | LocalPathTooLong | LocalIoFailure

  /** The catch clauses of the upload: remote errors are classified, a long path is BadRequest, other I/O ServiceUnavailable. */
  function UploadFailureResponse(f: UploadFailure): (r: Response)
  {
    match f
    case SessionFailure(e) => ErrorResponse(e)
    case LocalPathTooLong => BadRequest
    case LocalIoFailure => ServiceUnavailable
  }

  /** The bytes the scratch file starts with: the remote file's when appending to one that exists. */
  function ExistingBytes(s: StoreState, remotePath: string, appendIfExist: bool): (r: Result<seq<byte>, RemoteError>)
  {
    if !appendIfExist then Success([])
    else
      match Exists(s, remotePath)
      case Failure(e) => Failure(e)
      case Success(false) => Success([])
      case Success(true) => Download(s, remotePath)
  }

  /**
   * UploadToFolder: the scratch file gets the existing bytes (when appending) and then
   * the content, and is put to folder/fileName with overwrite.
   */
  function UploadToFolder(limits: Limits, s: StoreState, bytes: seq<byte>, folder: string, name: string, appendIfExist: bool)
    : (r: Result<StoreState, UploadFailure>)
  {
    var remotePath := RemotePath(folder, name);
    match ExistingBytes(s, remotePath, appendIfExist)
    case Failure(e) => Failure(SessionFailure(e))
    case Success(existing) =>
      match AppendOutcome(limits, existing, name, bytes)
      case PathTooLong => Failure(LocalPathTooLong)
      case DiskFull => Failure(LocalIoFailure)
      case Written =>
        match Upload(s, remotePath, existing + bytes)
        case Failure(e) => Failure(SessionFailure(e))
        case Success(s1) => Success(s1)
  }

  /** The response of an upload that got its file into place: the descriptor of the destination. */
  function UploadedResponse(c: Config, folder: string, name: string): (r: Response)
  {
    match NewFileInfo(c.connection.serverAddress, folder, name)
    case Failure(_) => BadRequest
    case Success(info) => Ok(Descriptor(info))
  }

  /** RemoveFiles without Check(): a removal that fails leaves the store as it was and raises nothing. */
  function RemoveUnchecked(s: StoreState, path: string): StoreState
  {
    match Remove(s, path)
    case Failure(_) => s
    case Success(s1) => s1
  }

  /** The direct mode: put to the destination, appending to the existing file when asked. */
  function DirectUpload(c: Config, env: Env, bytes: seq<byte>, folder: string, name: string, appendIfExist: bool)
    : (r: (Response, Env))
  {
    match UploadToFolder(c.limits, env.store, bytes, folder, name, appendIfExist)
    case Failure(f) => (UploadFailureResponse(f), env)
    case Success(s) => (UploadedResponse(c, folder, name), env.(store := s))
  }

  /** The staged mode: put to the temporary folder, remove an existing destination, move into place. */
  function StagedUpload(c: Config, env: Env, bytes: seq<byte>, folder: string, name: string, temporaryFolder: string)
    : (r: (Response, Env))
  {
    match UploadToFolder(c.limits, env.store, bytes, temporaryFolder, name, false)
    case Failure(f) => (UploadFailureResponse(f), env)
    case Success(s1) =>
      var destinationPath := RemotePath(folder, name);
      match Exists(s1, destinationPath)
      case Failure(e) => (ErrorResponse(e), env.(store := s1))
      case Success(present) =>
        var s2 := if present then RemoveUnchecked(s1, destinationPath) else s1;
        match Move(s2, RemotePath(temporaryFolder, name), destinationPath)
        case Failure(_) => (NotFound, env.(store := s2))
        case Success(s3) => (UploadedResponse(c, folder, name), env.(store := s3))
  }

  function UploadTransport(c: Config, env: Env, content: FileContent, folder: string, name: string,
                           appendIfExist: bool, temporaryFolder: Option<string>): (r: (Response, Env))
  {
    if !IsNullOrWhiteSpace(temporaryFolder) && appendIfExist then (BadRequest, env)
    else
      var (ok, env1) := Validate(c, env);
      if !ok then (BadRequest, env1)
      else if !env1.store.reachable then (BadRequest, env1)
      else
        match StreamBytes(content)
        case Failure(_) => (BadRequest, env1)
        case Success(bytes) =>
          if IsNullOrWhiteSpace(temporaryFolder) then DirectUpload(c, env1, bytes, folder, name, appendIfExist)
          else StagedUpload(c, env1, bytes, folder, name, temporaryFolder.value)
  }

  /** The temporary folder as UploadFile passes it on: combined with the root when it is not white space. */
  function ResolveTemporaryFolder(root: string, temporaryFolder: Option<string>): (r: Result<Option<string>, PathError>)
  {
    if IsNullOrWhiteSpace(temporaryFolder) then Success(temporaryFolder)
    else
      match Combine(Some(root), temporaryFolder)
      case Failure(e) => Failure(e)
      case Success(p) => Success(Some(ForwardSlashes(p)))
  }

  function UploadFile(c: Config, env: Env, content: Option<FileContent>, filePath: Option<string>,
                      appendIfExists: bool, temporaryFolder: Option<string>): (r: (Response, Env))
  {
    if !c.isConfigurationValid then (BadRequest, env)
    else if content.None? then (BadRequest, env)
    else
      match Combine(Some(c.rootFolderPath), filePath)
      case Failure(_) => (BadRequest, env)
      case Success(p) =>
        var normalized := ForwardSlashes(p);
        match ResolveTemporaryFolder(c.rootFolderPath, temporaryFolder)
        case Failure(_) => (BadRequest, env)
        case Success(temporary) =>
          if AllWhiteSpace(normalized) then (BadRequest, env)
          else
            var (folder, name) := SplitPath(normalized);
            UploadTransport(c, env, content.value, folder, name, appendIfExists, temporary)
  }

  // ----- The polling trigger -----

  /** Every descriptor of a listing names its file. */
  predicate AllNamed(infos: seq<FileInfo>)
  {
    forall i :: 0 <= i < |infos| ==> infos[i].fileName.Some?
  }

  /** The names GetFileMetadata keeps from a listing: those that pass CheckRegex, in listing order. */
  function FetchList(e: RegexEngine, f: Filter, infos: seq<FileInfo>): (r: seq<string>)
    requires AllNamed(infos)
  {
    if infos == [] then []
    else
      var kept := FetchList(e, f, infos[..|infos| - 1]);
      var name := infos[|infos| - 1].fileName.value;
      if CheckRegex(e, f, name) then kept + [name] else kept
  }

  /** GetFileMetadata: the fetch list, the listing response, and the state after the listing. */
  function FileMetadata(c: Config, env: Env, f: Filter, pollingPath: Option<string>): (r: (seq<string>, Response, Env))
  {
    var (response, env1) := ListFiles(c, env, pollingPath);
    match response
    case Ok(Listing(infos)) => (if AllNamed(infos) then FetchList(c.engine, f, infos) else [], response, env1)
    case _ => ([], response, env1)
  }

  /** The File an OK response of GetFile carries. */
  function FileOfResponse(r: Response): Option<File>
  {
    match r
    case Ok(Document(file)) => Some(file)
    case _ => None
  }

  /**
   * GetResource: GetFile of Combine(pollingPath, name); the file when that is OK, None
   * otherwise. A Failure is the exception Combine throws.
   */
  function Resource(c: Config, env: Env, pollingPath: Option<string>, name: string, fileType: FileType)
    : (r: (Result<Option<File>, PathError>, Env))
  {
    match Combine(pollingPath, Some(name))
    case Failure(e) => (Failure(e), env)
    case Success(p) =>
      var (response, env1) := GetFile(c, env, Some(p), fileType);
      (Success(FileOfResponse(response)), env1)
  }

  /** The loop of GetNextFile over the fetch list: the first file that can be fetched. */
  function Scan(c: Config, env: Env, pollingPath: Option<string>, names: seq<string>, fileType: FileType)
    : (r: (Result<Option<File>, PathError>, Env))
    decreases |names|
  {
    if names == [] then (Success(None), env)
    else
      var (got, env1) := Resource(c, env, pollingPath, names[0], fileType);
      match got
      case Failure(e) => (Failure(e), env1)
      case Success(Some(file)) => (Success(Some(file)), env1)
      case Success(None) => Scan(c, env1, pollingPath, names[1..], fileType)
  }

  /** GetNextFile: the file found, the listing response, and the state after both. */
  function NextFile(c: Config, env: Env, f: Filter, pollingPath: Option<string>, fileType: FileType)
    : (r: (Result<Option<File>, PathError>, Response, Env))
  {
    var (names, listResponse, env1) := FileMetadata(c, env, f, pollingPath);
    var (file, env2) := Scan(c, env1, pollingPath, names, fileType);
    (file, listResponse, env2)
  }

  /**
   * OnDeliveryCompletion: with a non-empty token, DeleteFile of Combine(folderPath, token),
   * a NotFound counting as done. A Failure is the exception Combine throws.
   */
  function DeliveryCompletion(c: Config, env: Env, fileName: Option<string>, folderPath: Option<string>)
    : (r: (Result<Response, PathError>, Env))
  {
    if IsNullOrEmpty(fileName) then (Success(Ok(Empty)), env)
    else
      match Combine(folderPath, fileName)
      case Failure(e) => (Failure(e), env)
      case Success(p) =>
        var (deletion, env1) := DeleteFile(c, env, Some(p));
        (Success(if deletion != NotFound then deletion else Ok(Empty)), env1)
  }

  /**
   * The part of TriggerOnFileAvailable after the masks compile: complete the previous
   * delivery, then look for the next file. An exception here is InternalError.
   */
  function DeliverAndPoll(c: Config, env: Env, f: Filter, triggerState: Option<string>, folderPath: Option<string>,
                          fileType: FileType): (r: (Response, Env))
  {
    var (delivery, env1) := DeliveryCompletion(c, env, triggerState, folderPath);
    match delivery
    case Failure(_) => (InternalError, env1)
    case Success(deliveryResponse) =>
      if !IsSuccessStatusCode(deliveryResponse) then (deliveryResponse, env1)
      else
        var (polled, listResponse, env2) := NextFile(c, env1, f, folderPath, fileType);
        match polled
        case Failure(_) => (InternalError, env2)
        case Success(file) =>
          if !IsSuccessStatusCode(listResponse) then (listResponse, env2)
          else if file.Some? then (Ok(Event(file.value, file.value.fileName)), env2)
          else (Accepted(""), env2)
  }

  /**
   * TriggerOnFileAvailable: the response, the state after the call, and the regex
   * fields SetRegex left. An exception after SetRegex is InternalError.
   */
  function Poll(c: Config, env: Env, f: Filter, triggerState: Option<string>, folderPath: Option<string>,
                fileMask: Option<string>, excludeFileMask: Option<string>, fileType: FileType): (r: (Response, Env, Filter))
  {
    if !c.isConfigurationValid then (BadRequest, env, f)
    else
      var (f1, compiled) := SetRegex(c.engine, fileMask, excludeFileMask, f);
      if !compiled then (BadRequest, env, f1)
      else
        var (response, env1) := DeliverAndPoll(c, env, f1, triggerState, folderPath, fileType);
        (response, env1, f1)
  }
}

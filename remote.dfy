/**
 * The SFTP server as the WinSCP session sees it: folders holding named entries
 * in the server's listing order, folders the account may not touch, and whether
 * a session can be opened at all.
 */
module Remote {
  import opened Wrappers
  import opened Basics
  import opened Paths

  datatype Kind = RegularFile(data: seq<byte>) | Directory

  datatype Entry = Entry(name: string, kind: Kind)

  /** A SessionRemoteException; inner is the message of its InnerException, None when it has none. */
  datatype RemoteError = RemoteError(inner: Option<string>)

  const PermissionDenied: RemoteError := RemoteError(Some("Permission denied"))
  const NoSuchFile: RemoteError := RemoteError(Some("No such file"))
  /** What a server reports for a request it refuses without saying why. */
  const GeneralFailure: RemoteError := RemoteError(Some("Failure"))

  datatype StoreState = StoreState(folders: map<string, seq<Entry>>, denied: set<string>, reachable: bool)

  /** The kind of the first entry of that name. */
  function Lookup(entries: seq<Entry>, name: string): (r: Option<Kind>)
    ensures r.Some? <==> exists i :: 0 <= i < |entries| && entries[i].name == name
    ensures r.Some? ==> exists i :: 0 <= i < |entries| && entries[i] == Entry(name, r.value)
  {
    if entries == [] then None
    else if entries[0].name == name then Some(entries[0].kind)
    else
      var r := Lookup(entries[1..], name);
      assert r.Some? ==> exists i :: 0 <= i < |entries[1..]| && entries[1..][i] == Entry(name, r.value);
      r
  }

  /** The entries without those of that name, in the same order. */
  function Without(entries: seq<Entry>, name: string): (r: seq<Entry>)
    ensures |r| <= |entries|
    ensures forall x :: x in r <==> x in entries && x.name != name
  {
    if entries == [] then []
    else if entries[0].name == name then Without(entries[1..], name)
    else [entries[0]] + Without(entries[1..], name)
  }

  /** The entries with the first entry of that name replaced, or the entry added at the end. */
  function Replace(entries: seq<Entry>, e: Entry): (r: seq<Entry>)
    ensures Lookup(r, e.name) == Some(e.kind)
    ensures forall n :: n != e.name ==> Lookup(r, n) == Lookup(entries, n)
  {
    if entries == [] then [e]
    else if entries[0].name == e.name then [e] + entries[1..]
    else [entries[0]] + Replace(entries[1..], e)
  }

  /** The entries of a folder the session may read. */
  function FolderEntries(s: StoreState, folder: string): (r: Result<seq<Entry>, RemoteError>)
    ensures r.Success? <==> folder in s.folders && folder !in s.denied
    ensures r.Success? ==> r.value == s.folders[folder]
  {
    if folder in s.denied then Failure(PermissionDenied)
    else if folder !in s.folders then Failure(NoSuchFile)
    else Success(s.folders[folder])
  }

  /** Session.FileExists: false for a missing folder or entry; an unreadable folder is an error. */
  function Exists(s: StoreState, path: string): (r: Result<bool, RemoteError>)
  {
    var (folder, name) := SplitPath(path);
    if folder in s.denied then Failure(PermissionDenied)
    else Success(folder in s.folders && Lookup(s.folders[folder], name).Some?)
  }

  /** Session.GetFiles(path, ...).Check() for one file: its bytes. */
  function Download(s: StoreState, path: string): (r: Result<seq<byte>, RemoteError>)
  {
    var (folder, name) := SplitPath(path);
    match FolderEntries(s, folder)
    case Failure(e) => Failure(e)
    case Success(entries) =>
      match Lookup(entries, name)
      case Some(RegularFile(data)) => Success(data)
      // A directory is refused like a missing file; its download is not modelled.
      case _ => Failure(NoSuchFile)
  }

  /** Session.PutFiles(..., path).Check() for one file: creates or overwrites it. */
  function Upload(s: StoreState, path: string, data: seq<byte>): (r: Result<StoreState, RemoteError>)
  {
    var (folder, name) := SplitPath(path);
    match FolderEntries(s, folder)
    case Failure(e) => Failure(e)
    case Success(entries) =>
      if Lookup(entries, name) == Some(Directory) then Failure(GeneralFailure)
      else Success(s.(folders := s.folders[folder := Replace(entries, Entry(name, RegularFile(data)))]))
  }

  /** Session.RemoveFiles(path): removes the entry; absent, it is an error. */
  function Remove(s: StoreState, path: string): (r: Result<StoreState, RemoteError>)
  {
    var (folder, name) := SplitPath(path);
    match FolderEntries(s, folder)
    case Failure(e) => Failure(e)
    case Success(entries) =>
      if Lookup(entries, name).None? then Failure(NoSuchFile)
      else Success(s.(folders := s.folders[folder := Without(entries, name)]))
  }

  /**
   * Session.MoveFile(source, target): the entry leaves its folder and is added at
   * the end of the target folder; a target that already exists is refused, as
   * an SFTP rename refuses it.
   */
  function Move(s: StoreState, source: string, target: string): (r: Result<StoreState, RemoteError>)
  {
    var (sourceFolder, sourceName) := SplitPath(source);
    var (targetFolder, targetName) := SplitPath(target);
    match FolderEntries(s, sourceFolder)
    case Failure(e) => Failure(e)
    case Success(entries) =>
      match Lookup(entries, sourceName)
      case None => Failure(NoSuchFile)
      case Some(kind) =>
        var s1 := s.(folders := s.folders[sourceFolder := Without(entries, sourceName)]);
        match FolderEntries(s1, targetFolder)
        case Failure(e) => Failure(e)
        case Success(targetEntries) =>
          if Lookup(targetEntries, targetName).Some? then Failure(GeneralFailure)
          else Success(s1.(folders := s1.folders[targetFolder := targetEntries + [Entry(targetName, kind)]]))
  }

  /** Session.ListDirectory(folder): the names of its entries in the server's order. */
  function ListNames(s: StoreState, folder: string): (r: Result<seq<string>, RemoteError>)
    ensures r.Success? <==> folder in s.folders && folder !in s.denied
    ensures r.Success? ==> folder in s.folders && |r.value| == |s.folders[folder]|
    ensures r.Success? ==> folder in s.folders && forall i :: 0 <= i < |r.value| ==> r.value[i] == s.folders[folder][i].name
  {
    match FolderEntries(s, folder)
    case Failure(e) => Failure(e)
    case Success(entries) => Success(seq(|entries|, i requires 0 <= i < |entries| => entries[i].name))
  }

  /** After a successful Upload the file holds exactly the bytes put, and nothing else in that folder changed. */
  lemma UploadStores(s: StoreState, path: string, data: seq<byte>)
    requires Upload(s, path, data).Success?
    ensures var (folder, name) := SplitPath(path); var s1 := Upload(s, path, data).value;
      && folder in s1.folders
      && Lookup(s1.folders[folder], name) == Some(RegularFile(data))
      && (forall n :: n != name ==> Lookup(s1.folders[folder], n) == Lookup(s.folders[folder], n))
      && (forall f :: f != folder && f in s.folders ==> f in s1.folders && s1.folders[f] == s.folders[f])
      && Download(s1, path) == Success(data)
  {
  }

  /** A file put successfully downloads as the bytes put. */
  lemma DownloadAfterUpload(s: StoreState, path: string, data: seq<byte>)
    requires Upload(s, path, data).Success?
    ensures Download(Upload(s, path, data).value, path) == Success(data)
  {
    UploadStores(s, path, data);
  }

  /** After a successful Remove the entry is gone. */
  lemma RemoveDeletes(s: StoreState, path: string)
    requires Remove(s, path).Success?
    ensures Exists(Remove(s, path).value, path) == Success(false)
    ensures Download(Remove(s, path).value, path) == Failure(NoSuchFile)
  {
  }

  /** A removed entry is gone: removing it again finds no such file. */
  lemma RemoveTwice(s: StoreState, path: string)
    requires Remove(s, path).Success?
    ensures Remove(Remove(s, path).value, path) == Failure(NoSuchFile)
  {
    var (f, n) := SplitPath(path);
    WithoutRemovesName(s.folders[f], n);
  }

  /** The session calls never change which folders are denied, or whether the server is reachable. */
  lemma UpdatesKeepAccess(s: StoreState, path: string, target: string, data: seq<byte>)
    ensures Upload(s, path, data).Success? ==> Upload(s, path, data).value.denied == s.denied && Upload(s, path, data).value.reachable == s.reachable
    ensures Remove(s, path).Success? ==> Remove(s, path).value.denied == s.denied && Remove(s, path).value.reachable == s.reachable
    ensures Move(s, path, target).Success? ==> Move(s, path, target).value.denied == s.denied && Move(s, path, target).value.reachable == s.reachable
  {
  }

  /** No entry of a name is left once the entries of that name are taken out. */
  lemma WithoutRemovesName(entries: seq<Entry>, name: string)
    ensures Lookup(Without(entries, name), name).None?
  {
    var r := Without(entries, name);
    forall i | 0 <= i < |r|
      ensures r[i].name != name
    {
      assert r[i] in r;
    }
  }

  /** An entry added at the end of a folder without one of that name is the one found by that name. */
  lemma {:induction false} LookupAppended(entries: seq<Entry>, e: Entry)
    requires Lookup(entries, e.name).None?
    ensures Lookup(entries + [e], e.name) == Some(e.kind)
    decreases |entries|
  {
    if entries != [] {
      assert (entries + [e])[1..] == entries[1..] + [e];
      LookupAppended(entries[1..], e);
    }
  }

  /** The server, updated in place by the session's calls. */
  class RemoteStore {
    var folders: map<string, seq<Entry>>
    var denied: set<string>
    var reachable: bool

    function State(): StoreState
      reads this
    {
      StoreState(folders, denied, reachable)
    }

    method SetState(s: StoreState)
      modifies this
      ensures State() == s
    {
      folders, denied, reachable := s.folders, s.denied, s.reachable;
    }

    constructor (s: StoreState)
      ensures State() == s
    {
      folders, denied, reachable := s.folders, s.denied, s.reachable;
    }

    /** Session.Open: a session can be opened exactly when the server is reachable. */
    method Open() returns (err: Option<RemoteError>)
      ensures err.None? <==> reachable
    {
      err := if reachable then None else Some(RemoteError(Some("Connection failed")));
    }

    method FileExists(path: string) returns (r: Result<bool, RemoteError>)
      ensures r == Exists(State(), path)
    {
      r := Exists(State(), path);
    }

    method GetFiles(path: string) returns (r: Result<seq<byte>, RemoteError>)
      ensures r == Download(State(), path)
    {
      r := Download(State(), path);
    }

    method PutFiles(path: string, data: seq<byte>) returns (err: Option<RemoteError>)
      modifies this
      ensures Upload(old(State()), path, data).Success? ==> err.None? && State() == Upload(old(State()), path, data).value
      ensures Upload(old(State()), path, data).Failure? ==> err == Some(Upload(old(State()), path, data).error) && State() == old(State())
    {
      var u := Upload(State(), path, data);
      if u.Success? {
        SetState(u.value);
        err := None;
      } else {
        err := Some(u.error);
      }
    }

    method RemoveFiles(path: string) returns (err: Option<RemoteError>)
      modifies this
      ensures Remove(old(State()), path).Success? ==> err.None? && State() == Remove(old(State()), path).value
      ensures Remove(old(State()), path).Failure? ==> err == Some(Remove(old(State()), path).error) && State() == old(State())
    {
      var u := Remove(State(), path);
      if u.Success? {
        SetState(u.value);
        err := None;
      } else {
        err := Some(u.error);
      }
    }

    method MoveFile(source: string, target: string) returns (err: Option<RemoteError>)
      modifies this
      ensures Move(old(State()), source, target).Success? ==> err.None? && State() == Move(old(State()), source, target).value
      ensures Move(old(State()), source, target).Failure? ==> err == Some(Move(old(State()), source, target).error) && State() == old(State())
    {
      var u := Move(State(), source, target);
      if u.Success? {
        SetState(u.value);
        err := None;
      } else {
        err := Some(u.error);
      }
    }

    method ListDirectory(folder: string) returns (r: Result<seq<string>, RemoteError>)
      ensures r == ListNames(State(), folder)
    {
      r := ListNames(State(), folder);
    }
  }
}

/**
 * Draining a folder through the polling trigger: with the default masks, a folder of
 * N files that can all be fetched yields them one per poll, in the server's order, each
 * poll deleting the file the previous one delivered, and poll N + 1 finds the folder
 * empty and answers Accepted.
 */
module DrainLemmas {
  import opened Wrappers
  import opened Basics
  import opened Paths
  import opened Remote
  import opened FileContentModel
  import opened FileInfoModel
  import opened Masks
  import opened Outcomes
  import opened SftpRules
  import opened Semantics
  import ListingLemmas

  // ----- Paths inside the polled folder -----

  /** A path part the connector joins with a separator of its own: not empty, valid, not ending in a separator. */
  predicate PathPart(p: string)
  {
    p != "" && !HasInvalidPathChars(p) && !EndsWithSeparator(p)
  }

  /** The remote folder a poll of folderPath lists. */
  function Folder(c: Config, folderPath: string): string
  {
    ForwardSlashes(Join(c.rootFolderPath, folderPath))
  }

  /** A file name the polled folder can hold and the trigger can hand out as a token. */
  predicate PlainName(name: string)
  {
    && name != "" && ListingLemmas.Visible(name) && !HasInvalidPathChars(name)
    && AltDirectorySeparator !in name && DirectorySeparator !in name
  }

  lemma {:induction false} JoinedValid(a: string, b: string)
    requires PathPart(a) && b != "" && !HasInvalidPathChars(b)
    ensures Join(a, b) == a + [DirectorySeparator] + b
    ensures !HasInvalidPathChars(Join(a, b))
  {
    var j := Join(a, b);
    forall i | 0 <= i < |j|
      ensures !IsInvalidPathChar(j[i])
    {
      if i < |a| {
        assert j[i] == a[i];
      } else if i > |a| {
        assert j[i] == b[i - |a| - 1];
      }
    }
  }

  /** Turning backslashes into slashes distributes over a backslash and a name without one. */
  lemma {:induction false} ForwardSlashesJoin(x: string, name: string)
    requires DirectorySeparator !in name
    ensures ForwardSlashes(x + [DirectorySeparator] + name) == ForwardSlashes(x) + [AltDirectorySeparator] + name
  {
    var p := x + [DirectorySeparator] + name;
    var r := ForwardSlashes(p);
    var q := ForwardSlashes(x) + [AltDirectorySeparator] + name;
    assert |r| == |q|;
    forall i | 0 <= i < |r|
      ensures r[i] == q[i]
    {
      if i < |x| {
        assert p[i] == x[i];
      } else if i > |x| {
        assert p[i] == name[i - |x| - 1];
        assert name[i - |x| - 1] != DirectorySeparator;
      }
    }
  }

  /** The polled folder resolves to Folder, which is a valid, non-empty remote path. */
  lemma FolderResolves(c: Config, folderPath: string)
    requires PathPart(c.rootFolderPath) && PathPart(folderPath)
    ensures ResolvePath(c.rootFolderPath, Some(folderPath)) == Some(Folder(c, folderPath))
    ensures Folder(c, folderPath) != "" && !HasInvalidPathChars(Folder(c, folderPath))
  {
    var root := c.rootFolderPath;
    JoinedValid(root, folderPath);
    var j := Join(root, folderPath);
    var f := ForwardSlashes(j);
    assert f[|root|] == AltDirectorySeparator;
    forall i | 0 <= i < |f|
      ensures !IsInvalidPathChar(f[i])
    {
      assert !IsInvalidPathChar(j[i]);
    }
  }

  /** The path the trigger forms for a file of the polled folder: the folder, a backslash and the name. */
  lemma CombineInFolder(folderPath: string, name: string)
    requires PathPart(folderPath) && PlainName(name)
    ensures Combine(Some(folderPath), Some(name)) == Success(folderPath + [DirectorySeparator] + name)
  {
    JoinedValid(folderPath, name);
  }

  /** A file of the polled folder: the path the trigger forms for it resolves to Folder and its name. */
  lemma FileResolves(c: Config, folderPath: string, name: string)
    requires PathPart(c.rootFolderPath) && PathPart(folderPath) && PlainName(name)
    ensures Combine(Some(folderPath), Some(name)) == Success(folderPath + [DirectorySeparator] + name)
    ensures ResolveFile(c.rootFolderPath, Some(folderPath + [DirectorySeparator] + name)) == Some((Folder(c, folderPath), name))
  {
    var root := c.rootFolderPath;
    JoinedValid(folderPath, name);
    var inner := folderPath + [DirectorySeparator] + name;
    JoinedValid(root, inner);
    JoinedValid(root, folderPath);
    assert Join(root, inner) == Join(root, folderPath) + [DirectorySeparator] + name;
    ForwardSlashesJoin(Join(root, folderPath), name);
    FolderResolves(c, folderPath);
    var resolved := Folder(c, folderPath) + [AltDirectorySeparator] + name;
    assert resolved[|Folder(c, folderPath)|] == AltDirectorySeparator;
    assert !AllWhiteSpace(resolved);
    assert ResolvePath(root, Some(inner)) == Some(resolved);
    SplitRemotePath(Folder(c, folderPath), name);
  }

  // ----- The polled folder and its entries -----

  /** A controller ready to poll folderPath under its root, the folder existing and readable. */
  predicate Setup(c: Config, env: Env, folderPath: string)
  {
    && Ready(c, env) && PathPart(c.rootFolderPath) && PathPart(folderPath)
    && Folder(c, folderPath) in env.store.folders && Folder(c, folderPath) !in env.store.denied
  }

  /** An entry a poll can deliver: a regular file with a plain name. */
  predicate Deliverable(e: Entry)
  {
    e.kind.RegularFile? && PlainName(e.name)
  }

  /** A folder whose entries can all be delivered, no two of them sharing a name. */
  predicate Drainable(es: seq<Entry>)
  {
    && (forall i :: 0 <= i < |es| ==> Deliverable(es[i]))
    && (forall i, j :: 0 <= i < j < |es| ==> es[i].name != es[j].name)
  }

  /** The names of the entries, in the server's order. */
  function Names(es: seq<Entry>): (r: seq<string>)
    ensures |r| == |es| && forall i :: 0 <= i < |es| ==> r[i] == es[i].name
  {
    seq(|es|, i requires 0 <= i < |es| => es[i].name)
  }

  /** The state with the polled folder holding es. */
  function WithFolder(c: Config, env: Env, folderPath: string, es: seq<Entry>): Env
  {
    env.(store := env.store.(folders := env.store.folders[Folder(c, folderPath) := es]))
  }

  /** The File a poll delivers for an entry of the polled folder. */
  function DrainedFile(c: Config, folderPath: string, e: Entry, fileType: FileType): File
    requires e.kind.RegularFile?
  {
    var folder := Folder(c, folderPath);
    DownloadedFile(FileInfo(Some(e.name), Some(folder), Some(Join(folder, e.name)), c.connection.serverAddress),
      e.kind.data, GetEncodingBasedOnFileType(fileType))
  }

  /** The answer of a poll of a folder holding es: its first file, or Accepted with an empty token. */
  function Expected(c: Config, folderPath: string, es: seq<Entry>, fileType: FileType): Response
    requires Drainable(es)
  {
    if es == [] then Accepted("")
    else Ok(Event(DrainedFile(c, folderPath, es[0], fileType), Some(es[0].name)))
  }

  /** Setting the polled folder twice keeps the second setting. */
  lemma WithFolderTwice(c: Config, env: Env, folderPath: string, first: seq<Entry>, second: seq<Entry>)
    ensures WithFolder(c, WithFolder(c, env, folderPath, first), folderPath, second) == WithFolder(c, env, folderPath, second)
  {
    var folders := env.store.folders;
    var folder := Folder(c, folderPath);
    assert folders[folder := first][folder := second] == folders[folder := second];
  }

  /** Setting the polled folder to what it holds changes nothing. */
  lemma WithFolderSame(c: Config, env: Env, folderPath: string)
    requires Folder(c, folderPath) in env.store.folders
    ensures WithFolder(c, env, folderPath, env.store.folders[Folder(c, folderPath)]) == env
  {
    var folders := env.store.folders;
    var folder := Folder(c, folderPath);
    assert folders[folder := folders[folder]] == folders;
  }

  /** Taking out a name no entry has changes nothing. */
  lemma {:induction false} WithoutAbsent(es: seq<Entry>, name: string)
    requires forall i :: 0 <= i < |es| ==> es[i].name != name
    ensures Without(es, name) == es
    decreases |es|
  {
    if es != [] {
      WithoutAbsent(es[1..], name);
    }
  }

  /** A ready controller's validation passes and changes nothing. */
  lemma ReadyValidates(c: Config, env: Env)
    requires Ready(c, env)
    ensures Validate(c, env) == (true, env)
  {
  }

  // ----- One poll -----

  /** Removing the first entry of a folder whose other entries have other names leaves those entries. */
  lemma RemoveFirst(s: StoreState, folder: string, e: Entry, es: seq<Entry>)
    requires folder != "" && AltDirectorySeparator !in e.name
    requires folder in s.folders && folder !in s.denied && s.folders[folder] == [e] + es
    requires forall i :: 0 <= i < |es| ==> es[i].name != e.name
    ensures Remove(s, RemotePath(folder, e.name)) == Success(s.(folders := s.folders[folder := es]))
  {
    SplitRemotePath(folder, e.name);
    WithoutAbsent(es, e.name);
    assert ([e] + es)[1..] == es;
    assert Without([e] + es, e.name) == es;
  }

  /** DeleteFile of a file of the polled folder removes it. */
  lemma DeleteInFolder(c: Config, env: Env, folderPath: string, e: Entry, es: seq<Entry>)
    requires Setup(c, env, folderPath) && env.store.folders[Folder(c, folderPath)] == [e] + es
    requires Deliverable(e) && forall i :: 0 <= i < |es| ==> es[i].name != e.name
    ensures DeleteFile(c, env, Some(folderPath + [DirectorySeparator] + e.name)) == (Ok(Deleted), WithFolder(c, env, folderPath, es))
  {
    var folder := Folder(c, folderPath);
    FileResolves(c, folderPath, e.name);
    FolderResolves(c, folderPath);
    ReadyValidates(c, env);
    RemoveFirst(env.store, folder, e, es);
    assert DeleteFile(c, env, Some(folderPath + [DirectorySeparator] + e.name)) == DeleteTransport(c, env, folder, e.name);
  }

  /** The token of the file delivered last is deleted from the polled folder, and nothing else changes. */
  lemma DeliverToken(c: Config, env: Env, folderPath: string, e: Entry, es: seq<Entry>)
    requires Setup(c, env, folderPath) && env.store.folders[Folder(c, folderPath)] == [e] + es
    requires Deliverable(e) && forall i :: 0 <= i < |es| ==> es[i].name != e.name
    ensures DeliveryCompletion(c, env, Some(e.name), Some(folderPath)) == (Success(Ok(Deleted)), WithFolder(c, env, folderPath, es))
  {
    CombineInFolder(folderPath, e.name);
    DeleteInFolder(c, env, folderPath, e, es);
  }

  /** The descriptors a listing of the polled folder holds for its entries. */
  function Descriptions(c: Config, folderPath: string, es: seq<Entry>): (r: seq<FileInfo>)
    ensures |r| == |es|
  {
    var folder := Folder(c, folderPath);
    seq(|es|, i requires 0 <= i < |es| => FileInfo(Some(es[i].name), Some(folder), Some(Join(folder, es[i].name)), c.connection.serverAddress))
  }

  /** Names all of which are visible are listed as they are. */
  lemma {:induction false} AllVisible(names: seq<string>)
    requires forall i :: 0 <= i < |names| ==> ListingLemmas.Visible(names[i])
    ensures ListingLemmas.VisibleNames(names) == names
    decreases |names|
  {
    if names != [] {
      AllVisible(names[1..]);
      assert names == [names[0]] + names[1..];
    }
  }

  /** A name valid as path text holds no line feed. */
  lemma NoLineFeed(name: string)
    requires !HasInvalidPathChars(name)
    ensures '\n' !in name
  {
  }

  /** The loop of the listing builds a descriptor for each entry of a drainable folder. */
  lemma DescribeAll(c: Config, folderPath: string, es: seq<Entry>)
    requires PathPart(c.rootFolderPath) && PathPart(folderPath) && Drainable(es)
    ensures Descriptors(c.connection.serverAddress, Folder(c, folderPath), Names(es)) == Success(Descriptions(c, folderPath, es))
  {
    var names := Names(es);
    FolderResolves(c, folderPath);
    AllVisible(names);
    ListingLemmas.DescriptorsOfVisibleNames(c.connection.serverAddress, Folder(c, folderPath), names);
    var infos := Descriptors(c.connection.serverAddress, Folder(c, folderPath), names).value;
    assert infos == Descriptions(c, folderPath, es);
  }

  /** A listing of the polled folder describes each of its entries, in order, and changes nothing. */
  lemma ListFolder(c: Config, env: Env, folderPath: string, es: seq<Entry>)
    requires Setup(c, env, folderPath) && env.store.folders[Folder(c, folderPath)] == es && Drainable(es)
    ensures ListFiles(c, env, Some(folderPath)) == (Ok(Listing(Descriptions(c, folderPath, es))), env)
  {
    var folder := Folder(c, folderPath);
    FolderResolves(c, folderPath);
    ReadyValidates(c, env);
    assert ListNames(env.store, folder) == Success(Names(es));
    DescribeAll(c, folderPath, es);
    assert ListFiles(c, env, Some(folderPath)) == ListTransport(c, env, folder);
  }

  /** A fetch list of descriptors all of which pass the filter is the list of their names. */
  lemma {:induction false} FetchListAllPass(e: RegexEngine, f: Filter, infos: seq<FileInfo>)
    requires AllNamed(infos) && forall i :: 0 <= i < |infos| ==> CheckRegex(e, f, infos[i].fileName.value)
    ensures FetchList(e, f, infos) == seq(|infos|, i requires 0 <= i < |infos| => infos[i].fileName.value)
    decreases |infos|
  {
    if infos != [] {
      FetchListAllPass(e, f, infos[..|infos| - 1]);
    }
  }

  /** With the default masks every entry of a drainable folder passes the filter. */
  lemma DefaultFilterPassesEntries(c: Config, f: Filter, folderPath: string, es: seq<Entry>)
    requires Drainable(es) && f.excludeRegex.None?
    ensures var infos := Descriptions(c, folderPath, es);
      && AllNamed(infos)
      && (forall i :: 0 <= i < |infos| ==> CheckRegex(c.engine, SetRegex(c.engine, None, None, f).0, infos[i].fileName.value))
      && seq(|infos|, i requires 0 <= i < |infos| => infos[i].fileName.value) == Names(es)
  {
    var infos := Descriptions(c, folderPath, es);
    forall i | 0 <= i < |infos|
      ensures CheckRegex(c.engine, SetRegex(c.engine, None, None, f).0, infos[i].fileName.value)
    {
      NoLineFeed(es[i].name);
      DefaultFilterPassesAll(c.engine, f, es[i].name);
    }
  }

  /** With the default masks the poll goes on to fetch every entry of the polled folder, in order. */
  lemma FetchAll(c: Config, env: Env, f: Filter, folderPath: string, es: seq<Entry>)
    requires Setup(c, env, folderPath) && env.store.folders[Folder(c, folderPath)] == es && Drainable(es)
    requires f.excludeRegex.None?
    ensures FileMetadata(c, env, SetRegex(c.engine, None, None, f).0, Some(folderPath)) ==
      (Names(es), Ok(Listing(Descriptions(c, folderPath, es))), env)
  {
    ListFolder(c, env, folderPath, es);
    FetchNames(c, f, folderPath, es);
  }

  /** With the default masks the fetch list of the polled folder's listing is the list of its names. */
  lemma FetchNames(c: Config, f: Filter, folderPath: string, es: seq<Entry>)
    requires Drainable(es) && f.excludeRegex.None?
    ensures AllNamed(Descriptions(c, folderPath, es))
    ensures FetchList(c.engine, SetRegex(c.engine, None, None, f).0, Descriptions(c, folderPath, es)) == Names(es)
  {
    DefaultFilterPassesEntries(c, f, folderPath, es);
    FetchListAllPass(c.engine, SetRegex(c.engine, None, None, f).0, Descriptions(c, folderPath, es));
  }

  /** The download of the first entry of the polled folder gives its bytes and descriptor. */
  lemma FetchedFirst(c: Config, s: StoreState, folderPath: string, es: seq<Entry>, fileType: FileType)
    requires PathPart(c.rootFolderPath) && PathPart(folderPath) && Drainable(es) && es != []
    requires Folder(c, folderPath) in s.folders && Folder(c, folderPath) !in s.denied && s.folders[Folder(c, folderPath)] == es
    ensures Fetched(c, s, Folder(c, folderPath), es[0].name, GetEncodingBasedOnFileType(fileType)) ==
      Ok(Document(DrainedFile(c, folderPath, es[0], fileType)))
  {
    var folder := Folder(c, folderPath);
    FolderResolves(c, folderPath);
    SplitRemotePath(folder, es[0].name);
    assert Download(s, RemotePath(folder, es[0].name)) == Success(es[0].kind.data);
  }

  /** GetResource of the first entry of the polled folder finds it and changes nothing. */
  lemma ResourceFirst(c: Config, env: Env, folderPath: string, es: seq<Entry>, fileType: FileType)
    requires Setup(c, env, folderPath) && env.store.folders[Folder(c, folderPath)] == es && Drainable(es) && es != []
    ensures Resource(c, env, Some(folderPath), es[0].name, fileType) ==
      (Success(Some(DrainedFile(c, folderPath, es[0], fileType))), env)
  {
    CombineInFolder(folderPath, es[0].name);
    GetFirst(c, env, folderPath, es, fileType);
  }

  /** GetFile of the first entry of the polled folder answers with it and changes nothing. */
  lemma GetFirst(c: Config, env: Env, folderPath: string, es: seq<Entry>, fileType: FileType)
    requires Setup(c, env, folderPath) && env.store.folders[Folder(c, folderPath)] == es && Drainable(es) && es != []
    ensures GetFile(c, env, Some(folderPath + [DirectorySeparator] + es[0].name), fileType) ==
      (Ok(Document(DrainedFile(c, folderPath, es[0], fileType))), env)
  {
    var name := es[0].name;
    FileResolves(c, folderPath, name);
    ReadyValidates(c, env);
    FetchedFirst(c, env.store, folderPath, es, fileType);
    assert GetFile(c, env, Some(folderPath + [DirectorySeparator] + name), fileType) ==
      GetTransport(c, env, Folder(c, folderPath), name, GetEncodingBasedOnFileType(fileType));
  }

  /** The loop of GetNextFile stops at the first entry of the polled folder. */
  lemma ScanFirst(c: Config, env: Env, folderPath: string, es: seq<Entry>, fileType: FileType)
    requires Setup(c, env, folderPath) && env.store.folders[Folder(c, folderPath)] == es && Drainable(es) && es != []
    ensures Scan(c, env, Some(folderPath), Names(es), fileType) ==
      (Success(Some(DrainedFile(c, folderPath, es[0], fileType))), env)
  {
    ResourceFirst(c, env, folderPath, es, fileType);
  }

  /** GetNextFile on the polled folder: its first entry if it has one, and nothing changes. */
  lemma NextOfFolder(c: Config, env: Env, f: Filter, folderPath: string, es: seq<Entry>, fileType: FileType)
    requires Setup(c, env, folderPath) && env.store.folders[Folder(c, folderPath)] == es && Drainable(es)
    requires f.excludeRegex.None?
    ensures NextFile(c, env, SetRegex(c.engine, None, None, f).0, Some(folderPath), fileType) ==
      (Success(if es == [] then None else Some(DrainedFile(c, folderPath, es[0], fileType))),
       Ok(Listing(Descriptions(c, folderPath, es))), env)
  {
    FetchAll(c, env, f, folderPath, es);
    if es != [] {
      ScanFirst(c, env, folderPath, es, fileType);
    }
  }

  lemma DrainableTail(pre: seq<Entry>, es: seq<Entry>)
    requires Drainable(pre + es)
    ensures Drainable(es)
    ensures forall i, j :: 0 <= i < |pre| && 0 <= j < |es| ==> pre[i].name != es[j].name
    ensures forall i :: 0 <= i < |pre| ==> Deliverable(pre[i])
  {
    forall i | 0 <= i < |es|
      ensures Deliverable(es[i])
    {
      assert es[i] == (pre + es)[|pre| + i];
    }
    forall i, j | 0 <= i < j < |es|
      ensures es[i].name != es[j].name
    {
      assert es[i] == (pre + es)[|pre| + i] && es[j] == (pre + es)[|pre| + j];
    }
    forall i, j | 0 <= i < |pre| && 0 <= j < |es|
      ensures pre[i].name != es[j].name
    {
      assert pre[i] == (pre + es)[i] && es[j] == (pre + es)[|pre| + j];
    }
    forall i | 0 <= i < |pre|
      ensures Deliverable(pre[i])
    {
      assert pre[i] == (pre + es)[i];
    }
  }

  /** The default masks always compile. */
  lemma DefaultMasksCompile(e: RegexEngine, f: Filter)
    ensures SetRegex(e, None, None, f).1
    ensures SetRegex(e, None, None, f).0.excludeRegex == f.excludeRegex
  {
    assert IsPlainMask(DefaultMask);
    PlainMaskCompiles(e, DefaultMask);
  }

  /** The delivery phase of a poll whose token is the file delivered last, if any. */
  lemma DeliveryStep(c: Config, env: Env, folderPath: string, pre: seq<Entry>, es: seq<Entry>)
    requires Setup(c, env, folderPath) && env.store.folders[Folder(c, folderPath)] == pre + es
    requires |pre| <= 1 && Drainable(pre + es)
    ensures var token := if pre == [] then "" else pre[0].name;
      && DeliveryCompletion(c, env, Some(token), Some(folderPath)).0.Success?
      && IsSuccessStatusCode(DeliveryCompletion(c, env, Some(token), Some(folderPath)).0.value)
      && DeliveryCompletion(c, env, Some(token), Some(folderPath)).1 == WithFolder(c, env, folderPath, es)
  {
    DrainableTail(pre, es);
    if pre == [] {
      assert pre + es == es;
      WithFolderSame(c, env, folderPath);
    } else {
      assert pre == [pre[0]];
      DeliverToken(c, env, folderPath, pre[0], es);
    }
  }

  /**
   * One poll with the default masks, the token naming the file delivered last (or
   * empty): that file is deleted, and the answer is the next entry of the folder,
   * with its name as the next token, or Accepted once the folder is empty.
   */
  lemma PollStep(c: Config, env: Env, f: Filter, folderPath: string, pre: seq<Entry>, es: seq<Entry>, fileType: FileType)
    requires Setup(c, env, folderPath) && env.store.folders[Folder(c, folderPath)] == pre + es
    requires |pre| <= 1 && Drainable(pre + es) && f.excludeRegex.None?
    ensures Drainable(es)
    ensures Poll(c, env, f, Some(if pre == [] then "" else pre[0].name), Some(folderPath), None, None, fileType) ==
      (Expected(c, folderPath, es, fileType), WithFolder(c, env, folderPath, es), SetRegex(c.engine, None, None, f).0)
  {
    DrainableTail(pre, es);
    DefaultMasksCompile(c.engine, f);
    DeliverAndPollStep(c, env, f, folderPath, pre, es, fileType);
  }

  /** The poll after its masks compiled: the delivery of the token, then the next entry of the folder. */
  lemma DeliverAndPollStep(c: Config, env: Env, f: Filter, folderPath: string, pre: seq<Entry>, es: seq<Entry>,
                           fileType: FileType)
    requires Setup(c, env, folderPath) && env.store.folders[Folder(c, folderPath)] == pre + es
    requires |pre| <= 1 && Drainable(pre + es) && f.excludeRegex.None?
    ensures Drainable(es)
    ensures DeliverAndPoll(c, env, SetRegex(c.engine, None, None, f).0, Some(if pre == [] then "" else pre[0].name),
                           Some(folderPath), fileType) ==
      (Expected(c, folderPath, es, fileType), WithFolder(c, env, folderPath, es))
  {
    var token := Some(if pre == [] then "" else pre[0].name);
    var f1 := SetRegex(c.engine, None, None, f).0;
    var env1 := WithFolder(c, env, folderPath, es);
    DrainableTail(pre, es);
    DeliveryStep(c, env, folderPath, pre, es);
    NextOfFolder(c, env1, f, folderPath, es, fileType);
    var file := if es == [] then None else Some(DrainedFile(c, folderPath, es[0], fileType));
    DeliveredThenPolled(c, env, f1, token, folderPath, fileType, env1, file, Ok(Listing(Descriptions(c, folderPath, es))));
  }

  /** A delivery that succeeds followed by a listing that succeeds: the poll answers with the file found, or Accepted. */
  lemma DeliveredThenPolled(c: Config, env: Env, f: Filter, token: Option<string>, folderPath: string, fileType: FileType,
                            env1: Env, file: Option<File>, listResponse: Response)
    requires DeliveryCompletion(c, env, token, Some(folderPath)).0.Success?
    requires IsSuccessStatusCode(DeliveryCompletion(c, env, token, Some(folderPath)).0.value)
    requires DeliveryCompletion(c, env, token, Some(folderPath)).1 == env1
    requires NextFile(c, env1, f, Some(folderPath), fileType) == (Success(file), listResponse, env1)
    requires IsSuccessStatusCode(listResponse)
    ensures DeliverAndPoll(c, env, f, token, Some(folderPath), fileType) ==
      (if file.Some? then Ok(Event(file.value, file.value.fileName)) else Accepted(""), env1)
  {
  }

  // ----- A sequence of polls -----

  /** One poll as a caller repeats it: from the state, the regex fields and the token sent, to the answer and what it leaves. */
  type Poller = (Env, Filter, Option<string>) -> (Response, Env, Filter)

  /** TriggerOnFileAvailable on folderPath with the default masks. */
  function PollOf(c: Config, folderPath: string, fileType: FileType): Poller
  {
    (env, f, token) => Poll(c, env, f, token, Some(folderPath), None, None, fileType)
  }

  /** The trigger state the caller sends with its next poll: the one the answer carries, or the one it sent last. */
  function NextToken(r: Response, previous: Option<string>): Option<string>
  {
    match r
    case Ok(Event(_, token)) => token
    case Accepted(token) => Some(token)
    case _ => previous
  }

  /** n polls, each sending the trigger state the previous one handed back. */
  function Polls(step: Poller, env: Env, f: Filter, token: Option<string>, n: nat): (r: (seq<Response>, Env, Filter))
    ensures |r.0| == n
    decreases n
  {
    if n == 0 then ([], env, f)
    else
      var polled := step(env, f, token);
      var rest := Polls(step, polled.1, polled.2, NextToken(polled.0, token), n - 1);
      ([polled.0] + rest.0, rest.1, rest.2)
  }

  /**
   * A poll about to happen on a drainable folder with the default filter, the token
   * empty or naming the folder's first entry (the file delivered last).
   */
  predicate Pending(c: Config, env: Env, f: Filter, folderPath: string, token: Option<string>)
  {
    && Setup(c, env, folderPath) && f.excludeRegex.None?
    && var es := env.store.folders[Folder(c, folderPath)];
    && Drainable(es)
    && (token == Some("") || (es != [] && token == Some(es[0].name)))
  }

  /** The entries still to deliver: all of them, or all but the one the token names. */
  function Remaining(c: Config, env: Env, f: Filter, folderPath: string, token: Option<string>): (r: seq<Entry>)
    requires Pending(c, env, f, folderPath, token)
    ensures Drainable(r)
  {
    var es := env.store.folders[Folder(c, folderPath)];
    var k := if token == Some("") then 0 else 1;
    assert es == es[..k] + es[k..];
    DrainableTail(es[..k], es[k..]);
    es[k..]
  }

  /** What a pending poll does: deliver the first remaining entry, or answer Accepted, and delete the token's file. */
  function Outcome(c: Config, env: Env, f: Filter, folderPath: string, fileType: FileType, token: Option<string>)
    : (Response, Env, Filter)
    requires Pending(c, env, f, folderPath, token)
  {
    var es := Remaining(c, env, f, folderPath, token);
    (Expected(c, folderPath, es, fileType), WithFolder(c, env, folderPath, es), SetRegex(c.engine, None, None, f).0)
  }

  /** A poller that does what a pending poll does. */
  ghost predicate Drains(step: Poller, c: Config, folderPath: string, fileType: FileType)
  {
    forall env, f, token {:trigger Outcome(c, env, f, folderPath, fileType, token)} :: Pending(c, env, f, folderPath, token) ==>
      step(env, f, token) == Outcome(c, env, f, folderPath, fileType, token)
  }

  /** TriggerOnFileAvailable with the default masks does what a pending poll does. */
  lemma PollDrains(c: Config, folderPath: string, fileType: FileType)
    ensures Drains(PollOf(c, folderPath, fileType), c, folderPath, fileType)
  {
    forall env, f, token | Pending(c, env, f, folderPath, token)
      ensures PollOf(c, folderPath, fileType)(env, f, token) == Outcome(c, env, f, folderPath, fileType, token)
    {
      PendingPoll(c, env, f, folderPath, fileType, token);
    }
  }

  /** A pending poll does what Outcome says. */
  lemma PendingPoll(c: Config, env: Env, f: Filter, folderPath: string, fileType: FileType, token: Option<string>)
    requires Pending(c, env, f, folderPath, token)
    ensures Poll(c, env, f, token, Some(folderPath), None, None, fileType) == Outcome(c, env, f, folderPath, fileType, token)
  {
    if token == Some("") {
      PendingPollFresh(c, env, f, folderPath, fileType);
    } else {
      PendingPollToken(c, env, f, folderPath, fileType, token);
    }
  }

  lemma PendingPollFresh(c: Config, env: Env, f: Filter, folderPath: string, fileType: FileType)
    requires Pending(c, env, f, folderPath, Some(""))
    ensures Poll(c, env, f, Some(""), Some(folderPath), None, None, fileType) == Outcome(c, env, f, folderPath, fileType, Some(""))
  {
    var es := env.store.folders[Folder(c, folderPath)];
    assert Remaining(c, env, f, folderPath, Some("")) == es;
    assert [] + es == es;
    PollStep(c, env, f, folderPath, [], es, fileType);
  }

  lemma PendingPollToken(c: Config, env: Env, f: Filter, folderPath: string, fileType: FileType, token: Option<string>)
    requires Pending(c, env, f, folderPath, token) && token != Some("")
    ensures Poll(c, env, f, token, Some(folderPath), None, None, fileType) == Outcome(c, env, f, folderPath, fileType, token)
  {
    var es := env.store.folders[Folder(c, folderPath)];
    var pre, rest := es[..1], es[1..];
    assert es == pre + rest && pre[0] == es[0];
    PollStep(c, env, f, folderPath, pre, rest, fileType);
    assert Remaining(c, env, f, folderPath, token) == rest;
  }

  /** After a pending poll, the next poll, with the token it handed back, is pending too. */
  lemma PendingAfter(c: Config, env: Env, f: Filter, folderPath: string, fileType: FileType, token: Option<string>)
    requires Pending(c, env, f, folderPath, token) && Remaining(c, env, f, folderPath, token) != []
    ensures var (r, env1, f1) := Outcome(c, env, f, folderPath, fileType, token);
      && Pending(c, env1, f1, folderPath, NextToken(r, token))
      && Remaining(c, env1, f1, folderPath, NextToken(r, token)) == Remaining(c, env, f, folderPath, token)[1..]
  {
    DefaultMasksCompile(c.engine, f);
  }

  /** The answers of polls that deliver es in order and then answer Accepted with an empty token. */
  predicate Delivers(c: Config, folderPath: string, fileType: FileType, es: seq<Entry>, rs: seq<Response>)
    requires Drainable(es)
  {
    && |rs| == |es| + 1
    && (forall i :: 0 <= i < |es| ==> rs[i] == Ok(Event(DrainedFile(c, folderPath, es[i], fileType), Some(es[i].name))))
    && rs[|es|] == Accepted("")
  }

  lemma DeliversCons(c: Config, folderPath: string, fileType: FileType, es: seq<Entry>, rest: seq<Response>)
    requires Drainable(es) && es != [] && Drainable(es[1..]) && Delivers(c, folderPath, fileType, es[1..], rest)
    ensures Delivers(c, folderPath, fileType, es, [Expected(c, folderPath, es, fileType)] + rest)
  {
    var rs := [Expected(c, folderPath, es, fileType)] + rest;
    forall i | 1 <= i < |es|
      ensures rs[i] == Ok(Event(DrainedFile(c, folderPath, es[i], fileType), Some(es[i].name)))
    {
      assert rs[i] == rest[i - 1] && es[i] == es[1..][i - 1];
    }
  }

  /** The first of n + 1 polls is the step itself; the rest go on from what it leaves. */
  lemma PollsFirst(step: Poller, env: Env, f: Filter, token: Option<string>, n: nat)
    ensures var polled := step(env, f, token);
      var rest := Polls(step, polled.1, polled.2, NextToken(polled.0, token), n);
      Polls(step, env, f, token, n + 1) == ([polled.0] + rest.0, rest.1, rest.2)
  {
  }

  /** A pending poll of a folder with nothing left to deliver answers Accepted and leaves the folder empty. */
  lemma DrainEmpty(step: Poller, c: Config, env: Env, f: Filter, folderPath: string, fileType: FileType, token: Option<string>)
    requires Drains(step, c, folderPath, fileType) && Pending(c, env, f, folderPath, token)
    requires Remaining(c, env, f, folderPath, token) == []
    ensures var polls := Polls(step, env, f, token, 1);
      Delivers(c, folderPath, fileType, [], polls.0) && polls.1 == WithFolder(c, env, folderPath, [])
  {
    var outcome := Outcome(c, env, f, folderPath, fileType, token);
    assert step(env, f, token) == outcome;
  }

  /** Polling on from a pending poll delivers the remaining entries in order and empties the folder. */
  lemma {:induction false} DrainFrom(step: Poller, c: Config, env: Env, f: Filter, folderPath: string, fileType: FileType,
                                     token: Option<string>)
    requires Drains(step, c, folderPath, fileType) && Pending(c, env, f, folderPath, token)
    ensures var es := Remaining(c, env, f, folderPath, token);
      var polls := Polls(step, env, f, token, |es| + 1);
      Delivers(c, folderPath, fileType, es, polls.0) && polls.1 == WithFolder(c, env, folderPath, [])
    decreases |Remaining(c, env, f, folderPath, token)|, 1
  {
    if Remaining(c, env, f, folderPath, token) == [] {
      DrainEmpty(step, c, env, f, folderPath, fileType, token);
    } else {
      DrainMore(step, c, env, f, folderPath, fileType, token);
    }
  }

  /** The first of the polls from a pending poll: what it answers, and the pending poll it leaves. */
  lemma FirstPoll(step: Poller, c: Config, env: Env, f: Filter, folderPath: string, fileType: FileType,
                  token: Option<string>)
    requires Drains(step, c, folderPath, fileType) && Pending(c, env, f, folderPath, token)
    requires Remaining(c, env, f, folderPath, token) != []
    ensures var es := Remaining(c, env, f, folderPath, token);
      var outcome := Outcome(c, env, f, folderPath, fileType, token);
      var next := NextToken(outcome.0, token);
      var rest := Polls(step, outcome.1, outcome.2, next, |es|);
      && outcome.0 == Expected(c, folderPath, es, fileType)
      && outcome.1 == WithFolder(c, env, folderPath, es)
      && Pending(c, outcome.1, outcome.2, folderPath, next)
      && Remaining(c, outcome.1, outcome.2, folderPath, next) == es[1..]
      && Polls(step, env, f, token, |es| + 1) == ([outcome.0] + rest.0, rest.1, rest.2)
  {
    var outcome := Outcome(c, env, f, folderPath, fileType, token);
    assert step(env, f, token) == outcome;
    PollsFirst(step, env, f, token, |Remaining(c, env, f, folderPath, token)|);
    PendingAfter(c, env, f, folderPath, fileType, token);
  }

  /** The first remaining entry is delivered by the first poll, and the rest by the polls after it. */
  lemma {:induction false} DrainMore(step: Poller, c: Config, env: Env, f: Filter, folderPath: string, fileType: FileType,
                                     token: Option<string>)
    requires Drains(step, c, folderPath, fileType) && Pending(c, env, f, folderPath, token)
    requires Remaining(c, env, f, folderPath, token) != []
    ensures var es := Remaining(c, env, f, folderPath, token);
      var polls := Polls(step, env, f, token, |es| + 1);
      Delivers(c, folderPath, fileType, es, polls.0) && polls.1 == WithFolder(c, env, folderPath, [])
    decreases |Remaining(c, env, f, folderPath, token)|, 0
  {
    var es := Remaining(c, env, f, folderPath, token);
    var outcome := Outcome(c, env, f, folderPath, fileType, token);
    var next := NextToken(outcome.0, token);
    FirstPoll(step, c, env, f, folderPath, fileType, token);
    DrainFrom(step, c, outcome.1, outcome.2, folderPath, fileType, next);
    var rest := Polls(step, outcome.1, outcome.2, next, |es|);
    WithFolderTwice(c, env, folderPath, es, []);
    DeliversCons(c, folderPath, fileType, es, rest.0);
  }

  /**
   * Draining a folder of N files with the default masks, starting from an empty
   * trigger state: the first N polls deliver the files in the server's order, each
   * carrying its own name as the next token, the poll after them answers Accepted
   * with an empty token, and the folder is left empty with nothing else changed.
   */
  lemma Drain(c: Config, env: Env, f: Filter, folderPath: string, fileType: FileType)
    requires Setup(c, env, folderPath) && Drainable(env.store.folders[Folder(c, folderPath)]) && f.excludeRegex.None?
    ensures var es := env.store.folders[Folder(c, folderPath)];
      var polls := Polls(PollOf(c, folderPath, fileType), env, f, Some(""), |es| + 1);
      Delivers(c, folderPath, fileType, es, polls.0) && polls.1 == WithFolder(c, env, folderPath, [])
  {
    PollDrains(c, folderPath, fileType);
    DrainFrom(PollOf(c, folderPath, fileType), c, env, f, folderPath, fileType, Some(""));
  }
}

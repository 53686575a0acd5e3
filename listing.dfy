/**
 * Properties of the listing and of the fetch list built from it: which names a
 * listing describes, in what order, and which of them a poll goes on to fetch.
 */
module ListingLemmas {
  import opened Wrappers
  import opened Basics
  import opened Paths
  import opened Remote
  import opened FileInfoModel
  import opened Masks
  import opened Outcomes
  import opened SftpRules
  import opened Semantics

  /** A directory entry the listing reports: everything but "." and "..". */
  predicate Visible(name: string)
  {
    name != "." && name != ".."
  }

  /** The visible names of a listing, in the server's order. */
  function VisibleNames(names: seq<string>): (r: seq<string>)
    ensures forall x :: x in r <==> x in names && Visible(x)
  {
    if names == [] then []
    else
      var rest := VisibleNames(names[1..]);
      assert names == [names[0]] + names[1..];
      if Visible(names[0]) then [names[0]] + rest else rest
  }

  lemma {:induction false} VisibleNamesAppend(names: seq<string>, last: string)
    ensures VisibleNames(names + [last]) == VisibleNames(names) + (if Visible(last) then [last] else [])
    decreases |names|
  {
    if names == [] {
      assert [last][1..] == [];
    } else {
      assert (names + [last])[1..] == names[1..] + [last];
      VisibleNamesAppend(names[1..], last);
    }
  }

  /**
   * When the folder and every name are valid path text, the listing describes exactly
   * the visible names, one descriptor each, in the server's order.
   */
  lemma {:induction false} DescriptorsOfVisibleNames(server: Option<string>, folder: string, names: seq<string>)
    requires !HasInvalidPathChars(folder)
    requires forall i :: 0 <= i < |names| ==> !HasInvalidPathChars(names[i])
    ensures Descriptors(server, folder, names).Success?
    ensures var infos := Descriptors(server, folder, names).value;
      var visible := VisibleNames(names);
      && |infos| == |visible|
      && forall i :: 0 <= i < |infos| ==> infos[i] == FileInfo(Some(visible[i]), Some(folder), Some(Join(folder, visible[i])), server)
    decreases |names|
  {
    if names != [] {
      var init := names[..|names| - 1];
      var last := names[|names| - 1];
      assert names == init + [last];
      DescriptorsOfVisibleNames(server, folder, init);
      VisibleNamesAppend(init, last);
    }
  }

  /**
   * The listing loop fails exactly when some visible name cannot be combined with the
   * folder; "." and ".." are never combined.
   */
  lemma {:induction false} DescriptorsFailure(server: Option<string>, folder: string, names: seq<string>)
    ensures Descriptors(server, folder, names).Failure? <==>
      exists i :: 0 <= i < |names| && Visible(names[i]) && (HasInvalidPathChars(folder) || HasInvalidPathChars(names[i]))
    decreases |names|
  {
    if names != [] {
      var init := names[..|names| - 1];
      DescriptorsFailure(server, folder, init);
      assert forall i :: 0 <= i < |init| ==> init[i] == names[i];
      if exists i :: 0 <= i < |names| && Visible(names[i]) && (HasInvalidPathChars(folder) || HasInvalidPathChars(names[i])) {
        var i :| 0 <= i < |names| && Visible(names[i]) && (HasInvalidPathChars(folder) || HasInvalidPathChars(names[i]));
        if i < |init| {
          assert Visible(init[i]);
        }
      }
    }
  }

  /** Every descriptor the listing loop builds names its file. */
  lemma {:induction false} DescriptorsAreNamed(server: Option<string>, folder: string, names: seq<string>)
    requires Descriptors(server, folder, names).Success?
    ensures AllNamed(Descriptors(server, folder, names).value)
    decreases |names|
  {
    if names != [] {
      DescriptorsAreNamed(server, folder, names[..|names| - 1]);
    }
  }

  /** Every OK listing response names all its files, so GetFileMetadata never meets a nameless descriptor. */
  lemma ListingIsNamed(c: Config, env: Env, folderPath: Option<string>)
    requires ListFiles(c, env, folderPath).0.Ok?
    ensures ListFiles(c, env, folderPath).0.payload.Listing?
    ensures AllNamed(ListFiles(c, env, folderPath).0.payload.infos)
  {
    var folder := ResolvePath(c.rootFolderPath, folderPath).value;
    var names := ListNames(Validate(c, env).1.store, folder).value;
    DescriptorsAreNamed(c.connection.serverAddress, folder, names);
  }

  /** The fetch list is a name of the listing exactly when that name passes CheckRegex. */
  lemma {:induction false} FetchListMembers(e: RegexEngine, f: Filter, infos: seq<FileInfo>, name: string)
    requires AllNamed(infos)
    ensures name in FetchList(e, f, infos) <==>
      (exists i :: 0 <= i < |infos| && infos[i].fileName == Some(name)) && CheckRegex(e, f, name)
    decreases |infos|
  {
    if infos != [] {
      var init := infos[..|infos| - 1];
      assert forall i :: 0 <= i < |init| ==> init[i] == infos[i];
      FetchListMembers(e, f, init, name);
      if exists i :: 0 <= i < |infos| && infos[i].fileName == Some(name) {
        var i :| 0 <= i < |infos| && infos[i].fileName == Some(name);
        if i < |init| {
          assert init[i].fileName == Some(name);
        }
      }
    }
  }

  /**
   * The fetch list keeps the listing's order: the list of a listing split in two is the
   * list of the first part followed by the list of the second.
   */
  lemma {:induction false} FetchListConcat(e: RegexEngine, f: Filter, a: seq<FileInfo>, b: seq<FileInfo>)
    requires AllNamed(a) && AllNamed(b)
    ensures AllNamed(a + b)
    ensures FetchList(e, f, a + b) == FetchList(e, f, a) + FetchList(e, f, b)
    decreases |b|
  {
    if b == [] {
      assert a + b == a;
    } else {
      var init := b[..|b| - 1];
      assert (a + b)[..|a + b| - 1] == a + init;
      FetchListConcat(e, f, a, init);
    }
  }

  /** A failed listing leaves nothing to fetch, and the poll gets that same response back. */
  lemma FailedListingFetchesNothing(c: Config, env: Env, f: Filter, pollingPath: Option<string>)
    requires !IsSuccessStatusCode(ListFiles(c, env, pollingPath).0)
    ensures var (names, response, env1) := FileMetadata(c, env, f, pollingPath);
      names == [] && (response, env1) == ListFiles(c, env, pollingPath)
  {
  }
}

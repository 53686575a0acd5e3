/**
 * Properties of the polling trigger: the phases of TriggerOnFileAvailable, the
 * file GetNextFile picks, the token a poll hands back, and what a poll that repeats
 * its token sees.
 */
module PollLemmas {
  import opened Wrappers
  import opened Basics
  import opened Paths
  import opened Remote
  import opened FileContentModel
  import opened FileInfoModel
  import opened Masks
  import opened Outcomes
  import opened SftpRules
  import opened Semantics
  import ListingLemmas

  /** No validation error collected, and none to collect: every validation passes and changes nothing. */
  predicate Quiet(c: Config, env: Env)
  {
    env.validationErrors == [] && ValidationErrors(c.connection) == []
  }

  // ----- Reading leaves the server alone -----

  /** GetFile and ListFiles never change the server, and in a quiet controller change nothing at all. */
  lemma ReadsChangeNothing(c: Config, env: Env, filePath: Option<string>, fileType: FileType)
    ensures GetFile(c, env, filePath, fileType).1.store == env.store
    ensures ListFiles(c, env, filePath).1.store == env.store
    ensures Quiet(c, env) ==> GetFile(c, env, filePath, fileType).1 == env && ListFiles(c, env, filePath).1 == env
  {
    ValidationIsStable(c, env);
  }

  /** The loop of GetNextFile never changes the server, and in a quiet controller changes nothing at all. */
  lemma {:induction false} ScanChangesNothing(c: Config, env: Env, pollingPath: Option<string>, names: seq<string>, fileType: FileType)
    ensures Scan(c, env, pollingPath, names, fileType).1.store == env.store
    ensures Quiet(c, env) ==> Scan(c, env, pollingPath, names, fileType).1 == env
    decreases |names|
  {
    if names != [] {
      var env1 := Resource(c, env, pollingPath, names[0], fileType).1;
      if Combine(pollingPath, Some(names[0])).Success? {
        ReadsChangeNothing(c, env, Some(Combine(pollingPath, Some(names[0])).value), fileType);
      }
      ScanChangesNothing(c, env1, pollingPath, names[1..], fileType);
    }
  }

  /** GetNextFile never changes the server: the file it finds is not deleted. */
  lemma NextFileChangesNothing(c: Config, env: Env, f: Filter, pollingPath: Option<string>, fileType: FileType)
    ensures NextFile(c, env, f, pollingPath, fileType).2.store == env.store
    ensures Quiet(c, env) ==> NextFile(c, env, f, pollingPath, fileType).2 == env
  {
    ReadsChangeNothing(c, env, pollingPath, fileType);
    var (names, _, env1) := FileMetadata(c, env, f, pollingPath);
    ScanChangesNothing(c, env1, pollingPath, names, fileType);
  }

  // ----- The file GetNextFile picks -----

  /** One step of the loop of GetNextFile in a quiet controller. */
  lemma ScanStep(c: Config, env: Env, pollingPath: Option<string>, names: seq<string>, fileType: FileType)
    requires Quiet(c, env) && names != []
    ensures Resource(c, env, pollingPath, names[0], fileType).1 == env
    ensures Scan(c, env, pollingPath, names, fileType) ==
      if Resource(c, env, pollingPath, names[0], fileType).0 == Success(None) then Scan(c, env, pollingPath, names[1..], fileType)
      else (Resource(c, env, pollingPath, names[0], fileType).0, env)
  {
    if Combine(pollingPath, Some(names[0])).Success? {
      ReadsChangeNothing(c, env, Some(Combine(pollingPath, Some(names[0])).value), fileType);
    }
  }

  /**
   * In a quiet controller, the loop of GetNextFile returns the first name of the fetch
   * list whose resource is a file or whose path cannot be formed, skipping exactly the
   * names whose GetFile was not OK; it returns no file when every name is skipped.
   */
  lemma {:induction false} ScanFindsFirst(c: Config, env: Env, pollingPath: Option<string>, names: seq<string>, fileType: FileType)
    requires Quiet(c, env)
    ensures var got := Scan(c, env, pollingPath, names, fileType).0;
      && (got == Success(None) <==> forall j :: 0 <= j < |names| ==> Resource(c, env, pollingPath, names[j], fileType).0 == Success(None))
      && (got != Success(None) ==>
            exists k :: 0 <= k < |names| && Resource(c, env, pollingPath, names[k], fileType).0 == got
              && forall j :: 0 <= j < k ==> Resource(c, env, pollingPath, names[j], fileType).0 == Success(None))
    decreases |names|
  {
    if names != [] {
      ScanStep(c, env, pollingPath, names, fileType);
      var got := Scan(c, env, pollingPath, names, fileType).0;
      if Resource(c, env, pollingPath, names[0], fileType).0 == Success(None) {
        var rest := names[1..];
        ScanFindsFirst(c, env, pollingPath, rest, fileType);
        assert got == Scan(c, env, pollingPath, rest, fileType).0;
        if got != Success(None) {
          var k :| 0 <= k < |rest| && Resource(c, env, pollingPath, rest[k], fileType).0 == got
            && forall j :: 0 <= j < k ==> Resource(c, env, pollingPath, rest[j], fileType).0 == Success(None);
          assert names[k + 1] == rest[k];
          forall j | 0 <= j < k + 1
            ensures Resource(c, env, pollingPath, names[j], fileType).0 == Success(None)
          {
            if j > 0 {
              assert names[j] == rest[j - 1];
            }
          }
        } else {
          forall j | 0 <= j < |names|
            ensures Resource(c, env, pollingPath, names[j], fileType).0 == Success(None)
          {
            if j > 0 {
              assert names[j] == rest[j - 1];
            }
          }
        }
      }
    }
  }

  // ----- The phases of a poll -----

  /** A mask that does not compile is BadRequest before any delete or listing: the state is as it was. */
  lemma MaskFailureIsBadRequest(c: Config, env: Env, f: Filter, triggerState: Option<string>, folderPath: Option<string>,
                                fileMask: Option<string>, excludeFileMask: Option<string>, fileType: FileType)
    requires !SetRegex(c.engine, fileMask, excludeFileMask, f).1
    ensures Poll(c, env, f, triggerState, folderPath, fileMask, excludeFileMask, fileType).0 == BadRequest
    ensures Poll(c, env, f, triggerState, folderPath, fileMask, excludeFileMask, fileType).1 == env
  {
  }

  /** An empty or missing token deletes nothing. */
  lemma EmptyTokenDeletesNothing(c: Config, env: Env, triggerState: Option<string>, folderPath: Option<string>)
    requires IsNullOrEmpty(triggerState)
    ensures DeliveryCompletion(c, env, triggerState, folderPath) == (Success(Ok(Empty)), env)
  {
  }

  /** The only answer DeleteFile gives that counts as success is the one for a file it removed. */
  lemma DeleteSuccessIsRemoval(c: Config, env: Env, filePath: Option<string>)
    ensures IsSuccessStatusCode(DeleteFile(c, env, filePath).0) ==> DeleteFile(c, env, filePath).0 == Ok(Deleted)
  {
    if c.isConfigurationValid && ResolveFile(c.rootFolderPath, filePath).Some? {
      var (folder, name) := ResolveFile(c.rootFolderPath, filePath).value;
      assert DeleteFile(c, env, filePath) == DeleteTransport(c, env, folder, name);
      DeleteTransportSuccess(c, env, folder, name);
    }
  }

  lemma DeleteTransportSuccess(c: Config, env: Env, folder: string, name: string)
    ensures IsSuccessStatusCode(DeleteTransport(c, env, folder, name).0) ==> DeleteTransport(c, env, folder, name).0 == Ok(Deleted)
  {
    var (ok, env1) := Validate(c, env);
    if ok && env1.store.reachable {
      match Remove(env1.store, RemotePath(folder, name))
      case Failure(e) =>
        assert DeleteTransport(c, env, folder, name).0 == ErrorResponse(e);
      case Success(_) =>
    }
  }

  /**
   * A token is completed by deleting folder/token: the delivery succeeds exactly when
   * that delete removed the file or found none, and otherwise answers what the delete answered.
   */
  lemma TokenIsDeleted(c: Config, env: Env, triggerState: Option<string>, folderPath: Option<string>)
    requires !IsNullOrEmpty(triggerState) && folderPath.Some?
    requires !HasInvalidPathChars(folderPath.value) && !HasInvalidPathChars(triggerState.value)
    ensures var deletion := DeleteFile(c, env, Some(Join(folderPath.value, triggerState.value)));
      var (delivery, env1) := DeliveryCompletion(c, env, triggerState, folderPath);
      && delivery.Success? && env1 == deletion.1
      && (IsSuccessStatusCode(delivery.value) <==> deletion.0 == Ok(Deleted) || deletion.0 == NotFound)
      && (!IsSuccessStatusCode(delivery.value) ==> delivery.value == deletion.0)
  {
    DeleteSuccessIsRemoval(c, env, Some(Join(folderPath.value, triggerState.value)));
  }

  /** A token with no folder to combine it with makes Path.Combine throw, which the poll answers with InternalError. */
  lemma TokenWithoutFolderIsInternalError(c: Config, env: Env, f: Filter, triggerState: Option<string>,
                                          fileMask: Option<string>, excludeFileMask: Option<string>, fileType: FileType)
    requires c.isConfigurationValid && SetRegex(c.engine, fileMask, excludeFileMask, f).1
    requires !IsNullOrEmpty(triggerState)
    ensures Poll(c, env, f, triggerState, None, fileMask, excludeFileMask, fileType).0 == InternalError
    ensures Poll(c, env, f, triggerState, None, fileMask, excludeFileMask, fileType).1 == env
  {
  }

  /** A delivery that fails is the poll's answer, and nothing is listed. */
  lemma FailedDeliveryEndsPoll(c: Config, env: Env, f: Filter, triggerState: Option<string>, folderPath: Option<string>,
                               fileMask: Option<string>, excludeFileMask: Option<string>, fileType: FileType)
    requires c.isConfigurationValid && SetRegex(c.engine, fileMask, excludeFileMask, f).1
    requires var delivery := DeliveryCompletion(c, env, triggerState, folderPath).0;
      delivery.Success? && !IsSuccessStatusCode(delivery.value)
    ensures var (delivery, env1) := DeliveryCompletion(c, env, triggerState, folderPath);
      Poll(c, env, f, triggerState, folderPath, fileMask, excludeFileMask, fileType)
        == (delivery.value, env1, SetRegex(c.engine, fileMask, excludeFileMask, f).0)
  {
  }

  /** A listing that fails is the poll's answer, whatever the fetch would have found. */
  lemma FailedListingEndsPoll(c: Config, env: Env, f: Filter, triggerState: Option<string>, folderPath: Option<string>,
                              fileMask: Option<string>, excludeFileMask: Option<string>, fileType: FileType)
    requires c.isConfigurationValid && SetRegex(c.engine, fileMask, excludeFileMask, f).1
    requires var delivery := DeliveryCompletion(c, env, triggerState, folderPath).0;
      delivery.Success? && IsSuccessStatusCode(delivery.value)
    requires var env1 := DeliveryCompletion(c, env, triggerState, folderPath).1;
      !IsSuccessStatusCode(ListFiles(c, env1, folderPath).0)
    ensures var env1 := DeliveryCompletion(c, env, triggerState, folderPath).1;
      Poll(c, env, f, triggerState, folderPath, fileMask, excludeFileMask, fileType)
        == (ListFiles(c, env1, folderPath).0, ListFiles(c, env1, folderPath).1, SetRegex(c.engine, fileMask, excludeFileMask, f).0)
  {
    var env1 := DeliveryCompletion(c, env, triggerState, folderPath).1;
    ListingLemmas.FailedListingFetchesNothing(c, env1, SetRegex(c.engine, fileMask, excludeFileMask, f).0, folderPath);
  }

  lemma EventTokenAfterDelivery(c: Config, env: Env, f: Filter, triggerState: Option<string>, folderPath: Option<string>,
                                fileType: FileType)
    ensures var r := DeliverAndPoll(c, env, f, triggerState, folderPath, fileType).0;
      && (r.Ok? && r.payload.Event? ==> r.payload.triggerState == r.payload.file.fileName)
      && (r.Accepted? ==> r.triggerState == "")
  {
    var r := DeliverAndPoll(c, env, f, triggerState, folderPath, fileType).0;
    var (delivery, env1) := DeliveryCompletion(c, env, triggerState, folderPath);
    if delivery.Failure? {
      assert r == InternalError;
    } else if !IsSuccessStatusCode(delivery.value) {
      assert r == delivery.value;
    } else {
      var (polled, listResponse, env2) := NextFile(c, env1, f, folderPath, fileType);
      if polled.Failure? {
        assert r == InternalError;
      } else if !IsSuccessStatusCode(listResponse) {
        assert r == listResponse;
      } else if polled.value.Some? {
        assert r == Ok(Event(polled.value.value, polled.value.value.fileName));
      } else {
        assert r == Accepted("");
      }
    }
  }

  /** A poll that finds a file hands back its name as the next token; one that finds none hands back "". */
  lemma TokenIsFileName(c: Config, env: Env, f: Filter, triggerState: Option<string>, folderPath: Option<string>,
                        fileMask: Option<string>, excludeFileMask: Option<string>, fileType: FileType)
    ensures var r := Poll(c, env, f, triggerState, folderPath, fileMask, excludeFileMask, fileType).0;
      && (r.Ok? && r.payload.Event? ==> r.payload.triggerState == r.payload.file.fileName)
      && (r.Accepted? ==> r.triggerState == "")
  {
    if c.isConfigurationValid && SetRegex(c.engine, fileMask, excludeFileMask, f).1 {
      EventTokenAfterDelivery(c, env, SetRegex(c.engine, fileMask, excludeFileMask, f).0, triggerState, folderPath, fileType);
    }
  }

  /** The only change a poll makes to the server is the delete of the previous token's file. */
  lemma PollOnlyDeletesToken(c: Config, env: Env, f: Filter, triggerState: Option<string>, folderPath: Option<string>,
                             fileMask: Option<string>, excludeFileMask: Option<string>, fileType: FileType)
    ensures Poll(c, env, f, triggerState, folderPath, fileMask, excludeFileMask, fileType).1.store ==
      if !c.isConfigurationValid || !SetRegex(c.engine, fileMask, excludeFileMask, f).1 then env.store
      else DeliveryCompletion(c, env, triggerState, folderPath).1.store
  {
    if c.isConfigurationValid && SetRegex(c.engine, fileMask, excludeFileMask, f).1 {
      DeliverAndPollOnlyDeletesToken(c, env, SetRegex(c.engine, fileMask, excludeFileMask, f).0, triggerState, folderPath, fileType);
    }
  }

  lemma DeliverAndPollOnlyDeletesToken(c: Config, env: Env, f: Filter, triggerState: Option<string>, folderPath: Option<string>,
                                       fileType: FileType)
    ensures DeliverAndPoll(c, env, f, triggerState, folderPath, fileType).1.store == DeliveryCompletion(c, env, triggerState, folderPath).1.store
  {
    var env1 := DeliveryCompletion(c, env, triggerState, folderPath).1;
    NextFileChangesNothing(c, env1, f, folderPath, fileType);
  }

  // ----- Repeating a token -----

  /** Deleting a file a second time answers NotFound and changes nothing. */
  lemma DeleteTwice(c: Config, env: Env, filePath: Option<string>)
    requires Quiet(c, env) && DeleteFile(c, env, filePath).0 == Ok(Deleted)
    ensures var env1 := DeleteFile(c, env, filePath).1;
      DeleteFile(c, env1, filePath) == (NotFound, env1)
  {
    var (folder, name) := ResolveFile(c.rootFolderPath, filePath).value;
    assert DeleteFile(c, env, filePath) == DeleteTransport(c, env, folder, name);
    DeleteTransportTwice(c, env, folder, name);
  }

  lemma DeleteTransportTwice(c: Config, env: Env, folder: string, name: string)
    requires Quiet(c, env) && DeleteTransport(c, env, folder, name).0 == Ok(Deleted)
    ensures var env1 := DeleteTransport(c, env, folder, name).1;
      DeleteTransport(c, env1, folder, name) == (NotFound, env1)
  {
    var path := RemotePath(folder, name);
    assert Validate(c, env) == (true, env);
    var s1 := Remove(env.store, path).value;
    var env1 := env.(store := s1);
    assert DeleteTransport(c, env, folder, name).1 == env1;
    RemoveTwice(env.store, path);
    NoSuchFileIsNotFound();
    assert Validate(c, env1) == (true, env1);
  }

  /** In a quiet controller a delivery, done once, leaves nothing for the same delivery to do. */
  lemma DeliveryTwice(c: Config, env: Env, triggerState: Option<string>, folderPath: Option<string>)
    requires Quiet(c, env)
    requires var delivery := DeliveryCompletion(c, env, triggerState, folderPath).0;
      delivery.Success? && IsSuccessStatusCode(delivery.value)
    ensures var env1 := DeliveryCompletion(c, env, triggerState, folderPath).1;
      Quiet(c, env1) && DeliveryCompletion(c, env1, triggerState, folderPath) == (Success(Ok(Empty)), env1)
  {
    if !IsNullOrEmpty(triggerState) {
      var p := Combine(folderPath, triggerState).value;
      DeleteSuccessIsRemoval(c, env, Some(p));
      if DeleteFile(c, env, Some(p)).0 == Ok(Deleted) {
        DeleteTwice(c, env, Some(p));
      }
    }
  }

  /**
   * A consumer that polls again with the token it sent last time, instead of the new
   * one, gets the same file again: the poll that found it did not delete it.
   */
  lemma RepeatedTokenRedelivers(c: Config, env: Env, f: Filter, triggerState: Option<string>, folderPath: Option<string>,
                                fileMask: Option<string>, excludeFileMask: Option<string>, fileType: FileType)
    requires c.isConfigurationValid && Quiet(c, env)
    requires Poll(c, env, f, triggerState, folderPath, fileMask, excludeFileMask, fileType).0.Ok?
    ensures var (r, env1, f1) := Poll(c, env, f, triggerState, folderPath, fileMask, excludeFileMask, fileType);
      Poll(c, env1, f1, triggerState, folderPath, fileMask, excludeFileMask, fileType) == (r, env1, f1)
  {
    SetRegexIdempotent(c.engine, fileMask, excludeFileMask, f);
    var (f1, compiled) := SetRegex(c.engine, fileMask, excludeFileMask, f);
    assert compiled;
    var (r, env1) := DeliverAndPoll(c, env, f1, triggerState, folderPath, fileType);
    assert Poll(c, env, f, triggerState, folderPath, fileMask, excludeFileMask, fileType) == (r, env1, f1);
    var (delivery, envD) := DeliveryCompletion(c, env, triggerState, folderPath);
    assert delivery.Success? && IsSuccessStatusCode(delivery.value);
    DeliveryTwice(c, env, triggerState, folderPath);
    NextFileChangesNothing(c, envD, f1, folderPath, fileType);
    assert env1 == envD;
    assert DeliverAndPoll(c, envD, f1, triggerState, folderPath, fileType) == (r, env1);
  }
}

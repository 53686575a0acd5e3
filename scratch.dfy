/**
 * The local disk the SFTP controller stages files on: one scratch directory per
 * request, named by a fresh GUID under the temporary path, deleted when the
 * request ends.
 */
module Scratch {
  import opened Wrappers
  import opened Basics

  /** The limits of the local disk: bytes a scratch file may hold, and the longest file name its path allows. */
  datatype Limits = Limits(capacity: nat, maxFileNameLength: nat)

  /**
   * How appending to a scratch file ends: written, a PathTooLongException, or
   * another IOException (the disk is full).
   */
  datatype LocalOutcome = Written | PathTooLong | DiskFull

  /** The outcome of appending data to a scratch file that holds existing. */
  function AppendOutcome(limits: Limits, existing: seq<byte>, name: string, data: seq<byte>): (r: LocalOutcome)
    ensures r == PathTooLong <==> |name| > limits.maxFileNameLength
    ensures r == Written <==> |name| <= limits.maxFileNameLength && |existing| + |data| <= limits.capacity
  {
    if |name| > limits.maxFileNameLength then PathTooLong
    else if |existing| + |data| > limits.capacity then DiskFull
    else Written
  }

  /** The bytes of a scratch file; a file not yet written is empty, as FileMode.Append creates it. */
  function FileOr(files: map<string, seq<byte>>, name: string): seq<byte>
  {
    if name in files then files[name] else []
  }

  class LocalDisk {
    /** The scratch directories, by the GUID that names them, and their files. */
    var folders: map<nat, map<string, seq<byte>>>
    /** Guid.NewGuid, as a counter: every GUID handed out is new. */
    var nextGuid: nat
    const limits: Limits

    ghost predicate Valid()
      reads this
    {
      forall g :: g in folders ==> g < nextGuid
    }

    constructor (limits: Limits)
      ensures Valid() && folders == map[] && nextGuid == 0 && this.limits == limits
    {
      folders := map[];
      nextGuid := 0;
      this.limits := limits;
    }

    /** Path.Combine(Path.GetTempPath(), Guid.NewGuid().ToString()) + "\\": a name no directory has. */
    method NewTemporaryPath() returns (g: nat)
      requires Valid()
      modifies this`nextGuid
      ensures Valid() && g == old(nextGuid) && nextGuid == g + 1 && g !in folders
    {
      g := nextGuid;
      nextGuid := nextGuid + 1;
    }

    /** Directory.CreateDirectory: an empty directory, or the existing one left as it is. */
    method CreateDirectory(g: nat)
      requires Valid() && g < nextGuid
      modifies this`folders
      ensures Valid()
      ensures folders == old(folders)[g := if g in old(folders) then old(folders)[g] else map[]]
    {
      if g !in folders {
        folders := folders[g := map[]];
      }
    }

    /** Directory.Delete(path, true): the directory and everything in it. */
    method DeleteDirectory(g: nat)
      requires Valid() && g in folders
      modifies this`folders
      ensures Valid() && folders == old(folders) - {g}
    {
      folders := folders - {g};
    }

    /** The local copy Session.GetFiles writes into a scratch directory. */
    method WriteFile(g: nat, name: string, data: seq<byte>)
      requires Valid() && g in folders
      modifies this`folders
      ensures Valid() && folders == old(folders)[g := old(folders)[g][name := data]]
    {
      folders := folders[g := folders[g][name := data]];
    }

    /** new FileStream(path, FileMode.Append) and CopyTo: the data added after what the file holds. */
    method AppendFile(g: nat, name: string, data: seq<byte>) returns (r: LocalOutcome)
      requires Valid() && g in folders
      modifies this`folders
      ensures Valid()
      ensures r == AppendOutcome(limits, FileOr(old(folders)[g], name), name, data)
      ensures r == Written ==> folders == old(folders)[g := old(folders)[g][name := FileOr(old(folders)[g], name) + data]]
      ensures r != Written ==> folders == old(folders)
    {
      var existing := FileOr(folders[g], name);
      r := AppendOutcome(limits, existing, name, data);
      if r == Written {
        folders := folders[g := folders[g][name := existing + data]];
      }
    }

    /** File.OpenRead and Read: the bytes of a scratch file, None when it is missing (a FileNotFoundException). */
    method ReadFile(g: nat, name: string) returns (r: Option<seq<byte>>)
      ensures r.Some? <==> g in folders && name in folders[g]
      ensures r.Some? ==> r.value == folders[g][name]
    {
      if g in folders && name in folders[g] {
        r := Some(folders[g][name]);
      } else {
        r := None;
      }
    }

    /** The removal of the local file that PutFiles(..., remove: true) performs after the transfer. */
    method DeleteFile(g: nat, name: string)
      requires Valid() && g in folders
      modifies this`folders
      ensures Valid() && folders == old(folders)[g := old(folders)[g] - {name}]
    {
      folders := folders[g := folders[g] - {name}];
    }
  }
}

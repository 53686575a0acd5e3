# SFTP connector: a verified model

This project models the core of an SFTP connector, an ASP.NET Web API service that exposes an
SFTP server through the WinSCP client.
- The service offers four entry points: upload, delete, get and list a file.
- A polling trigger hands out the files of a folder one per call. Each call deletes the file the
  previous call delivered, named by the trigger-state token.
- Uploads either go straight to the destination, optionally appending to an existing file, or are
  staged in a temporary folder and moved into place.
- File content travels as base64 or as plain UTF-8 text.

The remote server is a value of type `Remote.StoreState`:
- folders map to entries in the server's listing order, each a regular file or a directory;
- some folders are denied to the account;
- a flag says whether a session can be opened at all.

The WinSCP session is the class `Remote.RemoteStore` over that value, and the local scratch disk
is the class `Scratch.LocalDisk`. HTTP responses are reduced to `Outcomes.Response`: `Ok(payload)`,
`Accepted(token)`, `BadRequest`, `Forbidden`, `NotFound`, `ServiceUnavailable` and `InternalError`.

The project has three layers:
- `Semantics` states every entry point as a function on values. A call returns the response, the
  validation errors the controller has collected, and the server's state.
- `Connector` holds the controller and the transport fetcher as classes. Each entry point is a
  method that is proved to do what its `Semantics` function says.
- The lemma modules (`ListingLemmas`, `UploadLemmas`, `PollLemmas` and `DrainLemmas`) prove what
  the connector promises about those functions.

The content helpers work on a `Streams.Stream` class and real byte arrays:
- `FileContentModel.ReadStreamAsByteArray` keeps the buffer-doubling loop of the source;
- it is proved to return exactly the rest of the stream.

`DrainLemmas.Drain` proves the polling trigger's end-to-end promise:
- a folder of N fetchable files, polled with the default masks, yields its files one per poll in
  the server's order;
- poll N + 1 answers Accepted with an empty token and leaves the folder empty.

Integers are unbounded; the server port is the subset type `Basics.ushort`. Strings are
`seq<char>` and bytes are `Basics.byte`.

A staged upload whose final move fails answers NotFound and keeps the staging copy in place
(source/SftpConnector/Controllers/SftpController.cs:267-277). `UploadLemmas.FailedMoveKeepsStagedCopy`
states this.

## Model

| member | source | states |
|---|---|---|
| `Basics.ReplaceChar` | source/SftpConnector/Controllers/BaseTransportController.cs:154 | `String.Replace` of one character: a string without the character is unchanged, and after replacing it with text that lacks it the character is gone |
| `Basics.ReplaceCharPointwise` | source/SftpConnector/Controllers/BaseTransportController.cs:154 | replacing one character by another keeps the length and changes exactly the positions that held it |
| `Basics.ToLower` | source/SftpConnector/Controllers/SftpController.cs:582 | `ToLower` keeps the length and lowers each character on its own |
| `Basics.TrimStartWhere` | source/SftpConnector/Controllers/SftpController.cs:69-78 | trimming the start drops exactly the longest prefix of trimmed characters and keeps a suffix |
| `Basics.TrimEndWhere` | source/SftpConnector/Controllers/SftpController.cs:69-78 | trimming the end drops exactly the longest suffix of trimmed characters and keeps a prefix |
| `Paths.Combine` | source/SftpConnector/Controllers/BaseTransportController.cs:154 | `Path.Combine` throws ArgumentNull exactly when an argument is null, throws on invalid characters exactly when one argument holds one, and otherwise joins |
| `Paths.Join` | source/SftpConnector/Models/FileInfo.cs:28 | an empty side yields the other side; two non-empty sides are joined with exactly one `\` inserted when the first side does not end in a separator, and with nothing inserted when it does |
| `Paths.ForwardSlashes` | source/SftpConnector/Controllers/BaseTransportController.cs:154 | `.Replace("\\", "/")` keeps the length, turns every `\` into `/` and touches nothing else |
| `Paths.LastSlash` | source/SftpConnector/Controllers/BaseTransportController.cs:163-164 | the index of the last `/`, or -1 when there is none |
| `Paths.SplitPath` | source/SftpConnector/Controllers/BaseTransportController.cs:163-164 | `GetDirectoryName` and `GetFileName`: the name holds no `/`; folder, `/` and name give back the path; a path without `/` has an empty folder |
| `Paths.SplitRemotePath` | source/SftpConnector/Controllers/BaseTransportController.cs:163-164 | a path built as folder + `/` + name, with no `/` in the name, splits back into that folder and name |
| `Remote.ListNames` | source/SftpConnector/Controllers/SftpController.cs:440 | a listing succeeds exactly for a folder that exists and is not denied, and gives its entry names in the server's order |
| `Remote.UploadStores` | source/SftpConnector/Controllers/SftpController.cs:637 | a put that succeeds stores the data under the name, leaves every other name and folder as it was, and a download returns the data |
| `Remote.RemoveDeletes` | source/SftpConnector/Controllers/SftpController.cs:331 | after a removal that succeeds the file does not exist and cannot be downloaded |
| `Remote.UpdatesKeepAccess` | source/SftpConnector/Controllers/SftpController.cs:262-269 | put, remove and move never change which folders are denied or whether the server is reachable |
| `Remote.RemoteStore.Open` | source/SftpConnector/Controllers/SftpController.cs:645 | `Session.Open` fails exactly when the server is unreachable |
| `Remote.RemoteStore.FileExists` | source/SftpConnector/Controllers/SftpController.cs:262 | `FileExists` answers the store's existence test |
| `Remote.RemoteStore.GetFiles` | source/SftpConnector/Controllers/SftpController.cs:376 | `GetFiles(...).Check()` returns the store's download or its error |
| `Remote.RemoteStore.PutFiles` | source/SftpConnector/Controllers/SftpController.cs:637 | `PutFiles` replaces the state by the upload's result, or reports the error and changes nothing |
| `Remote.RemoteStore.RemoveFiles` | source/SftpConnector/Controllers/SftpController.cs:331 | `RemoveFiles` replaces the state by the removal's result, or reports the error and changes nothing |
| `Remote.RemoteStore.MoveFile` | source/SftpConnector/Controllers/SftpController.cs:269 | `MoveFile` replaces the state by the move's result, or reports the error and changes nothing |
| `Remote.RemoteStore.ListDirectory` | source/SftpConnector/Controllers/SftpController.cs:440 | `ListDirectory` returns the store's listing of the folder |
| `Base64Codec.Encode` | source/SftpConnector/Content/FileContent.cs:93 | `Convert.ToBase64String` yields 4 characters for every started group of 3 bytes |
| `Base64Codec.Decode` | source/SftpConnector/Content/FileContent.cs:126 | `Convert.FromBase64String` accepts only text whose length is a multiple of 4 |
| `Base64Codec.DecodeEncode` | source/SftpConnector/Content/FileContent.cs:93 | decoding the encoding of any bytes gives those bytes back |
| `Base64Codec.EncodedIsValid` | source/SftpConnector/Content/FileContent.cs:126 | the encoding of any bytes is accepted by the decoder |
| `Utf8Codec.Encode` | source/SftpConnector/Content/FileContent.cs:138-140 | the `StreamWriter` encoding yields at least one byte per character |
| `Utf8Codec.EncodeConcat` | source/SftpConnector/Content/FileContent.cs:138-140 | encoding distributes over concatenation |
| `Utf8Codec.DecodeEncode` | source/SftpConnector/Content/FileContent.cs:174-176 | decoding the encoding of any text gives that text back |
| `Utf8Codec.TextRoundTrip` | source/SftpConnector/Content/FileContent.cs:174-176 | `StreamReader` gives back text the writer encoded, unless it starts with U+FEFF |
| `Utf8Codec.DecodeCharConsumes` | source/SftpConnector/Content/FileContent.cs:174-176 | a well-formed sequence is decoded whole; an ill-formed one becomes U+FFFD over its maximal subpart, which never swallows a byte that could begin a character |
| `Utf8Codec.TruncatedSequenceIsOneReplacement` | source/SftpConnector/Content/FileContent.cs:174-176 | the truncated sequence E2 82 followed by "A" decodes to one U+FFFD and "A" |
| `Utf8Codec.ByteOrderMarkLost` | source/SftpConnector/Content/FileContent.cs:174-176 | text that starts with U+FEFF comes back without that character |
| `Streams.Stream.Available` | source/SftpConnector/Content/FileContent.cs:215 | the bytes one `Read` can hand back: within the count and what is left, and within the read limit when there is one |
| `Streams.Stream.Read` | source/SftpConnector/Content/FileContent.cs:215 | `Read` copies the next available bytes into the buffer at the offset, keeps the buffer before it, advances the position, and returns 0 only at the end or for count 0 |
| `Streams.Stream.ReadByte` | source/SftpConnector/Content/FileContent.cs:221 | `ReadByte` returns the next byte and advances, or -1 at the end |
| `Streams.Stream.ReadToEnd` | source/SftpConnector/Content/FileContent.cs:176 | `ReadToEnd` returns the rest of the stream and ends at its end |
| `Streams.Stream.Write` | source/SftpConnector/Content/FileContent.cs:127 | `Write` puts the bytes at the position, keeps what precedes and follows, and extends the stream when needed |
| `Streams.Stream.Seek` | source/SftpConnector/Content/FileContent.cs:148 | setting `Position` on a seekable stream moves it there |
| `Streams.Stream.Dispose` | source/SftpConnector/Content/FileContent.cs:174-177 | disposing the reader closes the stream |
| `FileContentModel.GetEncodingBasedOnFileType` | source/SftpConnector/Content/FileContent.cs:256-264 | Binary maps to Base64; Text and every other value map to None |
| `FileContentModel.StreamBytes` | source/SftpConnector/Content/FileContent.cs:116-146 | the bytes `GetStream` writes: ContentNull exactly for null content, ContentInvalidBase64 exactly for base64 content the decoder rejects |
| `FileContentModel.GetStream` | source/SftpConnector/Content/FileContent.cs:116-150 | a fresh seekable stream at position 0 holding the decoded bytes, or the same error as `StreamBytes` |
| `FileContentModel.GrowBuffer` | source/SftpConnector/Content/FileContent.cs:224-227 | the grown buffer is twice as long and starts with the old bytes followed by the extra byte |
| `FileContentModel.TrimBuffer` | source/SftpConnector/Content/FileContent.cs:233-238 | the result holds exactly the first `totalBytesRead` bytes |
| `FileContentModel.GrowIfFull` | source/SftpConnector/Content/FileContent.cs:219-230 | a full buffer with a byte still to come is doubled and takes that byte; the bytes held still equal those read |
| `FileContentModel.ReadIntoBuffer` | source/SftpConnector/Content/FileContent.cs:210-231 | the read loop ends at the end of the stream with the buffer holding exactly the bytes from the starting position on |
| `FileContentModel.ReadStreamAsByteArray` | source/SftpConnector/Content/FileContent.cs:194-249 | a null stream throws ArgumentNull; otherwise the result is the rest of the stream, and a seekable stream returns to its starting position |
| `FileContentModel.ReadStreamAsString` | source/SftpConnector/Content/FileContent.cs:158-186 | a null stream throws ArgumentNull; otherwise the UTF-8 reading of the rest of the stream, which is left closed at its end |
| `FileContentModel.FromStream` | source/SftpConnector/Content/FileContent.cs:91-95 | the stream constructor stores the base64 or text form of the rest of the stream with the given encoding |
| `FileContentModel.Base64RoundTrip` | source/SftpConnector/Content/FileContent.cs:93-127 | content built from bytes with Base64 gives exactly those bytes back from `GetStream` |
| `FileContentModel.TextRoundTrip` | source/SftpConnector/Content/FileContent.cs:135-141 | text content is written as its UTF-8 bytes, and reading them back gives the text, unless it starts with U+FEFF |
| `FileInfoModel.NewFileInfo` | source/SftpConnector/Models/FileInfo.cs:24-30 | the constructor throws exactly on invalid path characters; otherwise it sets FileName, FolderPath and ServerAddress to its arguments and FilePath to their join |
| `FileInfoModel.FilePathUsesPlatformSeparator` | source/SftpConnector/Models/FileInfo.cs:28 | FilePath joins folder and name with `\`, not `/` |
| `FileInfoModel.FileOf` | source/SftpConnector/Models/File.cs:29-35 | a File copies the four descriptor fields and takes content and encoding from the content it is built from |
| `SftpRules.DeniedInAnyCaseIsForbidden` | source/SftpConnector/Controllers/SftpController.cs:582-584 | a remote error whose inner message holds "denied" in any letter case is Forbidden |
| `SftpRules.OtherErrorsAreNotFound` | source/SftpConnector/Controllers/SftpController.cs:582-590 | a remote error with no inner exception, or whose message holds no `d`, is NotFound |
| `SftpRules.StoreErrorResponses` | source/SftpConnector/Controllers/SftpController.cs:577-591 | the store's "Permission denied" is Forbidden; its "No such file" and "Failure" are NotFound |
| `SftpRules.CipherSetting` | source/SftpConnector/Controllers/SftpController.cs:607-618 | Auto, and only Auto, gets the default cipher list; every other cipher gets a setting ending in ",WARN"; TripleDes, and only TripleDes, gets "3des,WARN" |
| `SftpRules.CipherSettingInjective` | source/SftpConnector/Controllers/SftpController.cs:607-618 | different ciphers get different settings |
| `SftpRules.SingleCipherSettings` | source/SftpConnector/Controllers/SftpController.cs:611-617 | the settings of the single ciphers are their lower-case names followed by ",WARN" |
| `SftpRules.GetSessionOptions` | source/SftpConnector/Controllers/SftpController.cs:593-621 | the session options copy host, user, password, key path, passphrase and host-key settings and carry the chosen cipher setting |
| `SftpRules.ValidationErrors` | source/SftpConnector/Controllers/SftpController.cs:479-521 | each check reports its error exactly when its condition holds; the port check never fires; no error appears twice |
| `SftpRules.ParseAuthenticationType` | source/SftpConnector/Controllers/SftpController.cs:668 | `Enum.Parse` throws on null and reads exactly the three member names, once trimmed |
| `SftpRules.ValidateAuthenticationDetails` | source/SftpConnector/Controllers/SftpController.cs:658-700 | a blank user name is refused; otherwise the details pass exactly when the type parses and the fields its type needs are not blank, and a pass has no error text |
| `SftpRules.RefusalNamesType` | source/SftpConnector/Controllers/SftpController.cs:662-696 | every refusal message starts by naming the authentication type |
| `SftpRules.ParseDecimal` | source/SftpConnector/Controllers/SftpController.cs:69-70 | `Convert.ToUInt16` reads a decimal number up to 65535 and overflows above it |
| `SftpRules.ParseBoolean` | source/SftpConnector/Controllers/SftpController.cs:72-74 | `bool.Parse` reads "true" and "false" in any letter case once trimmed, and nothing else |
| `SftpRules.ParseCipher` | source/SftpConnector/Controllers/SftpController.cs:76-78 | a cipher is read only from its own name in some letter case |
| `SftpRules.ParseCipherName` | source/SftpConnector/Controllers/SftpController.cs:76-78 | every cipher name, in any letter case and trimmed, is read as that cipher |
| `SftpRules.ParseSettings` | source/SftpConnector/Controllers/SftpController.cs:60-98 | the configuration is valid exactly when port, host-key flag and cipher all parse; an overflowing port is recorded as out of range; the host key is the fixed one when any key is accepted |
| `SftpRules.DefaultPort` | source/SftpConnector/Controllers/SftpController.cs:69 | a missing or empty port setting gives port 22 |
| `SftpRules.ConfiguredPort` | source/SftpConnector/Controllers/SftpController.cs:69-83 | a configured decimal port is used when it fits 16 bits, and marks the configuration invalid otherwise |
| `Masks.IncludeMask` | source/SftpConnector/Controllers/BaseTransportController.cs:422-425 | a null or empty include mask becomes "*" |
| `Masks.SetRegex` | source/SftpConnector/Controllers/BaseTransportController.cs:420-435 | the include regex is the translated mask; the exclude regex is set only for a non-empty exclude mask and otherwise left as it was; a mask that fails to compile stops it there |
| `Masks.SetRegexIdempotent` | source/SftpConnector/Controllers/BaseTransportController.cs:420-435 | setting the same masks twice is the same as setting them once |
| `Masks.PlainMaskPatternTokens` | source/SftpConnector/Controllers/BaseTransportController.cs:429 | the translation of a plain mask reads back as one pattern piece per mask character |
| `Masks.PlainMaskCompiles` | source/SftpConnector/Controllers/BaseTransportController.cs:429 | the translation of a plain mask always compiles |
| `Masks.PlainMaskMatchesGlob` | source/SftpConnector/Controllers/BaseTransportController.cs:429 | the anchored, case-insensitive translation of a plain mask matches a name exactly when the glob does: `*` any run, `?` one character, `.` itself |
| `Masks.StarMatchesAll` | source/SftpConnector/Controllers/BaseTransportController.cs:424 | the default mask "*" matches every name |
| `Masks.TrailingLineFeedMatches` | source/SftpConnector/Controllers/BaseTransportController.cs:429 | `$` also matches before a final line feed: a plain mask that matches a name also matches it followed by a line feed |
| `Masks.GlobIgnoresAsciiCase` | source/SftpConnector/Controllers/BaseTransportController.cs:429 | with `RegexOptions.IgnoreCase`, changing the ASCII case of a name never changes whether a glob matches it |
| `Masks.CheckRegexAfterSetRegex` | source/SftpConnector/Controllers/BaseTransportController.cs:442-458 | after SetRegex with plain masks, a name passes exactly when the include glob matches it and it is not excluded |
| `Masks.CheckRegexIgnoresAsciiCase` | source/SftpConnector/Controllers/BaseTransportController.cs:420-458 | after SetRegex with plain masks, CheckRegex gives the same answer for a name and its lower-cased form |
| `Masks.XmlMaskPassesUpperCase` | source/SftpConnector/Controllers/BaseTransportController.cs:420-458 | the include mask "*.xml" lets "A.XML" through |
| `Masks.DefaultFilterPassesAll` | source/SftpConnector/Controllers/BaseTransportController.cs:422-458 | with the default masks and no earlier exclude regex, every name passes |
| `Scratch.AppendOutcome` | source/SftpConnector/Controllers/SftpController.cs:632-635 | appending to a scratch file fails with a long path exactly when the name is too long, and succeeds exactly when name and size fit |
| `Scratch.LocalDisk.NewTemporaryPath` | source/SftpConnector/Controllers/SftpController.cs:236 | a new GUID names a directory that does not yet exist |
| `Scratch.LocalDisk.CreateDirectory` | source/SftpConnector/Controllers/SftpController.cs:240 | `Directory.CreateDirectory` adds an empty directory, or keeps an existing one |
| `Scratch.LocalDisk.DeleteDirectory` | source/SftpConnector/Controllers/SftpController.cs:301 | `Directory.Delete(path, true)` removes the directory and everything in it |
| `Scratch.LocalDisk.WriteFile` | source/SftpConnector/Controllers/SftpController.cs:629 | a download into the scratch directory stores the file there |
| `Scratch.LocalDisk.AppendFile` | source/SftpConnector/Controllers/SftpController.cs:632-635 | `FileMode.Append` adds the bytes after the file's existing bytes, or fails and changes nothing |
| `Scratch.LocalDisk.ReadFile` | source/SftpConnector/Controllers/SftpController.cs:385 | `File.OpenRead` returns the file's bytes exactly when it exists |
| `Scratch.LocalDisk.DeleteFile` | source/SftpConnector/Controllers/SftpController.cs:637 | `PutFiles` with `remove: true` deletes the local file |
| `Semantics.Validate` | source/SftpConnector/Controllers/SftpController.cs:479-521 | ValidateController appends the new errors to those collected and passes exactly when there are none at all |
| `Semantics.ValidationIsStable` | source/SftpConnector/Controllers/SftpController.cs:479-521 | the error list is never cleared: once a validation fails every later one fails, and one that passes changes nothing |
| `Semantics.ResolvePath` | source/SftpConnector/Controllers/BaseTransportController.cs:154-161 | the path resolves exactly when it is not null, Combine accepts it and the result is not white space; the result is the root join with `/` separators |
| `Semantics.ResolveFile` | source/SftpConnector/Controllers/BaseTransportController.cs:154-164 | the folder and name are the split of the resolved path |
| `Semantics.GetTransport` | source/SftpConnector/Controllers/SftpController.cs:352-412 | a download changes nothing but the validation errors |
| `Semantics.ListTransport` | source/SftpConnector/Controllers/SftpController.cs:420-462 | a listing changes nothing but the validation errors |
| `Connector.SftpController.constructor` | source/SftpConnector/Controllers/SftpController.cs:60-98 | the configuration properties are those `ParseSettings` reads, the error list and regexes start empty, and the credentials are stored as given |
| `Connector.SftpController.ValidateController` | source/SftpConnector/Controllers/SftpController.cs:479-521 | appends to the validation errors and answers as `Semantics.Validate` does |
| `Connector.SftpController.OpenSession` | source/SftpConnector/Controllers/SftpController.cs:640-656 | OK when the session opens, BadRequest otherwise |
| `Connector.SftpController.SetRegex` | source/SftpConnector/Controllers/BaseTransportController.cs:420-435 | updates the regex fields as `Masks.SetRegex` says |
| `Connector.SftpController.CheckRegex` | source/SftpConnector/Controllers/BaseTransportController.cs:442-458 | answers `Masks.CheckRegex` for the current regex fields |
| `Connector.SftpController.DeleteTransportSpecificFile` | source/SftpConnector/Controllers/SftpController.cs:311-342 | response and new state are those of `Semantics.DeleteTransport` |
| `Connector.SftpController.DeleteFile` | source/SftpConnector/Controllers/BaseTransportController.cs:201-226 | response and new state are those of `Semantics.DeleteFile` |
| `Connector.SftpController.BuildFile` | source/SftpConnector/Controllers/SftpController.cs:379-392 | the File built from the downloaded bytes is `Semantics.DownloadedFile` |
| `Connector.SftpController.Fetch` | source/SftpConnector/Controllers/SftpController.cs:364-406 | the download through a scratch directory answers `Semantics.Fetched` and touches no other directory |
| `Connector.SftpController.GetTransportSpecificFile` | source/SftpConnector/Controllers/SftpController.cs:352-412 | response and new state are those of `Semantics.GetTransport`; the scratch directory is gone afterwards |
| `Connector.SftpController.GetFile` | source/SftpConnector/Controllers/BaseTransportController.cs:245-270 | response and new state are those of `Semantics.GetFile` |
| `Connector.SftpController.CollectDescriptors` | source/SftpConnector/Controllers/SftpController.cs:442-451 | the listing loop builds `Semantics.Descriptors` |
| `Connector.SftpController.ListTransportSpecificFile` | source/SftpConnector/Controllers/SftpController.cs:420-462 | response and new state are those of `Semantics.ListTransport` |
| `Connector.SftpController.ListFiles` | source/SftpConnector/Controllers/BaseTransportController.cs:288-309 | response and new state are those of `Semantics.ListFiles` |
| `Connector.SftpController.StageExisting` | source/SftpConnector/Controllers/SftpController.cs:627-630 | when appending to a file that exists, the scratch file holds its bytes; otherwise the scratch directory stays empty |
| `Connector.SftpController.WriteScratch` | source/SftpConnector/Controllers/SftpController.cs:627-635 | the scratch file ends holding the existing remote bytes (when appending) followed by the rest of the content stream, or the remote, long-path or disk error is reported |
| `Connector.SftpController.UploadToFolder` | source/SftpConnector/Controllers/SftpController.cs:623-638 | the new store is `Semantics.UploadToFolder`'s, or the failure is reported and the store is unchanged |
| `Connector.SftpController.MoveIntoPlace` | source/SftpConnector/Controllers/SftpController.cs:259-277 | an existing destination is removed unchecked, then the staged file is moved; a failed move is NotFound and keeps the staging copy |
| `Connector.SftpController.Transfer` | source/SftpConnector/Controllers/SftpController.cs:250-278 | the transfer follows `Semantics.DirectUpload` or `Semantics.StagedUpload` by the temporary folder |
| `Connector.SftpController.UploadTransportSpecificFile` | source/SftpConnector/Controllers/SftpController.cs:223-303 | response and new state are those of `Semantics.UploadTransport`; the scratch directory is gone on every exit |
| `Connector.SftpController.UploadFile` | source/SftpConnector/Controllers/BaseTransportController.cs:138-183 | response and new state are those of `Semantics.UploadFile` |
| `Connector.SftpController.OnDeliveryCompletion` | source/SftpConnector/Controllers/BaseTransportController.cs:400-413 | response and new state are those of `Semantics.DeliveryCompletion` |
| `Connector.SftpController.FirstFile` | source/SftpConnector/Controllers/BaseTransportController.cs:473-483 | the loop over the fetch list returns what `Semantics.Scan` finds |
| `Connector.SftpController.GetNextFile` | source/SftpConnector/Controllers/BaseTransportController.cs:466-484 | file, listing response and new state are those of `Semantics.NextFile` |
| `Connector.SftpController.DeliverAndPoll` | source/SftpConnector/Controllers/BaseTransportController.cs:353-391 | response and new state are those of `Semantics.DeliverAndPoll` |
| `Connector.SftpController.TriggerOnFileAvailable` | source/SftpConnector/Controllers/BaseTransportController.cs:333-392 | response, new state and new regex fields are those of `Semantics.Poll` |
| `Connector.TransportFetcher.constructor` | source/SftpConnector/TransportFetcher.cs:29-33 | the fetcher keeps the controller and polling path it is given (both fields are immutable) |
| `Connector.TransportFetcher.OnListing` | source/SftpConnector/TransportFetcher.cs:61-64 | returns what `GetFileMetadata` returns |
| `Connector.TransportFetcher.FilesToFetch` | source/SftpConnector/TransportFetcher.cs:86-92 | the loop keeps the listed names that pass CheckRegex, in order: `Semantics.FetchList` |
| `Connector.TransportFetcher.GetFileMetadata` | source/SftpConnector/TransportFetcher.cs:75-100 | fetch list, response and new state are those of `Semantics.FileMetadata` |
| `Connector.TransportFetcher.GetResource` | source/SftpConnector/TransportFetcher.cs:41-55 | the file and new state are those of `Semantics.Resource` |
| `ListingLemmas.VisibleNames` | source/SftpConnector/Controllers/SftpController.cs:446 | a name is kept exactly when it is listed and is neither "." nor ".." |
| `ListingLemmas.VisibleNamesAppend` | source/SftpConnector/Controllers/SftpController.cs:442-451 | the filter keeps listing order: one more listed name adds at most that name at the end |
| `ListingLemmas.DescriptorsOfVisibleNames` | source/SftpConnector/Controllers/SftpController.cs:442-451 | with valid names the listing has one descriptor per visible name, in server order, with folder, joined path and server filled in |
| `ListingLemmas.DescriptorsFailure` | source/SftpConnector/Controllers/SftpController.cs:446-449 | the listing throws exactly when a visible name or the folder holds an invalid path character |
| `ListingLemmas.DescriptorsAreNamed` | source/SftpConnector/Models/FileInfo.cs:26 | every descriptor of a listing has a file name |
| `ListingLemmas.ListingIsNamed` | source/SftpConnector/Controllers/SftpController.cs:446-455 | an OK listing carries descriptors that all have a file name |
| `ListingLemmas.FetchListMembers` | source/SftpConnector/TransportFetcher.cs:86-92 | a name is in the fetch list exactly when some descriptor has it and it passes CheckRegex |
| `ListingLemmas.FetchListConcat` | source/SftpConnector/TransportFetcher.cs:86-92 | the fetch list keeps listing order: that of a concatenation is the concatenation of the fetch lists |
| `ListingLemmas.FailedListingFetchesNothing` | source/SftpConnector/TransportFetcher.cs:79-99 | a listing that is not OK yields an empty fetch list and is returned unchanged |
| `UploadLemmas.NotBlankAfterJoin` | source/SftpConnector/Controllers/BaseTransportController.cs:154-161 | a path that is not white space stays so after the root join |
| `UploadLemmas.StagedAppendIsRefused` | source/SftpConnector/Controllers/SftpController.cs:225-228 | append with a temporary folder is BadRequest and changes nothing |
| `UploadLemmas.DirectModeChosen` | source/SftpConnector/Controllers/SftpController.cs:250-253 | with no temporary folder the upload is the direct one |
| `UploadLemmas.AppendToExisting` | source/SftpConnector/Controllers/SftpController.cs:625-637 | appending to an existing remote file puts its old bytes followed by the new ones |
| `UploadLemmas.PutNew` | source/SftpConnector/Controllers/SftpController.cs:632-637 | without append, or with no file present, exactly the new bytes are put |
| `UploadLemmas.DirectAppendConcatenates` | source/SftpConnector/Controllers/SftpController.cs:627-637 | a direct upload with append leaves old contents followed by new contents and answers with the descriptor |
| `UploadLemmas.DirectUploadOverwrites` | source/SftpConnector/Controllers/SftpController.cs:632-637 | a direct upload without append, or to an absent file, leaves exactly the new contents |
| `UploadLemmas.StagingPut` | source/SftpConnector/Controllers/SftpController.cs:256-257 | staging puts the bytes into the temporary folder and leaves every other folder as it was |
| `UploadLemmas.StagedModeChosen` | source/SftpConnector/Controllers/SftpController.cs:254-258 | a non-blank temporary folder selects the staged upload |
| `UploadLemmas.MoveAfterRemove` | source/SftpConnector/Controllers/SftpController.cs:259-270 | removing an existing destination, then moving, leaves the staged bytes at the destination and nothing at the staging path |
| `UploadLemmas.StagedUploadMovesIntoPlace` | source/SftpConnector/Controllers/SftpController.cs:254-283 | a staged upload ends with the new contents at the destination, none at the staging path, and the destination's descriptor |
| `UploadLemmas.FailedMoveKeepsStagedCopy` | source/SftpConnector/Controllers/SftpController.cs:267-277 | a staged upload into an absent destination folder is NotFound and keeps the staging copy |
| `UploadLemmas.UploadDescribesDestination` | source/SftpConnector/Controllers/SftpController.cs:281-283 | a successful upload describes the destination folder and name, also in staged mode |
| `UploadLemmas.UploadFailureClasses` | source/SftpConnector/Controllers/SftpController.cs:248-298 | a direct upload whose scratch name is too long answers BadRequest, one whose scratch file outgrows the disk ServiceUnavailable, and one whose read of the existing file or put fails answers the classified remote error; each leaves the server as it was |
| `UploadLemmas.StagedUploadFailureClasses` | source/SftpConnector/Controllers/SftpController.cs:248-298 | the same answers for the staging put, again before anything reaches the server |
| `UploadLemmas.UnreachableIsBadRequest` | source/SftpConnector/Controllers/SftpController.cs:640-656 | when the session cannot open, upload, delete, get and list answer BadRequest and leave the server alone |
| `UploadLemmas.DirectUploadStores` | source/SftpConnector/Controllers/SftpController.cs:250-253 | a direct upload stores the bytes and leaves the controller ready |
| `UploadLemmas.GetStoredFile` | source/SftpConnector/Controllers/SftpController.cs:352-396 | getting a stored file returns its bytes with the requested folder and name |
| `UploadLemmas.TextUploadThenGet` | source/SftpConnector/Controllers/SftpController.cs:376-392 | text uploaded and then got in text mode comes back as the same content, folder and name |
| `UploadLemmas.BinaryUploadThenGet` | source/SftpConnector/Controllers/SftpController.cs:376-392 | base64 content uploaded and then got in binary mode decodes to the same bytes |
| `PollLemmas.ReadsChangeNothing` | source/SftpConnector/Controllers/SftpController.cs:352-462 | get and list never change the server, and change nothing at all when validation passes |
| `PollLemmas.ScanChangesNothing` | source/SftpConnector/Controllers/BaseTransportController.cs:473-481 | looking for the next file never changes the server |
| `PollLemmas.NextFileChangesNothing` | source/SftpConnector/Controllers/BaseTransportController.cs:466-484 | GetNextFile never changes the server |
| `PollLemmas.ScanStep` | source/SftpConnector/Controllers/BaseTransportController.cs:473-481 | a name that cannot be fetched is skipped, and the first one that can is returned |
| `PollLemmas.ScanFindsFirst` | source/SftpConnector/Controllers/BaseTransportController.cs:473-483 | the file found is that of the first fetchable name, and none is found exactly when no name is fetchable |
| `PollLemmas.MaskFailureIsBadRequest` | source/SftpConnector/Controllers/BaseTransportController.cs:343-351 | a mask that fails to compile is BadRequest before any delete or listing |
| `PollLemmas.EmptyTokenDeletesNothing` | source/SftpConnector/Controllers/BaseTransportController.cs:400-413 | an empty or null token deletes nothing and answers OK |
| `PollLemmas.DeleteSuccessIsRemoval` | source/SftpConnector/Controllers/SftpController.cs:331-335 | a delete that succeeds answers with the delete message |
| `PollLemmas.TokenIsDeleted` | source/SftpConnector/Controllers/BaseTransportController.cs:400-413 | a non-empty token deletes folder/token; the delivery succeeds exactly when that delete did or found nothing, and otherwise returns the delete's response |
| `PollLemmas.TokenWithoutFolderIsInternalError` | source/SftpConnector/Controllers/BaseTransportController.cs:353-391 | a non-empty token with a null folder makes Combine throw inside the try, which answers InternalError |
| `PollLemmas.FailedDeliveryEndsPoll` | source/SftpConnector/Controllers/BaseTransportController.cs:355-361 | a delete that fails ends the poll with its own response |
| `PollLemmas.FailedListingEndsPoll` | source/SftpConnector/Controllers/BaseTransportController.cs:363-371 | a listing that fails ends the poll with its own response |
| `PollLemmas.EventTokenAfterDelivery` | source/SftpConnector/Controllers/BaseTransportController.cs:373-384 | after the delete phase, a file found carries its name as the next token, and nothing found is Accepted with "" |
| `PollLemmas.TokenIsFileName` | source/SftpConnector/Controllers/BaseTransportController.cs:373-384 | a poll's event token is the delivered file's name, and Accepted carries "" |
| `PollLemmas.PollOnlyDeletesToken` | source/SftpConnector/Controllers/BaseTransportController.cs:333-392 | the only change a poll makes to the server is the delete of the token |
| `PollLemmas.DeliverAndPollOnlyDeletesToken` | source/SftpConnector/Controllers/BaseTransportController.cs:353-384 | a delivered file is not deleted by the poll that delivers it |
| `PollLemmas.DeleteTwice` | source/SftpConnector/Controllers/SftpController.cs:311-342 | deleting a file a second time is NotFound and changes nothing |
| `PollLemmas.DeliveryTwice` | source/SftpConnector/Controllers/BaseTransportController.cs:400-413 | completing the same delivery twice: the second finds nothing, answers OK and changes nothing |
| `PollLemmas.RepeatedTokenRedelivers` | source/SftpConnector/Controllers/BaseTransportController.cs:353-384 | polling again with the same token gives the same answer and state, so a delivered file is redelivered |
| `DrainLemmas.DeliverToken` | source/SftpConnector/Controllers/BaseTransportController.cs:400-413 | completing the delivery of a folder's first file removes exactly that file |
| `DrainLemmas.ListFolder` | source/SftpConnector/Controllers/SftpController.cs:420-462 | listing a drainable folder describes every entry in order and changes nothing |
| `DrainLemmas.FetchAll` | source/SftpConnector/TransportFetcher.cs:75-100 | with the default masks the fetch list is every entry's name, in order |
| `DrainLemmas.GetFirst` | source/SftpConnector/Controllers/SftpController.cs:352-412 | getting the folder's first file returns its descriptor and content |
| `DrainLemmas.NextOfFolder` | source/SftpConnector/Controllers/BaseTransportController.cs:466-484 | GetNextFile on the folder returns its first file, or none for an empty folder |
| `DrainLemmas.PollStep` | source/SftpConnector/Controllers/BaseTransportController.cs:333-392 | a poll with the previous file's token removes it and delivers the next file, or answers Accepted with "" |
| `DrainLemmas.PendingPoll` | source/SftpConnector/Controllers/BaseTransportController.cs:333-392 | every poll of a pending drain has the outcome the drain expects |
| `DrainLemmas.PollDrains` | source/SftpConnector/Controllers/BaseTransportController.cs:333-392 | the trigger, as a step function, drains every pending folder |
| `DrainLemmas.DrainFrom` | source/SftpConnector/Controllers/BaseTransportController.cs:373-384 | from any point of a drain, the polls left deliver the rest in order and end with Accepted and an empty folder |
| `DrainLemmas.Drain` | source/SftpConnector/Controllers/BaseTransportController.cs:333-392 | N fetchable files take N + 1 polls: poll i delivers file i with its name as token, poll N + 1 is Accepted with "", and the folder ends empty |

## Left out

- HTTP plumbing is not modelled: response message construction, `EventTriggered` and
  `EventWaitPoll`, routing, tracing and `UnhandledExceptionHandler`. Responses are their status and
  the object their body carries.
- SSH is not modelled: host-key checking, cipher negotiation and the server's reaction to a cipher.
  The model keeps only the session options, and whether a session opens is the store's `reachable`
  flag.
- The `async` and `Task.Factory.StartNew` wrappers are left out. Every operation runs sequentially,
  and nothing is said about concurrent polls.
- `AddAuthenticationDetails`, `GetAuthenticationDetails` and `InitializeAuthenticationDetails` read
  and write isolated storage and a private-key file. They are not modelled;
  `SftpRules.ValidateAuthenticationDetails` treats the details as a plain record.
- The full .NET regular-expression engine is not modelled:
  - ordinary characters, `[.]`, `.*` and `.` are matched concretely;
  - case is compared through the culture's folding, the `CaseFolding` field of the engine. The model
    fixes only that an ASCII capital folds like its small letter; how the culture folds other
    characters is left to the parameter. That rule fails under the Turkish and Azeri cultures, where
    'I' lowers to a dotless i, so the model assumes a culture without it;
  - whether any other pattern compiles, and what it matches, is left to the `RegexEngine`
    parameter;
  - `Masks.PlainMaskMatchesGlob` assumes a name with no line feed, because `$` also matches before a
    final line feed (`Masks.TrailingLineFeedMatches`).
- `Basics.ToLower`, and with it `SftpRules.ErrorResponse`, lowers ASCII letters only. The
  culture-sensitive `String.ToLower` at source/SftpConnector/Controllers/SftpController.cs:582 also
  lowers non-ASCII capitals. So an inner message that spells "denied" with a non-ASCII capital
  that folds to an ASCII letter would be Forbidden in .NET, and it is NotFound in the model.
- `Utf8Codec.Decode`, and with it `FileContentModel.ReadStreamAsString`, work on Dafny characters,
  which are Unicode scalar values. A .NET string holding a lone surrogate cannot be represented. In the
  source, StreamWriter's UTF-8 encoding throws on such text, the ArgumentException it raises makes
  the upload answer BadRequest (source/SftpConnector/Controllers/BaseTransportController.cs:167-171),
  and the model has no input that reaches that answer. Ill-formed input is replaced one U+FFFD per maximal
  subpart, as section 3.9 of the Unicode Standard recommends (`Utf8Codec.TruncatedSequenceIsOneReplacement`).
- `Path.Combine`, `GetDirectoryName` and `GetFileName` are simplified:
  - a rooted second argument, drive letters and UNC paths are not modelled;
  - `\` is the separator;
  - a resolved path whose last `/` is its first character has folder "/";
  - `Paths.SplitPath` keeps a run of separators in the folder, so "a//b.txt" gives folder "a/",
    where `GetDirectoryName` collapses the run and gives "a"; other normalisation of the folder is
    not modelled either;
  - only the characters `"`, `<`, `>`, `|` and control characters count as invalid.
- `Convert.FromBase64String` skips white space inside its input, and the model does not.
- `StreamReader` detection of UTF-16 and UTF-32 byte order marks is not modelled. Only the UTF-8
  mark is stripped.
- `bool.Parse`, `Enum.Parse` and `Convert.ToUInt16` are modelled only in their named forms:
  - numbers are read without thousands separators or hexadecimal;
  - enum values are read by name only, not as numbers or comma lists;
  - case folding is ASCII-only.
- `SftpRules.ParseAuthenticationType`, and with it `SftpRules.ValidateAuthenticationDetails`, refuse
  a numeric authentication type such as "3". The stored authentication details are read with
  `Enum.Parse` (source/SftpConnector/Controllers/SftpController.cs:668), which accepts it, and such a
  type then passes with no field check.
- `TransportFetcher.ParseJson` is modelled as the identity. The File and FileInfo objects of a
  response are passed on as they are rather than serialised.
- The server is not WinSCP's: it holds one level of folders, each with named entries, and a
  recursive directory tree is not modelled. A remote error carries only its inner message, and
  WinSCP's file masks in remote paths are not modelled.
- `Remote.Download`, and with it `Semantics.Fetched`, answers a subfolder as a missing file. So a
  get of a subfolder answers NotFound, and a poll skips a subfolder that comes before a file and
  delivers that file. In the program, `GetFiles` copies the subfolder into the scratch directory,
  and `File.OpenRead` then throws `UnauthorizedAccessException`
  (source/SftpConnector/Controllers/SftpController.cs:376-385). Nothing on the way catches it: a
  get fails with an unhandled 500, and every poll answers InternalServerError while that subfolder
  comes first (source/SftpConnector/Controllers/BaseTransportController.cs:386-391). Modelling
  this needs an exception that escapes the scan, and the model has none.
- The local scratch disk is one directory per request with files as byte sequences. The only local
  failures are a name too long for its path and a file that outgrows the disk's capacity. The local
  copy that `GetFiles` writes before it is read back is folded into the download.
- `RemoveFiles` without `Check()` in the staged upload ignores a failure, and the model follows it
  (`Semantics.RemoveUnchecked`).
- A listed name with an invalid path character makes the `FileInfo` constructor throw, and the
  whole listing answers BadRequest. The model follows the code here and adds nothing more.
- `ValidateParameter` rejecting a null or white-space path is modelled inside `Semantics.ResolvePath`
  and is not a separate member.
- `DrainLemmas.Drain` covers a narrow case:
  - the default masks and no earlier exclude regex;
  - a folder whose entries are all regular files with plain, distinct, visible names;
  - a caller that passes back every token it receives.
  Other drains follow from the `PollLemmas` properties one poll at a time.

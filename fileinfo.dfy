/** The descriptor records of the connector: FileInfo and File. */
module FileInfoModel {
  import opened Wrappers
  import opened Paths
  import opened FileContentModel

  /** A FileInfo object; None stands for a property left null. */
  datatype FileInfo = FileInfo(
    fileName: Option<string>,
    folderPath: Option<string>,
    filePath: Option<string>,
    serverAddress: Option<string>)

  /** The parameterless FileInfo constructor, which sets nothing. */
  const EmptyFileInfo: FileInfo := FileInfo(None, None, None, None)

  /**
   * The FileInfo(server, folder, fileName) constructor. Its Path.Combine throws an
   * ArgumentException when the folder or the name holds a character paths may not hold.
   */
  function NewFileInfo(server: Option<string>, folder: string, fileName: string): (r: Result<FileInfo, PathError>)
    ensures r.Failure? <==> HasInvalidPathChars(folder) || HasInvalidPathChars(fileName)
    ensures r.Success? ==>
      && r.value.fileName == Some(fileName)
      && r.value.folderPath == Some(folder)
      && r.value.serverAddress == server
      && r.value.filePath == Some(Join(folder, fileName))
  {
    match Combine(Some(folder), Some(fileName))
    case Failure(e) => Failure(e)
    case Success(p) => Success(FileInfo(Some(fileName), Some(folder), Some(p), server))
  }

  /** The path recorded in a descriptor keeps the platform separator: it is not turned into '/'. */
  lemma FilePathUsesPlatformSeparator(server: Option<string>, folder: string, fileName: string)
    requires NewFileInfo(server, folder, fileName).Success?
    requires folder != "" && fileName != "" && !EndsWithSeparator(folder)
    ensures NewFileInfo(server, folder, fileName).value.filePath == Some(folder + [DirectorySeparator] + fileName)
  {
  }

  /** A File object: a FileInfo's four properties together with a FileContent. */
  datatype File = File(
    filePath: Option<string>,
    folderPath: Option<string>,
    fileName: Option<string>,
    serverAddress: Option<string>,
    content: Option<string>,
    contentTransferEncoding: ContentTransferEncoding)

  /**
   * The File(stream, allProperties, encoding) constructor, given the FileContent its base
   * constructor builds from the stream: the descriptor's properties are copied verbatim.
   */
  function FileOf(allProperties: FileInfo, fc: FileContent): (f: File)
    ensures f.filePath == allProperties.filePath && f.folderPath == allProperties.folderPath
    ensures f.fileName == allProperties.fileName && f.serverAddress == allProperties.serverAddress
    ensures f.content == fc.content && f.contentTransferEncoding == fc.contentTransferEncoding
  {
    File(allProperties.filePath, allProperties.folderPath, allProperties.fileName, allProperties.serverAddress,
      fc.content, fc.contentTransferEncoding)
  }

  /** The FileContent part of a File. */
  function ContentPart(f: File): FileContent
  {
    FileContent(f.content, f.contentTransferEncoding)
  }
}

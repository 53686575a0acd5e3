/**
 * The HTTP responses of the connector's entry points, reduced to their status and
 * the object their body carries.
 */
module Outcomes {
  import opened Wrappers
  import opened FileInfoModel

  /** What a successful response carries. */
  datatype Payload =
    | Empty                                           // CreateResponse(HttpStatusCode.OK)
    | Deleted                                         // the "successful delete" message
    | Descriptor(info: FileInfo)                      // the FileInfo of an upload
    | Listing(infos: seq<FileInfo>)                   // the Collection<FileInfo> of a listing
    | Document(file: File)                            // the File of a download
    | Event(file: File, triggerState: Option<string>) // EventTriggered: the polled file and the next trigger state

  datatype Response =
    | Ok(payload: Payload)           // 200
    | Accepted(triggerState: string) // 202, EventWaitPoll: nothing to deliver yet
    | BadRequest                     // 400
    | Forbidden                      // 403
    | NotFound                       // 404
    | ServiceUnavailable             // 503
    | InternalError                  // 500

  /** HttpResponseMessage.IsSuccessStatusCode: a 2xx status. */
  predicate IsSuccessStatusCode(r: Response)
  {
    r.Ok? || r.Accepted?
  }
}

/**
 * The media upload helper, as an oracle: the network's answer is a
 * parameter, and the helper's own rule, that no path means no upload, is
 * modelled.
 */
module Cloudinary {
  import opened Wrappers

  /** The part of the upload service's response the controller reads. */
  datatype UploadResponse = UploadResponse(url: string)

  /** JavaScript truthiness of an optional string: present and not empty. */
  predicate Truthy(s: Option<string>) {
    s.Some? && s.value != ""
  }

  /**
   * `uploadOnCloudinary(localFilePath)`. `answer` is what the upload service
   * would return for this file, `None` when the upload throws (the helper
   * then returns `undefined`). A falsy path is answered with no result and
   * never reaches the service.
   */
  function UploadOnCloudinary(localFilePath: Option<string>, answer: Option<UploadResponse>): (r: Option<UploadResponse>)
    ensures !Truthy(localFilePath) ==> r == None
    ensures Truthy(localFilePath) ==> r == answer
  {
    if !Truthy(localFilePath) then None else answer
  }

  /** The local paths that the helper hands to the upload service for `localFilePath`. */
  function SentToService(localFilePath: Option<string>): (sent: seq<string>)
    ensures |sent| <= 1
    ensures sent != [] <==> Truthy(localFilePath)
    ensures sent != [] ==> sent[0] == localFilePath.value
  {
    if Truthy(localFilePath) then [localFilePath.value] else []
  }
}

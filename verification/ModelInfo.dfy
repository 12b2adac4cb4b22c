/** Model descriptions and errors shared by the parts of the model downloader. */
module ModelInfo {
  /** `RemoteModelInfo`, without the URL itself. */
  datatype RemoteModelInfo = RemoteModelInfo(name: string, hash: string, size: int, urlExpiry: int)

  /** `LocalModelInfo` */
  datatype LocalModelInfo = LocalModelInfo(name: string, hash: string, size: int)

  /** `CustomModel` */
  datatype CustomModel = CustomModel(name: string, size: int, path: string, hash: string)

  datatype DownloadError =
    | NotFound
    | PermissionDenied
    | FailedPrecondition
    | ResourceExhausted
    | NotEnoughSpace
    | InvalidArgument
    | EmptyModelName
    | InternalError(description: string)

  const EXPIRED_DOWNLOAD_URL := InternalError("Expired model download URL.")
  const EXPIRED_MODEL_INFO := InternalError("Unable to update expired model info.")
  const DELETED_LOCAL_MODEL := InternalError("Model unavailable due to deleted local model info or model file.")

  datatype Outcome = Success(model: CustomModel) | Failure(error: DownloadError)
}

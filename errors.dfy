/** The errors the command line client produces or passes on. */
module Errors {
  /** Why an argument or a precondition of an operation was refused. */
  datatype Reason =
    | BadS3Path                    // the address does not start with "s3://"
    | SlashInBucketName            // mb: a '/' is left in the bucket name
    | EmptyBucketName              // mb: nothing is left of the bucket name
    | EmptyObjectPath              // DeleteObject: the object path is ""
    | EmptyBucket                  // DeleteObject: the bucket name is ""
    | NotADirectory(path: string)  // UploadDirectory: the root is a regular file
    | UnknownProfile(name: string) // config use: no such service in the configuration
    | NoProfile                    // no usable service in the configuration

  /** The message an error is wrapped in, one per `fmt.Errorf("...: %w", err)` of the source. */
  datatype Context =
    | MakeBucketFailed
    | CheckBucketFailed
    | RemoveBucketFailed
    | ListForEmptinessFailed
    | OpenFileFailed
    | PutObjectFailed
    | StatDirFailed
    | StatPathFailed
    | RelPathFailed
    | CreateDirFailed
    | CreateFileFailed
    | StatObjectFailed
    | GetObjectFailed
    | ListFailed
    | DownloadKeyFailed(key: string)
    | ObjectMissing
    | PresignFailed
    | RemoveObjectFailed
    | ListBucketsFailed
    | LoadConfigFailed

  datatype Error =
    | Sdk(code: string)                        // reported by the storage service or its SDK
    | Fs(path: string)                         // reported by the operating system for a path
    | Invalid(reason: Reason)                  // refused by the client itself
    | Wrapped(context: Context, cause: Error)  // another error with a message in front of it
}

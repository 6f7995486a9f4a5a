# s3ctl in Dafny

A model of the logic in `s3ctl`, a command-line client for S3-compatible object storage. The tool itself is a thin layer over the minio SDK. The logic modelled here is:

- how each command (`put`, `del`, `url`, `download`, `mb`, `ls`) turns an `s3://bucket/key` argument into a bucket, a key and one client call;
- the listing stream. The client forwards the service's listing in order, drops non-folders when asked, and stops after the first error;
- the bulk operations that consume that stream. Directory delete, directory download and the emptiness test behind bucket removal all stop at the first failure. So does the walk of a directory upload;
- the downgrades of `MakeBucket`, `RemoveBucket` and `ls`: the cases where an error becomes a message and a nil return;
- the transfer progress reader as a state machine, and the bar it draws;
- the byte, size and duration formatters, and the masking of secret keys;
- the choice of the current configuration profile, `config use` and `config list`.

## How it is organised

- The storage service is a value: `Storage.Store` holds the bucket set and a map from (bucket, key) to stored objects. `Storage.Next` gives the effect of one SDK request.
- The service's freedom is a parameter, `Storage.Service`. It says:
  - which requests it refuses, and with which error code;
  - what a listing yields;
  - which bucket names it reports;
  - how it signs URLs.
- The local file system is the class `LocalFs.Disk`, which has a map of path to file or directory. The map is keyed by cleaned paths: every lookup, directory creation, file creation and write goes through `FilePath.Clean`, so "d", "d/", "./d" and "x/../d" name the same entry. A path ending in '/' names only a directory. The operating system's freedom is `LocalFs.Host`: unwritable paths, what a directory walk yields, and the MIME table.
- `Operations` specifies every client operation as a pure function. Each function returns the new store (or the new local files), the SDK requests issued in order, and the outcome.
- The class `S3Client.Client` holds the service state, in `store`, and a ghost log of every request issued. Its methods are the imperative code: the loops of the bulk operations and the step-by-step calls. Each method is proved to produce exactly the state, log and outcome of its specification function. The fail-fast and "nothing else changes" properties are lemmas about those functions.
- `Progress` defines the reader's state machine for two rules: `AsWritten`, the uncapped percentage that the class `Progress.ProgressReader` follows, and `Capped`, the percentage held at 100 that the Findings propose. Lemmas state which properties hold under both rules and which hold only under the capped one.
- `Commands` holds each command's dispatch as a pure function returning an action. The `ls` output loops are methods over a `Client`.
- Integers are unbounded. Object sizes, durations and the formatter inputs use `GoInt.int64`, which holds Go's `int64` range. Go's truncating `/` agrees with Dafny's on the non-negative operands used here.

## Model

| member | source | states |
|---|---|---|
| Address.ParseS3 | internal/cmd/put.go:31-40 | no result exactly when the scheme is missing. The bucket is the text up to the first '/' after the scheme and contains none; the key is everything after that '/', and is empty when there is no '/' |
| Address.ParseFormat | internal/cmd/del.go:26-35 | every "s3://bucket/key" whose bucket has no '/' parses back to that bucket and key, including keys that contain or end in '/' |
| Address.ParseBucketOnly | internal/cmd/download.go:43-52 | "s3://bucket" parses to that bucket with the empty key |
| Address.IsDirectory | internal/s3client/s3client.go:10-19 | true exactly when the path is non-empty and its last byte is '/' |
| Address.NamesBucketsOnlyIffNoSlash | internal/cmd/ls.go:45-48 | for an address with the scheme, replacing the first "s3://" and finding no '/' is the same as having no '/' after the scheme |
| Listing.MaxKeys | internal/s3client/client.go:465-469 | the page size is the first given value when positive, otherwise 1000 |
| Listing.Options | internal/s3client/client.go:459-469 | the request carries the caller's prefix and recursion, listing API version 1, and that page size |
| Listing.Forwarded | internal/s3client/client.go:471-490 | the output is no longer than the input and all its items come from the input. Only the last item can be an error. With the folder filter every entry is a folder |
| Listing.FirstError | internal/s3client/client.go:476-478 | the position of the first error: every earlier item is an object |
| Listing.ForwardedIsSelectedPrefix | internal/s3client/client.go:475-487 | forwarding equals cutting the service's items right after the first error, then dropping non-folders when asked, keeping their order |
| Listing.UnfilteredIsPrefix | internal/s3client/client.go:475-487 | without the folder filter the stream is exactly the service's items up to and including the first error |
| Listing.Select | internal/s3client/client.go:481-484 | an item survives the filter exactly when it is an error, the filter is off, or it is a folder |
| Listing.ErrorForwarded | internal/s3client/client.go:476-478 | a service error always reaches the caller, as the last item of the stream |
| Listing.EmptinessOf | internal/s3client/client.go:103-120 | empty exactly when the stream yields nothing. An error exactly when the second item is an error, and then that error wrapped. Anything else is "not empty" |
| Listing.FirstErrorSwallowed | internal/s3client/client.go:105-116 | a listing that fails at once is read as "not empty" with no error |
| Listing.EmptinessErrorIff | internal/s3client/client.go:105-116 | on a forwarded listing the emptiness test fails exactly when the service yields one object and then an error |
| Operations.BucketNames | internal/s3client/client.go:58-64 | the service's bucket names, or its refusal wrapped as a bucket-listing failure |
| Operations.MakeBucketDowngrade | internal/s3client/client.go:67-80 | success exactly when creation succeeds, or creation fails and the existence check reports the bucket. Any other failure is the creation error, wrapped. The existence check is issued only after a failed creation. Success leaves the bucket in place and no object changes |
| Operations.RemoveBucketGuarded | internal/s3client/client.go:83-100 | removal is requested exactly when the emptiness test says empty. "Not empty" returns success with no request and no change. A failed test is wrapped as a check failure. A successful removal deletes the bucket, and objects never change |
| Operations.DeleteObjectEffect | internal/s3client/s3client.go:38-61 | an empty key fails first, then an empty bucket, each with no request. Otherwise exactly one removal request for that key, whose error comes back wrapped |
| Operations.DeleteAllStops | internal/s3client/s3client.go:22-35 | fail-fast, in listing order. On success, one removal per listed key, in order. On failure it stops at one item: a listing error comes back unwrapped after the earlier keys' removals, and a failed removal comes back as its own error. No later key is attempted |
| Operations.DeleteAllLocal | internal/s3client/s3client.go:22-35 | an object that the listing does not name keeps its content |
| Operations.DeleteAllRemoves | internal/s3client/s3client.go:25-34 | after a successful directory delete no listed key is left in the bucket |
| Operations.RemovalsNeverAdd | internal/s3client/s3client.go:25-34 | a directory delete never creates an object |
| Operations.ContentType | internal/s3client/client.go:173-179 | the MIME type for the ASCII-lower-cased extension whenever the table has one, and "application/octet-stream" exactly when it has none; never empty |
| Operations.ContentTypeByExtension | internal/s3client/client.go:174 | files whose extensions agree up to ASCII case get the same content type |
| Operations.Metadata | internal/s3client/client.go:148-151 | a public upload carries exactly {"x-amz-acl": "public-read"}, other uploads no metadata |
| Operations.ObjectName | internal/s3client/client.go:138-141 | the given object name verbatim, or the file's base name when it is empty; never empty |
| Operations.UploadFileEffect | internal/s3client/client.go:123-170 | a path that names no entry (looked up by its cleaned form) is an open failure with no request. Otherwise exactly one put of the file's bytes under that name, type and metadata, whose error comes back wrapped |
| Operations.UploadFileStores | internal/s3client/client.go:144-167 | after a successful upload the service holds the file's bytes under the object name, with the built content type and metadata |
| Operations.ObjectKey | internal/s3client/client.go:359-368 | an upload key never contains a backslash |
| Operations.ObjectKeyPlain | internal/s3client/client.go:363-368 | for a clean prefix and relative path the key is "prefix/rel" |
| Operations.ObjectKeyUnderSlash | internal/s3client/client.go:365 | a prefix given with a trailing '/' yields the same key as without it |
| Operations.ObjectKeyNoPrefix | internal/s3client/client.go:360-363 | with no prefix the key is the relative path with every backslash turned into '/' |
| Operations.UploadEntryEffect | internal/s3client/client.go:343-371 | one walk step issues exactly the put its entry calls for. It succeeds only on a readable entry that is a directory (skipped) or an uploadable file |
| Operations.UploadDirectoryEffect | internal/s3client/client.go:332-340 | a missing root fails the stat, and a root that is a file is "not a directory". Neither issues a request |
| Operations.UploadAllPasses | internal/s3client/client.go:343-372 | a walk that succeeds: every entry was a directory or an uploadable file, and each file was put once, in walk order |
| Operations.UploadAllFails | internal/s3client/client.go:343-372 | a walk that fails stops at some entry: the puts are exactly those of the entries before it, plus at most that entry's own, and nothing after it |
| Operations.DownloadFileFetch | internal/s3client/client.go:376-411 | the requests are a prefix of [stat, get] of the key, and all of them on success |
| Operations.ReadInto | internal/s3client/client.go:389-408 | the stat, then the get, of the key: the requests are a prefix of the two, and both on success |
| Operations.DownloadFileSteps | internal/s3client/client.go:376-408 | a successful download created the directory and the file, found the object, and wrote its bytes over the empty file |
| Operations.DownloadFileWrites | internal/s3client/client.go:383-408 | after a successful download the object exists and the path names a file holding exactly its bytes |
| Operations.DownloadFileKeepsOthers | internal/s3client/client.go:376-408 | a successful download changes no path that cleans to something other than the file or its directory |
| Operations.DownloadFileTruncatesFirst | internal/s3client/client.go:383-393 | the local file is created (truncated) before the object is looked up, so a missing object leaves an empty file behind and fails |
| Operations.DownloadItemFetch | internal/s3client/client.go:417-434 | one listing item issues a prefix of its fetches. Success means an object, with all its fetches. Failure is the listing error wrapped, or an error naming the key |
| Operations.DownloadAllPasses | internal/s3client/client.go:414-438 | a loop that succeeds met no listing error, fetched every non-folder key once, in listing order, and fetched no folder |
| Operations.DownloadAllFails | internal/s3client/client.go:414-438 | a loop that fails stops at some item: the fetches run from those of the items before it up to, at most, that item's own, and the error names the listing failure or the key |
| Operations.UploadDownloadRoundTrip | internal/s3client/client.go:428-429 | a file uploaded from "rel" under a clean prefix is downloaded from a directory download of "prefix/" into "dir/rel" |
| Operations.GenerateUrlResult | internal/s3client/client.go:441-455 | a URL only for an existing object: the signer's URL, after exactly a stat and a presign request. A missing object is a wrapped NoSuchKey after the stat alone |
| S3Client.Client.ListObjects | internal/s3client/client.go:458-491 | the loop produces exactly the forwarded stream of the service's listing for those options; the service is untouched |
| S3Client.Client.ListBuckets | internal/s3client/client.go:58-64 | the result is `BucketNames` of the service |
| S3Client.Client.IsBucketEmpty | internal/s3client/client.go:103-120 | the result is `EmptinessOf` of the listing of the bucket's top level with a page of one |
| S3Client.Client.MakeBucket | internal/s3client/client.go:67-80 | the new store, the requests appended to the log and the outcome are those of `MakeBucketEffect` |
| S3Client.Client.RemoveBucket | internal/s3client/client.go:83-100 | the new store, the log and the outcome are those of `RemoveBucketEffect` |
| S3Client.Client.DeleteObject | internal/s3client/s3client.go:38-61 | the new store, the log and the outcome are those of `DeleteObjectEffect` |
| S3Client.Client.DeleteDirectory | internal/s3client/s3client.go:22-35 | the loop leaves the store, the log and the outcome of `DeleteDirectoryEffect`: recursive listing of the prefix, then fail-fast removal |
| S3Client.Client.UploadFile | internal/s3client/client.go:123-170 | the new store, the log and the outcome are those of `UploadFileEffect`; the local files are read only |
| S3Client.Client.UploadDirectory | internal/s3client/client.go:332-373 | the new store, the log and the outcome are those of `UploadDirectoryEffect` |
| S3Client.Client.Walk | internal/s3client/client.go:343-372 | the walk loop leaves the store, the log and the outcome of the fail-fast walk over the entries |
| S3Client.Client.VisitEntry | internal/s3client/client.go:344-371 | one walk step leaves the store, the log and the outcome of `UploadEntryEffect` |
| S3Client.Client.DownloadFile | internal/s3client/client.go:376-411 | the new local files, the log and the outcome are those of `DownloadFileFetch`; the store is unchanged |
| S3Client.Client.ReadObject | internal/s3client/client.go:389-408 | the rest of DownloadFile, after the file is created: the local files, the log and the outcome of `Operations.ReadInto`; the store is unchanged |
| S3Client.Client.DownloadItem | internal/s3client/client.go:417-434 | one listing item leaves the local files, the log and the outcome of `DownloadItemFetch` |
| S3Client.Client.DownloadDirectory | internal/s3client/client.go:414-438 | the loop leaves the local files, the log and the outcome of `DownloadDirectoryFetch`; the store is unchanged |
| S3Client.Client.GenerateURL | internal/s3client/client.go:441-455 | the result and the logged requests are those of `GenerateUrlResult` |
| Commands.PutPlan | internal/cmd/put.go:29-61 | a missing scheme is an error, and so is a path that cannot be stat'd (checked after the parse); otherwise success. A directory uploads under the object path as prefix; a file uploads under the object path as its name |
| Commands.PutFileKey | internal/cmd/put.go:55-60 | a file put to "s3://bucket/key" uses the key verbatim, even one ending in '/', and the file's base name when the key is empty |
| Commands.DelPlan | internal/cmd/del.go:24-51 | an error exactly when the scheme is missing. A directory delete exactly when the whole argument ends in '/'. Bucket and path come from `ParseS3` |
| Commands.DelBucketRoot | internal/cmd/del.go:38-44 | "s3://bucket/" deletes under the empty prefix, that is, the whole bucket |
| Commands.DelBucketOnly | internal/cmd/del.go:45-49 | "s3://bucket" takes the object branch with the empty key, which `DeleteObject` refuses without a request |
| Commands.UrlPlan | internal/cmd/url.go:32-47 | an error exactly when the scheme is missing. Otherwise signing of the parsed bucket and key for the given expiry, or 24 hours (86 400 000 000 000 ns) by default |
| Commands.DownloadPlan | internal/cmd/download.go:41-87 | a missing scheme is an error. The local path defaults to "."; creating its parent directory is the only other error. A directory download exactly when the key ends in '/'. A file download into a path that names a directory (however it is spelled) targets `Join(path, Base(key))`, otherwise the path itself |
| Commands.DownloadIntoDirectory | internal/cmd/download.go:77-81 | a file downloaded into an existing clean directory lands at "dir/<base name of the key>" |
| Commands.DownloadIntoSlashedDirectory | internal/cmd/download.go:23-24 | `download s3://b/k ./local/dir/`: for any non-empty dir that MkdirAll accepts, the plan targets `Join(dir, Base(key))`, and an existing directory is left as it was |
| Commands.MbName | internal/cmd/mb.go:23-38 | a missing scheme is an error. An accepted name is non-empty with no '/', and the argument is "s3://name" or "s3://name/". "s3://" and "s3:///" alone give the empty-name error; the slash error comes exactly when a '/' follows the scheme anywhere but as the last character. Every error is one of the three checks |
| Commands.MbAccepts | internal/cmd/mb.go:25-38 | every non-empty name without '/' is accepted, with or without one trailing '/' |
| Commands.MbRejectsInnerSlash | internal/cmd/mb.go:26-31 | an address with anything after the first '/' that follows the scheme is refused: "s3://a/b" and "s3://a//" alike |
| Commands.LsPlan | internal/cmd/ls.go:35-61 | no argument lists every bucket unfiltered; a missing scheme is an error. No '/' after the scheme filters the bucket list by the whole argument. Otherwise the argument is exactly "s3://bucket/prefix" and lists that bucket and prefix |
| Commands.LsLocation | internal/cmd/ls.go:50-58 | every "s3://bucket/prefix" lists that bucket under that prefix, including the empty prefix |
| Commands.LsBucketFilter | internal/cmd/ls.go:45-48 | an argument with no '/' after the scheme becomes the bucket filter unchanged |
| Commands.ShownBuckets | internal/cmd/ls.go:93-100 | the shown lines are exactly the addresses "s3://name/" of reported buckets that start with the filter; there are no more lines than buckets |
| Commands.FilterMatchesNamePrefixes | internal/cmd/ls.go:95-96 | the filter "s3://q" shows every bucket whose name starts with q: prefix matching, not exact matching |
| Commands.ListAllBucketsOf | internal/cmd/ls.go:80-103 | a bucket-listing error is returned; no buckets gives the "none found" message; otherwise the loop prints exactly `ShownBuckets` |
| Commands.FullPrefix | internal/cmd/ls.go:107-111 | ends in '/', is a prefix of "s3://bucket/prefix", and nothing after it in that string is a '/' |
| Commands.OnlyPrefixFolderHidden | internal/cmd/ls.go:123 | the only entry not printed is a folder whose key is the prefix itself |
| Commands.DisplayRelative | internal/cmd/ls.go:126-131 | a key under the listed prefix is displayed as its full address with the full prefix cut from the front |
| Commands.RowDetermined | internal/cmd/ls.go:126-142 | an object has one printed row: path, date and size column are determined by the object, folders with no date and "DIR" |
| Commands.ShownEntriesMembers | internal/cmd/ls.go:117-123 | the printed objects are exactly the listed objects that pass the folder-equals-prefix test, never more than the items |
| Commands.ShownEntriesAppend | internal/cmd/ls.go:117-123 | the entries are printed in listing order: those of a listing read in two parts are those of the first part, then of the second |
| Commands.ListBucketObjectsOf | internal/cmd/ls.go:106-146 | a failure exactly when the stream contains an error, and then that error. In every case one row per shown entry before the first error, in order, stays printed. A folder row has no date and the size "DIR"; an object row has its date and `formatSize` of its size |
| Commands.PrintRow | internal/cmd/ls.go:126-142 | the printed line of an object: its display path, and for a file its date and `formatSize` size, for a folder neither |
| Commands.Ls | internal/cmd/ls.go:27-70 | parse errors are returned with nothing printed. A bucket listing fails exactly when the bucket names cannot be listed, with that error. Otherwise it is "no buckets" exactly when the service has none, and else the lines of `ShownBuckets` for the argument's filter. An object listing turns into the "bucket does not exist" message exactly when its error is NoSuchBucket; every other listing error is returned unchanged; either way the rows printed before the error are kept |
| Humanize.UnitScale | internal/s3client/client.go:323-327 | for b >= 1024 the loop ends with div = 1024^(exp+1), div <= b < 1024·div, and exp < 6, so the letter index into "KMGTPE" is valid |
| Humanize.ScaleUnique | internal/s3client/client.go:323-327 | only one exponent places a value between two consecutive powers of 1024 |
| Humanize.FormatBytes | internal/s3client/client.go:318-329 | below 1024, the decimal numeral of b followed by " B"; otherwise b in the one unit that leaves between 1 and 1024 of it, one decimal, suffix "<letter>iB" |
| Humanize.FormatSize | internal/cmd/ls.go:149-160 | the same, with two decimals and suffix "<letter>B" |
| Humanize.DescribesUnique | internal/cmd/ls.go:149-160 | above 1024 the printed description of a value is determined by the value |
| Humanize.SameUnit | internal/cmd/ls.go:154-158 | formatSize and formatBytes choose the same unit for the same value |
| Humanize.IntTextRoundTrip | internal/s3client/client.go:321 | the `%d` text of any integer reads back to that integer |
| Humanize.ParseIntCanonical | internal/s3client/client.go:321 | the `%d` text of a value is the only text read back as that value: leading zeros and "-0" are refused |
| Humanize.NatTextOf | internal/s3client/client.go:321 | a numeral without a leading zero is the `%d` text of its value |
| Humanize.ExactText | internal/s3client/client.go:320-322 | below 1024 the printed text is exactly the `%d` text of the value followed by " B" |
| Humanize.Pad2Text | internal/s3client/client.go:311-314 | two digits, or more without a leading zero, are the `%02d` text of their value |
| Humanize.RoundToSecond | internal/s3client/client.go:304 | Go's rounding of a duration to the second: the nearest multiple, halves away from zero, saturating at the int64 bounds |
| Humanize.FormatDuration | internal/s3client/client.go:299-315 | "--:--:--" for a negative duration. Otherwise the text reads back to the rounded duration's whole seconds, and it has three fields ("hh:mm:ss") exactly from one hour on |
| Humanize.Clock | internal/s3client/client.go:311-314 | The `%02d:%02d:%02d` text from one hour on and `%02d:%02d` below read back to the seconds the fields stand for, with three fields exactly when there are hours |
| Humanize.ClockParts | internal/s3client/client.go:305-309 | the hour, minute and second fields add up to the total seconds, with minutes and seconds below 60 |
| Humanize.ThreeFields | internal/s3client/client.go:311-312 | three clock fields are the `%02d` texts of the hours, minutes and seconds of the value they read as, which is at least one hour |
| Humanize.TwoFields | internal/s3client/client.go:313-314 | two clock fields are the `%02d` texts of the minutes and seconds of the value they read as, which is below one hour |
| Humanize.FieldsUnique | internal/s3client/client.go:311-314 | field lists that read as the same number of seconds are equal |
| Humanize.ClockTextUnique | internal/s3client/client.go:299-315 | two clock texts that read as the same number of seconds are the same text, so the reading pins down what formatDuration printed |
| Progress.TerminalWidth | internal/s3client/client.go:204-215 | the detected width raised to at least 20, or 50 when detection fails |
| Progress.BarWidth | internal/s3client/client.go:273 | the terminal width less 58, but never below 10 |
| Progress.RawPercent | internal/s3client/client.go:255 | the integer percentage of bytes seen over the declared size, with no upper bound |
| Progress.RawBar | internal/s3client/client.go:276-277 | filled + empty == bar width, with `filled` the rounded-down share of the percentage and nothing bounding it |
| Progress.RawBarOverflows | internal/s3client/client.go:276-280 | the bar needs a negative number of blanks, which makes `strings.Repeat` panic, exactly when width × (percent − 100) ≥ 100 |
| Progress.BarFits | internal/s3client/client.go:276-280 | for a percentage in [0, 100] the bar fits: 0 ≤ filled ≤ width and no negative blanks |
| Progress.Percent | internal/s3client/client.go:255-258 | the corrected percentage: between 0 and 100, exactly 100 when all declared bytes have passed, otherwise the integer percentage |
| Progress.PercentGrows | internal/s3client/client.go:236-255 | both the raw and the capped percentage never decrease as bytes are counted |
| Progress.Shown | internal/s3client/client.go:255 | the percentage a rule shows is never negative, and at most 100 under the capped rule |
| Progress.Update | internal/s3client/client.go:253-296 | the state after `updateProgress`: the byte counts are untouched, at most one frame is drawn, and a panic draws nothing |
| Progress.UpdateRenders | internal/s3client/client.go:257-294 | before completion a redraw is due exactly when the percentage passed the last drawn one. A due redraw panics exactly when the bar needs negative blanks; otherwise it draws the frame with that percentage and bar, remembers the percentage, and completes exactly at 100 |
| Progress.Observe | internal/s3client/client.go:229-251 | Read and Write: nothing changes once completed; otherwise the bytes are counted and the reader updated |
| Progress.ObserveValid | internal/s3client/client.go:229-296 | under either rule every call keeps the reader's invariant: the last drawn percentage never passes the one shown, completion means a frame at 100 was drawn, and a shown 100 means completion |
| Progress.CompletedIsFinal | internal/s3client/client.go:231-233 | once completed, any further calls change nothing, draw nothing and cannot panic |
| Progress.FeedCounts | internal/s3client/client.go:235-236 | before completion and without a panic every byte passed is counted |
| Progress.CompletesOnFrameAtHundred | internal/s3client/client.go:258-294 | under either rule the reader has completed exactly when a frame at 100% was drawn, or it had completed already |
| Progress.FramesAtLeast | internal/s3client/client.go:255-258 | every frame shows at least the percentage of the bytes counted at the start |
| Progress.StuckPastHundred | internal/s3client/client.go:255-294 | as written, a reader whose percentage passed 100 without completing never completes, so Read never reports EOF |
| Progress.MissedCompletion | internal/s3client/client.go:255-294 | as written, 99 + 2 bytes of a declared 100 draw 99% then 101% and never complete; the capped rule completes on the same calls |
| Progress.OverlongStreamOverflows | internal/s3client/client.go:255-280 | as written, 6 + 6 bytes of a declared 10 reach 120%, ask for -2 blanks and panic |
| Progress.CappedNeverPanics | internal/s3client/client.go:255-280 | with the capped percentage drawing never panics and every frame shows at most 100% |
| Progress.FeedCompletes | internal/s3client/client.go:290-293 | with the capped percentage the reader has completed exactly when all declared bytes have passed |
| Progress.FeedCompletesOnlyAtHundred | internal/s3client/client.go:255-294 | as written the reader completes only after all declared bytes passed; one that saw them all without completing shows more than 100% |
| Progress.FeedAscending | internal/s3client/client.go:258-294 | under either rule the drawn percentages strictly increase and stay above the starting point; the reader remembers the last one |
| Progress.FeedDrawable | internal/s3client/client.go:273-280 | every bar actually drawn has non-negative filled and blank parts, adding up to at least 10 columns |
| Progress.ProgressReader.constructor | internal/s3client/client.go:194-202 | a fresh reader: nothing counted, nothing drawn, not completed |
| Progress.ProgressReader.Read | internal/s3client/client.go:229-239 | (0, EOF) once completed, otherwise (n, no error). The new counters, frames and panic are those of `Observe` with the uncapped percentage, and the invariant is kept |
| Progress.ProgressReader.Write | internal/s3client/client.go:241-251 | behaves exactly as Read |
| Progress.ProgressReader.UpdateProgress | internal/s3client/client.go:253-296 | the new counters, frames and panic are those of `Update` with the uncapped percentage |
| Mask.MaskString | internal/cmd/config.go:135-148 | "****" for a secret of at most 4 bytes. Otherwise the same length, with the first two and last two bytes kept and '*' everywhere between |
| Mask.MaskHidesMiddle | internal/cmd/info.go:38-51 | secrets agreeing in length and in their two first and two last bytes have the same mask: nothing else shows |
| Config.GetCurrentS3ConfigItem | internal/config/config.go:33-51 | a loading error is returned unchanged. A usable current profile is returned. Otherwise any entry of the map, possibly nil. With no profiles at all, a nil item and a nil error |
| Config.NoProfilesYieldNil | internal/config/config.go:46-47 | a configuration without profiles yields neither an item nor an error |
| Config.CurrentProfile | internal/config/config.go:39-48 | a usable current profile is returned. Otherwise a profile with a non-nil entry when there is one, and an error exactly when there is none |
| Config.UseProfile | internal/cmd/config.go:106-124 | succeeds exactly when the name is a defined profile. Then only `current` changes, to that name. An unknown name is an error and changes nothing |
| Config.UseThenSelect | internal/cmd/config.go:116-124 | after `config use` of a named profile with an entry, the selection returns exactly that entry |
| Config.UseEmptyNameFallsBack | internal/cmd/config.go:116-121 | `config use ""` succeeds only when "" names a profile, and it then leaves the choice to the fallback |
| Config.ConfigList | internal/cmd/config.go:60-98 | shows the selected profile with its secret masked. Every profile is listed once, and exactly the one named by `current` carries the mark |
| FilePath.Clean | internal/s3client/client.go:365 | the cleaned path is never empty ("." for the empty path) |
| FilePath.CleanIdempotent | internal/s3client/client.go:365 | cleaning a cleaned path changes nothing |
| FilePath.CleanKeepsRoot | internal/s3client/client.go:365 | the cleaned path starts with '/' exactly when the path did |
| FilePath.CleanPlain | internal/s3client/client.go:365 | a relative path with no empty, "." or ".." element is already clean |
| FilePath.JoinClean | internal/s3client/client.go:429 | `filepath.Join` is empty only for two empty inputs, and otherwise already clean |
| FilePath.JoinPlainUnderSlash | internal/cmd/download.go:80 | joining under a directory written with a trailing '/' gives the same path as without it |
| FilePath.Dir | internal/s3client/client.go:378 | never empty, and "." for a path with no '/' |
| FilePath.DirUnder | internal/s3client/client.go:378 | the directory of "dir/name" is dir, for a plain dir and a name without '/' |
| FilePath.DirUnderSlash | internal/cmd/download.go:61 | the directory of "p/" is p, cleaned, for any non-empty p |
| FilePath.DirClean | internal/s3client/client.go:378 | the directory of a path is clean |
| FilePath.CleanTrailingSlash | internal/cmd/download.go:78 | a trailing '/' does not change what a non-empty path cleans to |
| FilePath.CleanDoubled | internal/cmd/download.go:80 | a doubled separator cleans like a single one |
| FilePath.JoinUnderSlash | internal/cmd/download.go:80 | joining under "a/" is joining under a, for any non-empty a |
| FilePath.BaseUnder | internal/cmd/download.go:79 | the base name of "dir/name" is the name |
| FilePath.JoinPlain | internal/s3client/client.go:365 | joining clean relative paths puts exactly one '/' between them |
| FilePath.Base | internal/s3client/client.go:140 | the last element of a path: never empty, and it contains no '/' unless it is "/" itself |
| FilePath.Ext | internal/s3client/client.go:174 | empty or a suffix of the path that starts with its only '.' and has no '/' |
| GoStrings.ToLower | internal/s3client/client.go:174 | same length, every ASCII capital lowered and every other byte kept (ASCII only, see Left out) |
| LocalFs.MakeDirs | internal/s3client/client.go:378-380 | `os.MkdirAll` of one directory, by its cleaned path: refused exactly where a file is, or where nothing exists and nothing may be created, with the path in the error; otherwise the path names a directory |
| LocalFs.MakeDirsLocal | internal/s3client/client.go:378-380 | no path that cleans to another entry changes |
| LocalFs.MakeDirsExisting | internal/cmd/download.go:61 | an existing directory, however it is spelled, is accepted and nothing changes |
| LocalFs.CreateFile | internal/s3client/client.go:383-386 | `os.Create`, by the cleaned path: refused exactly on an unwritable path, a path ending in '/', or an existing directory; otherwise the entry becomes an empty file, truncating what was there |
| LocalFs.CreateOnDirectoryFails | internal/s3client/client.go:383-386 | `os.Create` on a path that names a directory, however it is spelled ("d", "d/", "./d"), fails and changes nothing |
| LocalFs.Disk.Stat | internal/cmd/download.go:78 | the entry of the cleaned path; a path ending in '/' finds only a directory |
| LocalFs.Disk.MkdirAll | internal/s3client/client.go:378-380 | the disk becomes what `MakeDirs` gives, or stays as it was with the error |
| LocalFs.Disk.Create | internal/s3client/client.go:383-386 | the disk becomes what `CreateFile` gives, or stays as it was with the error |
| LocalFs.Disk.WriteAll | internal/s3client/client.go:404-405 | the entry of the cleaned path holds exactly the data, and no other entry changes |
| Storage.BucketRequests | internal/s3client/client.go:67-100 | creating a bucket the service accepts succeeds exactly for a new name, else BucketAlreadyOwnedByYou with nothing changed; removing succeeds exactly for an existing empty bucket, else NoSuchBucket or BucketNotEmpty with nothing changed; objects are never touched |
| Storage.NextLocal | internal/s3client/s3client.go:22-61 | a request changes at most the object it targets; every other object keeps its content |
| Storage.RefusedChangesNothing | internal/s3client/client.go:67-170 | a refused request leaves the service as it was |
| Storage.GetReturns | internal/s3client/client.go:397-400 | a successful get returns the stored object's bytes and changes nothing |
| Storage.WriteLands | internal/s3client/client.go:123-170 | after a successful put the object holds what was put, and after a successful removal it is gone |

## Left out

- The minio SDK is modelled only by its effect on `Storage.Store` and by the `Storage.Service` parameter. That covers credentials, signing versions, `NewClient`, network errors and presigning: the signer is a parameter function.
- The goroutine and one-slot channel of `ListObjects` are not modelled. The stream is a finite sequence.
- The listing only records the options sent. The service returns its items through `Service.listing` and is not derived from the store. Listings and bucket-name listings are not entries in the request log.
- Floating point is not modelled:
  - The `%.1f` / `%.2f` mantissas are not rendered. `Humanize.Humanized` records the value, the exponent and the decimals to print.
  - The speed and ETA of the progress line are left out, along with `time.Now`.
  - The percentage is computed as the integer `bytesRead*100/total`, not through float64.
- Progress.ProgressReader.constructor: requires a positive size. With a size of 0 the Go code divides by zero in floating point, and that is not modelled.
- Progress.Percent: `bytesRead` is unbounded; int64 overflow of the counter is not modelled.
- Progress.ProgressReader.Read: the terminal width detected during each call is a parameter. The transfers do not drive a progress reader in this model; they move whole byte sequences.
- Progress.ProgressReader.UpdateProgress: the panic of `strings.Repeat` on a negative count is reported as the `panicked` result, with nothing drawn and nothing changed. The unwinding of the call stack that follows it in Go is not modelled.
- GoStrings.ToLower: lowers the ASCII capitals A-Z only. Go's `strings.ToLower` also lowers non-ASCII letters, so an extension with non-ASCII capitals is looked up unlowered here.
- Operations.ContentType: inherits the ASCII-only lowering of `GoStrings.ToLower`.
- Strings are `seq<char>` in which each `char` stands for one byte of Go's UTF-8 text. No encoding or decoding is modelled, so text with non-ASCII characters must be given as its bytes. Mask.MaskString then measures and cuts bytes, as the Go code's `len(s)` and `s[:2]` do.
- Listing.Key: object keys are non-empty by type. An empty key from the service would make the `object.Key[len(object.Key)-1]` test of internal/cmd/ls.go:123 panic; that panic is not modelled.
- Terminal detection, `mime.TypeByExtension`, `filepath.Walk` and `filepath.Rel` are parameters of `LocalFs.Host`. Walk entries carry the relative path or its failure. The model trusts the walk's directory flag rather than checking the file map.
- `os.MkdirAll` creates only the named directory. Missing ancestors are not created, and the paths where nothing may be created are given by `Host.unwritable`.
- `filepath.Clean` and `Join` follow the lexical Unix rules. Windows volume names and separators are not modelled.
- LocalFs.Lookup: local paths are resolved lexically, through `FilePath.Clean`. Symbolic links, so an ".." that the kernel resolves through a link, are not modelled.
- S3Client.Client.UploadFile: the returned `file.Stat` error is not modelled, because a file that opened always stats here. Uploading a path that names a directory fails as a put failure with no request.
- S3Client.Client.DownloadFile: GetObject's errors, which minio reports lazily during the copy, are modelled as an error of the get request itself.
- The `ls` date column is the raw modification time. The `2006-01-02 15:04:05` layout is not rendered. The column widths of all printed lines are also not modelled.
- Viper, cobra and everything printed are not modelled: configuration loading and writing, `CreateDefaultConfig`, flag registration, `init`, `info`'s viper reads and signal handling. The loaded configuration is a parameter (`Result<S3Config, Error>`). `config use` returns the new configuration rather than writing it, and a write failure is not modelled.
- Config.GetCurrentS3ConfigItem: map iteration order is unspecified, so the fallback returns some entry of the map. The assignment to the local copy's `current` has no visible effect and is not modelled.
- Config.ConfigList: the list is built in an unspecified order, as Go's map iteration is. It uses the corrected selection, `Config.CurrentProfile` (see Findings).

## Findings

| source | as written | input that shows it | evidently intended | confidence | as-written member | corrected member |
|---|---|---|---|---|---|---|
| internal/config/config.go:46-47 | with no profiles, GetCurrentS3ConfigItem returns a nil item and a nil error, although the comment says it returns an error. `config list` then reads the fields of the nil item | a configuration whose `services` map is empty | an error when no profile is usable | not executed | Config.NoProfilesYieldNil | Config.CurrentProfile |
| internal/s3client/client.go:255-280 | the percentage is not capped. Once more bytes pass than the declared size it grows past 100, and when it passes 100 by at least one bar column `empty` is negative and `strings.Repeat` panics | declared size 10, two reads of 6 bytes: 120%, bar width 10, 12 filled, -2 blank | the percentage held at 100 once all declared bytes have passed, so the bar always fits | not executed | Progress.OverlongStreamOverflows | Progress.CappedNeverPanics |
| internal/s3client/client.go:258-294 | completion is set only when the percentage equals 100 exactly. A single call that takes the count from below the declared size to at least 1.01 times it skips 100, and the reader never completes nor returns EOF | declared size 100, reads of 99 then 2 bytes: frames at 99% and 101%, never completed | the reader completes once all declared bytes have passed | not executed | Progress.MissedCompletion | Progress.FeedCompletes |

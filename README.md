# meteor-smart-file, modelled in Dafny

meteor-smart-file moves files between a Meteor client and the server's
disk in chunks of 2 MiB. A `SmartFile` is a record: an id, a directory, a
name, a media type, a size, a byte buffer, the current byte window, the
upload and download counters, two percentages and a status text. On the
client, `upload` sends the buffer one window at a time and `download`
fetches the file one window at a time. Each remote call is made only after
the previous one has completed. Both keep the percentage and status up to
date, and both rewind the record when a chunk call fails.

This project models that core, as written in `smart-file.js`:

- `wrappers.dfy` (module `Wrappers`): `Option`, and `Reply`, the outcome of
  one remote call (`Ok(value)` or `Err(message)`).
- `record.dfy` (module `SmartFileRecord`): the record as a value.
  - The constructor's defaults.
  - `clone`, `equals`.
  - `toJSONValue` and `fromJSONValue`, with their round trip.
- `planner.dfy` (module `ChunkPlanner`): the window step both loops share.
  It is also given as a whole plan of windows, with its partition
  properties.
- `status.dfy` (module `StatusTracker`):
  - The percentage: `Math.round(counter / size * 100)`, guarded for 0.
  - The three-way labels.
  - `rewind`.
  - `_setUStatus` and `_setDStatus` as functions on the record.
- `engine.dfy` (module `TransferEngine`): the upload and download loops as
  functions of the starting record and of the replies the remote calls
  give, in order.
  - When the replies run out, the last call is still in flight (`Pending`).
  - The lemmas state what a run does: the calls follow the plan, what
    completes and what fails, the buffer, the counters and the status.
- `client.dfy` (module `Client`):
  - Class `SmartFile`: the object whose methods update its fields in place.
    - `rewind`, `_setUStatus`, `_setDStatus`.
    - `upload`, whose `uploadChunk` is a loop.
    - `download`, whose metadata handler and `downloadChunk` are a loop.
    - Each method is proved against the functions of `TransferEngine` and
      `StatusTracker`.
  - Class `Index`: the client's two local collections.
    - `SmartFile.files`, keyed by id.
    - `Downloads`, keyed by directory and name.
    - The lookup-or-insert of `SmartFile.download`, and `delete`.
- `storage.dfy` (module `Storage`): the server-side logic the transfers
  rely on.
  - `sanitize`.
  - `save`'s choice between truncating (`start == 0`) and appending, with
    the proof that saving the planned chunks in order rebuilds the buffer.

`Math.round(b / s * 100)` is modelled with integers as
`(200 * b + s) / (2 * s)`. This rounds exact halves up, as `Math.round` does
for non-negative numbers.

Some behaviour of the code may be unexpected. It is modelled as written
and stated in lemmas:

- An upload chunk that fails leaves the buffer as the failed chunk's slice.
  The full buffer is restored only after a success (`UploadFails`).
- A download chunk that fails sets the status and rewinds. The download's
  callback is then never called (`Completion.Silent`, `DownloadChunkError`).
- `rewind` does not reset `bytesDownloaded`. A second `download()` of a
  record whose counter already reaches the size completes at once, with an
  empty buffer and no chunk call (`DownloadStaleCounter`).
- `delete` removes the record from `SmartFile.files` only. `Downloads` keeps
  it, and a failed remote delete does not put it back.

## Model

| member | source | states |
|---|---|---|
| SmartFileRecord.DefaultZero | smart-file.js:1-3 | an absent number becomes 0, a present one is kept |
| SmartFileRecord.OrElse | smart-file.js:6-11 | JavaScript's logical-or default on strings: the fallback exactly when the value is absent or empty, otherwise the value |
| SmartFileRecord.Construct | smart-file.js:5-22 | defaults, field by field: id kept if given and non-empty, else fresh; dirPath ""; type "unknown"; status ""; each of the seven numbers is 0 when absent and kept when given; name and data copied; a fresh non-empty id gives a normal record |
| Client.SmartFile.constructor | smart-file.js:5-22 | the new object's fields are the record `Construct` builds from the options |
| SmartFileRecord.Clone | smart-file.js:54-71 | a clone equals the original field by field exactly when the original has a non-empty id and type (every constructed record does) |
| SmartFileRecord.ToJSONValue | smart-file.js:73-90 | every field gets its property; name and data only when present |
| SmartFileRecord.FromJSONValue | smart-file.js:24-41 | decoding always gives a normal record |
| SmartFileRecord.JsonCarriesEveryField | smart-file.js:24-90 | the properties toJSONValue writes are exactly the options fromJSONValue reads back |
| SmartFileRecord.JsonRoundTrip | smart-file.js:24-90 | fromJSONValue(toJSONValue(r)) is clone(r), and equals r exactly when r is a constructed (normal) record |
| SmartFileRecord.Equals | smart-file.js:50-52 | equals compares ids only; its properties are stated in EqualsOnlyId and CloneEquals |
| SmartFileRecord.EqualsOnlyId | smart-file.js:50-52 | equals is an equivalence; a record equals every record with its id, whatever the other twelve fields hold, and none with another id |
| SmartFileRecord.CloneEquals | smart-file.js:50-71 | a clone equals its original |
| ChunkPlanner.NextWindow | smart-file.js:128-133 | the window starts at the previous end and ends one chunk later, clipped to the size |
| ChunkPlanner.Plan | smart-file.js:127-133 | every planned window lies within [from, size) and is non-empty |
| ChunkPlanner.PlanShape | smart-file.js:124-133 | the plan is empty exactly when from >= size; windows are at most 2 MiB, contiguous, full-sized but the last, start at from and end at size |
| ChunkPlanner.PlanDisjoint | smart-file.js:127-133 | earlier windows end before later ones start |
| ChunkPlanner.PlanCovers | smart-file.js:127-133 | every byte offset below the size lies in some window |
| ChunkPlanner.PlanCount | smart-file.js:124-133 | the number of windows is the remaining size over 2 MiB, rounded up |
| ChunkPlanner.PlanSplits | smart-file.js:135-139 | the slices of the planned windows, joined in order, are the buffer from the first window on |
| ChunkPlanner.FiveMebibytes | smart-file.js:124-133 | a 5 MiB file takes windows [0,2M), [2M,4M), [4M,5M) |
| StatusTracker.Progress | smart-file.js:221-222 | 0 for a zero counter; otherwise the nearest integer to counter/size*100, halves up |
| StatusTracker.ProgressAtMostHundred | smart-file.js:221-222 | the percentage is at most 100 while the counter is within the size |
| StatusTracker.ProgressExtremes | smart-file.js:221-222 | 100 exactly from 99.5% of the bytes on, 0 exactly below 0.5% |
| StatusTracker.ProgressMonotone | smart-file.js:221-222 | a larger counter never gives a smaller percentage |
| StatusTracker.ProgressComplete | smart-file.js:221-222 | the whole file is 100% |
| StatusTracker.UploadLabel | smart-file.js:223-227 | the upload label of a percentage; what it means for the counter is stated in UploadStatusMeaning |
| StatusTracker.DownloadLabel | smart-file.js:247-251 | the download label of a percentage; what it means for the counter is stated in DownloadStatusMeaning |
| StatusTracker.Rewound | smart-file.js:262-268 | the record rewind() leaves; its resets, what it keeps and its idempotence are stated in RewindResets |
| StatusTracker.RewindResets | smart-file.js:262-268 | rewind zeroes the window, the upload counter and both percentages, keeps every other field (bytesDownloaded included) and is idempotent |
| StatusTracker.WithUploadStatus | smart-file.js:215-236 | the record _setUStatus(err) leaves; stated in UploadStatusMeaning (success) and ErrorStatusRewinds (error) |
| StatusTracker.WithDownloadStatus | smart-file.js:238-260 | the record _setDStatus(err) leaves; stated in DownloadStatusMeaning (success) and ErrorStatusRewinds (error) |
| StatusTracker.UploadStatusMeaning | smart-file.js:220-235 | after a success only percentage and status change; "Uploaded" exactly from 99.5%, "Loaded" exactly below 0.5% or at 0 bytes, "Uploading..." exactly in between; percentage within 0..100 |
| StatusTracker.DownloadStatusMeaning | smart-file.js:243-259 | after a success only percentage and status change; "Downloaded" exactly from 99.5%, "Selected" exactly below 0.5% or at 0 bytes, "Downloading..." exactly in between; percentage within 0..100 |
| StatusTracker.ErrorStatusRewinds | smart-file.js:215-241 | on an error both status updates make the error text the status and rewind, keeping bytesDownloaded |
| Client.SmartFile.Rewind | smart-file.js:262-268 | the object's fields become the rewound record |
| Client.SmartFile.SetUStatus | smart-file.js:215-236 | the object's fields become the record _setUStatus derives |
| Client.SmartFile.SetDStatus | smart-file.js:238-260 | the object's fields become the record _setDStatus derives |
| TransferEngine.UploadChunks | smart-file.js:127-154 | the chunk loop from a given record; what it does is stated in UploadStops, UploadAckStep, UploadFollowsPlan, UploadCompletes, UploadFails and UploadProgresses |
| TransferEngine.UploadRun | smart-file.js:119-157 | upload(): rewind, then the chunk loop; stated in UploadFromStart and, for the object, in SmartFile.Upload |
| TransferEngine.UploadAckStep | smart-file.js:135-149 | an acknowledged chunk sends the planned window's slice, moves the counter to the window's end, restores the buffer and keeps the record steady |
| TransferEngine.UploadFollowsPlan | smart-file.js:127-147 | every upload call sends the next planned window and exactly its bytes; every call but the last got Ok; at most one call goes beyond the replies |
| TransferEngine.UploadCompletes | smart-file.js:127-153 | an upload completes exactly when every planned window got Ok; the counter is then the size, the full buffer is back, the percentage is 100 and the status "Uploaded" (an empty file makes no call) |
| TransferEngine.UploadFails | smart-file.js:140-143 | on an error the failing reply is the last call's; the record is rewound with the error as status and the failed slice as buffer |
| TransferEngine.UploadProgresses | smart-file.js:144-149 | until an error only window, counter, buffer, percentage and status change; counter and percentage never decrease and the percentage stays at most 100; a call in flight starts at the counter |
| TransferEngine.UploadFromStart | smart-file.js:119-157 | upload() rewinds and follows the plan from offset 0; a zero-size file completes with no call and percentage 0; a complete upload ends "Uploaded" at 100% with the full buffer |
| TransferEngine.UploadStops | smart-file.js:127-153 | with the counter at the size the loop completes at once with no call; otherwise it sends the first planned window's slice and then waits, or on an error rewinds with the error as status and the slice as buffer |
| Client.SmartFile.SendNextChunk | smart-file.js:129-137 | the window moves to the next planned one, the buffer becomes its non-empty slice, and that slice is what is sent |
| Client.SmartFile.AcknowledgeChunk | smart-file.js:145-148 | the counter grows by the slice length, the upload status is derived and the full buffer is put back |
| Client.SmartFile.Upload | smart-file.js:119-157 | the final fields, the completion and the calls made are those of the upload run from the object's old fields |
| Client.SmartFile.UploadChunk | smart-file.js:127-154 | one step of the upload run: a final outcome, or an Ok that leaves the record steady with the rest of the run to go |
| TransferEngine.DownloadChunks | smart-file.js:179-208 | the chunk loop from a given record; what it does is stated in DownloadStops, DownloadAckStep, DownloadAppends, DownloadChunkError, DownloadFollowsPlan, DownloadMediaTypeKept, DownloadCountGrows and DownloadProgressGrows |
| TransferEngine.DownloadRun | smart-file.js:159-213 | download(): the status is derived, then the metadata handler runs; stated in DownloadMetaError, DownloadFromStart and DownloadStaleCounter |
| TransferEngine.AfterMetadata | smart-file.js:163-212 | the metadata call's completion handler: an error goes to the callback, otherwise size and type are set, the buffer emptied and the chunk loop run; stated in DownloadMetaError and EmptyDownload |
| TransferEngine.DownloadAckStep | smart-file.js:191-194 | a chunk's Ok appends its bytes to the buffer and adds their count to the counter |
| TransferEngine.DownloadAppends | smart-file.js:180-196 | the buffer is what it held followed by the Ok replies' bytes in order; the counter grew by their length; every consumed reply was Ok |
| TransferEngine.DownloadChunkError | smart-file.js:187-190 | a failed chunk's error becomes the status and the record is rewound, without calling back |
| TransferEngine.DownloadFollowsPlan | smart-file.js:180-210 | with honest replies the calls ask for the planned windows in order; the download completes exactly when all got Ok, then at the full size, 100% and "Downloaded" |
| TransferEngine.DownloadMetaError | smart-file.js:159-165 | a metadata error reaches the callback, with only the status derived before the call changed |
| TransferEngine.DownloadFromStart | smart-file.js:159-213 | a fresh download follows the plan from 0 and completes exactly when all windows got Ok, holding exactly the received bytes, as many as the size, with the server's size and type |
| TransferEngine.EmptyDownload | smart-file.js:165-210 | the chunk loop from an empty buffer at offset 0 holds exactly the received bytes when it completes |
| TransferEngine.DownloadMediaTypeKept | smart-file.js:178-210 | the chunk loop never changes the size, the type or the id |
| TransferEngine.DownloadStaleCounter | smart-file.js:180-181 | a download counter left at or above the new size makes download() complete at once with an empty buffer and no chunk call |
| TransferEngine.DownloadCountGrows | smart-file.js:192 | the chunk loop never lowers the download counter |
| TransferEngine.DownloadProgressGrows | smart-file.js:179-208 | short of a chunk error, which rewinds, the chunk loop never lowers the download percentage |
| Client.SmartFile.RequestNextChunk | smart-file.js:180-185 | the window moves to the next one, clipped to the size; nothing else changes |
| Client.SmartFile.ReceiveChunk | smart-file.js:192-194 | the counter grows by the chunk's length, the chunk is appended and the download status is derived |
| Client.SmartFile.Download | smart-file.js:159-213 | the final fields, completion and windows asked for are those of the download run from the object's old fields |
| Client.SmartFile.ReceiveMetadata | smart-file.js:163-212 | the metadata completion handler and chunk loop end in the state the download run gives |
| Client.SmartFile.DownloadChunk | smart-file.js:179-195 | one step of the download run: a final outcome, or an Ok with the rest of the run to go |
| Client.LookupOrInsert | smart-file.js:341-362 | the result holds a record at the locator; a new one is inserted exactly when none was kept, with the requested directory and name |
| Client.SecondDownloadReuses | smart-file.js:347-361 | a second download of the same file returns the stored record, changes nothing and starts no transfer |
| Client.NewDownloadRecord | smart-file.js:352-359 | a new download record has a fresh id, type "unknown", nothing transferred and status "Selected" |
| Client.Index.constructor | smart-file.js:96-97 | Downloads starts empty and every kept download sits under its own location |
| Client.Index.Download | smart-file.js:341-362 | the collections and the record returned are what the lookup-or-insert gives; SmartFile.files is untouched; a started transfer's object shows the stored record |
| Client.Index.Delete | smart-file.js:270-279 | the record leaves SmartFile.files at once whatever the reply; Downloads is untouched, so every kept download still sits under its own location; the reply's error is passed on |
| Storage.RemoveSlashes | smart-file.js:451 | no slash is left; no character is added; a name without slashes is kept; pinned to the filter by RemoveSlashesDistributes and RemoveSlashesOne |
| Storage.RemoveSlashesDistributes | smart-file.js:451 | removing slashes from a concatenation removes them from each part |
| Storage.RemoveSlashesOne | smart-file.js:451 | a single slash is dropped and any other single character is kept |
| Storage.CollapseDots | smart-file.js:451 | no two dots are left side by side; the first character and every non-dot are kept in order; pinned to the index-wise rule by CollapseDotsIsFilter |
| Storage.CollapseDotsIsFilter | smart-file.js:451 | collapsing is the index-wise filter that keeps every character in order except a dot directly preceded by a dot, so each run of dots leaves exactly one |
| Storage.Sanitize | smart-file.js:450-452 | a sanitised name has no slash and no run of dots and holds only characters of the name |
| Storage.SanitizeInnerDots | smart-file.js:450-452 | "a..b" becomes "a.b" |
| Storage.SanitizeFlattensClimb | smart-file.js:450-452 | "../../e/p" becomes "." followed by e and p, for any dot-free, slash-free e (non-empty) and p; so "../../etc/passwd" becomes ".etcpasswd" |
| Storage.SanitizeIdempotent | smart-file.js:450-452 | sanitising twice is sanitising once; a name is left alone exactly when it has no slash and no run of dots |
| Storage.SanitizeKeepsNonDots | smart-file.js:450-452 | every character but '/' and '.' survives, in order |
| Storage.SavingPlannedChunksRebuilds | smart-file.js:389 | the first planned chunk truncates, every later one appends, and saving them in order leaves the file holding the buffer |
| Storage.SaveAllAppends | smart-file.js:389 | chunks that do not start at 0 are appended in order |
| Storage.ModeFor | smart-file.js:389 | the write mode, 'w' at offset 0 and 'a' elsewhere; stated in SavingPlannedChunksRebuilds |
| Storage.Saved | smart-file.js:389-391 | the file after one save(): the payload alone when truncating, appended when appending; stated in SaveAllAppends and SavingPlannedChunksRebuilds |

## Left out

- `read`, `fromImageData`, `makeImage`: these rely on the browser's FileReader and on base64 and regular-expression builtins. A record made by `read` is one whose buffer has the size's length.
- `humanize`: floating-point division and rounding for display.
- The static `SmartFile.read`, `SmartFile.upload`, `SmartFile.makeImage` and `SmartFile.fromImageData` only wrap `read`, `upload` and the image helpers in a new object.
- The transport (`Meteor.call`) and the server's method bodies (`fs` calls, `Mimer.mime`): each remote call's outcome is an input `Reply`. `save` is kept only as its write-mode rule.
- Reactive publishing through `Meteor.Collection` `update` calls is left out. `Downloads` and `SmartFile.files` are plain maps. Only `SmartFile.download`'s insert and the status stored by the first `_setDStatus` are kept.
- `Meteor.uuid()` is an input `freshId`. EJSON's binary encoding is taken to round-trip the bytes unchanged.
- Client.SmartFile.Upload: does not model the exception for a non-string method name (smart-file.js:120-121). It requires the buffer's length to be the size, which `read` guarantees.
- StatusTracker.Progress: requires a zero counter or a positive size. JavaScript's `Infinity` for a positive counter over size 0 is not modelled.
- StatusTracker.Progress: rounds the exact quotient, not the floating-point one. Where `b / s * 100` lands just below a half, JavaScript rounds down and the model rounds up. For example, 29 bytes of 200 gives `14.499999999999998` in floating point, so `Math.round` gives 14 where the model gives 15.
- Client.SmartFile.Download: requires a zero download counter or a positive size, for the same reason.
- TransferEngine.DownloadFollowsPlan, TransferEngine.DownloadFromStart and TransferEngine.EmptyDownload: assume an honest server, one whose Ok replies are as long as their windows. The server's chunk handler allocates a buffer of `end - start` bytes and returns all of it (smart-file.js:422, 432), so its replies have that length. The general case is covered by DownloadAppends.
- A property stored in the JSON with the wrong type is read as absent. A mistyped value in JavaScript would be copied as is.
- `err.toString()` is modelled as the reply's message text.
- Storage.Saved: a chunk opened with 'a' is written at the end of the file. `save` also passes `start` as the write position (smart-file.js:390). Linux ignores that position for a file opened with 'a', but other POSIX systems write at the offset. The two agree when the file's length equals `start`, which is the sequential case SavingPlannedChunksRebuilds covers.
- The final conversion of the downloaded array into a `Uint8Array` keeps the same bytes and is not modelled separately.
- `package.js` is package metadata with no logic.

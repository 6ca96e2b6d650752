# Resumable upload manager for Google Cloud Storage, modelled in Dafny

This project models the core of an Android library that uploads a file to
Google Cloud Storage with the resumable-upload protocol. The `UploadManager`
works as follows:

- It opens a session and plans the file as chunks of a configured size (30 MiB
  unless set, at least 15 MiB).
- It sends the chunks one after another with `Content-Range: bytes s-e/F`.
- It reads the service's answers: `308` ("Resume Incomplete") means go on, and
  any 2xx means done.
- After an error it asks the service, with a status probe
  (`Content-Range: bytes */F`), how many bytes it holds, and then continues
  from `Range: bytes=0-N` plus one.
- It reacts to pause, resume, abort and connectivity changes through a small
  state machine (`UploadState`).
- It keeps its progress in a mutable record (`ChunkSession`).

Files and modules:

- `wrappers.dfy` (`Wrappers`): `Option`, `Result` and `Outcome`.
- `kotlin_runtime.dfy` (`Kotlin`): the parts of Kotlin's runtime the core relies
  on, written out:
  - 32-bit `Int` and 64-bit `Long` wrap-around;
  - `Long` division, which truncates;
  - printing of numbers;
  - `toLongOrNull`, `substringAfter` (whole string when the delimiter is
    missing), `isBlank` (Java's whitespace set) and `orEmpty`.
- `chunk_plan.dfy` (`ChunkPlan`):
  - chunk count, chunk end and the windows of a plan;
  - the proof that the planned windows tile the file;
  - the progress percentage.
- `wire.dfy` (`Wire`):
  - the `Content-Range` headers, with a parser for the syntax of section 14.4 of
    RFC 9110 and round-trip lemmas;
  - the `Range` reply read as a resume cursor;
  - the classification of status codes.
- `upload_state.dfy` (`UploadStates`): `UploadState` and `CancelReason` as
  datatypes. Datatype equality compares a `Failed` state's message, as the data
  class does.
- `chunk_session.dfy` (`ChunkSessions`): the progress record as a class with
  mutable fields and its defaults.
- `upload_manager.dfy` (`UploadManagers`): the manager, the builder, and three
  event scenarios.

How the manager is modelled:

- The manager is a class. Each asynchronous entry point of the source is one
  method: session result, chunk response, chunk transport failure, probe
  response, probe failure, network available or lost, pause, resume and abort.
  `BeginUploadingFails` is `beginUploading` when building or enqueuing the
  request throws: the cursor has moved, no PUT goes out, and the catch block
  (`OnChunkException`) runs.
- Each request the manager makes of the HTTP client is appended to the ghost log
  `requests`. Each call of `UploadStateCallback` is appended to `callbacks`.
- `Valid()` is the invariant that every method keeps:
  - the remembered state is never `Offline`, and it equals the current state
    outside `Offline`;
  - no code path reaches `Completed` or `Failed`;
  - `chunkOffset` and `successiveChunkCount` stay equal `Int`s. A 308
    increments both with `Int` wrap-around, as `++` does;
  - the chunk sizes stay in range.
- The manager computes each chunk end as the code does: the `Int` product
  `chunkSize * (chunkOffset + 1)` wraps before it is widened
  (`ChunkPlan.ChunkEndAsWritten`). The plan lemmas use the intended end
  `ChunkPlan.ChunkEnd`. When `chunkSize * ceil(fileSize / chunkSize)` fits in
  an `Int`, the two agree on every chunk of the plan
  (`ChunkPlan.NoWrapWithinPlan`). When the chunk count fits in an `Int` but
  that product does not, the last chunk as written ends short
  (`ChunkPlan.LastChunkEndWraps`).
- `OnSchedule()` says that, while only 308s have been answered since planning,
  chunk k is in flight with window k of the plan. Planning establishes it, and a
  308 keeps it whenever the next chunk's end does not wrap. With it:
  - `nextChunkRangeStart` stays at `min(k*C, F)`;
  - `UploadManagers.AcknowledgedRun` follows n 308s from chunk 0: the chunk in
    flight and the n PUTs they trigger carry windows 0 .. n in order. They
    cover `[0, min((n + 1) * C, F))`, and when n + 1 is the chunk count they
    tile the file (by `ChunkPlan.WindowsTileFile`).
- A probe whose Range cursor equals the current chunk end sends an empty window
  `[e, e)` with the header "bytes e-(e-1)/F", which is not a valid
  Content-Range (`UploadManagers.ProbeAtChunkEnd`).
- `fileSize`, `chunkSize`, `totalChunks` and `startTime` of the record appear
  in no method's frame except planning. Planning changes them only from `Idle`,
  and sets `isOnlyChunk` only when there is exactly one chunk. The session
  result writes only the session URI besides.

What the code does, which the model follows:

- A 2xx response reports success and leaves the state as it is: nothing sets
  `Completed`, and nothing sets `Failed`.
- `abort` does nothing (see Findings). With its guard corrected, it passes
  through `Aborted` and ends in `Idle`, through `unregister`.
- `Failed` is a data class, so two `Failed` states are equal exactly when their
  messages are.
- The connectivity cancel reason is `INTERNET_LOST`.
- A chunk transport failure with no cancel reason is reported to the callback
  at once; only a non-308, non-2xx response or an exception leads to a probe.

## Model

| member | source | states |
|---|---|---|
| Kotlin.WrapInt | GCSResummableUploadWrapper/src/main/java/com/flutteroid/gcsresummableuploadwrapper/internal/upload/UploadManager.kt:150-153 | A 32-bit `Int` result: in range, congruent to the exact value modulo 2^32, and equal to it when it fits. |
| Kotlin.WrapLong | GCSResummableUploadWrapper/src/main/java/com/flutteroid/gcsresummableuploadwrapper/internal/upload/UploadManager.kt:161-163 | A 64-bit `Long` result: in range, congruent to the exact value modulo 2^64, and equal to it when it fits. |
| Kotlin.DivLong | GCSResummableUploadWrapper/src/main/java/com/flutteroid/gcsresummableuploadwrapper/internal/upload/UploadManager.kt:163 | `Long` division truncates toward zero: the remainder a - q*b lies in [0, b) for a non-negative dividend and in (-b, 0] for a negative one. |
| Kotlin.NatToStringValue | GCSResummableUploadWrapper/src/main/java/com/flutteroid/gcsresummableuploadwrapper/internal/upload/UploadManager.kt:168 | The decimal text of a number, as string templates print it, reads back as that number (digits only, no leading zero). |
| Kotlin.LongToStringDigits | GCSResummableUploadWrapper/src/main/java/com/flutteroid/gcsresummableuploadwrapper/internal/upload/UploadManager.kt:168 | A `Long` in a string template is the decimal digits of its magnitude with no leading zero, after a '-' exactly when it is negative. |
| Kotlin.LongToStringRoundTrip | GCSResummableUploadWrapper/src/main/java/com/flutteroid/gcsresummableuploadwrapper/internal/upload/UploadManager.kt:168 | `toLongOrNull` recovers every `Long` from its printed form, negative values included. |
| Kotlin.ToLongOrNull | GCSResummableUploadWrapper/src/main/java/com/flutteroid/gcsresummableuploadwrapper/internal/upload/UploadManager.kt:296-298 | A parsed value is a `Long` and comes from a string of digits, or from a '+' or '-' followed by at least one digit. |
| Kotlin.ToLongOrNullCases | GCSResummableUploadWrapper/src/main/java/com/flutteroid/gcsresummableuploadwrapper/internal/upload/UploadManager.kt:296-298 | Plain digits read as their value, a '+' before digits as the value, a '-' before digits as its negation, each exactly when it lies in the `Long` range; every other string reads as null. |
| Kotlin.ToLongOrNullExamples | GCSResummableUploadWrapper/src/main/java/com/flutteroid/gcsresummableuploadwrapper/internal/upload/UploadManager.kt:296-298 | "007" reads as 7, "+5" as 5 and "-0" as 0; "", "-", "+", "1a", " 1" and "--1" read as null. |
| Kotlin.SubstringAfter | GCSResummableUploadWrapper/src/main/java/com/flutteroid/gcsresummableuploadwrapper/internal/upload/UploadManager.kt:296-297 | Without the delimiter the whole string is returned; at a leading delimiter the rest is returned; otherwise the string is the text before the first occurrence, then the delimiter, then the result. |
| Kotlin.IndexOf | GCSResummableUploadWrapper/src/main/java/com/flutteroid/gcsresummableuploadwrapper/internal/upload/UploadManager.kt:296-297 | The result is the first index at or after `from` where the delimiter occurs, and there is none exactly when it occurs nowhere from there on. |
| Kotlin.SubstringAfterPrefix | GCSResummableUploadWrapper/src/main/java/com/flutteroid/gcsresummableuploadwrapper/internal/upload/UploadManager.kt:296-297 | After a leading delimiter the rest of the string is returned unchanged. |
| Kotlin.OrEmpty | GCSResummableUploadWrapper/src/main/java/com/flutteroid/gcsresummableuploadwrapper/internal/upload/UploadManager.kt:60 | `orEmpty` maps null to the empty string and keeps any other string. |
| Kotlin.BlankExamples | GCSResummableUploadWrapper/src/main/java/com/flutteroid/gcsresummableuploadwrapper/internal/upload/UploadManager.kt:408-411 | `isBlank` holds for the empty string, spaces, tabs, line breaks, the no-break and ideographic spaces, and fails for text with a letter and for a zero-width space. |
| ChunkPlan.CeilDivBounds | GCSResummableUploadWrapper/src/main/java/com/flutteroid/gcsresummableuploadwrapper/internal/upload/UploadManager.kt:92-93 | The least count of chunks whose total reaches the file size: q*b >= a, (q-1)*b < a when q > 0, and q is 0 exactly for an empty file. |
| ChunkPlan.TotalChunks | GCSResummableUploadWrapper/src/main/java/com/flutteroid/gcsresummableuploadwrapper/internal/upload/UploadManager.kt:92-93 | The chunk count lies in 0..2^31-1 and is the ceiling quotient whenever that fits in an `Int` (the conversion saturates). |
| ChunkPlan.ChunkEnd | GCSResummableUploadWrapper/src/main/java/com/flutteroid/gcsresummableuploadwrapper/internal/upload/UploadManager.kt:150-153 | The intended chunk end, with the product in `Long`: the smaller of the file size and chunkSize*(chunkOffset+1), never above either. |
| ChunkPlan.ChunkEndAsWritten | GCSResummableUploadWrapper/src/main/java/com/flutteroid/gcsresummableuploadwrapper/internal/upload/UploadManager.kt:150-153 | The end as written, with the product wrapped in 32 bits, never passes the file size either. |
| ChunkPlan.ChunkEndAsWrittenAgrees | GCSResummableUploadWrapper/src/main/java/com/flutteroid/gcsresummableuploadwrapper/internal/upload/UploadManager.kt:150-153 | When chunkOffset+1 and the product fit in an `Int`, the end as written equals the intended end. |
| ChunkPlan.ChunkEndFits | GCSResummableUploadWrapper/src/main/java/com/flutteroid/gcsresummableuploadwrapper/internal/upload/UploadManager.kt:150-153 | For a positive chunk size, when chunkSize*(k+1) fits in an `Int`, chunk k ends as intended. |
| ChunkPlan.NoWrapWithinPlan | GCSResummableUploadWrapper/src/main/java/com/flutteroid/gcsresummableuploadwrapper/internal/upload/UploadManager.kt:150-153 | When chunkSize*ceil(fileSize/chunkSize) fits in an `Int`, every chunk of the plan ends as intended. |
| ChunkPlan.LastChunkEndWraps | GCSResummableUploadWrapper/src/main/java/com/flutteroid/gcsresummableuploadwrapper/internal/upload/UploadManager.kt:150-153 | When the chunk count fits in an `Int` but chunkSize*ceil(fileSize/chunkSize) does not, the last chunk as written ends before the file's end, where it should end at it. |
| ChunkPlan.ChunkEndOverflowExample | GCSResummableUploadWrapper/src/main/java/com/flutteroid/gcsresummableuploadwrapper/internal/upload/UploadManager.kt:150-153 | With 30 MiB chunks and a 3 GiB file, chunk 68 ends at -2124414976 as written; the intended end is 69 chunks, past the chunk's start. |
| ChunkPlan.WindowShape | GCSResummableUploadWrapper/src/main/java/com/flutteroid/gcsresummableuploadwrapper/internal/upload/UploadManager.kt:146-154 | Chunk k's window lies inside the file and holds at most one chunk; it starts at k*C and is non-empty while k*C is inside the file, and it is empty at the file's end past it. |
| ChunkPlan.NextWindowStart | GCSResummableUploadWrapper/src/main/java/com/flutteroid/gcsresummableuploadwrapper/internal/upload/UploadManager.kt:185 | Chunk k+1 starts where chunk k ends, so setting the cursor to the captured end after a 308 moves to the next chunk's start. |
| ChunkPlan.WindowsAt | GCSResummableUploadWrapper/src/main/java/com/flutteroid/gcsresummableuploadwrapper/internal/upload/UploadManager.kt:181-186 | The k-th of the first n windows is window k. |
| ChunkPlan.SpanSplit | GCSResummableUploadWrapper/src/main/java/com/flutteroid/gcsresummableuploadwrapper/internal/upload/UploadManager.kt:181-186 | Two adjacent byte spans concatenate to one span. |
| ChunkPlan.WindowsCoverPrefix | GCSResummableUploadWrapper/src/main/java/com/flutteroid/gcsresummableuploadwrapper/internal/upload/UploadManager.kt:181-186 | Concatenating the bytes of the first n windows gives exactly the bytes [0, min(n*C, F)), in order, with no gap or overlap. |
| ChunkPlan.WindowsTileFile | GCSResummableUploadWrapper/src/main/java/com/flutteroid/gcsresummableuploadwrapper/internal/upload/UploadManager.kt:89-101 | The ceil(F/C) planned windows cover the bytes [0, F) exactly once and in order; each starts at k*C and is non-empty. |
| ChunkPlan.PlanExamples | GCSResummableUploadWrapper/src/main/java/com/flutteroid/gcsresummableuploadwrapper/internal/upload/UploadManager.kt:89-101 | A 100 MiB file in 30 MiB chunks takes 4 chunks, the last one [94371840, 104857600); a 10 MiB file takes 1 chunk (single PUT); an empty file takes 0. |
| ChunkPlan.Progress | GCSResummableUploadWrapper/src/main/java/com/flutteroid/gcsresummableuploadwrapper/internal/upload/UploadManager.kt:161-165 | No percentage is produced exactly when the file size is 0 (the division throws); otherwise the value is the `Long`-wrapped ((start+written)*100)/fileSize. |
| ChunkPlan.ProgressBounds | GCSResummableUploadWrapper/src/main/java/com/flutteroid/gcsresummableuploadwrapper/internal/upload/UploadManager.kt:161-165 | Inside the file and without overflow, the percentage is ((start+written)*100)/fileSize, lies in 0..100, and is 100 exactly when the whole file has been written. |
| ChunkPlan.ProgressMonotone | GCSResummableUploadWrapper/src/main/java/com/flutteroid/gcsresummableuploadwrapper/internal/upload/UploadManager.kt:161-165 | Within one chunk, more bytes written never lowers the reported percentage. |
| Wire.TakeDigits | GCSResummableUploadWrapper/src/main/java/com/flutteroid/gcsresummableuploadwrapper/internal/upload/UploadManager.kt:168 | Splits a string into its longest prefix of digits and the rest. |
| Wire.TakeDigitsOf | GCSResummableUploadWrapper/src/main/java/com/flutteroid/gcsresummableuploadwrapper/internal/upload/UploadManager.kt:168 | A digit string followed by a non-digit splits at that boundary. |
| Wire.ParseNumberToEndOf | GCSResummableUploadWrapper/src/main/java/com/flutteroid/gcsresummableuploadwrapper/internal/upload/UploadManager.kt:168 | A non-empty digit string parses to its value. |
| Wire.ParseSatisfied | GCSResummableUploadWrapper/src/main/java/com/flutteroid/gcsresummableuploadwrapper/internal/upload/UploadManager.kt:168 | "bytes A-B/C" with decimal A, B, C parses to the satisfied range (A, B, C). |
| Wire.ParseUnsatisfied | GCSResummableUploadWrapper/src/main/java/com/flutteroid/gcsresummableuploadwrapper/internal/upload/UploadManager.kt:285 | "bytes */C" with decimal C parses to the unsatisfied range with complete length C. |
| Wire.ResponseClasses | GCSResummableUploadWrapper/src/main/java/com/flutteroid/gcsresummableuploadwrapper/internal/upload/UploadManager.kt:181-195 | 308 is not a success; 200 and 299 are, 199 and 300 are not. |
| Wire.ChunkContentRangeRoundTrip | GCSResummableUploadWrapper/src/main/java/com/flutteroid/gcsresummableuploadwrapper/internal/upload/UploadManager.kt:168 | The chunk header for [start, end) of total bytes reads back as first = start, last = end-1, complete length = total (section 14.4 of RFC 9110). |
| Wire.ProbeContentRangeRoundTrip | GCSResummableUploadWrapper/src/main/java/com/flutteroid/gcsresummableuploadwrapper/internal/upload/UploadManager.kt:284-285 | The probe header reads back as the unsatisfied range with the file's size. |
| Wire.ChunkContentRangeValid | GCSResummableUploadWrapper/src/main/java/com/flutteroid/gcsresummableuploadwrapper/internal/upload/UploadManager.kt:168 | For a non-empty chunk inside the file, the header is a valid satisfied range: first <= last < complete length. |
| Wire.EmptyFileContentRange | GCSResummableUploadWrapper/src/main/java/com/flutteroid/gcsresummableuploadwrapper/internal/upload/UploadManager.kt:96-101 | An empty file reaches the chunk loop and sends "bytes 0--1/0", which is not a valid Content-Range. |
| Wire.EmptyWindowContentRange | GCSResummableUploadWrapper/src/main/java/com/flutteroid/gcsresummableuploadwrapper/internal/upload/UploadManager.kt:168 | The header of an empty window [e, e) with e >= 1 parses as first byte e, last byte e-1, and is not valid. |
| Wire.ResumeCursor | GCSResummableUploadWrapper/src/main/java/com/flutteroid/gcsresummableuploadwrapper/internal/upload/UploadManager.kt:295-299 | The cursor is a `Long`; a missing Range header gives 0. |
| Wire.ResumeCursorOfRange | GCSResummableUploadWrapper/src/main/java/com/flutteroid/gcsresummableuploadwrapper/internal/upload/UploadManager.kt:295-299 | "bytes=0-N" gives the cursor N+1 in `Long` arithmetic, which is N+1 itself for every N below the largest `Long`. |
| Wire.ResumeCursorOverflow | GCSResummableUploadWrapper/src/main/java/com/flutteroid/gcsresummableuploadwrapper/internal/upload/UploadManager.kt:295-299 | "bytes=0-9223372036854775807" gives a cursor that wraps to the least `Long`. |
| Wire.ResumeCursorUnreadable | GCSResummableUploadWrapper/src/main/java/com/flutteroid/gcsresummableuploadwrapper/internal/upload/UploadManager.kt:295-299 | A header with no number, or a non-numeric one, after "bytes=0-" gives 0. |
| ChunkSessions.ChunkSession.constructor | GCSResummableUploadWrapper/src/main/java/com/flutteroid/gcsresummableuploadwrapper/data/model/ChunkSession.kt:3-14 | A fresh record: no chunks, 15 MiB chunk size, not the only chunk, offset, size, cursor and success count 0, and no object name, session URI or start time. |
| UploadManagers.UploadManager.constructor | GCSResummableUploadWrapper/src/main/java/com/flutteroid/gcsresummableuploadwrapper/internal/upload/UploadManager.kt:24-41 | A built manager is `Idle`, remembers `Idle`, has no cancel reason, no call, no listener, a fresh record and the builder's file, token, bucket, chunk size and logging flag. |
| UploadManagers.UploadManager.IsUploading | GCSResummableUploadWrapper/src/main/java/com/flutteroid/gcsresummableuploadwrapper/internal/upload/UploadManager.kt:239-241 | True exactly when the current state is `Uploading`. |
| UploadManagers.UploadManager.SetState | GCSResummableUploadWrapper/src/main/java/com/flutteroid/gcsresummableuploadwrapper/internal/upload/UploadManager.kt:69-79 | Setting the current state changes nothing; any other state becomes current, and the remembered state follows it unless it is `Offline`. |
| UploadManagers.UploadManager.StartUpload | GCSResummableUploadWrapper/src/main/java/com/flutteroid/gcsresummableuploadwrapper/internal/upload/UploadManager.kt:48-53 | Registers the listener and asks for a session with the bucket, "Bearer " + token and the file's name. |
| UploadManagers.UploadManager.OnSessionCreated | GCSResummableUploadWrapper/src/main/java/com/flutteroid/gcsresummableuploadwrapper/internal/upload/UploadManager.kt:53-61 | A failed negotiation reports its message (or "") and changes nothing else. A successful one stores the URI unchecked (it may be null) and prepares the upload: outside `Idle` only the URI and the state change; from `Idle` the plan is made and the first request is sent. The object name, offset and success count never change. |
| UploadManagers.UploadManager.PrepareForUploading | GCSResummableUploadWrapper/src/main/java/com/flutteroid/gcsresummableuploadwrapper/internal/upload/UploadManager.kt:81-102 | From a state other than `Idle` it only sets `Uploading`. From `Idle` it records size, chunk size, ceil(size/chunk) chunks and the start time and sets `Uploading`. With exactly one chunk it marks the only chunk and sends one PUT of the whole file, leaving the cursor and the captured window alone; otherwise it sends the first chunk (an empty file included), on schedule from a fresh record. URI, object name, offset and success count never change. |
| UploadManagers.UploadManager.PlanChunks | GCSResummableUploadWrapper/src/main/java/com/flutteroid/gcsresummableuploadwrapper/internal/upload/UploadManager.kt:89-93 | Records the start time, the file's size, the chunk size and the chunk count of the plan. |
| UploadManagers.UploadManager.UploadSingleChunk | GCSResummableUploadWrapper/src/main/java/com/flutteroid/gcsresummableuploadwrapper/internal/upload/UploadManager.kt:104-112 | One PUT to the session URI with Content-Length = file size. |
| UploadManagers.UploadManager.OnSingleResponse | GCSResummableUploadWrapper/src/main/java/com/flutteroid/gcsresummableuploadwrapper/internal/upload/UploadManager.kt:117-124 | A 2xx reports success and anything else reports the response message; no probe is sent. |
| UploadManagers.UploadManager.OnSingleFailure | GCSResummableUploadWrapper/src/main/java/com/flutteroid/gcsresummableuploadwrapper/internal/upload/UploadManager.kt:127-134 | A transport failure of the single PUT reports its message (or ""). |
| UploadManagers.UploadManager.BeginUploading | GCSResummableUploadWrapper/src/main/java/com/flutteroid/gcsresummableuploadwrapper/internal/upload/UploadManager.kt:137-175 | Nothing happens while `Paused`, `Aborted` or `Offline`. Otherwise the cursor becomes the given byte count if any, and the request is a PUT of [cursor, end) with the end as written, min((chunkSize*(offset+1) in `Int`), F), Content-Length = chunk size and Content-Range "bytes start-(end-1)/fileLength". Sent from window k's start without a wrap, it is on schedule. |
| UploadManagers.UploadManager.OnChunkProgress | GCSResummableUploadWrapper/src/main/java/com/flutteroid/gcsresummableuploadwrapper/internal/upload/UploadManager.kt:161-165 | Reports ((start+written)*100)/fileSize for the chunk's captured start; nothing is reported for an empty file; the value is in 0..100 while inside the file. |
| UploadManagers.UploadManager.OnChunkResponse | GCSResummableUploadWrapper/src/main/java/com/flutteroid/gcsresummableuploadwrapper/internal/upload/UploadManager.kt:176-196 | A 308 advances offset and success count by one, with `Int` wrap-around, moves the cursor to the captured end and sends the next chunk; on schedule, and when the next end does not wrap, that is the next planned window. A 2xx reports success and leaves the state alone. Any other code probes when connected and reports the waiting message otherwise. |
| UploadManagers.UploadManager.OnChunkFailure | GCSResummableUploadWrapper/src/main/java/com/flutteroid/gcsresummableuploadwrapper/internal/upload/UploadManager.kt:199-215 | After a pause or a connectivity loss the failure is swallowed once and the reason reset; with no reason it reports the message (or ""). |
| UploadManagers.UploadManager.BeginUploadingFails | GCSResummableUploadWrapper/src/main/java/com/flutteroid/gcsresummableuploadwrapper/internal/upload/UploadManager.kt:136-235 | When building or enqueuing the chunk request throws: paused, aborted or offline, nothing changes; otherwise the cursor takes the given value, no PUT is logged and no window is captured, and then the catch block's outcome follows: after a pause or a connectivity loss the reason is reset and nothing is reported; with no reason it probes when connected, or reports the waiting message. |
| UploadManagers.UploadManager.OnChunkException | GCSResummableUploadWrapper/src/main/java/com/flutteroid/gcsresummableuploadwrapper/internal/upload/UploadManager.kt:218-235 | The catch block: after a pause or a connectivity loss the exception is swallowed once and the reason reset; with no reason it probes when connected and reports the waiting message otherwise. |
| UploadManagers.UploadManager.CheckForUploadStatus | GCSResummableUploadWrapper/src/main/java/com/flutteroid/gcsresummableuploadwrapper/internal/upload/UploadManager.kt:282-288 | A PUT to the session URI with Content-Length 0 and Content-Range "bytes */fileLength". |
| UploadManagers.UploadManager.OnProbeResponse | GCSResummableUploadWrapper/src/main/java/com/flutteroid/gcsresummableuploadwrapper/internal/upload/UploadManager.kt:290-310 | A 308 sends the chunk from the Range header's cursor (N+1, or 0), keeping the chunk offset so the end stays at the current boundary. A 2xx reports success. Any other code probes again when connected and reports the waiting message otherwise. |
| UploadManagers.UploadManager.OnProbeFailure | GCSResummableUploadWrapper/src/main/java/com/flutteroid/gcsresummableuploadwrapper/internal/upload/UploadManager.kt:312-317 | A probe's transport failure always reports its message, whatever the cancel reason. |
| UploadManagers.UploadManager.OnNetworkAvailable | GCSResummableUploadWrapper/src/main/java/com/flutteroid/gcsresummableuploadwrapper/internal/upload/UploadManager.kt:324-358 | Sets the connected flag. Outside `Offline` nothing else changes. From `Offline` it restores `Paused` without a request when that was remembered, and otherwise sets `Uploading` and probes. |
| UploadManagers.UploadManager.OnNetworkLost | GCSResummableUploadWrapper/src/main/java/com/flutteroid/gcsresummableuploadwrapper/internal/upload/UploadManager.kt:360-367 | Clears the connected flag. From `Uploading` or `Paused` it sets `Offline`, remembers the interrupted state and sets the reason to INTERNET_LOST. From any other state nothing else changes. |
| UploadManagers.UploadManager.Pause | GCSResummableUploadWrapper/src/main/java/com/flutteroid/gcsresummableuploadwrapper/internal/upload/UploadManager.kt:263-270 | From `Uploading` only: sets `Paused` and the reason USER_PAUSED, and cancels the call if there is one. |
| UploadManagers.UploadManager.Resume | GCSResummableUploadWrapper/src/main/java/com/flutteroid/gcsresummableuploadwrapper/internal/upload/UploadManager.kt:272-279 | From `Paused`, while the success count differs from the chunk count, only: sets `Uploading` and probes. |
| UploadManagers.UploadManager.AbortAsWritten | GCSResummableUploadWrapper/src/main/java/com/flutteroid/gcsresummableuploadwrapper/internal/upload/UploadManager.kt:243-253 | `abort` as written changes nothing: its guard never holds. |
| UploadManagers.UploadManager.Abort | GCSResummableUploadWrapper/src/main/java/com/flutteroid/gcsresummableuploadwrapper/internal/upload/UploadManager.kt:243-261 | With the guard reading the state: from `Uploading`, `Paused` or `Offline` it cancels, passes through `Aborted` and unregisters, which ends in `Idle` with a fresh record and no listener. From any other state nothing changes. |
| UploadManagers.UploadManager.Unregister | GCSResummableUploadWrapper/src/main/java/com/flutteroid/gcsresummableuploadwrapper/internal/upload/UploadManager.kt:255-261 | Cancels the call if any, replaces the record with a fresh one, drops the listener and ends in `Idle`. |
| UploadManagers.AcknowledgeStep | GCSResummableUploadWrapper/src/main/java/com/flutteroid/gcsresummableuploadwrapper/internal/upload/UploadManager.kt:181-186 | One 308 on schedule, when the end after next does not wrap: the offset and chunk index advance by one without wrapping, exactly one PUT is appended, its window is the next planned window, the schedule holds and no callback fires. |
| UploadManagers.AcknowledgeOnSchedule | GCSResummableUploadWrapper/src/main/java/com/flutteroid/gcsresummableuploadwrapper/internal/upload/UploadManager.kt:181-186 | The same step on the request log: exactly one PUT is appended, no callback fires, and the windows sent since a given point stay the plan's first ones. |
| UploadManagers.AcknowledgedRun | GCSResummableUploadWrapper/src/main/java/com/flutteroid/gcsresummableuploadwrapper/internal/upload/UploadManager.kt:176-196 | n 308s from chunk 0 on schedule, below the wrap-around: the offset ends at n; the window in flight at the start and the windows of the n PUTs sent are the plan's windows 0 .. n, in order; exactly n requests are appended and no callback fires; they cover [0, min((n+1)*C, F)) and, when n+1 is the chunk count, exactly the file. |
| UploadManagers.ProbeAtChunkEnd | GCSResummableUploadWrapper/src/main/java/com/flutteroid/gcsresummableuploadwrapper/internal/upload/UploadManager.kt:290-300 | A probe's 308 whose Range cursor is the current chunk end sends the empty window [e, e): one PUT, with a header that parses as "bytes e-(e-1)/F" and is not a valid Content-Range. |
| UploadManagers.ConnectionDropWhileUploading | GCSResummableUploadWrapper/src/main/java/com/flutteroid/gcsresummableuploadwrapper/internal/upload/UploadManager.kt:324-367 | A connection drop during an upload followed by its return ends in `Uploading` with one probe sent. |
| UploadManagers.ConnectionDropWhilePaused | GCSResummableUploadWrapper/src/main/java/com/flutteroid/gcsresummableuploadwrapper/internal/upload/UploadManager.kt:324-367 | A connection drop while paused followed by its return ends in `Paused` with nothing sent. |
| UploadManagers.PauseThenResume | GCSResummableUploadWrapper/src/main/java/com/flutteroid/gcsresummableuploadwrapper/internal/upload/UploadManager.kt:263-279 | Pause then resume with chunks remaining cancels the call, returns to `Uploading` and probes. |
| UploadManagers.ChunkSizeTooSmallText | GCSResummableUploadWrapper/src/main/java/com/flutteroid/gcsresummableuploadwrapper/internal/upload/UploadManager.kt:393-395 | The chunk-size message reads "Chunk size must be at least 15 MB.". |
| UploadManagers.Builder.constructor | GCSResummableUploadWrapper/src/main/java/com/flutteroid/gcsresummableuploadwrapper/internal/upload/UploadManager.kt:372-378 | A new builder has no file, token, bucket or callback, a 30 MiB chunk size, and logging off. |
| UploadManagers.Builder.SetFile | GCSResummableUploadWrapper/src/main/java/com/flutteroid/gcsresummableuploadwrapper/internal/upload/UploadManager.kt:380-382 | Stores the file. |
| UploadManagers.Builder.SetAccessToken | GCSResummableUploadWrapper/src/main/java/com/flutteroid/gcsresummableuploadwrapper/internal/upload/UploadManager.kt:384-386 | Stores the token, blank or not (the check comes at build time). |
| UploadManagers.Builder.SetBucketName | GCSResummableUploadWrapper/src/main/java/com/flutteroid/gcsresummableuploadwrapper/internal/upload/UploadManager.kt:388-390 | Stores the bucket name, blank or not. |
| UploadManagers.Builder.SetCallback | GCSResummableUploadWrapper/src/main/java/com/flutteroid/gcsresummableuploadwrapper/internal/upload/UploadManager.kt:399-401 | Records that a callback is set. |
| UploadManagers.Builder.EnableLogging | GCSResummableUploadWrapper/src/main/java/com/flutteroid/gcsresummableuploadwrapper/internal/upload/UploadManager.kt:403-405 | Stores the logging flag. |
| UploadManagers.Builder.SetChunkSize | GCSResummableUploadWrapper/src/main/java/com/flutteroid/gcsresummableuploadwrapper/internal/upload/UploadManager.kt:392-397 | Accepts exactly the sizes of at least 15 MiB and stores them; a smaller size fails with the 15 MB message and keeps the previous size. |
| UploadManagers.Builder.Check | GCSResummableUploadWrapper/src/main/java/com/flutteroid/gcsresummableuploadwrapper/internal/upload/UploadManager.kt:407-414 | `build` succeeds exactly when there is a file, a non-blank token, a non-blank bucket name and a callback. Otherwise it fails on the first of these that is missing, in that order. On success the configuration carries the given values and a chunk size of at least 15 MiB. |
| UploadManagers.Builder.Build | GCSResummableUploadWrapper/src/main/java/com/flutteroid/gcsresummableuploadwrapper/internal/upload/UploadManager.kt:407-430 | Fails with the first failed check's message, or returns a fresh `Idle` manager with a fresh record, no call and no listener, carrying the checked file, token and bucket, the chunk size and the logging flag. |

## Left out

- Concurrency: `@Synchronized`, `AtomicReference`, `@Volatile` and the callback threads are not modelled. Events are sequential method calls, and a chunk response belongs to the latest chunk request (its captured `start`/`end` are the fields `chunkStart`/`chunkEnd`).
- Retrofit and OkHttp are reduced to the `requests` log. Request bodies, `enqueue` and the actual cancellation are not modelled; `cancel` is logged as `CancelUpload`, and a cancelled call's failure arrives as `OnChunkFailure`.
- File I/O and `StreamingFileRequestBody` are not modelled. A file is its name and length, and the count of bytes written is an input to `OnChunkProgress`.
- `System.currentTimeMillis` is the parameter `now`.
- `GcsSessionCreator` is modelled only through the request it makes and the result it hands back (`OnSessionCreated`) (GcsSessionCreator.kt:20-45).
- `NetworkHandler` is reduced to the `connected` flag, the `listening` flag and the two events. The flag is set before the listener runs. The listener's "not connected" fallbacks inside `onAvailable` therefore cannot run and are not modelled.
- `BeginUploadingFails`: the three callers of `beginUploading` (planning, a chunk's 308 and a probe's 308) are modelled with the call that sends. A throw inside one of them is `BeginUploadingFails` in place of `BeginUploading` after the caller's own updates; the model has no single event for that combination.
- `startUpload`'s own `catch` block and `uploadSingleChunk`'s `catch` block are not modelled separately. The latter reports as `OnSingleFailure` does.
- `TotalChunks`: the `Double` division and `ceil` are replaced by integer ceiling division, and the saturating `toInt` is kept. Rounding of doubles for file sizes beyond 2^53 bytes is not modelled.
- `OnChunkProgress`: an empty file makes the source's division throw inside the request body. The model then reports nothing.
- `Logger`, `enableLogging`, the Android `Context` and the callback object itself are not modelled. The builder only records whether a callback was set.
- ToLongOrNull: accepts only the digits '0' to '9'. The JVM's `toLongOrNull` also accepts the other Unicode decimal digits, through `Character.digit`; a `Range` reply from the service is ASCII.
- `CancelReason.kt` is not part of this model. Its three values are the ones the manager uses.

## Findings

| source | as written | input that shows it | evidently intended | confidence | as-written member | corrected member |
|---|---|---|---|---|---|---|
| GCSResummableUploadWrapper/src/main/java/com/flutteroid/gcsresummableuploadwrapper/internal/upload/UploadManager.kt:150-153 | the chunk end multiplies two `Int`s and widens afterwards, so the last chunk's end wraps whenever chunkSize * ceil(fileSize / chunkSize) > 2^31-1 (with 30 MiB chunks, for every file over 2,139,095,040 bytes) | chunk size 30 MiB, `chunkOffset` 68, a 3 GiB file: the end is -2124414976 | multiply in `Long`: the end is 69 * 30 MiB | not executed | ChunkPlan.ChunkEndAsWritten, ChunkPlan.ChunkEndOverflowExample, ChunkPlan.LastChunkEndWraps | ChunkPlan.ChunkEnd, ChunkPlan.WindowsTileFile, ChunkPlan.NoWrapWithinPlan |
| GCSResummableUploadWrapper/src/main/java/com/flutteroid/gcsresummableuploadwrapper/internal/upload/UploadManager.kt:245-247 | `abort` compares the `AtomicReference` that holds the state with the state objects; that is identity and never holds | any state, for example `Uploading`: `abort()` changes nothing | compare `_currentState.get()` | not executed | UploadManagers.UploadManager.AbortAsWritten | UploadManagers.UploadManager.Abort |

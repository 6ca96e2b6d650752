/** The resumable-upload orchestration. An `UploadManager` creates a
    resumable session, plans the chunks, sends them one at a time, reads the
    storage service's 308 "Resume Incomplete" and 2xx answers, re-synchronises
    its cursor with a status probe, and reacts to pause, resume, abort and
    connectivity changes. Every asynchronous callback of the source is one
    method here; what each method asks of the HTTP client is appended to
    `requests`, and what it reports to the caller is appended to `callbacks`. */
module UploadManagers {
  import opened Wrappers
  import opened Kotlin
  import opened ChunkPlan
  import opened Wire
  import opened UploadStates
  import opened ChunkSessions

  /** The transient failure reported when a request fails while offline. */
  const WaitingForNetwork: string := "Network Lost, Waiting For Network To Available"

  /** What the manager asks of the HTTP client. */
  datatype Transport =
    | CreateSession(bucket: string, authorization: string, objectName: string)
    | ChunkPut(uri: Option<string>, contentLength: int, contentRange: string, start: int, end: int)
    | StatusProbe(uri: Option<string>, contentLength: int, contentRange: string)
    | SinglePut(uri: Option<string>, contentLength: int)
    | CancelUpload

  /** What the manager reports through `UploadStateCallback`. */
  datatype Callback = OnProgress(percent: int) | OnSuccess | OnFailure(message: string)

  /** The file to upload, reduced to what the manager reads of it. */
  datatype FileRef = FileRef(name: string, length: nat)

  /** What `Builder.build` hands to the manager. */
  datatype Config = Config(file: FileRef, accessToken: string, bucketName: string,
                           chunkSize: int, enableLogging: bool)

  /** `beginUploading` sends nothing while paused, aborted or offline. */
  predicate SendsChunks(s: UploadState) { !(s.Paused? || s.Aborted? || s.Offline?) }

  /** The states from which `abort` is meant to act. */
  predicate AbortApplies(s: UploadState) { s.Uploading? || s.Paused? || s.Offline? }

  /** What `==` between the `AtomicReference` that holds the state and a state
      object evaluates to: `AtomicReference` does not override `equals`, so
      this is identity, and the holder is never one of the states. */
  predicate HolderEquals(s: UploadState) { false }

  class UploadManager {
    const file: FileRef
    const accessToken: string
    const bucketName: string
    const chunkSize: int
    const enableLogging: bool

    var session: ChunkSession
    var state: UploadState
    var lastNonOfflineState: UploadState
    var lastCancelReason: CancelReason
    /** `uploadCall != null` */
    var hasUploadCall: bool
    /** the manager's listener is registered with the network handler */
    var listening: bool
    /** `NetworkHandler.isConnectedToInternet` */
    var connected: bool
    /** `start` and `end` as captured by the callbacks of the latest chunk request */
    var chunkStart: int
    var chunkEnd: int
    /** `chunkOffset` when the latest chunk request was made */
    ghost var chunkIndex: int
    ghost var requests: seq<Transport>
    ghost var callbacks: seq<Callback>

    ghost predicate Valid()
      reads this, session
    {
      && lastNonOfflineState != Offline
      && (state != Offline ==> lastNonOfflineState == state)
      && !state.Completed? && !state.Failed?
      && IsInt(session.chunkOffset) && session.chunkOffset == session.successiveChunkCount
      && 0 <= session.fileSize
      && MinChunkSize <= session.chunkSize <= IntMax
      && MinChunkSize <= chunkSize <= IntMax
    }

    /** The chunk PUT of the window [start, end), as `beginUploading` builds it. */
    ghost function ChunkRequest(start: int, end: int): Transport
      reads this, session
    {
      ChunkPut(session.sessionURI, session.chunkSize, ChunkContentRange(start, end, file.length), start, end)
    }

    /** The status probe, as `checkForUploadStatus` builds it. */
    ghost function Probe(): Transport
      reads this, session
    {
      StatusProbe(session.sessionURI, 0, ProbeContentRange(file.length))
    }

    /** The latest request is the chunk PUT from `start` to the end of the
        current chunk, and its callbacks captured that window. */
    ghost predicate SentChunkFrom(start: int, before: seq<Transport>)
      reads this, session
    {
      && session.nextChunkRangeStart == start
      && chunkStart == start
      && chunkEnd == ChunkEndAsWritten(session.chunkSize, session.chunkOffset, session.fileSize)
      && chunkIndex == session.chunkOffset
      && hasUploadCall
      && requests == before + [ChunkRequest(start, chunkEnd)]
    }

    /** Only 308s since planning, and no chunk end wrapped: chunk k =
        `chunkOffset` is in flight with window k of the plan, and the cursor
        stands at its start. */
    ghost predicate OnSchedule()
      reads this, session
      requires Valid()
    {
      && 0 <= chunkIndex == session.chunkOffset
      && session.nextChunkRangeStart == chunkStart
      && (chunkStart, chunkEnd) == Window(session.chunkSize, session.fileSize, chunkIndex)
    }

    /** The private constructor that `Builder.build` calls. */
    constructor (config: Config, connectedNow: bool)
      requires MinChunkSize <= config.chunkSize <= IntMax
      ensures Valid() && fresh(session) && session.IsFresh()
      ensures file == config.file && accessToken == config.accessToken
      ensures bucketName == config.bucketName && chunkSize == config.chunkSize
      ensures enableLogging == config.enableLogging
      ensures state == Idle && lastNonOfflineState == Idle && lastCancelReason == NoReason
      ensures !hasUploadCall && !listening && connected == connectedNow
      ensures requests == [] && callbacks == []
    {
      file := config.file;
      accessToken := config.accessToken;
      bucketName := config.bucketName;
      chunkSize := config.chunkSize;
      enableLogging := config.enableLogging;
      session := new ChunkSession();
      state := Idle;
      lastNonOfflineState := Idle;
      lastCancelReason := NoReason;
      hasUploadCall := false;
      listening := false;
      connected := connectedNow;
      chunkStart, chunkEnd, chunkIndex := 0, 0, 0;
      requests, callbacks := [], [];
    }

    /** `isUploading()` */
    function IsUploading(): (r: bool)
      reads this
      ensures r <==> state == Uploading
    {
      state == Uploading
    }

    /** `setState`: a guarded transition that remembers the last state that
        was not `Offline`. */
    method SetState(newState: UploadState)
      modifies this`state, this`lastNonOfflineState
      ensures old(state) == newState ==> state == old(state) && lastNonOfflineState == old(lastNonOfflineState)
      ensures old(state) != newState ==> state == newState
      ensures old(state) != newState ==>
                lastNonOfflineState == if newState.Offline? then old(lastNonOfflineState) else newState
    {
      var oldState := state;
      if oldState == newState {
        return;
      }
      state := newState;
      if !newState.Offline? {
        lastNonOfflineState := newState;
      }
    }

    /** `startUpload`: register the connectivity listener and ask for a session. */
    method StartUpload()
      requires Valid()
      modifies this`listening, this`requests
      ensures Valid() && listening
      ensures requests == old(requests) + [CreateSession(bucketName, "Bearer " + accessToken, file.name)]
    {
      listening := true;
      requests := requests + [CreateSession(bucketName, "Bearer " + accessToken, file.name)];
    }

    /** The session negotiation's result: `(true, uri-or-null)` or `(false, message-or-null)`. */
    method OnSessionCreated(success: bool, uriOrMessage: Option<string>, now: int)
      requires Valid()
      modifies session`sessionURI, session`startTime, session`fileSize, session`chunkSize,
               session`totalChunks, session`isOnlyChunk, session`nextChunkRangeStart,
               this`state, this`lastNonOfflineState, this`requests, this`hasUploadCall,
               this`chunkStart, this`chunkEnd, this`chunkIndex, this`callbacks
      ensures Valid()
      ensures !success ==> callbacks == old(callbacks) + [OnFailure(OrEmpty(uriOrMessage))]
      ensures !success ==> unchanged(session) && state == old(state) && requests == old(requests)
      ensures !success ==> unchanged(this`hasUploadCall, this`chunkStart, this`chunkEnd, this`chunkIndex, this`lastNonOfflineState)
      ensures success ==> session.sessionURI == uriOrMessage && callbacks == old(callbacks)
      ensures success ==> state == Uploading && lastNonOfflineState == Uploading
      ensures session.objectName == old(session.objectName) && session.chunkOffset == old(session.chunkOffset)
      ensures session.successiveChunkCount == old(session.successiveChunkCount)
      ensures success && old(state) != Idle ==>
                && requests == old(requests)
                && session.fileSize == old(session.fileSize) && session.chunkSize == old(session.chunkSize)
                && session.totalChunks == old(session.totalChunks) && session.isOnlyChunk == old(session.isOnlyChunk)
                && session.startTime == old(session.startTime)
                && session.nextChunkRangeStart == old(session.nextChunkRangeStart)
                && unchanged(this`hasUploadCall, this`chunkStart, this`chunkEnd, this`chunkIndex)
      ensures success && old(state) == Idle ==> Planned(now)
      ensures success && old(state) == Idle && session.totalChunks == 1 ==>
                && hasUploadCall && requests == old(requests) + [SinglePut(uriOrMessage, file.length)]
                && session.nextChunkRangeStart == old(session.nextChunkRangeStart)
                && unchanged(this`chunkStart, this`chunkEnd, this`chunkIndex)
      ensures success && old(state) == Idle && session.totalChunks != 1 ==>
                session.isOnlyChunk == old(session.isOnlyChunk) &&
                SentChunkFrom(old(session.nextChunkRangeStart), old(requests))
      ensures (success && old(state) == Idle && session.totalChunks != 1 &&
               old(session.nextChunkRangeStart) == 0 && old(session.chunkOffset) == 0) ==> OnSchedule()
    {
      if success {
        session.sessionURI := uriOrMessage;
        PrepareForUploading(now);
      } else {
        callbacks := callbacks + [OnFailure(OrEmpty(uriOrMessage))];
      }
    }

    /** The record after planning: the file's size, the configured chunk size,
        their ceiling quotient, and the start time. */
    ghost predicate Planned(now: int)
      reads this`session, session`fileSize, session`chunkSize, session`totalChunks
      reads session`startTime, session`isOnlyChunk
      requires 0 < chunkSize
    {
      && session.fileSize == file.length
      && session.chunkSize == chunkSize
      && session.totalChunks == TotalChunks(file.length, chunkSize)
      && session.startTime == Some(now)
      && (session.totalChunks == 1 ==> session.isOnlyChunk)
    }

    /** `prepareForUploading`: plan the chunks once, from `Idle` only. */
    method PrepareForUploading(now: int)
      requires Valid()
      modifies session`startTime, session`fileSize, session`chunkSize, session`totalChunks,
               session`isOnlyChunk, session`nextChunkRangeStart, this`state, this`lastNonOfflineState, this`requests, this`hasUploadCall,
               this`chunkStart, this`chunkEnd, this`chunkIndex
      ensures Valid() && session == old(session)
      ensures state == Uploading && lastNonOfflineState == Uploading
      ensures old(state) != Idle ==> unchanged(session) && requests == old(requests)
      ensures old(state) != Idle ==> unchanged(this`hasUploadCall, this`chunkStart, this`chunkEnd, this`chunkIndex)
      ensures session.sessionURI == old(session.sessionURI) && session.objectName == old(session.objectName)
      ensures session.chunkOffset == old(session.chunkOffset)
      ensures session.successiveChunkCount == old(session.successiveChunkCount)
      ensures old(state) == Idle ==> Planned(now)
      ensures old(state) == Idle && session.totalChunks == 1 ==>
                hasUploadCall && requests == old(requests) + [SinglePut(session.sessionURI, file.length)]
      ensures old(state) == Idle && session.totalChunks == 1 ==>
                session.nextChunkRangeStart == old(session.nextChunkRangeStart) &&
                unchanged(this`chunkStart, this`chunkEnd, this`chunkIndex)
      ensures old(state) == Idle && session.totalChunks != 1 ==>
                session.isOnlyChunk == old(session.isOnlyChunk) &&
                SentChunkFrom(old(session.nextChunkRangeStart), old(requests))
      ensures (old(state) == Idle && session.totalChunks != 1 &&
               old(session.nextChunkRangeStart) == 0 && old(session.chunkOffset) == 0) ==> OnSchedule()
    {
      if state != Idle {
        SetState(Uploading);
        return;
      }
      PlanChunks(now);
      SetState(Uploading);
      if session.totalChunks == 1 {
        session.isOnlyChunk := true;
        UploadSingleChunk();
      } else {
        BeginUploading(None);
      }
    }

    /** The planning steps of `prepareForUploading`: record the start time, the
        file's size and the chunk size, and count the chunks. */
    method PlanChunks(now: int)
      requires Valid()
      modifies session`startTime, session`fileSize, session`chunkSize, session`totalChunks
      ensures Valid()
      ensures session.startTime == Some(now) && session.fileSize == file.length
      ensures session.chunkSize == chunkSize && session.totalChunks == TotalChunks(file.length, chunkSize)
    {
      session.startTime := Some(now);
      session.fileSize := file.length;
      session.chunkSize := chunkSize;
      session.totalChunks := TotalChunks(session.fileSize, session.chunkSize);
    }

    /** `uploadSingleChunk`: the whole file in one PUT. */
    method UploadSingleChunk()
      modifies this`requests, this`hasUploadCall
      ensures hasUploadCall
      ensures requests == old(requests) + [SinglePut(session.sessionURI, session.fileSize)]
    {
      requests := requests + [SinglePut(session.sessionURI, session.fileSize)];
      hasUploadCall := true;
    }

    /** The single PUT's response. */
    method OnSingleResponse(code: int, message: string)
      modifies this`callbacks
      ensures IsSuccessful(code) ==> callbacks == old(callbacks) + [OnSuccess]
      ensures !IsSuccessful(code) ==> callbacks == old(callbacks) + [OnFailure(message)]
    {
      if IsSuccessful(code) {
        callbacks := callbacks + [OnSuccess];
      } else {
        callbacks := callbacks + [OnFailure(message)];
      }
    }

    /** The single PUT's transport failure. */
    method OnSingleFailure(message: Option<string>)
      modifies this`callbacks
      ensures callbacks == old(callbacks) + [OnFailure(OrEmpty(message))]
    {
      callbacks := callbacks + [OnFailure(OrEmpty(message))];
    }

    /** `beginUploading(uploadedBytes)`: send the current chunk, from the
        given cursor if there is one, unless paused, aborted or offline. */
    method BeginUploading(uploadedBytes: Option<int>)
      requires Valid()
      modifies session`nextChunkRangeStart, this`chunkStart, this`chunkEnd, this`chunkIndex,
               this`hasUploadCall, this`requests
      ensures Valid()
      ensures !SendsChunks(state) ==>
                unchanged(session) && unchanged(this`chunkStart, this`chunkEnd, this`chunkIndex, this`hasUploadCall, this`requests)
      ensures SendsChunks(state) ==>
                SentChunkFrom(uploadedBytes.GetOr(old(session.nextChunkRangeStart)), old(requests))
      ensures (&& SendsChunks(state) && 0 <= session.chunkOffset && session.chunkSize * (session.chunkOffset + 1) <= IntMax
               && uploadedBytes.GetOr(old(session.nextChunkRangeStart))
                  == Window(session.chunkSize, session.fileSize, session.chunkOffset).0)
              ==> OnSchedule()
    {
      if state.Paused? || state.Aborted? || state.Offline? {
        return;
      }
      var fileLength := session.fileSize;
      if uploadedBytes.Some? {
        session.nextChunkRangeStart := uploadedBytes.value;
      }
      var start := session.nextChunkRangeStart;
      var end := ChunkEndAsWritten(session.chunkSize, session.chunkOffset, fileLength);
      assert end == ChunkEndAsWritten(session.chunkSize, session.chunkOffset, session.fileSize);
      var contentRange := ChunkContentRange(start, end, file.length);
      assert ChunkRequest(start, end) == ChunkPut(session.sessionURI, session.chunkSize, contentRange, start, end);
      requests := requests + [ChunkPut(session.sessionURI, session.chunkSize, contentRange, start, end)];
      hasUploadCall := true;
      chunkStart, chunkEnd, chunkIndex := start, end, session.chunkOffset;
      if 0 <= session.chunkOffset && session.chunkSize * (session.chunkOffset + 1) <= IntMax {
        ChunkEndFits(session.chunkSize, session.chunkOffset, session.fileSize);
      }
    }

    /** Bytes of the latest chunk have been written: report the percentage. */
    method OnChunkProgress(written: int)
      requires Valid() && 0 <= written
      modifies this`callbacks
      ensures session.fileSize == 0 ==> callbacks == old(callbacks)
      ensures session.fileSize > 0 ==>
                callbacks == old(callbacks) + [OnProgress(Progress(chunkStart, written, session.fileSize).value)]
      ensures 0 <= chunkStart && chunkStart + written <= session.fileSize && 0 < session.fileSize
              && session.fileSize * 100 <= LongMax ==>
                0 <= callbacks[|callbacks| - 1].percent <= 100
    {
      var fileSize := session.fileSize;
      if fileSize == 0 {
        return;  // the division throws inside the request body
      }
      var p := Progress(chunkStart, written, fileSize).value;
      callbacks := callbacks + [OnProgress(p)];
      if 0 <= chunkStart && chunkStart + written <= fileSize && fileSize * 100 <= LongMax {
        ProgressBounds(chunkStart, written, fileSize);
      }
    }

    /** The latest chunk PUT's response. */
    method OnChunkResponse(code: int)
      requires Valid()
      modifies session`chunkOffset, session`successiveChunkCount, session`nextChunkRangeStart,
               this`chunkStart, this`chunkEnd, this`chunkIndex, this`hasUploadCall,
               this`requests, this`callbacks
      ensures Valid()
      ensures code == ResumeIncomplete ==>
                && session.chunkOffset == WrapInt(old(session.chunkOffset) + 1)
                && session.successiveChunkCount == WrapInt(old(session.successiveChunkCount) + 1)
                && session.nextChunkRangeStart == old(chunkEnd)
                && callbacks == old(callbacks)
      ensures code == ResumeIncomplete && SendsChunks(state) ==> SentChunkFrom(old(chunkEnd), old(requests))
      ensures code == ResumeIncomplete && !SendsChunks(state) ==>
                unchanged(this`chunkStart, this`chunkEnd, this`chunkIndex, this`hasUploadCall, this`requests)
      ensures code == ResumeIncomplete && SendsChunks(state) && old(OnSchedule()) &&
              session.chunkSize * (old(session.chunkOffset) + 2) <= IntMax ==>
                OnSchedule() && chunkIndex == old(chunkIndex) + 1
      ensures code != ResumeIncomplete ==>
                unchanged(session) && unchanged(this`chunkStart, this`chunkEnd, this`chunkIndex, this`hasUploadCall)
      ensures code != ResumeIncomplete && IsSuccessful(code) ==>
                requests == old(requests) && callbacks == old(callbacks) + [OnSuccess]
      ensures code != ResumeIncomplete && !IsSuccessful(code) && connected ==>
                requests == old(requests) + [Probe()] && callbacks == old(callbacks)
      ensures code != ResumeIncomplete && !IsSuccessful(code) && !connected ==>
                requests == old(requests) && callbacks == old(callbacks) + [OnFailure(WaitingForNetwork)]
    {
      if code == ResumeIncomplete {
        session.chunkOffset := WrapInt(session.chunkOffset + 1);
        session.successiveChunkCount := WrapInt(session.successiveChunkCount + 1);
        session.nextChunkRangeStart := chunkEnd;
        if 0 <= chunkIndex {
          NextWindowStart(session.chunkSize, session.fileSize, chunkIndex);
        }
        if 0 <= old(session.chunkOffset) && session.chunkSize * (old(session.chunkOffset) + 2) <= IntMax {
          CounterFits(session.chunkSize, old(session.chunkOffset));
        }
        BeginUploading(None);
      } else if IsSuccessful(code) {
        callbacks := callbacks + [OnSuccess];
      } else if connected {
        CheckForUploadStatus();
      } else {
        callbacks := callbacks + [OnFailure(WaitingForNetwork)];
      }
    }

    /** The latest chunk PUT's transport failure: swallowed once after a
        deliberate cancellation, reported otherwise. */
    method OnChunkFailure(message: Option<string>)
      modifies this`lastCancelReason, this`callbacks
      ensures old(lastCancelReason).IsExpected() ==> lastCancelReason == NoReason && callbacks == old(callbacks)
      ensures !old(lastCancelReason).IsExpected() ==>
                lastCancelReason == old(lastCancelReason) && callbacks == old(callbacks) + [OnFailure(OrEmpty(message))]
    {
      match lastCancelReason
      case UserPaused | InternetLost =>
        lastCancelReason := NoReason;
      case NoReason =>
        callbacks := callbacks + [OnFailure(OrEmpty(message))];
    }

    /** `beginUploading(uploadedBytes)` when building or enqueuing the chunk
        request throws (a null session URI, say): past the state guard the
        cursor is already moved, no PUT goes out and no window is captured, and
        the catch block decides what follows. */
    method BeginUploadingFails(uploadedBytes: Option<int>)
      requires Valid()
      modifies session`nextChunkRangeStart, this`lastCancelReason, this`callbacks, this`requests
      ensures Valid()
      ensures !SendsChunks(state) ==>
                unchanged(session) && unchanged(this`lastCancelReason, this`callbacks, this`requests)
      ensures SendsChunks(state) ==> session.nextChunkRangeStart == uploadedBytes.GetOr(old(session.nextChunkRangeStart))
      ensures SendsChunks(state) && old(lastCancelReason).IsExpected() ==>
                lastCancelReason == NoReason && callbacks == old(callbacks) && requests == old(requests)
      ensures SendsChunks(state) && !old(lastCancelReason).IsExpected() && connected ==>
                lastCancelReason == old(lastCancelReason) && requests == old(requests) + [Probe()] && callbacks == old(callbacks)
      ensures SendsChunks(state) && !old(lastCancelReason).IsExpected() && !connected ==>
                && lastCancelReason == old(lastCancelReason) && requests == old(requests)
                && callbacks == old(callbacks) + [OnFailure(WaitingForNetwork)]
    {
      if state.Paused? || state.Aborted? || state.Offline? {
        return;
      }
      if uploadedBytes.Some? {
        session.nextChunkRangeStart := uploadedBytes.value;
      }
      OnChunkException();
    }

    /** The catch block of `beginUploading`: the exception is swallowed once
        after a deliberate cancellation, otherwise probe or wait. */
    method OnChunkException()
      modifies this`lastCancelReason, this`callbacks, this`requests
      ensures old(lastCancelReason).IsExpected() ==>
                lastCancelReason == NoReason && callbacks == old(callbacks) && requests == old(requests)
      ensures !old(lastCancelReason).IsExpected() ==> lastCancelReason == old(lastCancelReason)
      ensures !old(lastCancelReason).IsExpected() && connected ==>
                requests == old(requests) + [Probe()] && callbacks == old(callbacks)
      ensures !old(lastCancelReason).IsExpected() && !connected ==>
                requests == old(requests) && callbacks == old(callbacks) + [OnFailure(WaitingForNetwork)]
    {
      match lastCancelReason
      case UserPaused | InternetLost =>
        lastCancelReason := NoReason;
      case NoReason =>
        if connected {
          CheckForUploadStatus();
        } else {
          callbacks := callbacks + [OnFailure(WaitingForNetwork)];
        }
    }

    /** `checkForUploadStatus`: ask which bytes the server holds. */
    method CheckForUploadStatus()
      modifies this`requests
      ensures requests == old(requests) + [Probe()]
    {
      requests := requests + [StatusProbe(session.sessionURI, 0, ProbeContentRange(file.length))];
    }

    /** The status probe's response. */
    method OnProbeResponse(code: int, range: Option<string>)
      requires Valid()
      modifies session`nextChunkRangeStart, this`chunkStart, this`chunkEnd, this`chunkIndex,
               this`hasUploadCall, this`requests, this`callbacks
      ensures Valid()
      ensures code == ResumeIncomplete ==> callbacks == old(callbacks)
      ensures code == ResumeIncomplete && SendsChunks(state) ==> SentChunkFrom(ResumeCursor(range), old(requests))
      ensures code == ResumeIncomplete && !SendsChunks(state) ==>
                unchanged(session) && unchanged(this`chunkStart, this`chunkEnd, this`chunkIndex, this`hasUploadCall, this`requests)
      ensures code != ResumeIncomplete ==>
                unchanged(session) && unchanged(this`chunkStart, this`chunkEnd, this`chunkIndex, this`hasUploadCall)
      ensures code != ResumeIncomplete && IsSuccessful(code) ==>
                requests == old(requests) && callbacks == old(callbacks) + [OnSuccess]
      ensures code != ResumeIncomplete && !IsSuccessful(code) && connected ==>
                requests == old(requests) + [Probe()] && callbacks == old(callbacks)
      ensures code != ResumeIncomplete && !IsSuccessful(code) && !connected ==>
                requests == old(requests) && callbacks == old(callbacks) + [OnFailure(WaitingForNetwork)]
    {
      if code == ResumeIncomplete {
        var uploadedBytes := ResumeCursor(range);
        BeginUploading(Some(uploadedBytes));
      } else if IsSuccessful(code) {
        callbacks := callbacks + [OnSuccess];
      } else if connected {
        CheckForUploadStatus();
      } else {
        callbacks := callbacks + [OnFailure(WaitingForNetwork)];
      }
    }

    /** The status probe's transport failure is always reported. */
    method OnProbeFailure(message: Option<string>)
      modifies this`callbacks
      ensures callbacks == old(callbacks) + [OnFailure(OrEmpty(message))]
    {
      callbacks := callbacks + [OnFailure(OrEmpty(message))];
    }

    /** The network handler's `onAvailable`: it sets the connectivity flag,
        then calls the listener, which acts only from `Offline`. */
    method OnNetworkAvailable()
      requires Valid()
      modifies this`connected, this`state, this`lastNonOfflineState, this`requests
      ensures Valid() && connected
      ensures !(old(listening) && old(state) == Offline) ==>
                state == old(state) && lastNonOfflineState == old(lastNonOfflineState) && requests == old(requests)
      ensures old(listening) && old(state) == Offline && old(lastNonOfflineState) == Paused ==>
                state == Paused && requests == old(requests)
      ensures old(listening) && old(state) == Offline && old(lastNonOfflineState) != Paused ==>
                state == Uploading && requests == old(requests) + [Probe()]
    {
      connected := true;
      if !listening {
        return;
      }
      var current := state;
      if current.Paused? || current.Aborted? {
        return;
      }
      if !current.Offline? {
        return;
      }
      // The source's `Uploading` branch and its fallback branch do the same:
      // probe when `isConnectedToInternet` holds, report WaitingForNetwork
      // otherwise; the handler has just set the flag, so it holds.
      if lastNonOfflineState == Paused {
        SetState(Paused);
      } else {
        SetState(Uploading);
        CheckForUploadStatus();
      }
    }

    /** The network handler's `onLost`: it clears the connectivity flag, then
        the listener takes `Uploading` or `Paused` to `Offline`. */
    method OnNetworkLost()
      requires Valid()
      modifies this`connected, this`state, this`lastNonOfflineState, this`lastCancelReason
      ensures Valid() && !connected
      ensures old(listening) && (old(state) == Uploading || old(state) == Paused) ==>
                state == Offline && lastNonOfflineState == old(state) && lastCancelReason == InternetLost
      ensures !(old(listening) && (old(state) == Uploading || old(state) == Paused)) ==>
                state == old(state) && lastNonOfflineState == old(lastNonOfflineState) &&
                lastCancelReason == old(lastCancelReason)
    {
      connected := false;
      if listening && (state == Uploading || state == Paused) {
        SetState(Offline);
        lastCancelReason := InternetLost;
      }
    }

    /** `pause`: from `Uploading` only. */
    method Pause()
      requires Valid()
      modifies this`state, this`lastNonOfflineState, this`lastCancelReason, this`requests
      ensures Valid()
      ensures old(state) == Uploading ==>
                state == Paused && lastNonOfflineState == Paused && lastCancelReason == UserPaused &&
                requests == old(requests) + (if hasUploadCall then [CancelUpload] else [])
      ensures old(state) != Uploading ==>
                state == old(state) && lastNonOfflineState == old(lastNonOfflineState) &&
                lastCancelReason == old(lastCancelReason) && requests == old(requests)
    {
      if state == Uploading {
        SetState(Paused);
        lastCancelReason := UserPaused;
        if hasUploadCall {
          requests := requests + [CancelUpload];
        }
      }
    }

    /** `resume`: from `Paused` while chunks remain, then probe. */
    method Resume()
      requires Valid()
      modifies this`state, this`lastNonOfflineState, this`requests
      ensures Valid()
      ensures old(state) == Paused && session.successiveChunkCount != session.totalChunks ==>
                state == Uploading && lastNonOfflineState == Uploading && requests == old(requests) + [Probe()]
      ensures !(old(state) == Paused && session.successiveChunkCount != session.totalChunks) ==>
                state == old(state) && lastNonOfflineState == old(lastNonOfflineState) && requests == old(requests)
    {
      var notComplete := session.successiveChunkCount != session.totalChunks;
      if state == Paused && notComplete {
        SetState(Uploading);
        CheckForUploadStatus();
      }
    }

    /** `abort` as written: each of its three comparisons tests the holder
        of the state against a state object, so none holds and nothing is
        cancelled, set or unregistered. */
    method AbortAsWritten()
      requires Valid()
      modifies this`session, this`state, this`lastNonOfflineState, this`requests, this`listening
      ensures Valid()
      ensures unchanged(this)
    {
      var guard := HolderEquals(Uploading) || HolderEquals(Paused) || HolderEquals(Offline);
      assert !guard;
    }

    /** `abort` with the guard reading the current state: cancel, set
        `Aborted`, then `unregister`, which leaves the manager `Idle`. */
    method Abort()
      requires Valid()
      modifies this`session, this`state, this`lastNonOfflineState, this`requests, this`listening
      ensures Valid()
      ensures AbortApplies(old(state)) ==>
                && state == Idle && lastNonOfflineState == Idle
                && fresh(session) && session.IsFresh() && !listening
                && requests == old(requests) + (if hasUploadCall then [CancelUpload, CancelUpload] else [])
      ensures !AbortApplies(old(state)) ==> unchanged(this)
    {
      if state == Uploading || state == Paused || state == Offline {
        if hasUploadCall {
          requests := requests + [CancelUpload];
        }
        SetState(Aborted);
        Unregister();
      }
    }

    /** `unregister`: cancel, discard the record, drop the listener, `Idle`. */
    method Unregister()
      requires Valid()
      modifies this`session, this`state, this`lastNonOfflineState, this`requests, this`listening
      ensures Valid()
      ensures state == Idle && lastNonOfflineState == Idle
      ensures fresh(session) && session.IsFresh() && !listening
      ensures requests == old(requests) + (if hasUploadCall then [CancelUpload] else [])
    {
      if hasUploadCall {
        requests := requests + [CancelUpload];
      }
      session := new ChunkSession();
      listening := false;
      SetState(Idle);
    }
  }

  // ------------------------------------------------------------ Scenarios

  /** The connection drops during an upload and comes back: the manager goes
      `Offline`, returns to `Uploading` and probes for the server's cursor. */
  method ConnectionDropWhileUploading(m: UploadManager)
    requires m.Valid() && m.listening && m.state == Uploading
    modifies m
    ensures m.Valid() && m.connected && m.state == Uploading && m.lastCancelReason == InternetLost
    ensures m.session == old(m.session) && m.requests == old(m.requests) + [m.Probe()]
  {
    m.OnNetworkLost();
    assert m.state == Offline && m.lastNonOfflineState == Uploading;
    m.OnNetworkAvailable();
  }

  /** The connection drops while paused and comes back: the manager goes
      `Offline`, returns to `Paused` and sends nothing. */
  method ConnectionDropWhilePaused(m: UploadManager)
    requires m.Valid() && m.listening && m.state == Paused
    modifies m
    ensures m.Valid() && m.connected && m.state == Paused && m.lastCancelReason == InternetLost
    ensures m.requests == old(m.requests)
  {
    m.OnNetworkLost();
    assert m.state == Offline && m.lastNonOfflineState == Paused;
    m.OnNetworkAvailable();
  }

  /** Pause then resume with chunks remaining: the in-flight call is
      cancelled, the manager returns to `Uploading` and probes. */
  method PauseThenResume(m: UploadManager)
    requires m.Valid() && m.state == Uploading
    requires m.session.successiveChunkCount != m.session.totalChunks
    modifies m
    ensures m.Valid() && m.state == Uploading && m.lastCancelReason == UserPaused
    ensures m.requests == old(m.requests) + (if m.hasUploadCall then [CancelUpload] else []) + [m.Probe()]
  {
    m.Pause();
    m.Resume();
  }

  /** A probe whose `Range` reply names the last byte of the chunk in flight
      ("bytes=0-(e-1)", with e that chunk's end) resumes at e without moving
      the chunk offset, so the next PUT is the empty window [e, e), whose
      header "bytes e-(e-1)/F" is not a valid incl-range. */
  method ProbeAtChunkEnd(m: UploadManager)
    requires m.Valid() && m.state == Uploading && 1 <= m.chunkEnd
    requires m.chunkEnd == ChunkEndAsWritten(m.session.chunkSize, m.session.chunkOffset, m.session.fileSize)
    modifies m, m.session
    ensures m.Valid() && m.session == old(m.session)
    ensures m.chunkStart == m.chunkEnd == old(m.chunkEnd)
    ensures m.requests == old(m.requests) + [m.ChunkRequest(old(m.chunkEnd), old(m.chunkEnd))]
    ensures ParseContentRange(ChunkContentRange(old(m.chunkEnd), old(m.chunkEnd), m.file.length))
            == Some(Satisfied(old(m.chunkEnd), old(m.chunkEnd) - 1, m.file.length))
    ensures !Satisfied(old(m.chunkEnd), old(m.chunkEnd) - 1, m.file.length).Valid()
  {
    var e := m.chunkEnd;
    assert e <= IntMax;
    var range := Some(RangePrefix + NatToString(e - 1));
    ResumeCursorOfRange(e - 1);
    assert ResumeCursor(range) == e;
    m.OnProbeResponse(ResumeIncomplete, range);
    EmptyWindowContentRange(e, m.file.length);
  }

  /** The windows that the chunk PUTs of a request log carry, in order. */
  ghost function SentWindows(ts: seq<Transport>): seq<(int, int)>
  {
    if ts == [] then []
    else SentWindows(ts[..|ts| - 1]) + (if ts[|ts| - 1].ChunkPut? then [(ts[|ts| - 1].start, ts[|ts| - 1].end)] else [])
  }

  lemma SentWindowsAppend(r0: seq<Transport>, before: seq<Transport>, t: Transport)
    requires |r0| <= |before| && t.ChunkPut?
    ensures (before + [t])[|r0|..] == before[|r0|..] + [t]
    ensures SentWindows(before[|r0|..] + [t]) == SentWindows(before[|r0|..]) + [(t.start, t.end)]
  {
    assert (before[|r0|..] + [t])[..|before[|r0|..] + [t]| - 1] == before[|r0|..];
  }

  /** Appending the PUT of window k + 1 to a log whose windows since `r0`,
      behind `w0`, are the plan's windows 0 .. k extends them by window k + 1. */
  lemma WindowLogStep(r0: seq<Transport>, before: seq<Transport>, t: Transport, w0: (int, int),
                      C: nat, F: nat, k: nat)
    requires |r0| <= |before| && before[..|r0|] == r0
    requires [w0] + SentWindows(before[|r0|..]) == Windows(C, F, k + 1)
    requires t.ChunkPut? && (t.start, t.end) == Window(C, F, k + 1)
    ensures (before + [t])[..|r0|] == r0
    ensures [w0] + SentWindows((before + [t])[|r0|..]) == Windows(C, F, k + 2)
  {
    SentWindowsAppend(r0, before, t);
    assert (before + [t])[..|r0|] == before[..|r0|];
  }

  /** Below the wrap-around of chunk k + 1's end, the offset k + 1 itself
      fits in an `Int`. */
  lemma CounterFits(c: nat, k: nat)
    requires 1 <= c && c * (k + 2) <= IntMax
    ensures k + 2 <= IntMax
  {
    MulMonotone(1, c, k + 2);
  }

  /** The no-wrap bound for a run of n steps covers every earlier step. */
  lemma EarlierProductFits(c: nat, i: nat, n: nat)
    requires i < n && c * (n + 1) <= IntMax
    ensures c * (i + 2) <= IntMax
  {
    MulMonotone(i + 2, n + 1, c);
  }

  /** One 308 on schedule, below the wrap-around of the next chunk's end: the
      PUT it triggers carries the next window of the plan, and no callback fires. */
  method AcknowledgeStep(m: UploadManager)
    requires m.Valid() && m.OnSchedule() && m.state == Uploading
    requires m.session.chunkSize * (m.session.chunkOffset + 2) <= IntMax
    modifies m.session`chunkOffset, m.session`successiveChunkCount, m.session`nextChunkRangeStart,
             m`chunkStart, m`chunkEnd, m`chunkIndex, m`hasUploadCall, m`requests, m`callbacks
    ensures m.Valid() && m.OnSchedule() && m.state == Uploading
    ensures m.session.chunkOffset == old(m.session.chunkOffset) + 1 && m.chunkIndex == m.session.chunkOffset
    ensures m.requests == old(m.requests) + [m.ChunkRequest(m.chunkStart, m.chunkEnd)]
    ensures (m.chunkStart, m.chunkEnd) == Window(m.session.chunkSize, m.session.fileSize, m.chunkIndex)
    ensures m.callbacks == old(m.callbacks)
  {
    ghost var k := m.session.chunkOffset;
    CounterFits(m.session.chunkSize, k);
    assert WrapInt(k + 1) == k + 1;
    m.OnChunkResponse(ResumeIncomplete);
  }

  /** The same step, seen on the request log: the windows sent since `r0` was
      the log, behind the first window `w0`, stay the plan's first ones. */
  method AcknowledgeOnSchedule(m: UploadManager, ghost r0: seq<Transport>, ghost w0: (int, int))
    requires m.Valid() && m.OnSchedule() && m.state == Uploading
    requires m.session.chunkSize * (m.session.chunkOffset + 2) <= IntMax
    requires |r0| <= |m.requests| && m.requests[..|r0|] == r0
    requires [w0] + SentWindows(m.requests[|r0|..])
             == Windows(m.session.chunkSize, m.session.fileSize, m.session.chunkOffset + 1)
    modifies m.session`chunkOffset, m.session`successiveChunkCount, m.session`nextChunkRangeStart,
             m`chunkStart, m`chunkEnd, m`chunkIndex, m`hasUploadCall, m`requests, m`callbacks
    ensures m.Valid() && m.OnSchedule() && m.state == Uploading
    ensures m.session.chunkOffset == old(m.session.chunkOffset) + 1 && m.chunkIndex == m.session.chunkOffset
    ensures m.requests == old(m.requests) + [m.ChunkRequest(m.chunkStart, m.chunkEnd)]
    ensures m.callbacks == old(m.callbacks)
    ensures |r0| <= |m.requests| && m.requests[..|r0|] == r0
    ensures [w0] + SentWindows(m.requests[|r0|..])
            == Windows(m.session.chunkSize, m.session.fileSize, m.session.chunkOffset + 1)
  {
    ghost var before, C, F, k := m.requests, m.session.chunkSize, m.session.fileSize, m.session.chunkOffset;
    AcknowledgeStep(m);
    ghost var t := m.ChunkRequest(m.chunkStart, m.chunkEnd);
    WindowLogStep(r0, before, t, w0, C, F, k);
  }

  /** n answers of 308 from chunk 0 on schedule: the chunk in flight and the n
      PUTs they trigger carry windows 0 .. n of the plan, in order, so they
      cover [0, min((n + 1) * C, F)) once each; when n + 1 is the chunk count,
      they tile the file. */
  method AcknowledgedRun(m: UploadManager, n: nat)
    requires m.Valid() && m.OnSchedule() && m.state == Uploading && m.session.chunkOffset == 0
    requires m.session.chunkSize * (n + 1) <= IntMax
    modifies m.session`chunkOffset, m.session`successiveChunkCount, m.session`nextChunkRangeStart,
             m`chunkStart, m`chunkEnd, m`chunkIndex, m`hasUploadCall, m`requests, m`callbacks
    ensures m.Valid() && m.OnSchedule() && m.state == Uploading
    ensures m.session == old(m.session) && m.session.chunkOffset == n && m.chunkIndex == n
    ensures m.session.chunkSize == old(m.session.chunkSize) && m.session.fileSize == old(m.session.fileSize)
    ensures |m.requests| == |old(m.requests)| + n && m.requests[..|old(m.requests)|] == old(m.requests)
    ensures m.callbacks == old(m.callbacks)
    ensures [(old(m.chunkStart), old(m.chunkEnd))] + SentWindows(m.requests[|old(m.requests)|..])
            == Windows(m.session.chunkSize, m.session.fileSize, n + 1)
    ensures Covered([(old(m.chunkStart), old(m.chunkEnd))] + SentWindows(m.requests[|old(m.requests)|..]))
            == Span(0, Min((n + 1) * m.session.chunkSize, m.session.fileSize))
    ensures n + 1 == CeilDiv(m.session.fileSize, m.session.chunkSize) ==>
              Covered([(old(m.chunkStart), old(m.chunkEnd))] + SentWindows(m.requests[|old(m.requests)|..]))
              == Span(0, m.session.fileSize)
  {
    ghost var C, F := m.session.chunkSize, m.session.fileSize;
    ghost var r0 := m.requests;
    ghost var w0 := (m.chunkStart, m.chunkEnd);
    assert m.requests[|r0|..] == [];
    var i := 0;
    while i < n
      invariant 0 <= i <= n
      invariant m.Valid() && m.OnSchedule()
      invariant m.session.chunkOffset == i && m.chunkIndex == i
      invariant |m.requests| == |r0| + i && m.requests[..|r0|] == r0
      invariant m.callbacks == old(m.callbacks)
      invariant [w0] + SentWindows(m.requests[|r0|..]) == Windows(C, F, i + 1)
    {
      EarlierProductFits(C, i, n);
      AcknowledgeOnSchedule(m, r0, w0);
      i := i + 1;
    }
    WindowsCoverPrefix(C, F, n + 1);
    if 0 < C && n + 1 == CeilDiv(F, C) {
      WindowsTileFile(C, F);
    }
  }

  // ---------------------------------------------------------------- Builder

  const FileMissing: string := "File must be provided."
  const TokenBlank: string := "Access token must not be blank."
  const BucketBlank: string := "Bucket name must not be blank."
  const CallbackMissing: string := "UploadStateCallback must be provided."
  const ChunkSizeTooSmall: string := "Chunk size must be at least " + NatToString(MinChunkSize / MiB) + " MB."

  lemma ChunkSizeTooSmallText()
    ensures ChunkSizeTooSmall == "Chunk size must be at least 15 MB."
  {
  }

  /** `takeIf { it.isNotBlank() }` leaves a value. */
  predicate Present(s: Option<string>) { s.Some? && !IsBlank(s.value) }

  /** `UploadManager.Builder`: collects the configuration, then validates it. */
  class Builder {
    var file: Option<FileRef>
    var accessToken: Option<string>
    var bucketName: Option<string>
    var chunkSize: int
    var hasCallback: bool
    var enableLogging: bool

    /** The setter keeps the chunk size at or above the minimum. */
    ghost predicate Valid()
      reads this
    {
      MinChunkSize <= chunkSize <= IntMax
    }

    constructor ()
      ensures Valid()
      ensures file.None? && accessToken.None? && bucketName.None?
      ensures chunkSize == DefaultChunkSize && !hasCallback && !enableLogging
    {
      file, accessToken, bucketName := None, None, None;
      chunkSize := DefaultChunkSize;
      hasCallback, enableLogging := false, false;
    }

    /** `setFile` */
    method SetFile(f: FileRef)
      modifies this`file
      ensures file == Some(f)
    {
      file := Some(f);
    }

    /** `setAccessToken`: stored as given; blankness is checked by `build` */
    method SetAccessToken(token: string)
      modifies this`accessToken
      ensures accessToken == Some(token)
    {
      accessToken := Some(token);
    }

    /** `setBucketName`: stored as given; blankness is checked by `build` */
    method SetBucketName(name: string)
      modifies this`bucketName
      ensures bucketName == Some(name)
    {
      bucketName := Some(name);
    }

    /** `setChunkSize`: `require` throws below the minimum and leaves the size. */
    method SetChunkSize(chunkSizeInBytes: int) returns (r: Outcome<string>)
      requires Valid() && IsInt(chunkSizeInBytes)
      modifies this`chunkSize
      ensures Valid()
      ensures r.Pass? <==> chunkSizeInBytes >= MinChunkSize
      ensures r.Pass? ==> chunkSize == chunkSizeInBytes
      ensures r.Fail? ==> chunkSize == old(chunkSize) && r.error == ChunkSizeTooSmall
    {
      if chunkSizeInBytes < MinChunkSize {
        return Fail(ChunkSizeTooSmall);
      }
      chunkSize := chunkSizeInBytes;
      return Pass;
    }

    /** `setCallback`: only whether a callback was set is kept */
    method SetCallback()
      modifies this`hasCallback
      ensures hasCallback
    {
      hasCallback := true;
    }

    /** `enableLogging` */
    method EnableLogging(enable: bool)
      modifies this`enableLogging
      ensures enableLogging == enable
    {
      enableLogging := enable;
    }

    /** The checks of `build`, in their order: file, token, bucket, callback. */
    function Check(): (r: Result<Config, string>)
      reads this
      requires Valid()
      ensures r.Success? <==> file.Some? && Present(accessToken) && Present(bucketName) && hasCallback
      ensures file.None? ==> r == Failure(FileMissing)
      ensures file.Some? && !Present(accessToken) ==> r == Failure(TokenBlank)
      ensures file.Some? && Present(accessToken) && !Present(bucketName) ==> r == Failure(BucketBlank)
      ensures file.Some? && Present(accessToken) && Present(bucketName) && !hasCallback ==>
                r == Failure(CallbackMissing)
      ensures r.Success? ==> r.value.file == file.value && MinChunkSize <= r.value.chunkSize <= IntMax
      ensures r.Success? ==> r.value.accessToken == accessToken.value && !IsBlank(r.value.accessToken)
      ensures r.Success? ==> r.value.bucketName == bucketName.value && !IsBlank(r.value.bucketName)
    {
      if file.None? then Failure(FileMissing)
      else if !Present(accessToken) then Failure(TokenBlank)
      else if !Present(bucketName) then Failure(BucketBlank)
      else if !hasCallback then Failure(CallbackMissing)
      else Success(Config(file.value, accessToken.value, bucketName.value, chunkSize, enableLogging))
    }

    /** `build`: throw the first failed check, or construct the manager. */
    method Build(connectedNow: bool) returns (r: Result<UploadManager, string>)
      requires Valid()
      ensures Check().Failure? ==> r == Failure(Check().error)
      ensures Check().Success? ==> r.Success? && fresh(r.value) && r.value.Valid()
      ensures Check().Success? ==>
                && r.value.file == file.value && r.value.accessToken == accessToken.value
                && r.value.bucketName == bucketName.value && r.value.chunkSize == chunkSize
                && r.value.enableLogging == enableLogging
      ensures Check().Success? ==>
                && r.value.state == Idle && r.value.lastNonOfflineState == Idle
                && r.value.lastCancelReason == NoReason
                && fresh(r.value.session) && r.value.session.IsFresh()
                && !r.value.listening && !r.value.hasUploadCall && r.value.connected == connectedNow
                && r.value.requests == [] && r.value.callbacks == []
    {
      var c := Check();
      if c.Failure? {
        return Failure(c.error);
      }
      var m := new UploadManager(c.value, connectedNow);
      return Success(m);
    }
  }
}

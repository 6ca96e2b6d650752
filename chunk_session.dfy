/** The mutable progress record of one upload attempt. */
module ChunkSessions {
  import opened Wrappers

  /** The chunk size of a record nobody has planned yet (15 MiB). */
  const FreshChunkSize: int := 15 * 1024 * 1024

  class ChunkSession {
    var totalChunks: int
    var chunkSize: int
    var isOnlyChunk: bool
    var objectName: Option<string>
    var chunkOffset: int
    var fileSize: int
    var nextChunkRangeStart: int
    var successiveChunkCount: int
    var sessionURI: Option<string>
    var startTime: Option<int>

    /** Every field holds its declared default. */
    ghost predicate IsFresh()
      reads this
    {
      && totalChunks == 0 && chunkSize == FreshChunkSize && !isOnlyChunk
      && objectName.None? && chunkOffset == 0 && fileSize == 0
      && nextChunkRangeStart == 0 && successiveChunkCount == 0
      && sessionURI.None? && startTime.None?
    }

    /** `ChunkSession()` with all defaults. */
    constructor ()
      ensures IsFresh()
    {
      totalChunks := 0;
      chunkSize := FreshChunkSize;
      isOnlyChunk := false;
      objectName := None;
      chunkOffset := 0;
      fileSize := 0;
      nextChunkRangeStart := 0;
      successiveChunkCount := 0;
      sessionURI := None;
      startTime := None;
    }
  }
}

/** The chunk writer createTempFile of windows/process/memory_allocation_demo.cpp. */
module TempFile {
  import opened StrideLoop

  const FILL: char := 'F'

  function Fill(n: nat): (s: seq<char>)
    ensures |s| == n
  {
    seq(n, _ => FILL)
  }

  /** An output stream, truncated when it is opened. */
  class File {
    var contents: seq<char>

    constructor ()
      ensures contents == []
    {
      contents := [];
    }

    method Write(buffer: seq<char>, count: nat)
      requires count <= |buffer|
      modifies this
      ensures contents == old(contents) + buffer[..count]
    {
      contents := contents + buffer[..count];
    }
  }

  /** Every chunk but the last is full, and the last is not empty. */
  predicate Chunked(chunks: seq<nat>, size: nat) {
    && |chunks| == Strides(size)
    && (forall k | 0 <= k < |chunks| - 1 :: chunks[k] == STRIDE)
    && (chunks != [] ==> 0 < chunks[|chunks| - 1] == size - STRIDE * (|chunks| - 1) <= STRIDE)
  }

  /** word is the number of values of size_t, a multiple of the chunk. The bound on size is the one
      LoopEndsIff shows to be necessary: above it the loop writes without end. */
  method CreateTempFile(file: File, openOk: bool, size: nat, word: nat)
    returns (ok: bool, chunks: seq<nat>)
    requires word % STRIDE == 0 && STRIDE <= word && size <= word - STRIDE && file.contents == []
    modifies file
    ensures ok == openOk
    ensures ok ==> file.contents == Fill(size) && Chunked(chunks, size)
    ensures ok ==> |file.contents| == size && forall j | 0 <= j < size :: file.contents[j] == 'F'
    ensures ok ==> |chunks| == (size + 4095) / 4096 && forall k | 0 <= k < |chunks| :: 0 < chunks[k] <= 4096
    ensures ok ==> forall k | 0 <= k < |chunks| - 1 :: chunks[k] == 4096
    ensures !ok ==> file.contents == []
  {
    chunks := [];
    if !openOk {
      return false, chunks;
    }
    var buffer := Fill(STRIDE);
    var i := 0;
    while i < size
      invariant i == STRIDE * |chunks| && i < size + STRIDE
      invariant file.contents == Fill(if i < size then i else size)
      invariant forall k | 0 <= k < |chunks| - 1 :: chunks[k] == STRIDE
      invariant chunks != [] ==> chunks[|chunks| - 1] == if i <= size then STRIDE else size - (i - STRIDE)
      decreases size + STRIDE - i
    {
      var writeSize := if size < Advance(i, word) then size - i else STRIDE;
      file.Write(buffer, writeSize);
      chunks := chunks + [writeSize];
      i := Advance(i, word);
    }
    StridesCover(size);
    ok := true;
  }
}

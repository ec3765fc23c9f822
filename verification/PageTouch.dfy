/** The stride-4096 page toucher (macos/process/xnu_footprint_demo.cpp and activity_monitor_demo.mm). */
module PageTouch {
  import opened StrideLoop
  import opened Words

  /** c at every multiple of the stride below size, everything else as it was. */
  function Touched(s: seq<char>, size: nat, c: char): (t: seq<char>)
    ensures |t| == |s|
  {
    seq(|s|, j requires 0 <= j < |s| => if j < size && j % STRIDE == 0 then c else s[j])
  }

  /** Byte by byte. */
  lemma {:induction false} TouchedAt(s: seq<char>, size: nat, c: char, j: nat)
    requires j < |s|
    ensures Touched(s, size, c)[j] == if j < size && j % 4096 == 0 then c else s[j]
  {
  }

  /** for (size_t i = 0; i < size; i += 4096) buffer[i] = c; the bound on size is the one LoopEndsIff
      shows to be necessary, and every multiple of the stride below 2^64 meets it. */
  method TouchPages(buffer: array<char>, size: u64, c: char) returns (writes: nat)
    requires size <= buffer.Length && size <= TWO_64 - STRIDE
    modifies buffer
    ensures buffer[..] == Touched(old(buffer[..]), size, c)
    ensures forall j | 0 <= j < buffer.Length ::
              buffer[j] == if j < size && j % 4096 == 0 then c else old(buffer[j])
    ensures writes == (size + 4095) / 4096
  {
    var i: u64 := 0;
    writes := 0;
    while i < size
      invariant i == STRIDE * writes
      invariant buffer[..] == Touched(old(buffer[..]), if i < size then i else size, c)
      invariant i <= size || i < size + STRIDE
      decreases size - i
    {
      buffer[i] := c;
      i := Wrap64(i + STRIDE);
      writes := writes + 1;
    }
    StridesCover(size);
    forall j | 0 <= j < buffer.Length
      ensures buffer[j] == if j < size && j % 4096 == 0 then c else old(buffer[j])
    {
      assert buffer[j] == buffer[..][j];
      TouchedAt(old(buffer[..]), size, c, j);
    }
  }

  /** Every page of a buffer is touched, for every page size that is a multiple of the stride. */
  lemma {:induction false} EveryPageTouched(s: seq<char>, size: nat, c: char, m: nat, page: nat)
    requires size <= |s| && 0 < m && page * (m * STRIDE) < size
    ensures Touched(s, size, c)[page * (m * STRIDE)] == c
  {
    assert page * (m * STRIDE) == STRIDE * (page * m);
  }

  lemma {:induction false} TouchedTwice(s: seq<char>, size: nat, a: char, b: char)
    ensures Touched(Touched(s, size, a), size, b) == Touched(s, size, b)
  {
  }
}

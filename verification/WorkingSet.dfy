/**
 printProcessMemoryInfo of windows/process/process_memory_monitor.cpp, for a 64-bit build: a query
 into a buffer for one entry, a second query into a buffer sized from the counters, and a count of
 the entries returned. QueryWorkingSet is an environment model: it fills the buffer if all entries fit.
 */
module WorkingSet {
  import opened Words

  /** sizeof(PSAPI_WORKING_SET_BLOCK): one machine word. */
  const BLOCK: nat := 8

  /** sizeof(PSAPI_WORKING_SET_INFORMATION): the number of entries and the first of them. */
  const HEADER: nat := 16
  const PAGE: nat := 4096
  const SLACK: nat := 100

  datatype Block = Block(page: nat, shared: bool)

  datatype Query = Filled(entries: seq<Block>) | BadLength | OtherError

  /** The entries of the working set at the time of the call, if the call works and they fit. */
  function QueryWorkingSet(entries: seq<Block>, bytes: nat, broken: bool): Query {
    if broken then OtherError
    else if BLOCK + BLOCK * |entries| <= bytes then Filled(entries)
    else BadLength
  }

  /** The size of the second buffer, a 64-bit sum stored in a DWORD. */
  function BufferSize(workingSetSize: u64): u32 {
    Wrap32(HEADER + (workingSetSize / PAGE + SLACK) * BLOCK)
  }

  /** n entries fit in the second buffer. */
  predicate Fits(workingSetSize: u64, n: nat) {
    BLOCK + BLOCK * n <= BufferSize(workingSetSize)
  }

  lemma {:induction false} WrapWords(words: nat)
    ensures (8 * words) % 0x1_0000_0000 == 8 * (words % 0x2000_0000)
  {
    var q, r := words / 0x2000_0000, words % 0x2000_0000;
    assert 8 * words == 0x1_0000_0000 * q + 8 * r;
  }

  /** For every working set size, whether or not the DWORD wraps: exactly this many entries fit. */
  lemma {:induction false} EntriesThatFit(workingSetSize: u64, n: nat)
    ensures Fits(workingSetSize, n) <==> n < (workingSetSize / PAGE + SLACK + 2) % 0x2000_0000
  {
    var words := workingSetSize / PAGE + SLACK + 2;
    assert HEADER + (workingSetSize / PAGE + SLACK) * BLOCK == BLOCK * words;
    WrapWords(words);
  }

  /** The set may grow by 101 pages between the queries, if and only if it is small enough for the
      size not to wrap, just under 2 TB; and by no more. */
  lemma {:induction false} RoomToGrowIff(workingSetSize: u64)
    ensures (forall n: nat | n <= workingSetSize / PAGE + 101 :: Fits(workingSetSize, n))
       <==> workingSetSize < 0x1FF_FFF9_A000
    ensures !Fits(workingSetSize, workingSetSize / PAGE + 102)
  {
    var words := workingSetSize / PAGE + SLACK + 2;
    forall n: nat ensures Fits(workingSetSize, n) <==> n < words % 0x2000_0000 {
      EntriesThatFit(workingSetSize, n);
    }
    if 0x1FF_FFF9_A000 <= workingSetSize {
      assert !Fits(workingSetSize, words - 1);
    }
  }

  function Indices(entries: seq<Block>, shared: bool): set<nat> {
    set i: nat | i < |entries| && entries[i].shared == shared
  }

  lemma {:induction false} IndicesAppend(entries: seq<Block>, k: nat, shared: bool)
    requires k < |entries|
    ensures |Indices(entries[..k + 1], shared)|
         == |Indices(entries[..k], shared)| + if entries[k].shared == shared then 1 else 0
  {
    assert Indices(entries[..k + 1], shared)
        == Indices(entries[..k], shared) + if entries[k].shared == shared then {k} else {};
  }

  /** Every entry is counted once, on one side or the other. */
  method Classify(entries: seq<Block>) returns (sharedPages: nat, privatePages: nat)
    ensures sharedPages == |Indices(entries, true)| && privatePages == |Indices(entries, false)|
    ensures sharedPages + privatePages == |entries|
  {
    sharedPages, privatePages := 0, 0;
    var i := 0;
    while i < |entries|
      invariant i <= |entries|
      invariant sharedPages == |Indices(entries[..i], true)|
      invariant privatePages == |Indices(entries[..i], false)|
      invariant sharedPages + privatePages == i
    {
      IndicesAppend(entries, i, true);
      IndicesAppend(entries, i, false);
      if entries[i].shared {
        sharedPages := sharedPages + 1;
      } else {
        privatePages := privatePages + 1;
      }
      i := i + 1;
    }
    assert entries[..|entries|] == entries;
  }

  datatype Report =
    | Failed
    | Estimated(total: u64, private: u64, shareable: u64, shared: u64)
    | Detailed(total: u64, private: u64, shareable: u64, shared: u64)

  /** Each call as the system answers it: the counters, or none; the entries at the first and at the
      second query, and whether either breaks for another reason; and whether malloc succeeds. */
  datatype Answers = Answers(
    counters: bool, workingSetSize: u64,
    first: seq<Block>, firstBroken: bool, malloc: bool, second: seq<Block>, secondBroken: bool)

  method PrintProcessMemoryInfo(a: Answers) returns (r: Report)
    ensures r == Failed <==>
              || !a.counters || a.firstBroken
              || (1 < |a.first| && (!a.malloc || a.secondBroken || !Fits(a.workingSetSize, |a.second|)))
    ensures r.Estimated? ==> |a.first| <= 1 && r.private == r.total == a.workingSetSize && r.shareable == r.shared == 0
    ensures r.Detailed? ==>
              && 1 < |a.first| && r.total == a.workingSetSize
              && r.private == PAGE * |Indices(a.second, false)| && r.shared == PAGE * |Indices(a.second, true)|
              && r.private + r.shared == PAGE * |a.second|
    ensures r.Detailed? ==> r.shareable == (r.total - r.private) % 0x1_0000_0000_0000_0000
    ensures r.Detailed? ==> (r.shareable == r.shared <==> r.total == PAGE * |a.second|)
  {
    if !a.counters {
      return Failed;
    }
    var one := QueryWorkingSet(a.first, HEADER, a.firstBroken);
    if one.Filled? {
      return Estimated(a.workingSetSize, a.workingSetSize, 0, 0);
    }
    if one != BadLength || !a.malloc {
      return Failed;
    }
    var all := QueryWorkingSet(a.second, BufferSize(a.workingSetSize), a.secondBroken);
    if !all.Filled? {
      return Failed;
    }
    var sharedPages, privatePages := Classify(all.entries);
    var shared, private := Wrap64(sharedPages * PAGE), Wrap64(privatePages * PAGE);
    r := Detailed(a.workingSetSize, private, Wrap64(a.workingSetSize - private), shared);
  }
}

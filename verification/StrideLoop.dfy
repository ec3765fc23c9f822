/**
 The loops that advance a size_t by 4096 until it reaches a size: the page touchers of the demos and
 the chunk writer of createTempFile. The cursor wraps at the word size.
 */
module StrideLoop {
  const STRIDE: nat := 4096

  /** How many strides start below size: the quotient, rounded up. */
  function Strides(size: nat): nat {
    (size + STRIDE - 1) / STRIDE
  }

  /** One write in every 4096 bytes begun. */
  lemma {:induction false} StridesAre(size: nat)
    ensures Strides(size) == (size + 4095) / 4096 && size <= 4096 * Strides(size) < size + 4096
  {
  }

  lemma {:induction false} StridesCover(size: nat)
    ensures STRIDE * Strides(size) - STRIDE < size <= STRIDE * Strides(size) || (size == 0 && Strides(size) == 0)
  {
  }

  datatype Loop = At(i: nat) | Done

  /** Unsigned addition in a word that holds the values below word, no smaller than the stride. */
  function Advance(i: nat, word: nat): nat {
    if i + STRIDE < word then i + STRIDE else i + STRIDE - word
  }

  function Next(size: nat, word: nat, l: Loop): Loop {
    match l
    case Done => Done
    case At(i) => if i < size then At(Advance(i, word)) else Done
  }

  function After(size: nat, word: nat, steps: nat): Loop {
    if steps == 0 then At(0) else Next(size, word, After(size, word, steps - 1))
  }

  /** As long as the size leaves room for one more stride below the word, the cursor is exact. */
  lemma {:induction false} CursorExact(size: nat, word: nat, steps: nat)
    requires STRIDE <= word && size <= word - STRIDE && steps <= Strides(size)
    ensures After(size, word, steps) == At(STRIDE * steps)
  {
    if steps > 0 {
      CursorExact(size, word, steps - 1);
      StridesCover(size);
    }
  }

  /** The last stride of a word takes the cursor back to 0. */
  lemma {:induction false} AdvanceWraps(i: nat, word: nat)
    requires word % STRIDE == 0 && i % STRIDE == 0 && i < word
    ensures Advance(i, word) % STRIDE == 0
    ensures Advance(i, word) <= word - STRIDE
  {
  }

  /** Otherwise it steps over the size, wraps, and starts again. */
  lemma {:induction false} CursorCycles(size: nat, word: nat, steps: nat)
    requires word % STRIDE == 0 && word - STRIDE < size < word
    ensures var l := After(size, word, steps);
            l.At? && l.i < size && l.i % STRIDE == 0
  {
    if steps > 0 {
      CursorCycles(size, word, steps - 1);
      AdvanceWraps(After(size, word, steps - 1).i, word);
    }
  }

  ghost predicate Ends(size: nat, word: nat) {
    exists steps: nat :: After(size, word, steps) == Done
  }

  /** For every word size that is a multiple of the stride and every value of it: the loop ends if
      and only if the size is at most the word less one stride. */
  lemma {:induction false} LoopEndsIff(size: nat, word: nat)
    requires word % STRIDE == 0 && size < word
    ensures Ends(size, word) <==> size <= word - STRIDE
  {
    if size <= word - STRIDE {
      CursorExact(size, word, Strides(size));
      StridesCover(size);
      assert After(size, word, Strides(size) + 1) == Done;
    } else {
      forall steps: nat ensures After(size, word, steps) != Done {
        CursorCycles(size, word, steps);
      }
    }
  }
}

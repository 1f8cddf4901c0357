/** How large a context a prompt gets, and how a failed allocation lowers the ceiling. */
module ContextSize {

  const U32: int := 0x1_0000_0000
  type u32 = n: int | 0 <= n < U32

  const CHUNK: u32 := 4096

  // ---- the u32 arithmetic of the source ---------------------------------------------

  function SaturatingAdd(a: u32, b: u32): u32 { if a + b < U32 then a + b else U32 - 1 }

  function SaturatingChunks(k: u32): u32 { if k * CHUNK < U32 then k * CHUNK else U32 - 1 }

  function SaturatingSub(a: u32, b: u32): u32 { if a < b then 0 else a - b }

  function DivCeilChunk(a: u32): u32 { a / CHUNK + if a % CHUNK > 0 then 1 else 0 }

  /** `next_multiple_of`, which past the last multiple wraps to 0 in a release build. */
  function NextMultipleOfChunk(a: u32): u32 { ((a + CHUNK - 1) / CHUNK * CHUNK) % U32 }

  function Max32(a: u32, b: u32): u32 { if a < b then b else a }

  function Min32(a: u32, b: u32): u32 { if a < b then a else b }

  /** `context_size`. */
  function Size(nPrompt: u32, floor: u32, maxTokens: u32, ceiling: u32): u32 {
    Min32(SaturatingChunks(DivCeilChunk(Max32(floor, SaturatingAdd(nPrompt, maxTokens)))), ceiling)
  }

  /** The size `build_context` falls back to when `n` could not be allocated. */
  function Retry(n: u32): u32 {
    Max32(NextMultipleOfChunk(SaturatingSub(n, 1)), CHUNK) - CHUNK
  }

  predicate RetryAllowed(n: u32) { Retry(n) != 0 && Retry(n) < n }

  /** The ceiling after an allocation of `n` failed: `fetch_min`, unless there is no retry. */
  function Lowered(ceiling: u32, n: u32): u32 {
    if RetryAllowed(n) then Min32(ceiling, Retry(n)) else ceiling
  }

  // ---- what the sizes promise -------------------------------------------------------

  /**
   * A context is as large as the ceiling allows, or holds the floor and the prompt with
   * its whole budget; and it is then the smallest number of whole chunks that does.
   */
  lemma SizeHoldsPrompt(nPrompt: u32, floor: u32, maxTokens: u32, ceiling: u32)
    ensures var r := Size(nPrompt, floor, maxTokens, ceiling);
            && r <= ceiling
            && (r == ceiling ||
                 (&& r >= nPrompt + maxTokens && r >= floor && r % CHUNK == 0
                  && (r < CHUNK + floor || r < CHUNK + nPrompt + maxTokens)))
  {
    var a := Max32(floor, SaturatingAdd(nPrompt, maxTokens));
    assert a == a / CHUNK * CHUNK + a % CHUNK;
    assert CHUNK * DivCeilChunk(a) >= a;
  }

  /**
   * And no context is larger than it has to be: no chunk that would do is smaller, and one
   * that does not hold its prompt is as large as the ceiling allows.
   */
  lemma SizeIsLeast(nPrompt: u32, floor: u32, maxTokens: u32, ceiling: u32)
    ensures var r := Size(nPrompt, floor, maxTokens, ceiling);
            && (forall m: u32 :: m % 4096 == 0 && floor <= m && nPrompt + maxTokens <= m <= ceiling ==> r <= m)
            && (r < floor || r < nPrompt + maxTokens ==> r == ceiling)
            && (r != ceiling ==> r % 4096 == 0)
  {
    var r := Size(nPrompt, floor, maxTokens, ceiling);
    var a := Max32(floor, SaturatingAdd(nPrompt, maxTokens));
    SizeHoldsPrompt(nPrompt, floor, maxTokens, ceiling);
    forall m: u32 | m % 4096 == 0 && floor <= m && nPrompt + maxTokens <= m <= ceiling ensures r <= m {
      assert a <= m && m == m / CHUNK * CHUNK;
      LeastChunks(a, m / CHUNK);
    }
  }

  /** The chunks taken are the fewest that hold a size. */
  lemma LeastChunks(a: u32, k: nat)
    requires a <= k * CHUNK
    ensures DivCeilChunk(a) <= k
  {
    assert a == a / CHUNK * CHUNK + a % CHUNK;
  }

  /** A longer prompt never gets a smaller context. */
  lemma SizeIsMonotone(nPrompt: u32, longer: u32, floor: u32, maxTokens: u32, ceiling: u32)
    requires nPrompt <= longer
    ensures Size(nPrompt, floor, maxTokens, ceiling) <= Size(longer, floor, maxTokens, ceiling)
  {
    var a := Max32(floor, SaturatingAdd(nPrompt, maxTokens));
    var b := Max32(floor, SaturatingAdd(longer, maxTokens));
    assert a <= b && a / CHUNK <= b / CHUNK;
    assert DivCeilChunk(a) <= DivCeilChunk(b);
  }

  /** When there is a second attempt, and what it asks for. */
  lemma RetryShape(n: u32)
    ensures RetryAllowed(n) <==> 4097 < n <= 0x1_0000_0000 - 4095
    ensures RetryAllowed(n) ==>
      Retry(n) % 4096 == 0 && 0 < Retry(n) < n && n - Retry(n) <= 4097
  {
    if n > 0 {
      var x := n - 1;
      var q := (x + CHUNK - 1) / CHUNK;
      assert x <= q * CHUNK < x + CHUNK;
      if q * CHUNK < U32 {
        assert NextMultipleOfChunk(x) == q * CHUNK;
      } else {
        assert q == 0x10_0000;
        assert NextMultipleOfChunk(x) == 0;
      }
    }
  }

  /**
   * "The chunk beneath the failure" is really the largest one beneath it, except when the
   * failed size is one over a chunk: then a chunk that would have been smaller is skipped.
   */
  lemma RetryIsLargestChunkBelow(n: u32)
    requires RetryAllowed(n)
    ensures (forall m: u32 :: m % CHUNK == 0 && m < n ==> m <= Retry(n)) <==> n % CHUNK != 1
  {
    RetryShape(n);
    if n % CHUNK == 1 {
      var skipped: u32 := n - 1;
      assert skipped % CHUNK == 0 && skipped < n;
      assert Retry(n) == skipped - CHUNK by {
        assert skipped == skipped / CHUNK * CHUNK;
        assert (skipped + CHUNK - 1) / CHUNK == skipped / CHUNK;
      }
    } else {
      forall m: u32 | m % CHUNK == 0 && m < n ensures m <= Retry(n) {
        assert Retry(n) == Retry(n) / CHUNK * CHUNK && m == m / CHUNK * CHUNK;
        if n - Retry(n) == CHUNK + 1 { RetryResidue(n); }
      }
    }
  }

  /** A retry a whole chunk and one below the failure happens only one over a chunk. */
  lemma RetryResidue(n: u32)
    requires RetryAllowed(n) && n - Retry(n) == CHUNK + 1
    ensures n % CHUNK == 1
  {
    RetryShape(n);
    var q := Retry(n) / CHUNK;
    assert n == (q + 1) * CHUNK + 1;
  }

  /**
   * Whether a size that failed can be asked for again: it cannot exactly when a retry was
   * made, because only then does the ceiling move; otherwise the very prompts that asked
   * for it ask for it again.
   */
  lemma FailedSizeComesBack(floor: u32, maxTokens: u32, ceiling: u32, n: u32)
    requires n <= ceiling
    ensures (forall p: u32 :: Size(p, floor, maxTokens, Lowered(ceiling, n)) < n) <==> RetryAllowed(n)
    ensures forall p: u32 :: Size(p, floor, maxTokens, ceiling) == n ==>
              (Size(p, floor, maxTokens, Lowered(ceiling, n)) == n <==> !RetryAllowed(n))
  {
    RetryShape(n);
    if RetryAllowed(n) {
      forall p: u32 ensures Size(p, floor, maxTokens, Lowered(ceiling, n)) < n {
        SizeHoldsPrompt(p, floor, maxTokens, Lowered(ceiling, n));
      }
    } else {
      var top: u32 := U32 - 1;
      assert SaturatingAdd(top, maxTokens) == top;
      assert DivCeilChunk(top) * CHUNK == U32;
      assert Size(top, floor, maxTokens, Lowered(ceiling, n)) == ceiling;
    }
  }

  // ---- a run of failures ------------------------------------------------------------

  /** The ceiling after some allocations failed, in the order their `fetch_min`s landed. */
  function AfterFailures(ceiling: u32, failed: seq<u32>): u32 {
    if failed == [] then ceiling
    else Lowered(AfterFailures(ceiling, failed[..|failed| - 1]), failed[|failed| - 1])
  }

  /** How many of them moved it. */
  function Descents(ceiling: u32, failed: seq<u32>): nat {
    if failed == [] then 0
    else
      var before := AfterFailures(ceiling, failed[..|failed| - 1]);
      Descents(ceiling, failed[..|failed| - 1]) + if AfterFailures(ceiling, failed) < before then 1 else 0
  }

  /** The ceiling ends at or below every retry that was made. */
  lemma {:induction false} CeilingBelowRetries(ceiling: u32, failed: seq<u32>, n: u32)
    requires n in failed && RetryAllowed(n)
    ensures AfterFailures(ceiling, failed) <= Retry(n) < n
  {
    var init, last := failed[..|failed| - 1], failed[|failed| - 1];
    if n != last {
      assert n in init;
      CeilingBelowRetries(ceiling, init, n);
    }
  }

  /** And no lower: it is where it started or at one of them. */
  lemma {:induction false} CeilingIsAttained(ceiling: u32, failed: seq<u32>)
    ensures var after := AfterFailures(ceiling, failed);
            after == ceiling || exists n :: n in failed && RetryAllowed(n) && after == Retry(n)
  {
    if failed != [] {
      var init, last := failed[..|failed| - 1], failed[|failed| - 1];
      CeilingIsAttained(ceiling, init);
      assert forall n :: n in init ==> n in failed;
      assert last in failed;
    }
  }

  /** One failure moves a positive ceiling to a positive multiple of a chunk, or not at all. */
  lemma OneDescent(ceiling: u32, n: u32)
    requires ceiling > 0
    ensures 0 < Lowered(ceiling, n) <= ceiling
    ensures Lowered(ceiling, n) < ceiling ==> Lowered(ceiling, n) % CHUNK == 0
    ensures Lowered(ceiling, n) < ceiling && ceiling % CHUNK == 0 ==> Lowered(ceiling, n) + CHUNK <= ceiling
  {
    RetryShape(n);
    if Lowered(ceiling, n) < ceiling && ceiling % CHUNK == 0 {
      var a, b := Lowered(ceiling, n) / CHUNK, ceiling / CHUNK;
      assert Lowered(ceiling, n) == a * CHUNK && ceiling == b * CHUNK;
      assert a + 1 <= b;
    }
  }

  /**
   * Whatever turns fail, at whatever sizes and in whatever order: the ceiling only
   * descends, stays positive, and moves at most once for every chunk it started with.
   */
  lemma {:induction false} CeilingDescends(ceiling: u32, failed: seq<u32>)
    requires ceiling > 0
    ensures 0 < AfterFailures(ceiling, failed) <= ceiling
    ensures Descents(ceiling, failed) <= ceiling / CHUNK
    ensures if Descents(ceiling, failed) == 0 then AfterFailures(ceiling, failed) == ceiling
            else
              && AfterFailures(ceiling, failed) % CHUNK == 0
              && AfterFailures(ceiling, failed) + CHUNK * (Descents(ceiling, failed) - 1) < ceiling
  {
    if failed != [] {
      var init := failed[..|failed| - 1];
      CeilingDescends(ceiling, init);
      OneDescent(AfterFailures(ceiling, init), failed[|failed| - 1]);
      ChunksBound(ceiling, AfterFailures(ceiling, failed), Descents(ceiling, failed));
    }
  }

  lemma ChunksBound(ceiling: u32, after: u32, descents: nat)
    requires ceiling > 0 && after > 0
    requires descents > 0 ==> after % CHUNK == 0 && after + CHUNK * (descents - 1) < ceiling
    ensures descents <= ceiling / CHUNK
  {
    if descents > 0 {
      assert after >= CHUNK;
      assert CHUNK * descents < ceiling;
    }
  }
}

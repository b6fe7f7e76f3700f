/**
 * The chunked bump allocator behind the runtime's metadata nodes.
 *
 * A pool is an ordered list of chunks, each a block of 8-byte words with a
 * write mark (the next free word), and the index of the chunk that currently
 * accepts allocations. Requests are rounded up to whole words and carved off
 * the current chunk; when it has no room the pool either appends a fresh chunk
 * or refuses. Memory itself is not modelled: an allocation is the pair
 * (chunk index, word offset) where the source returns a pointer.
 */
module MemoryPools {
  import opened Wrappers
  import opened MachineInts

  /** sizeof(uint64_t): the allocation unit. */
  const WordBytes: nat := 8

  /** The default chunk size, in words (64 * 1024). */
  const ChunkWords: nat := 65536


  /** Configuration defaults of the "memory" config set. */
  const DefaultPoolSize: nat := 2097152
  const DefaultCanExpand: bool := true

  datatype PoolConfig = PoolConfig(poolSize: nat, canExpand: bool)

  const DefaultConfig: PoolConfig := PoolConfig(DefaultPoolSize, DefaultCanExpand)

  /** A chunk: `size` words of which the first `wmark` are handed out. */
  datatype Chunk = Chunk(wmark: nat, size: nat)

  /** Where an allocation starts: chunk index and word offset in it. */
  datatype Loc = Loc(chunk: nat, offset: nat)

  /** The pool's chunk list and current-chunk index. */
  datatype PoolState = PoolState(chunks: seq<Chunk>, index: nat)

  /** The state after one allocation together with its result (None is the null pointer). */
  datatype Step = Step(pool: PoolState, loc: Option<Loc>)

  /** Every chunk's write mark is within its size, and the index names a chunk or the sentinel |chunks|. */
  predicate Inv(s: PoolState) {
    && s.index <= |s.chunks|
    && forall c | 0 <= c < |s.chunks| :: s.chunks[c].wmark <= s.chunks[c].size
  }

  /** Words needed for `bytes` bytes: the request rounded up to whole words. */
  function Words(bytes: nat): (n: nat)
    ensures n * WordBytes >= bytes
    ensures n * WordBytes < bytes + WordBytes
  {
    (bytes + WordBytes - 1) / WordBytes
  }

  /** The rounding exactly as the source computes it, in size_t arithmetic. */
  function WordsAsWritten(bytes: nat): nat
    requires bytes < SizeMod
  {
    ((bytes + WordBytes - 1) % SizeMod) / WordBytes
  }

  /** Whatever fits in a real address space is rounded the same way by both. */
  lemma WordsAsWrittenAgrees(bytes: nat)
    requires bytes <= SizeMod - WordBytes
    ensures WordsAsWritten(bytes) == Words(bytes)
  {
  }

  /** The largest size_t request wraps around to zero words. */
  lemma WordsAsWrittenWraps()
    ensures WordsAsWritten(SizeMod - 1) == 0
    ensures Words(SizeMod - 1) == SizeMod / WordBytes
    ensures WordsAsWritten(SizeMod - 1) * WordBytes < SizeMod - 1
  {
  }

  /** The current chunk exists and has room for `n` more words. */
  predicate Fits(s: PoolState, n: nat)
    requires Inv(s)
    ensures Fits(s, n) ==> s.index < |s.chunks| && n <= s.chunks[s.index].size
    ensures Fits(s, n) ==> forall m: nat | m <= n :: Fits(s, m)
    ensures Fits(s, 0) <==> s.index < |s.chunks|
  {
    s.index < |s.chunks| && s.chunks[s.index].wmark + n <= s.chunks[s.index].size
  }

  /** `expand`: append a chunk of max(words(bytes), ChunkWords) words and make it current. */
  function ExpandState(s: PoolState, bytes: nat): (e: PoolState)
    requires Inv(s)
    ensures Inv(e)
    ensures |e.chunks| == |s.chunks| + 1 && e.chunks[..|s.chunks|] == s.chunks
    ensures e.index == |s.chunks|
    ensures e.chunks[e.index].wmark == 0
    ensures e.chunks[e.index].size >= Words(bytes) && e.chunks[e.index].size >= ChunkWords
    ensures e.chunks[e.index].size == Words(bytes) || e.chunks[e.index].size == ChunkWords
  {
    var len := Max(Words(bytes), ChunkWords);
    var chunks := s.chunks + [Chunk(0, len)];
    PoolState(chunks, |chunks| - 1)
  }

  /** Advance the current chunk's write mark by `n`. */
  function Bump(s: PoolState, n: nat): (b: PoolState)
    requires Inv(s) && Fits(s, n)
    ensures Inv(b) && b.index == s.index && |b.chunks| == |s.chunks|
    ensures b.chunks[b.index].wmark == s.chunks[s.index].wmark + n
    ensures b.chunks[b.index].size == s.chunks[s.index].size
    ensures forall c | 0 <= c < |s.chunks| && c != s.index :: b.chunks[c] == s.chunks[c]
  {
    var c := s.chunks[s.index];
    PoolState(s.chunks[s.index := Chunk(c.wmark + n, c.size)], s.index)
  }

  /** `allocate(bytes, can_expand)`: bump the current chunk, expanding first when it has no room and expansion is allowed. */
  function AllocStep(s: PoolState, bytes: nat, canExpand: bool): (r: Step)
    requires Inv(s)
    ensures Inv(r.pool)
  {
    var n := Words(bytes);
    if !Fits(s, n) && !canExpand then
      Step(s, None)
    else
      var s1 := if Fits(s, n) then s else ExpandState(s, bytes);
      Step(Bump(s1, n), Some(Loc(s1.index, s1.chunks[s1.index].wmark)))
  }

  /** A request that fits is carved off the current chunk at its old write mark; nothing else changes. */
  lemma AllocFits(s: PoolState, bytes: nat, canExpand: bool)
    requires Inv(s) && Fits(s, Words(bytes))
    ensures var r := AllocStep(s, bytes, canExpand);
      && r.loc == Some(Loc(s.index, s.chunks[s.index].wmark))
      && r.pool.index == s.index
      && |r.pool.chunks| == |s.chunks|
      && r.pool.chunks[s.index] == Chunk(s.chunks[s.index].wmark + Words(bytes), s.chunks[s.index].size)
      && forall c | 0 <= c < |s.chunks| && c != s.index :: r.pool.chunks[c] == s.chunks[c]
  {
  }

  /** Without room and without permission to expand, the result is null and the pool is untouched. */
  lemma AllocRefused(s: PoolState, bytes: nat)
    requires Inv(s) && !Fits(s, Words(bytes))
    ensures AllocStep(s, bytes, false) == Step(s, None)
  {
  }

  /** Without room but with permission, exactly one chunk is appended and the request is served from its start. */
  lemma AllocExpands(s: PoolState, bytes: nat)
    requires Inv(s) && !Fits(s, Words(bytes))
    ensures var r := AllocStep(s, bytes, true);
      && |r.pool.chunks| == |s.chunks| + 1
      && r.pool.chunks[..|s.chunks|] == s.chunks
      && r.pool.index == |s.chunks|
      && r.pool.chunks[|s.chunks|] == Chunk(Words(bytes), Max(Words(bytes), ChunkWords))
      && r.loc == Some(Loc(|s.chunks|, 0))
  {
  }

  /** A successful allocation always has room for the whole request in its chunk. */
  lemma AllocWithinChunk(s: PoolState, bytes: nat, canExpand: bool)
    requires Inv(s)
    ensures var r := AllocStep(s, bytes, canExpand);
      r.loc.Some? ==>
        && r.loc.value.chunk == r.pool.index
        && r.loc.value.chunk < |r.pool.chunks|
        && r.loc.value.offset + Words(bytes) == r.pool.chunks[r.loc.value.chunk].wmark
        && r.loc.value.offset + Words(bytes) <= r.pool.chunks[r.loc.value.chunk].size
  {
  }

  /**
   * Chunks are only appended: none is removed or shrunk, no write mark goes
   * back, the index never moves backwards, and a chunk older than the
   * current one is never touched again (its leftover space is abandoned).
   */
  lemma AllocAppendOnly(s: PoolState, bytes: nat, canExpand: bool)
    requires Inv(s)
    ensures var r := AllocStep(s, bytes, canExpand);
      && |r.pool.chunks| >= |s.chunks|
      && r.pool.index >= s.index
      && (forall c | 0 <= c < |s.chunks| ::
            r.pool.chunks[c].size == s.chunks[c].size && r.pool.chunks[c].wmark >= s.chunks[c].wmark)
      && (forall c | 0 <= c < s.index :: r.pool.chunks[c] == s.chunks[c])
  {
  }

  /** The results of serving `reqs` one after another from `s`. */
  datatype Trace = Trace(pool: PoolState, locs: seq<Option<Loc>>)

  function Run(s: PoolState, reqs: seq<nat>, canExpand: bool): (t: Trace)
    requires Inv(s)
    ensures Inv(t.pool) && |t.locs| == |reqs|
    decreases |reqs|
  {
    if reqs == [] then Trace(s, [])
    else
      var before := Run(s, reqs[..|reqs| - 1], canExpand);
      var r := AllocStep(before.pool, reqs[|reqs| - 1], canExpand);
      Trace(r.pool, before.locs + [r.loc])
  }

  /** Serving a prefix of the requests hands out a prefix of the results. */
  lemma {:induction false} RunPrefix(s: PoolState, reqs: seq<nat>, canExpand: bool, k: nat)
    requires Inv(s) && k <= |reqs|
    ensures Run(s, reqs, canExpand).locs[..k] == Run(s, reqs[..k], canExpand).locs
    decreases |reqs|
  {
    if k < |reqs| {
      var front := reqs[..|reqs| - 1];
      RunPrefix(s, front, canExpand, k);
      assert front[..k] == reqs[..k];
      assert Run(s, reqs, canExpand).locs[..k] == Run(s, front, canExpand).locs[..k];
    } else {
      assert reqs[..k] == reqs;
    }
  }

  /** Every region handed out by a run lies below the final write mark of its chunk. */
  lemma {:induction false} RunRegionsBelowMark(s: PoolState, reqs: seq<nat>, canExpand: bool, i: nat)
    requires Inv(s) && i < |reqs|
    requires Run(s, reqs, canExpand).locs[i].Some?
    ensures var t := Run(s, reqs, canExpand);
      && t.locs[i].value.chunk < |t.pool.chunks|
      && t.locs[i].value.offset + Words(reqs[i]) <= t.pool.chunks[t.locs[i].value.chunk].wmark
    decreases |reqs|
  {
    var front := reqs[..|reqs| - 1];
    var before := Run(s, front, canExpand);
    var last := reqs[|reqs| - 1];
    AllocAppendOnly(before.pool, last, canExpand);
    if i < |front| {
      RunRegionsBelowMark(s, front, canExpand, i);
    } else {
      AllocWithinChunk(before.pool, last, canExpand);
    }
  }

  /**
   * Two results of one run that land in the same chunk do not overlap: the
   * later one starts at or after the end of the earlier one.
   */
  lemma RunRegionsDisjoint(s: PoolState, reqs: seq<nat>, canExpand: bool, i: nat, j: nat)
    requires Inv(s) && i < j < |reqs|
    requires var locs := Run(s, reqs, canExpand).locs;
      locs[i].Some? && locs[j].Some? && locs[i].value.chunk == locs[j].value.chunk
    ensures var locs := Run(s, reqs, canExpand).locs;
      locs[i].value.offset + Words(reqs[i]) <= locs[j].value.offset
  {
    var before := Run(s, reqs[..j], canExpand);
    var upTo := Run(s, reqs[..j + 1], canExpand);
    RunPrefix(s, reqs, canExpand, j + 1);
    RunPrefix(s, reqs, canExpand, j);
    assert reqs[..j + 1][..j] == reqs[..j];
    assert upTo.locs == before.locs + [AllocStep(before.pool, reqs[j], canExpand).loc];
    RunRegionsBelowMark(s, reqs[..j], canExpand, i);
  }

  /** Two consecutive results in one chunk are adjacent: the second starts where the first ends. */
  lemma ConsecutiveAllocsAdjacent(s: PoolState, b1: nat, b2: nat, canExpand: bool)
    requires Inv(s)
    requires var r1 := AllocStep(s, b1, canExpand);
      var r2 := AllocStep(r1.pool, b2, canExpand);
      r1.loc.Some? && r2.loc.Some? && r1.loc.value.chunk == r2.loc.value.chunk
    ensures var r1 := AllocStep(s, b1, canExpand);
      var r2 := AllocStep(r1.pool, b2, canExpand);
      r2.loc.value.offset == r1.loc.value.offset + Words(b1)
  {
    AllocWithinChunk(s, b1, canExpand);
  }

  /** A chunk older than the current one keeps its write mark for the rest of any run. */
  lemma {:induction false} RunAbandonedFrozen(s: PoolState, reqs: seq<nat>, canExpand: bool, c: nat)
    requires Inv(s) && c < s.index
    ensures var t := Run(s, reqs, canExpand);
      t.pool.index >= s.index && c < |t.pool.chunks| && t.pool.chunks[c] == s.chunks[c]
    decreases |reqs|
  {
    if reqs != [] {
      var front := reqs[..|reqs| - 1];
      RunAbandonedFrozen(s, front, canExpand, c);
      AllocAppendOnly(Run(s, front, canExpand).pool, reqs[|reqs| - 1], canExpand);
    }
  }

  /** The state right after construction: the empty pool expanded once by `pool_size` bytes. */
  function Initial(config: PoolConfig): (s: PoolState)
    ensures Inv(s)
  {
    ExpandState(PoolState([], 0), config.poolSize)
  }

  /** With the defaults the pool starts with one chunk of 262144 words (2 MiB) and nothing handed out. */
  lemma InitialDefault()
    ensures Initial(DefaultConfig) == PoolState([Chunk(0, 262144)], 0)
  {
  }

  /** A pool configured with size 0 still has a default-sized chunk and serves a 100-byte request. */
  lemma ZeroSizedPoolServesFirstRequest()
    ensures Initial(PoolConfig(0, true)) == PoolState([Chunk(0, ChunkWords)], 0)
    ensures AllocStep(Initial(PoolConfig(0, true)), 100, true)
         == Step(PoolState([Chunk(13, ChunkWords)], 0), Some(Loc(0, 0)))
  {
  }

  /** The allocator object; `chunks` and `index` are the fields the source updates in place. */
  class MemoryPool {
    var chunks: seq<Chunk>
    var index: nat
    var canExpand: bool

    function State(): PoolState
      reads this
    {
      PoolState(chunks, index)
    }

    ghost predicate Valid()
      reads this
    {
      Inv(State())
    }

    /** `MemoryPool()`: read the configuration and expand once by `pool_size` bytes. */
    constructor (config: PoolConfig)
      ensures Valid()
      ensures State() == Initial(config)
      ensures canExpand == config.canExpand
    {
      chunks := [];
      index := 0;
      canExpand := config.canExpand;
      new;
      Expand(config.poolSize);
    }

    /** `MemoryPool(bytes)`: as above, then expand by `bytes`, so a second chunk becomes current. */
    constructor WithInitialBytes(config: PoolConfig, bytes: nat)
      ensures Valid()
      ensures State() == ExpandState(Initial(config), bytes)
      ensures |chunks| == 2 && index == 1
      ensures canExpand == config.canExpand
    {
      chunks := [];
      index := 0;
      canExpand := config.canExpand;
      new;
      Expand(config.poolSize);
      Expand(bytes);
    }

    method Expand(bytes: nat)
      requires Valid()
      modifies this`chunks, this`index
      ensures Valid()
      ensures State() == ExpandState(old(State()), bytes)
    {
      var len := Max(Words(bytes), ChunkWords);
      chunks := chunks + [Chunk(0, len)];
      index := |chunks| - 1;
    }

    /** The implementation's `allocate(bytes, can_expand)`. */
    method AllocateWith(bytes: nat, mayExpand: bool) returns (r: Option<Loc>)
      requires Valid()
      modifies this`chunks, this`index
      ensures Valid()
      ensures Step(State(), r) == AllocStep(old(State()), bytes, mayExpand)
    {
      var n := (bytes + WordBytes - 1) / WordBytes;
      if index == |chunks| || chunks[index].wmark + n > chunks[index].size {
        if mayExpand {
          Expand(bytes);
        } else {
          return None;
        }
      }
      r := Some(Loc(index, chunks[index].wmark));
      chunks := chunks[index := Chunk(chunks[index].wmark + n, chunks[index].size)];
    }

    /** The public `allocate(bytes)`, which passes the configured `can_expand`. */
    method Allocate(bytes: nat) returns (r: Option<Loc>)
      requires Valid()
      modifies this`chunks, this`index
      ensures Valid() && canExpand == old(canExpand)
      ensures Step(State(), r) == AllocStep(old(State()), bytes, canExpand)
    {
      r := AllocateWith(bytes, canExpand);
    }
  }
}

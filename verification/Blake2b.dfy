/** Streaming BLAKE2b (third-party/BLAKE2/blake2b-ref.h) and the hash of a file (src/file-hash.c),
    over any compression function. The reference is the block definition in section 3.3 of RFC 7693. */
module Blake2b {
  import opened Data
  import opened Metadata

  const BLOCK: nat := 128
  const WORD: nat := 0x1_0000_0000_0000_0000
  const COUNTER: nat := 0x1_0000_0000_0000_0000_0000_0000_0000_0000

  /** The eight chained words. */
  type Chain = h: seq<U64> | |h| == 8 witness seq(8, _ => 0)

  type Block = b: Bytes | |b| == 128 witness Zeros(128)

  /** A hash function: its initial words and its compression function, which gets the two words of the
      byte counter and whether the block is the last one. */
  datatype Hasher = Hasher(initial: Chain, compress: (Chain, Block, U64, U64, bool) -> Chain)

  // ----- reference -----

  function Compress(f: Hasher, h: Chain, block: Block, count: nat, last: bool): Chain {
    f.compress(h, block, (count % COUNTER) % WORD, (count % COUNTER) / WORD, last)
  }

  /** The number of blocks before the last one: the last block is never empty, unless there is no data. */
  function FullBlocks(length: nat): nat { if length == 0 then 0 else (length - 1) / BLOCK }

  /** The words after the first n blocks. */
  function Absorbed(f: Hasher, data: Bytes, n: nat): Chain
    requires n * BLOCK <= |data|
  {
    if n == 0 then f.initial
    else Compress(f, Absorbed(f, data, n - 1), data[(n - 1) * BLOCK..n * BLOCK], n * BLOCK, false)
  }

  function Padded(rest: Bytes): Block
    requires |rest| <= BLOCK
  {
    rest + Zeros(BLOCK - |rest|)
  }

  function WordsToBytes(h: seq<U64>): (r: Bytes)
    ensures |r| == 8 * |h|
  {
    if h == [] then [] else ToLE(h[0], 8) + WordsToBytes(h[1..])
  }

  /** The words that result from data: all blocks, the last one padded with zeros and marked. */
  function FinalWords(f: Hasher, data: Bytes): Chain {
    var n := FullBlocks(|data|);
    Compress(f, Absorbed(f, data, n), Padded(data[n * BLOCK..]), |data|, true)
  }

  function Digest(f: Hasher, data: Bytes): Hash { WordsToBytes(FinalWords(f, data))[..20] }

  lemma {:induction false} AbsorbedPrefix(f: Hasher, data: Bytes, more: Bytes, n: nat)
    requires n * BLOCK <= |data|
    ensures Absorbed(f, data + more, n) == Absorbed(f, data, n)
  {
    if n > 0 {
      AbsorbedPrefix(f, data, more, n - 1);
      assert (data + more)[(n - 1) * BLOCK..n * BLOCK] == data[(n - 1) * BLOCK..n * BLOCK];
    }
  }

  /** A message of at most one block. */
  lemma {:induction false} ShortDigest(f: Hasher, data: Bytes)
    requires |data| <= 128
    ensures Digest(f, data) == WordsToBytes(f.compress(f.initial, data + Zeros(128 - |data|), |data|, 0, true))[..20]
  {
    assert data[0..] == data;
  }

  /** A message of more than one block, and at most two. */
  lemma {:induction false} TwoBlockDigest(f: Hasher, block: Block, rest: Bytes)
    requires 0 < |rest| <= 128
    ensures Digest(f, block + rest) ==
      WordsToBytes(f.compress(f.compress(f.initial, block, 128, 0, false), rest + Zeros(128 - |rest|), 128 + |rest|, 0, true))[..20]
  {
    var data := block + rest;
    assert FullBlocks(|data|) == 1;
    assert data[0..128] == block && data[128..] == rest;
    assert Absorbed(f, data, 0) == f.initial;
    assert Absorbed(f, data, 1) == Compress(f, f.initial, block, 128, false);
  }

  // ----- the counter -----

  function Counter(t0: U64, t1: U64): nat { t0 + t1 * WORD }

  /** Two words with a carry count modulo 2^128. */
  lemma {:induction false} CounterWraps(t0: U64, t1: U64, inc: U64)
    ensures var s := (t0 + inc) % WORD;
      var c := (t1 + if s < inc then 1 else 0) % WORD;
      Counter(s, c) == (Counter(t0, t1) + inc) % COUNTER
  {
    assert COUNTER == WORD * WORD;
    var s := (t0 + inc) % WORD;
    if t0 + inc < WORD {
      assert s == t0 + inc;
      assert Counter(t0, t1) + inc == s + t1 * WORD < COUNTER;
    } else {
      assert s == t0 + inc - WORD;
      if t1 + 1 < WORD {
        assert Counter(t0, t1) + inc == s + (t1 + 1) * WORD < COUNTER;
      } else {
        assert Counter(t0, t1) + inc == s + COUNTER;
      }
    }
  }

  lemma {:induction false} CounterWords(t0: U64, t1: U64)
    ensures Counter(t0, t1) % WORD == t0 && Counter(t0, t1) / WORD == t1 && Counter(t0, t1) < COUNTER
  {
  }

  lemma {:induction false} CountsOn(a: nat, b: nat)
    ensures (a % COUNTER + b) % COUNTER == (a + b) % COUNTER
  {
  }

  /** The buffer and the start of the input make up the next block. */
  lemma {:induction false} FirstBlock(data: Bytes, input: Bytes, front: Bytes, n: nat)
    requires n * BLOCK <= |data| <= (n + 1) * BLOCK && front == data[n * BLOCK..] && |input| > BLOCK - |front|
    ensures (n + 1) * BLOCK <= |data + input|
    ensures front + input[..BLOCK - |front|] == (data + input)[n * BLOCK..(n + 1) * BLOCK]
  {
  }

  /** What stays in the buffer is what follows the full blocks. */
  lemma {:induction false} LastPart(data: Bytes, input: Bytes, front: Bytes, n: nat, at: nat)
    requires |input| > 0 && at <= |input|
    requires if at == 0 then n * BLOCK <= |data| && front == data[n * BLOCK..] && |front| + |input| <= BLOCK
             else front == [] && |data| + at == n * BLOCK && at < |input| <= at + BLOCK
    ensures n == FullBlocks(|data + input|) && n * BLOCK <= |data + input|
    ensures front + input[at..] == (data + input)[n * BLOCK..] && |front + input[at..]| <= BLOCK
  {
  }

  class State {
    const f: Hasher
    var h: Chain
    var t0: U64
    var t1: U64
    const buf: array<Byte>
    var buflen: nat

    /** blake2b_init() */
    constructor (f: Hasher)
      ensures this.f == f && fresh(buf) && Represents([])
    {
      this.f, h, t0, t1, buflen := f, f.initial, 0, 0, 0;
      buf := new Byte[128](_ => 0);
    }

    /** The state that results from absorbing data, however it was cut into pieces. */
    ghost predicate Represents(data: Bytes) reads this, buf {
      var n := FullBlocks(|data|);
      && buf.Length == 128
      && n * BLOCK <= |data|
      && h == Absorbed(f, data, n)
      && Counter(t0, t1) == (n * BLOCK) % COUNTER
      && buflen == |data| - n * BLOCK <= BLOCK && buf[..buflen] == data[n * BLOCK..]
    }

    /** blake2b_increment_counter() */
    method IncrementCounter(inc: U64)
      modifies this`t0, this`t1
      ensures Counter(t0, t1) == (old(Counter(t0, t1)) + inc) % COUNTER
    {
      CounterWraps(t0, t1, inc);
      t0 := (t0 + inc) % WORD;
      t1 := (t1 + if t0 < inc then 1 else 0) % WORD;
    }

    /** blake2b_compress() */
    method CompressBlock(block: Block, last: bool, ghost count: nat)
      requires Counter(t0, t1) == count % COUNTER
      modifies this`h
      ensures h == Compress(f, old(h), block, count, last)
    {
      CounterWords(t0, t1);
      h := f.compress(h, block, t0, t1, last);
    }

    /** memcpy() into the buffer */
    method Fill(at: nat, data: Bytes)
      requires buf.Length == 128 && at + |data| <= 128
      modifies buf
      ensures buf[..at] == old(buf[..at]) && buf[at..at + |data|] == data && buf[at + |data|..] == old(buf[at + |data|..])
    {
      var i := 0;
      while i < |data|
        invariant 0 <= i <= |data|
        invariant forall j :: 0 <= j < i ==> buf[at + j] == data[j]
        invariant forall j :: 0 <= j < 128 && !(at <= j < at + i) ==> buf[j] == old(buf[j])
      {
        buf[at + i] := data[i];
        i := i + 1;
      }
    }

    /** Counting and compressing one block that is not the last. */
    method AbsorbBlock(ghost all: Bytes, ghost n: nat, block: Block)
      requires (n + 1) * BLOCK <= |all| && block == all[n * BLOCK..(n + 1) * BLOCK]
      requires h == Absorbed(f, all, n) && Counter(t0, t1) == (n * BLOCK) % COUNTER
      modifies this`h, this`t0, this`t1
      ensures h == Absorbed(f, all, n + 1) && Counter(t0, t1) == ((n + 1) * BLOCK) % COUNTER
    {
      IncrementCounter(BLOCK);
      CountsOn(n * BLOCK, BLOCK);
      CompressBlock(block, false, (n + 1) * BLOCK);
    }

    /** The loop over the blocks that need not go through the buffer. */
    method AbsorbBlocks(ghost all: Bytes, ghost first: nat, input: Bytes, start: nat) returns (at: nat, ghost n: nat)
      requires start < |input| <= |all| && |all| - |input| + start == first * BLOCK && all[|all| - |input|..] == input
      requires h == Absorbed(f, all, first) && Counter(t0, t1) == (first * BLOCK) % COUNTER
      modifies this`h, this`t0, this`t1
      ensures at < |input| <= at + BLOCK && |all| - |input| + at == n * BLOCK
      ensures h == Absorbed(f, all, n) && Counter(t0, t1) == (n * BLOCK) % COUNTER
    {
      hide Absorbed, Counter;
      at, n := start, first;
      ghost var before := |all| - |input|;
      while |input| - at > BLOCK
        invariant at < |input| && before + at == n * BLOCK
        invariant h == Absorbed(f, all, n) && Counter(t0, t1) == (n * BLOCK) % COUNTER
      {
        assert input[at..at + BLOCK] == all[before..][at..at + BLOCK] == all[n * BLOCK..(n + 1) * BLOCK];
        AbsorbBlock(all, n, input[at..at + BLOCK]);
        at, n := at + BLOCK, n + 1;
      }
    }

    /** The part of blake2b_update() that empties the buffer. */
    method PassBuffer(ghost data: Bytes, input: Bytes) returns (at: nat, ghost n: nat)
      requires Represents(data) && |input| > BLOCK - buflen
      modifies this`h, this`t0, this`t1, this`buflen, buf
      ensures buflen == 0 && at < |input| <= at + BLOCK && |data| + at == n * BLOCK
      ensures h == Absorbed(f, data + input, n) && Counter(t0, t1) == (n * BLOCK) % COUNTER
    {
      hide Absorbed, Counter;
      ghost var all := data + input;
      n := FullBlocks(|data|);
      hide FullBlocks;
      AbsorbedPrefix(f, data, input, n);
      var fill := BLOCK - buflen;
      FirstBlock(data, input, buf[..buflen], n);
      Fill(buflen, input[..fill]);
      assert buf[..] == buf[..buflen] + buf[buflen..buflen + fill];
      buflen := 0;
      AbsorbBlock(all, n, buf[..]);
      assert all[|all| - |input|..] == input;
      at, n := AbsorbBlocks(all, n + 1, input, fill);
    }

    /** blake2b_update() */
    method Update(ghost data: Bytes, input: Bytes)
      requires Represents(data)
      modifies this`h, this`t0, this`t1, this`buflen, buf
      ensures Represents(data + input)
    {
      hide Absorbed, Counter;
      ghost var n := FullBlocks(|data|);
      hide FullBlocks;
      if |input| == 0 {
        assert data + input == data;
        return;
      }
      var at := 0;
      AbsorbedPrefix(f, data, input, n);
      if |input| > BLOCK - buflen { at, n := PassBuffer(data, input); }
      ghost var front := buf[..buflen];
      Fill(buflen, input[at..]);
      assert buf[..buflen + (|input| - at)] == front + input[at..];
      LastPart(data, input, front, n, at);
      buflen := buflen + (|input| - at);
    }

    /** blake2b_final() with the length that src/file-hash.c asks for. */
    method Final(ghost data: Bytes) returns (out: Hash)
      requires Represents(data)
      modifies this`h, this`t0, this`t1, buf
      ensures out == Digest(f, data)
    {
      ghost var n := FullBlocks(|data|);
      IncrementCounter(buflen);
      CountsOn(n * BLOCK, buflen);
      Fill(buflen, Zeros(BLOCK - buflen));
      assert buf[..] == Padded(data[n * BLOCK..]);
      CompressBlock(buf[..], true, |data|);
      out := WordsToBytes(h)[..20];
    }
  }

  function Joined(chunks: seq<Bytes>): Bytes { if chunks == [] then [] else chunks[0] + Joined(chunks[1..]) }

  /** However a message is cut into pieces, the digest is that of the whole message. */
  method HashChunks(f: Hasher, chunks: seq<Bytes>) returns (out: Hash)
    ensures out == Digest(f, Joined(chunks))
  {
    var state := new State(f);
    ghost var data := [];
    var i := 0;
    assert chunks[0..] == chunks && [] + Joined(chunks) == Joined(chunks);
    while i < |chunks|
      invariant 0 <= i <= |chunks|
      invariant fresh(state) && fresh(state.buf) && state.f == f && state.Represents(data)
      invariant data + Joined(chunks[i..]) == Joined(chunks)
    {
      assert chunks[i..][0] == chunks[i] && chunks[i..][1..] == chunks[i + 1..];
      assert data + (chunks[i] + Joined(chunks[i + 1..])) == data + chunks[i] + Joined(chunks[i + 1..]);
      state.Update(data, chunks[i]);
      data := data + chunks[i];
      i := i + 1;
    }
    assert data + [] == data;
    out := state.Final(data);
  }

  /** fileHash(): the digest of the content, whatever the block size, and the progress it reports. None
      if the file does not have the size it was found with. */
  method FileHash(f: Hasher, content: Content, size: U64, blocksize: nat) returns (hash: Option<Hash>, progress: nat)
    requires blocksize > 0
    ensures hash == if size == |content| then Some(Digest(f, content)) else None
    ensures hash.Some? ==> progress == size
  {
    var state := new State(f);
    ghost var data: Bytes := [];
    var bytesLeft := size;
    progress := 0;
    while bytesLeft > 0
      invariant 0 <= bytesLeft <= size && size - bytesLeft <= |content|
      invariant fresh(state) && fresh(state.buf) && state.f == f && state.Represents(data)
      invariant data == content[..size - bytesLeft] && progress == size - bytesLeft
    {
      var n := if bytesLeft > blocksize then blocksize else bytesLeft;
      var at := size - bytesLeft;
      if at + n > |content| { return None, progress; }
      state.Update(data, content[at..at + n]);
      data := data + content[at..at + n];
      bytesLeft := bytesLeft - n;
      progress := progress + n;
    }
    if size < |content| { return None, progress; }
    assert data == content;
    var out := state.Final(data);
    hash := Some(out);
  }
}

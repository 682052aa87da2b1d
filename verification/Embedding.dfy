/** Embedding: the engine's pooled row where the model pools, and otherwise the mean of
  the token rows, accumulated chunk by chunk.  Arithmetic is over the reals. */
module Embedding {
  import opened Engine

  /** `row(h, d)` is component `d` of the last token's row after history `h`, and
      `pooled` the row of a whole sequence.  `rowFits` and `pooledFits` say whether the
      engine hands out a row of the expected width. */
  datatype Embedder = Embedder(
    width: int,
    row: (seq<Token>, nat) -> real,
    pooled: (seq<Token>, nat) -> real,
    rowFits: seq<Token> -> bool,
    pooledFits: seq<Token> -> bool)

  datatype EmbedError = NotEmbeddingSession | EmptyInput | BadOutput | TooLong(got: nat, max: nat) | DecodeFailed(status: int)

  datatype Result = Ok(row: seq<real>) | Err(error: EmbedError)

  const EMBED_CHUNK: nat := 512

  // ---- The reference ----

  /** Component `d`, summed over the rows the first `n` tokens have in one decode of all. */
  function RowSum(e: Embedder, tokens: seq<Token>, d: nat, n: nat): real
    requires n <= |tokens|
  {
    if n == 0 then 0.0 else RowSum(e, tokens, d, n - 1) + e.row(tokens[..n], d)
  }

  ghost predicate IsMean(e: Embedder, tokens: seq<Token>, row: seq<real>) {
    && tokens != [] && |row| == e.width
    && forall d :: 0 <= d < |row| ==> row[d] * (|tokens| as real) == RowSum(e, tokens, d, |tokens|)
  }

  ghost predicate IsPooled(e: Embedder, tokens: seq<Token>, row: seq<real>) {
    |row| == e.width && forall d :: 0 <= d < |row| ==> row[d] == e.pooled(tokens, d)
  }

  /** What goes wrong with one decode of the whole input, if anything does. */
  function PooledTrouble(e: Embedder, status: nat -> int, tokens: seq<Token>, nBatch: nat, call: nat): Result {
    if |tokens| > nBatch then Err(TooLong(|tokens|, nBatch))
    else if status(call) != 0 then Err(DecodeFailed(status(call)))
    else if !e.pooledFits(tokens) then Err(BadOutput)
    else Ok([])
  }

  /** The first thing that goes wrong from token `done` and decode call `call` on, if
      anything does. */
  ghost function Trouble(e: Embedder, status: nat -> int, tokens: seq<Token>, chunk: nat, call: nat, done: nat): Result
    requires 0 < chunk && done <= |tokens|
    decreases |tokens| - done
  {
    var end := if done + chunk < |tokens| then done + chunk else |tokens|;
    if done == |tokens| then Ok([])
    else if status(call) != 0 then Err(DecodeFailed(status(call)))
    else if exists n :: done < n <= end && !e.rowFits(tokens[..n]) then Err(BadOutput)
    else Trouble(e, status, tokens, chunk, call + 1, end)
  }

  /** The number of chunks that `n` tokens make. */
  function Chunks(n: nat, chunk: nat): nat
    requires 0 < chunk
  {
    if n == 0 then 0 else if n <= chunk then 1 else 1 + Chunks(n - chunk, chunk)
  }

  ghost predicate AllSucceed(status: nat -> int, call: nat, n: nat) {
    forall k :: call <= k < call + n ==> status(k) == 0
  }

  ghost predicate AllFit(e: Embedder, tokens: seq<Token>, from: nat, to: nat)
    requires to <= |tokens|
  {
    forall n :: from < n <= to ==> e.rowFits(tokens[..n])
  }

  /** Nothing goes wrong exactly if the call of every chunk succeeds and every row fits. */
  lemma {:induction false} NoTroubleIff(e: Embedder, status: nat -> int, tokens: seq<Token>, chunk: nat, call: nat, done: nat)
    requires 0 < chunk && done <= |tokens|
    ensures Trouble(e, status, tokens, chunk, call, done).Ok? <==>
              AllSucceed(status, call, Chunks(|tokens| - done, chunk)) && AllFit(e, tokens, done, |tokens|)
    decreases |tokens| - done
  {
    if done < |tokens| {
      var end := if done + chunk < |tokens| then done + chunk else |tokens|;
      NoTroubleIff(e, status, tokens, chunk, call + 1, end);
      var left := Chunks(|tokens| - end, chunk);
      assert Chunks(|tokens| - done, chunk) == 1 + left;
      assert AllSucceed(status, call, 1 + left) <==> status(call) == 0 && AllSucceed(status, call + 1, left) by {
        OneMoreCall(status, call, left);
      }
      assert AllFit(e, tokens, done, |tokens|) <==> AllFit(e, tokens, done, end) && AllFit(e, tokens, end, |tokens|);
    }
  }

  lemma OneMoreCall(status: nat -> int, call: nat, n: nat)
    ensures AllSucceed(status, call, 1 + n) <==> status(call) == 0 && AllSucceed(status, call + 1, n)
  {
  }

  /** A chunk is a batch, but no more than 512 tokens. */
  function Chunk(nBatch: nat): (c: nat)
    ensures c <= nBatch && c <= 512 && (c == nBatch || c == 512)
  {
    if nBatch < EMBED_CHUNK then nBatch else EMBED_CHUNK
  }

  class EmbedSession {
    const e: Embedder
    const embeddings: bool
    const pooling: int
    const nBatch: nat
    /** The status of each decode call, by its number. */
    const status: nat -> int
    /** The decoded history, and how much of it the last call found there. */
    var kv: seq<Token>
    var found: nat
    var calls: nat

    constructor (e: Embedder, embeddings: bool, pooling: int, nBatch: nat, status: nat -> int)
      ensures this.e == e && this.embeddings == embeddings && this.pooling == pooling
      ensures this.nBatch == nBatch && this.status == status && kv == [] && calls == 0
    {
      this.e, this.embeddings, this.pooling, this.nBatch, this.status := e, embeddings, pooling, nBatch, status;
      kv, found, calls := [], 0, 0;
    }

    method Decode(chunk: seq<Token>) returns (st: int)
      modifies this
      ensures st == status(old(calls)) && calls == old(calls) + 1
      ensures st == 0 ==> kv == old(kv) + chunk && found == |old(kv)|
    {
      st := status(calls);
      calls := calls + 1;
      if st == 0 {
        kv, found := kv + chunk, |kv|;
      }
    }

    /** Add the rows of the last decoded chunk to the accumulator. */
    method AddRows(tokens: seq<Token>, acc: array<real>, n: nat) returns (ok: bool)
      requires found + n <= |tokens| && kv == tokens[..found + n] && acc.Length == e.width
      requires forall d :: 0 <= d < acc.Length ==> acc[d] == RowSum(e, tokens, d, found)
      modifies acc
      ensures ok <==> forall m :: found < m <= found + n ==> e.rowFits(tokens[..m])
      ensures ok ==> forall d :: 0 <= d < acc.Length ==> acc[d] == RowSum(e, tokens, d, found + n)
    {
      for i := 0 to n
        invariant forall m :: found < m <= found + i ==> e.rowFits(tokens[..m])
        invariant forall d :: 0 <= d < acc.Length ==> acc[d] == RowSum(e, tokens, d, found + i)
      {
        var history := kv[..found + i + 1];
        assert history == tokens[..found + i + 1];
        if !e.rowFits(history) {
          return false;
        }
        for d := 0 to acc.Length
          invariant forall c :: 0 <= c < d ==> acc[c] == RowSum(e, tokens, c, found + i + 1)
          invariant forall c :: d <= c < acc.Length ==> acc[c] == RowSum(e, tokens, c, found + i)
        {
          acc[d] := acc[d] + e.row(history, d);
        }
      }
      ok := true;
    }

    /** The pooled path: one decode, so the input has to fit a batch. */
    method EmbedPooled(tokens: seq<Token>) returns (r: Result)
      requires tokens != [] && kv == [] && 0 < e.width
      modifies this
      ensures var trouble := PooledTrouble(e, status, tokens, nBatch, old(calls));
              if trouble.Err? then r == trouble
              else r.Ok? && IsPooled(e, tokens, r.row) && kv == tokens
      ensures r.Ok? <==> |tokens| <= nBatch && status(old(calls)) == 0 && e.pooledFits(tokens)
      ensures |tokens| > nBatch ==> r == Err(TooLong(|tokens|, nBatch)) && calls == old(calls)
    {
      if |tokens| > nBatch {
        return Err(TooLong(|tokens|, nBatch));
      }
      var st := Decode(tokens);
      if st != 0 {
        return Err(DecodeFailed(st));
      }
      assert kv == tokens;
      if !e.pooledFits(tokens) {
        return Err(BadOutput);
      }
      r := Ok(seq(e.width, d requires 0 <= d < e.width => e.pooled(tokens, d)));
    }

    /** The chunk loop: decode a chunk, add its rows, go on. */
    method Accumulate(tokens: seq<Token>, acc: array<real>) returns (r: Result)
      requires kv == [] && 0 < nBatch && acc.Length == e.width
      requires forall d :: 0 <= d < acc.Length ==> acc[d] == 0.0
      modifies this, acc
      ensures r == Trouble(e, status, tokens, Chunk(nBatch), old(calls), 0)
      ensures r.Ok? ==> kv == tokens && forall d :: 0 <= d < acc.Length ==> acc[d] == RowSum(e, tokens, d, |tokens|)
    {
      var chunk := Chunk(nBatch);
      ghost var trouble := Trouble(e, status, tokens, chunk, calls, 0);
      var done := 0;
      while done < |tokens|
        invariant done <= |tokens| && kv == tokens[..done]
        invariant trouble == Trouble(e, status, tokens, chunk, calls, done)
        invariant forall d :: 0 <= d < acc.Length ==> acc[d] == RowSum(e, tokens, d, done)
      {
        var end := if done + chunk < |tokens| then done + chunk else |tokens|;
        var st := Decode(tokens[done..end]);
        if st != 0 {
          return Err(DecodeFailed(st));
        }
        assert kv == tokens[..end];
        var ok := AddRows(tokens, acc, end - done);
        if !ok {
          return Err(BadOutput);
        }
        done := end;
      }
      assert tokens[..done] == tokens;
      r := Ok([]);
    }

    /** The mean path: whatever the batch size, the result is the mean of the rows the
        tokens have in one decode of the whole input. */
    method EmbedMean(tokens: seq<Token>) returns (r: Result)
      requires tokens != [] && kv == [] && 0 < e.width && 0 < nBatch
      modifies this
      ensures var trouble := Trouble(e, status, tokens, Chunk(nBatch), old(calls), 0);
              if trouble.Err? then r == trouble
              else r.Ok? && IsMean(e, tokens, r.row) && kv == tokens
      ensures r.Ok? <==> AllSucceed(status, old(calls), Chunks(|tokens|, Chunk(nBatch))) && AllFit(e, tokens, 0, |tokens|)
    {
      NoTroubleIff(e, status, tokens, Chunk(nBatch), calls, 0);
      var acc := new real[e.width](_ => 0.0);
      r := Accumulate(tokens, acc);
      if r.Ok? {
        var out := Scaled(acc, |tokens|);
        r := Ok(out);
      }
    }

    method Embed(tokens: seq<Token>) returns (r: Result)
      requires 0 < nBatch
      modifies this
      ensures !embeddings ==> r == Err(NotEmbeddingSession)
      ensures embeddings && tokens == [] ==> r == Err(EmptyInput)
      ensures embeddings && tokens != [] && e.width <= 0 ==> r == Err(BadOutput)
      ensures (!embeddings || tokens == [] || e.width <= 0) ==> kv == old(kv) && calls == old(calls)
      ensures embeddings && tokens != [] && 0 < e.width ==>
                if pooling > 0 then
                  var trouble := PooledTrouble(e, status, tokens, nBatch, old(calls));
                  if trouble.Err? then r == trouble
                  else r.Ok? && IsPooled(e, tokens, r.row) && kv == tokens
                else
                  var trouble := Trouble(e, status, tokens, Chunk(nBatch), old(calls), 0);
                  if trouble.Err? then r == trouble
                  else r.Ok? && IsMean(e, tokens, r.row) && kv == tokens
      ensures embeddings && tokens != [] && 0 < e.width ==>
                (r.Ok? <==>
                 if pooling > 0 then |tokens| <= nBatch && status(old(calls)) == 0 && e.pooledFits(tokens)
                 else AllSucceed(status, old(calls), Chunks(|tokens|, Chunk(nBatch))) && AllFit(e, tokens, 0, |tokens|))
    {
      if !embeddings {
        return Err(NotEmbeddingSession);
      }
      if tokens == [] {
        return Err(EmptyInput);
      }
      if e.width <= 0 {
        return Err(BadOutput);
      }
      kv, found := [], 0;
      if pooling > 0 {
        r := EmbedPooled(tokens);
      } else {
        r := EmbedMean(tokens);
      }
    }
  }

  lemma Rescaled(a: real, n: real)
    requires n > 0.0
    ensures a * (1.0 / n) * n == a
  {
    assert (1.0 / n) * n == 1.0;
    assert a * (1.0 / n) * n == a * ((1.0 / n) * n);
  }

  /** Every component over the number of tokens. */
  method Scaled(acc: array<real>, n: nat) returns (out: seq<real>)
    requires 0 < n
    ensures |out| == acc.Length && forall d :: 0 <= d < |out| ==> out[d] * (n as real) == acc[d]
  {
    var inv := 1.0 / (n as real);
    var row := new real[acc.Length](_ => 0.0);
    for d := 0 to acc.Length
      invariant forall c :: 0 <= c < d ==> row[c] * (n as real) == acc[c]
    {
      Rescaled(acc[d], n as real);
      row[d] := acc[d] * inv;
    }
    out := row[..];
  }

  /** The mean is one vector: two chunkings of the same input cannot differ. */
  lemma MeanIsUnique(e: Embedder, tokens: seq<Token>, a: seq<real>, b: seq<real>)
    requires IsMean(e, tokens, a) && IsMean(e, tokens, b)
    ensures a == b
  {
    forall d | 0 <= d < |a| ensures a[d] == b[d] {
      assert (a[d] - b[d]) * (|tokens| as real) == 0.0;
    }
  }
}

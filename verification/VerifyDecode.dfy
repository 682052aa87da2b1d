/** The verify decode of a speculative round: a batch that continues one sequence by its
  pending token and the drafts. */
module VerifyDecodes {
  import opened Options
  import opened Engine
  import opened Batches
  import opened Interleaving
  import opened MultiSessions
  import Speculation

  /** `toks` at the next positions of sequence `s`, each asking for its logits. */
  function Continuation(kv: Histories, s: SeqId, toks: seq<Token>): (es: seq<Entry>)
    ensures |es| == |toks|
    ensures forall i :: 0 <= i < |toks| ==> es[i] == Entry(toks[i], |Hist(kv, s)| + i, s, true)
  {
    seq(|toks|, i requires 0 <= i < |toks| => Entry(toks[i], |Hist(kv, s)| + i, s, true))
  }

  lemma {:induction false} OfSame(entries: seq<Entry>, s: SeqId)
    requires forall i :: 0 <= i < |entries| ==> entries[i].seqId == s
    ensures Of(entries, s) == entries
    decreases |entries|
  {
    if entries != [] {
      OfSame(entries[..|entries| - 1], s);
    }
  }

  lemma OfContinuation(kv: Histories, s: SeqId, toks: seq<Token>, p: nat)
    requires p <= |toks|
    ensures Of(Continuation(kv, s, toks)[..p], s) == Continuation(kv, s, toks)[..p]
    ensures Tokens(Continuation(kv, s, toks)[..p]) == toks[..p]
  {
    OfSame(Continuation(kv, s, toks)[..p], s);
  }

  lemma ContinuationFollows(kv: Histories, s: SeqId, toks: seq<Token>, i: nat)
    requires i < |toks|
    ensures Follows(Continuation(kv, s, toks)[..i], Continuation(kv, s, toks)[i])
    ensures Continuation(kv, s, toks)[..i + 1] == Continuation(kv, s, toks)[..i] + [Continuation(kv, s, toks)[i]]
  {
    OfContinuation(kv, s, toks, i);
  }

  /** The engine takes such a batch, and appends its tokens to that sequence. */
  lemma {:induction false} ContinuationIsFed(kv: Histories, s: SeqId, toks: seq<Token>, p: nat)
    requires p <= |toks|
    ensures var es := Continuation(kv, s, toks)[..p];
            Feed(kv, es).Some? && Hist(Feed(kv, es).value, s) == Hist(kv, s) + toks[..p]
    decreases p
  {
    var es := Continuation(kv, s, toks);
    OfContinuation(kv, s, toks, p);
    if p > 0 {
      ContinuationIsFed(kv, s, toks, p - 1);
      assert es[..p][..p - 1] == es[..p - 1];
    }
    FeedAppends(kv, es[..p], s);
  }

  /** Its i-th row is the logits after the history and its first i + 1 tokens. */
  lemma ContinuationRow(m: Model, kv: Histories, s: SeqId, toks: seq<Token>, i: nat)
    requires i < |toks|
    ensures Row(m, kv, Continuation(kv, s, toks), i) == m.logits(Hist(kv, s) + toks[..i + 1])
  {
    var es := Continuation(kv, s, toks);
    ContinuationIsFed(kv, s, toks, |toks|);
    assert es[..|toks|] == es;
    RowIsFed(m, kv, es, i);
    ContinuationIsFed(kv, s, toks, i + 1);
  }

  /** The rows of a verify decode are the target's own. */
  lemma VerifyRowsAreGenuine(m: Model, kv: Histories, s: SeqId, tok: Token, drafts: seq<Token>, rows: seq<Logits>)
    requires |rows| == 1 + |drafts|
    requires forall i :: 0 <= i < |rows| ==> rows[i] == Row(m, kv, Continuation(kv, s, [tok] + drafts), i)
    ensures Speculation.Genuine(m, Hist(kv, s) + [tok], drafts, rows)
  {
    forall i | 0 <= i <= |drafts|
      ensures rows[i] == m.logits(Hist(kv, s) + [tok] + drafts[..i])
    {
      ContinuationRow(m, kv, s, [tok] + drafts, i);
      assert ([tok] + drafts)[..i + 1] == [tok] + drafts[..i];
      assert Hist(kv, s) + ([tok] + drafts[..i]) == Hist(kv, s) + [tok] + drafts[..i];
    }
  }

  /** One sequence's batch is a single-session decode: its last row and its history are
      what a healthy decode of the same tokens, however chunked, leaves. */
  lemma LastRowIsDecode(m: Model, link: Link, nBatch: nat, st: State, kv: Histories, s: SeqId, toks: seq<Token>)
    requires 0 < nBatch && toks != [] && !st.dead && Clean(link, st.calls) && st.kv == Hist(kv, s)
    ensures var es := Continuation(kv, s, toks);
            var left := Decode(m, link, nBatch, st, toks);
            && left.Some? && Feed(kv, es).Some?
            && left.value.logits == Row(m, kv, es, |toks| - 1)
            && left.value.kv == Hist(Feed(kv, es).value, s)
  {
    var es := Continuation(kv, s, toks);
    ChunkingIsInvisible(m, link, nBatch, st, toks);
    ContinuationRow(m, kv, s, toks, |toks| - 1);
    ContinuationIsFed(kv, s, toks, |toks|);
    assert es[..|toks|] == es && toks[..|toks|] == toks;
  }

  /** Queue the i-th token of a round. */
  method QueueNext(batch: Batch, ghost kv: Histories, ghost toks: seq<Token>, i: nat, token: Token, pos: nat, seqId: SeqId)
    returns (r: Pushed)
    requires batch.Valid() && i < |toks| && token == toks[i] && pos == |Hist(kv, seqId)| + i
    requires batch.Entries() == Continuation(kv, seqId, toks)[..i]
    modifies batch, batch.slots
    ensures batch.Valid()
    ensures r.Index? <==> i < batch.capacity && 0 <= seqId < batch.nSeqMax
    ensures r.Index? ==> batch.Entries() == Continuation(kv, seqId, toks)[..i + 1]
  {
    hide Summarised, Noted, Follows, Of, Hist;
    ContinuationFollows(kv, seqId, toks, i);
    assert batch.nTokens == |batch.Entries()|;
    r := batch.Push(token, pos, seqId, true);
  }

  /** Queue a round: the pending token and the drafts, from where the sequence ends. */
  method QueueVerify(batch: Batch, kv: Histories, seqId: SeqId, tok: Token, drafts: seq<Token>) returns (r: Pushed)
    requires batch.Valid()
    modifies batch, batch.slots
    ensures batch.Valid()
    ensures r.Index? <==> 1 + |drafts| <= batch.capacity && 0 <= seqId < batch.nSeqMax
    ensures r.Index? ==> batch.Entries() == Continuation(kv, seqId, [tok] + drafts)
  {
    hide Summarised, Hist;
    var confirmed := |Hist(kv, seqId)|;
    ghost var toks := [tok] + drafts;
    batch.Clear();
    r := QueueNext(batch, kv, toks, 0, tok, confirmed, seqId);
    if !r.Index? {
      return r;
    }
    for i := 0 to |drafts|
      invariant batch.Valid() && r.Index? && i < batch.capacity
      invariant batch.Entries() == Continuation(kv, seqId, toks)[..i + 1]
    {
      r := QueueNext(batch, kv, toks, i + 1, drafts[i], confirmed + 1 + i, seqId);
      if !r.Index? {
        return r;
      }
    }
    assert Continuation(kv, seqId, toks)[..|drafts| + 1] == Continuation(kv, seqId, toks);
  }

  /** Queue a round and decode it: a decode that succeeds yields the target's own rows,
      which is what `ProcessSpecStep` settles the round on. */
  method VerifyDecode(session: MultiSession, batch: Batch, seqId: SeqId, tok: Token, drafts: seq<Token>, up: bool)
    returns (r: Decoded)
    requires batch.Valid()
    modifies session, batch, batch.slots
    ensures batch.Valid()
    ensures r == Done <==> up && 1 + |drafts| <= batch.capacity && 0 <= seqId < batch.nSeqMax
    ensures r == Done ==>
              && Speculation.Genuine(session.model, Hist(old(session.kv), seqId) + [tok], drafts, session.rows)
              && Hist(session.kv, seqId) == Hist(old(session.kv), seqId) + ([tok] + drafts)
    ensures r != Asserted
  {
    ghost var kv := session.kv;
    ghost var toks := [tok] + drafts;
    var queued := QueueVerify(batch, session.kv, seqId, tok, drafts);
    if !queued.Index? {
      return Failed;
    }
    ContinuationIsFed(kv, seqId, toks, |toks|);
    assert batch.Entries()[..|toks|] == batch.Entries() && toks[..|toks|] == toks;
    CheckIsExact(kv, batch.Entries(), batch.spans);
    r := session.DecodeBatch(batch, up);
    if r == Done {
      VerifyRowsAreGenuine(session.model, kv, seqId, tok, drafts, session.rows);
    }
  }
}

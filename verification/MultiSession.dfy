/** The multi-sequence half of `Session`: decoding a `Batch` and one decode step. */
module MultiSessions {
  import opened Options
  import opened Engine
  import opened Batches
  import opened Interleaving

  datatype Decoded = Done | Failed | Asserted

  datatype StepResult = Drawn(tokens: seq<Token>) | BatchFull | BatchSeqId | StepFailed | StepAsserted

  /** What queueing a step from its i-th token on comes to: the first refusal in input
      order, or the index of the last token. */
  ghost function Queued(steps: seq<SeqToken>, capacity: nat, nSeqMax: int, i: nat): Pushed
    requires 0 < |steps| && i <= |steps|
    decreases |steps| - i
  {
    if i == |steps| then Index(i - 1)
    else if capacity <= i then Full
    else if !(0 <= steps[i].seqId < nSeqMax) then BadSeqId
    else if exists j :: 0 <= j < i && steps[j].seqId == steps[i].seqId then Tripped
    else Queued(steps, capacity, nSeqMax, i + 1)
  }

  ghost function StepOutcome(q: Pushed, up: bool, tokens: seq<Token>): StepResult {
    match q
    case Full => BatchFull
    case BadSeqId => BatchSeqId
    case Tripped => StepAsserted
    case Index(_) => if up then Drawn(tokens) else StepFailed
  }

  class MultiSession {
    const model: Model
    var kv: Histories
    var chain: Chain
    /** The logits of the last decoded batch, by batch index. */
    var rows: seq<Logits>

    /** Decode a batch in one engine call; `up` is whether the engine succeeds. The
        check is `decode_batch`'s debug assertion. */
    method DecodeBatch(batch: Batch, up: bool) returns (r: Decoded)
      requires batch.Valid()
      modifies this`kv, this`rows
      ensures r == if !Continues(old(kv), batch.spans) then Asserted
                   else if batch.Entries() == [] || !up then Failed else Done
      ensures r == Asserted ==> kv == old(kv)
      ensures r == Done ==>
                && Some(kv) == Feed(old(kv), batch.Entries()) && |rows| == |batch.Entries()|
                && forall i :: 0 <= i < |rows| ==> rows[i] == Row(model, old(kv), batch.Entries(), i)
    {
      if !Continues(kv, batch.spans) {
        return Asserted;
      }
      var entries := batch.slots[..batch.nTokens];
      if entries == [] || !up {
        kv := *;
        rows := *;
        return Failed;
      }
      CheckIsExact(kv, entries, batch.spans);
      var before := kv;
      rows := seq(|entries|, i requires 0 <= i < |entries| => Row(model, before, entries, i));
      kv := Feed(kv, entries).value;
      return Done;
    }

    method SampleIth(i: nat) returns (tok: Token)
      requires i < |rows|
      modifies this`chain
      ensures (chain, tok) == model.sample(old(chain), rows[i])
    {
      var (next, drawn) := model.sample(chain, rows[i]);
      chain := next;
      return drawn;
    }

    /** Queue a step's tokens, each at its sequence's next position. */
    method QueueStep(batch: Batch, steps: seq<SeqToken>) returns (r: Pushed)
      requires batch.Valid() && steps != []
      modifies batch, batch.slots
      ensures batch.Valid()
      ensures r == Queued(steps, batch.capacity, batch.nSeqMax, 0)
      ensures r.Index? ==> OncePerStep(steps) && batch.Entries() == StepEntries(kv, steps)
    {
      hide Summarised, Noted;
      ghost var entries := StepEntries(kv, steps);
      batch.Clear();
      r := Index(0);
      for i := 0 to |steps|
        invariant batch.Valid() && batch.Entries() == entries[..i] && OncePerStep(steps[..i])
        invariant r == Index(if i == 0 then 0 else i - 1)
        invariant Queued(steps, batch.capacity, batch.nSeqMax, 0) == Queued(steps, batch.capacity, batch.nSeqMax, i)
      {
        var s := steps[i];
        var pos := |Hist(kv, s.seqId)|;
        PushNotes(kv, steps, i);
        r := batch.Push(s.token, pos, s.seqId, true);
        if !r.Index? {
          return r;
        }
        assert entries[..i + 1] == entries[..i] + [entries[i]];
        assert steps[..i + 1] == steps[..i] + [s];
      }
      assert entries[..|steps|] == entries && steps[..|steps|] == steps;
    }

    /** Sample every row of the last batch, in order. */
    method SampleRows() returns (tokens: seq<Token>)
      modifies this`chain
      ensures (chain, tokens) == SharedDraws(model, old(chain), rows)
    {
      tokens := [];
      for i := 0 to |rows|
        invariant (chain, tokens) == SharedDraws(model, old(chain), rows[..i])
      {
        var tok := SampleIth(i);
        tokens := tokens + [tok];
        assert rows[..i + 1][..i] == rows[..i];
      }
      assert rows[..|rows|] == rows;
    }

    /** One multi-sequence step: queue each token at its sequence's next position,
        decode them in one batch, and sample once per input, in input order. A
        sequence named twice trips the batch's assertion. */
    method DecodeStep(batch: Batch, steps: seq<SeqToken>, up: bool) returns (r: StepResult)
      requires batch.Valid()
      modifies this, batch, batch.slots
      ensures batch.Valid()
      ensures steps == [] ==> r == Drawn([]) && kv == old(kv) && chain == old(chain)
      ensures steps != [] ==>
                var (chain', tokens) := SharedDraws(model, old(chain), StepRows(model, old(kv), steps));
                && r == StepOutcome(Queued(steps, batch.capacity, batch.nSeqMax, 0), up, tokens)
                && chain == (if r.Drawn? then chain' else old(chain))
      ensures steps != [] && r.Drawn? ==>
                OncePerStep(steps) && Some(kv) == Feed(old(kv), StepEntries(old(kv), steps))
      ensures !r.Drawn? && !r.StepFailed? ==> kv == old(kv)
    {
      if steps == [] {
        return Drawn([]);
      }
      ghost var start := kv;
      var queued := QueueStep(batch, steps);
      if !queued.Index? {
        return if queued.Full? then BatchFull else if queued.BadSeqId? then BatchSeqId else StepAsserted;
      }
      ghost var entries := StepEntries(start, steps);
      assert Continues(start, batch.spans) by {
        StepIsFed(start, steps, |steps|);
        assert entries[..|steps|] == entries;
        CheckIsExact(start, entries, batch.spans);
      }
      var decoded := DecodeBatch(batch, up);
      if decoded != Done {
        return StepFailed;
      }
      assert rows == StepRows(model, start, steps);
      var tokens := SampleRows();
      return Drawn(tokens);
    }
  }

  /** The i-th token of a step follows in the batch exactly when its sequence is new. */
  lemma PushNotes(kv: Histories, steps: seq<SeqToken>, i: nat)
    requires i < |steps| && OncePerStep(steps[..i])
    ensures var e := StepEntries(kv, steps)[i];
            Follows(StepEntries(kv, steps)[..i], e) <==> forall j :: 0 <= j < i ==> steps[j].seqId != e.seqId
  {
    hide Of;
    var es := StepEntries(kv, steps);
    var s := steps[i].seqId;
    if j :| 0 <= j < i && steps[j].seqId == s {
      var before := steps[..i];
      assert StepEntries(kv, before) == es[..i];
      OfStep(kv, before, j);
      assert es[..i][..j + 1] == es[..j + 1];
      OfRest(es[..i], j + 1, s);
      assert Of(es[..i], s) == [es[j]];
      assert [es[j]][0].pos == es[i].pos;
    } else {
      OfAbsent(es[..i], s);
    }
  }
}

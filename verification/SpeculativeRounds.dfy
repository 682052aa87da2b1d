/** The speculative path of the engine host: building a verify round with the draft
  session and settling it after the verify decode, updating the generation and the
  draft session's KV in place. */
module SpeculativeRounds {
  import opened Options
  import opened Engine
  import opened Speculation
  import Generation

  /** Draft tokens proposed per verify round. */
  const SPEC_K: nat := 8

  /** A walk that had already accepted `i` drafts. */
  function Plus(w: Walk, i: nat): Walk {
    if w.Walked? then w.(accepted := w.accepted + i) else w
  }

  /** The draft KV follows the stream through the pending token and every draft but
      perhaps the last. */
  ghost predicate DraftFollows(draftKv: seq<Token>, kv: seq<Token>, tok: Token, drafts: seq<Token>) {
    kv + [tok] <= draftKv <= kv + [tok] + drafts && |kv| + |drafts| <= |draftKv|
  }

  /** What the draft model says after `kv`: at most `k` tokens, up to its own end token. */
  function Proposed(draft: Model, chain: Chain, kv: seq<Token>, k: nat): (toks: seq<Token>)
    ensures |toks| <= k && forall j :: 0 <= j < |toks| ==> !draft.isEog(toks[j])
    decreases k
  {
    if k == 0 then []
    else
      var (chain', tok) := draft.sample(chain, draft.logits(kv));
      if draft.isEog(tok) then [] else [tok] + Proposed(draft, chain', kv + [tok], k - 1)
  }

  /** Which is what the draft model would generate alone, for `k` tokens, if it could render
      everything. */
  lemma {:induction false} ProposedIsIdeal(draft: Model, chain: Chain, kv: seq<Token>, k: nat, emitted: seq<Token>)
    ensures var writer := draft.(renders := t => true);
            Generation.Ideal(writer, kv, draft.logits(kv), chain, k, said => false, emitted).emitted
            == emitted + Proposed(draft, chain, kv, k)
    decreases k
  {
    if k > 0 {
      var (chain', tok) := draft.sample(chain, draft.logits(kv));
      ProposedIsIdeal(draft, chain', kv + [tok], k - 1, emitted + [tok]);
      assert emitted + [tok] + Proposed(draft, chain', kv + [tok], k - 1)
          == emitted + ([tok] + Proposed(draft, chain', kv + [tok], k - 1));
    }
  }

  /** The length of a proposal: within the budget past the pending token and the batch. */
  function DraftLimit(remaining: nat, capacity: nat): (limit: nat)
    requires 0 < remaining
    ensures limit <= 8 && limit < remaining && (0 < capacity ==> limit < capacity)
    ensures limit == 8 || limit + 1 == remaining || limit + 1 == capacity || limit == capacity == 0
  {
    var room := if 0 < capacity then capacity - 1 else 0;
    var k := if SPEC_K < remaining - 1 then SPEC_K else remaining - 1;
    if room < k then room else k
  }

  /** The draft session's decode calls for a proposal: the catch-up, and each token that
      another is sampled after. */
  function DraftCalls(proposed: nat, limit: nat): nat {
    1 + if 0 < proposed == limit then limit - 1 else proposed
  }

  class Decoder {
    const target: Model
    const draft: Model
    const admits: Scan
    const distributed: bool
    /** Tokens one batch holds. */
    const capacity: nat
    const uid: nat
    var g: Gen
    var draftKv: seq<Token>
    var draftChain: Chain
    /** The generation the draft KV follows and how much of its stream it holds. */
    var synced: Option<(nat, nat)>

    /** A sync mark naming this generation describes the draft KV exactly. */
    ghost predicate InSync()
      reads this
    {
      synced.Some? && synced.value.0 == uid && synced.value.1 <= |g.kv| ==>
        draftKv == g.kv[..synced.value.1]
    }

    /** How much of the history the draft KV already holds; if its mark does not fit this
        generation, it starts over. */
    method Resume() returns (start: nat)
      requires g.Running? && InSync()
      modifies this`draftKv, this`synced
      ensures start <= |g.kv| && draftKv == g.kv[..start] && synced == None
    {
      start := 0;
      if synced.Some? && synced.value.0 == uid && synced.value.1 <= |g.kv| {
        start := synced.value.1;
      } else {
        draftKv := [];
      }
      synced := None;
    }

    /** Bring the draft KV up to the pending token and draft greedily. `up` is the
        fate of the draft session's decode calls; `None` is a draft-side failure. */
    method BuildSpecStep(up: nat -> bool) returns (drafts: Option<seq<Token>>)
      requires Live(g) && InSync()
      modifies this`draftKv, this`draftChain, this`synced
      ensures var limit := DraftLimit(g.remaining, capacity);
              var said := Proposed(draft, old(draftChain), g.kv + [g.pending.tok], limit);
              && (drafts.Some? <==> forall c :: 0 <= c < DraftCalls(|said|, limit) ==> up(c))
              && (drafts.Some? ==> drafts.value == said)
      ensures drafts.None? ==> synced == None
      ensures drafts.Some? ==>
                && |drafts.value| <= SPEC_K && |drafts.value| < g.remaining
                && (0 < capacity ==> |drafts.value| < capacity)
                && (forall j :: 0 <= j < |drafts.value| ==> !draft.isEog(drafts.value[j]))
                && DraftFollows(draftKv, g.kv, g.pending.tok, drafts.value)
                && synced == Some((uid, |draftKv|))
    {
      hide Proposed;
      var tok := g.pending.tok;
      var start := Resume();
      if !up(0) {
        return None;
      }
      draftKv := draftKv + (g.kv[start..] + [tok]);
      assert draftKv == g.kv + [tok];
      var kMax := DraftLimit(g.remaining, capacity);
      var ok, proposed, chain, kv := DraftGreedily(draft, draftChain, draftKv, kMax, up);
      draftChain, draftKv := chain, kv;
      if !ok {
        return None;
      }
      synced := Some((uid, |draftKv|));
      return Some(proposed);
    }

    /** Settle a round after its verify decode put the pending token and the drafts in the
        target KV and yielded `rows`.  The flags say whether the target's two rollbacks, of
        the rejected drafts and past a stop match, and the draft session's work.  A failed
        rollback of the target fails the generation and turns speculation off. */
    method ProcessSpecStep(drafts: seq<Token>, rows: seq<Logits>,
                           trimsRejected: bool, trimsStopped: bool, draftTrims: bool) returns (ok: bool)
      requires Live(g) && |rows| == |drafts| + 1 && |drafts| < g.remaining
      requires DraftFollows(draftKv, g.kv, g.pending.tok, drafts) && synced == Some((uid, |draftKv|))
      modifies this`g, this`draftKv, this`synced
      ensures g == TrimmedRound(target, admits, distributed, old(g), drafts, rows, trimsRejected, trimsStopped)
      ensures ok <==> !TrimFails(target, admits, old(g), drafts, rows, trimsRejected, trimsStopped)
      ensures InSync()
      ensures !ok ==> synced == None && draftKv == []
    {
      hide Accept, AbsorbAll, Confirm;
      var tok := g.pending.tok;
      var oldConfirmed := |g.kv|;
      var walk := WalkDrafts(target, g.chain, drafts, rows);
      if walk.Unrenderable? {
        g := Ended([], g.attempt, g.delivered, RenderError);
        draftKv := [];
        synced := None;
        return true;
      }
      // Roll back the rejected positions, then those past a stop match.
      var kv := g.kv + [tok] + drafts;
      var keep := oldConfirmed + 1 + walk.accepted;
      if walk.accepted < |drafts| && !trimsRejected {
        g := Ended([], g.attempt, g.delivered, RollbackError);
        draftKv := [];
        synced := None;
        return false;
      }
      kv := kv[..keep];
      var settled, kept := EmitConfirmed(admits, g, drafts[..walk.accepted]);
      if kept < 1 + walk.accepted && !trimsStopped {
        g := Ended([], settled.attempt, settled.delivered, RollbackError);
        draftKv := [];
        synced := None;
        return false;
      }
      kv := kv[..oldConfirmed + kept];
      assert kv == g.kv + ([tok] + drafts[..walk.accepted])[..kept];
      // Trim the draft KV to what was confirmed.
      var matched := if |draftKv| < |kv| then |draftKv| else |kv|;
      assert draftKv[..matched] == kv[..matched];
      if matched < |draftKv| && !draftTrims {
        draftKv := [];
        synced := None;
      } else {
        draftKv := draftKv[..matched];
        synced := Some((uid, matched));
      }
      if settled.Confirmed? {
        g := Continue(target, admits, distributed, settled, walk.chain, walk.next);
      } else {
        g := settled;
      }
      return true;
    }
  }

  /** What of a proposal has been decoded into the draft KV: all but a last token that
      nothing is sampled after. */
  function DraftDecoded(said: seq<Token>, limit: nat): seq<Token> {
    if 0 < |said| == limit then said[..limit - 1] else said
  }

  /** The drafting loop, on the draft session's chain and KV after the catch-up. */
  method DraftGreedily(draft: Model, start: Chain, base: seq<Token>, limit: nat, up: nat -> bool)
    returns (ok: bool, proposed: seq<Token>, chain: Chain, kv: seq<Token>)
    requires up(0)
    ensures var said := Proposed(draft, start, base, limit);
            && (ok <==> forall c :: 0 <= c < DraftCalls(|said|, limit) ==> up(c))
            && (ok ==> proposed == said && kv == base + DraftDecoded(said, limit))
  {
    hide Proposed;
    ghost var said := Proposed(draft, start, base, limit);
    proposed, chain, kv := [], start, base;
    ProposedOne(draft, start, base, 0);
    while |proposed| < limit
      invariant |proposed| <= limit && (|proposed| == limit ==> limit == 0)
      invariant kv == base + proposed
      invariant said == proposed + Proposed(draft, chain, kv, limit - |proposed|)
      invariant forall c :: 0 <= c <= |proposed| ==> up(c)
    {
      ProposedOne(draft, chain, kv, limit - |proposed|);
      var (next, t) := draft.sample(chain, draft.logits(kv));
      chain := next;
      if draft.isEog(t) {
        assert said == proposed;
        return true, proposed, chain, kv;
      }
      ghost var rest := Proposed(draft, chain, kv + [t], limit - |proposed| - 1);
      assert said == proposed + ([t] + rest) == (proposed + [t]) + rest;
      if |proposed| + 1 == limit {
        ProposedOne(draft, chain, kv + [t], 0);
        assert said[..limit - 1] == proposed;
        return true, proposed + [t], chain, kv;
      }
      if !up(|proposed| + 1) {
        assert |proposed| + 1 < DraftCalls(|said|, limit);
        return false, proposed, chain, kv;
      }
      proposed := proposed + [t];
      assert base + proposed == kv + [t];
      kv := kv + [t];
    }
    assert base + [] == base;
    ok := true;
  }

  lemma ProposedOne(draft: Model, chain: Chain, kv: seq<Token>, k: nat)
    ensures Proposed(draft, chain, kv, 0) == []
    ensures var (chain', tok) := draft.sample(chain, draft.logits(kv));
            0 < k ==> Proposed(draft, chain, kv, k)
                      == if draft.isEog(tok) then [] else [tok] + Proposed(draft, chain', kv + [tok], k - 1)
  {
  }

  /** The acceptance walk over the verify decode's rows. */
  method WalkDrafts(m: Model, start: Chain, drafts: seq<Token>, rows: seq<Logits>) returns (w: Walk)
    requires |rows| == |drafts| + 1
    ensures w == Accept(m, start, drafts, rows)
  {
    var chain := start;
    var accepted := 0;
    while accepted < |drafts|
      invariant 0 <= accepted <= |drafts|
      invariant Accept(m, start, drafts, rows)
             == Plus(Accept(m, chain, drafts[accepted..], rows[accepted..]), accepted)
    {
      var (chain', choice) := m.sample(chain, rows[accepted]);
      chain := chain';
      if choice != drafts[accepted] {
        return Walked(accepted, choice, chain);
      }
      if !m.renders(choice) {
        return Unrenderable;
      }
      accepted := accepted + 1;
    }
    var (chain', choice) := m.sample(chain, rows[accepted]);
    return Walked(accepted, choice, chain');
  }

  /** Count and emit the pending token and then the accepted drafts, in stream order,
      until one ends the generation. `kept` is how many were counted; the state's KV
      is the stream up to them. */
  method EmitConfirmed(admits: Scan, g: Gen, accepted: seq<Token>) returns (settled: Gen, kept: nat)
    requires Live(g) && |accepted| < g.remaining
    ensures settled == AbsorbAll(admits, Confirm(admits, g), accepted)
    ensures 1 <= kept <= 1 + |accepted|
    ensures settled.kv == g.kv + ([g.pending.tok] + accepted)[..kept]
    ensures settled.Confirmed? ==> kept == 1 + |accepted|
    ensures !settled.Running?
  {
    var stream := [g.pending.tok] + accepted;
    kept := 1;
    assert stream[..1] == [g.pending.tok];
    settled := Confirm(admits, g);
    while settled.Confirmed? && kept <= |accepted|
      invariant 1 <= kept <= 1 + |accepted|
      invariant settled.kv == g.kv + stream[..kept]
      invariant settled.Confirmed? ==> settled.remaining == g.remaining - kept && 0 < settled.remaining
      invariant !settled.Running?
      invariant AbsorbAll(admits, settled, accepted[kept - 1..]) == AbsorbAll(admits, Confirm(admits, g), accepted)
      decreases |accepted| - kept
    {
      var t := accepted[kept - 1];
      assert stream[..kept + 1] == stream[..kept] + [t];
      var scanned := settled.scanned + [t];
      var kv := settled.kv + [t];
      var attempt := settled.attempt + [t];
      var remaining := settled.remaining - 1;
      if !admits(scanned) {
        settled := Ended(kv, attempt, settled.delivered, Stop);
      } else {
        var delivered := settled.delivered + [t];
        settled := if remaining == 0 then Ended(kv, attempt, delivered, Length)
                   else Confirmed(kv, attempt, remaining, delivered, scanned);
      }
      kept := kept + 1;
    }
    if !settled.Confirmed? {
      AbsorbedByEnd(admits, settled, accepted[kept - 1..]);
    }
  }
}

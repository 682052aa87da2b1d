/** Multi-sequence stepping: what each sequence says does not depend on which other
  sequences share its batches. */
module Interleaving {
  import opened Options
  import opened Engine
  import opened Batches
  import Generation

  datatype SeqToken = SeqToken(seqId: SeqId, token: Token)

  /** The entries one step queues: each sequence's token at its next position. */
  function StepEntries(kv: Histories, steps: seq<SeqToken>): (es: seq<Entry>)
    ensures |es| == |steps|
    ensures forall i :: 0 <= i < |steps| ==>
              es[i] == Entry(steps[i].token, |Hist(kv, steps[i].seqId)|, steps[i].seqId, true)
  {
    seq(|steps|, i requires 0 <= i < |steps| =>
      Entry(steps[i].token, |Hist(kv, steps[i].seqId)|, steps[i].seqId, true))
  }

  ghost predicate OncePerStep(steps: seq<SeqToken>) {
    forall i, j :: 0 <= i < j < |steps| ==> steps[i].seqId != steps[j].seqId
  }

  /** The logits a decoded batch holds for its i-th token: a function of that token's
      own sequence only. */
  function Row(m: Model, kv: Histories, entries: seq<Entry>, i: nat): Logits
    requires i < |entries|
  {
    var s := entries[i].seqId;
    m.logits(Hist(kv, s) + Tokens(Of(entries[..i + 1], s)))
  }

  lemma {:induction false} FeedPrefix(kv: Histories, entries: seq<Entry>, p: nat)
    requires Feed(kv, entries).Some? && p <= |entries|
    ensures Feed(kv, entries[..p]).Some?
    decreases |entries|
  {
    if p < |entries| {
      FeedPrefix(kv, entries[..|entries| - 1], p);
      assert entries[..|entries| - 1][..p] == entries[..p];
    } else {
      assert entries[..p] == entries;
    }
  }

  /** In a batch the engine takes, the row of a token is the logits of its sequence's
      history as the engine holds it once that token is in. */
  lemma RowIsFed(m: Model, kv: Histories, entries: seq<Entry>, i: nat)
    requires Feed(kv, entries).Some? && i < |entries|
    ensures Feed(kv, entries[..i + 1]).Some?
    ensures Row(m, kv, entries, i) == m.logits(Hist(Feed(kv, entries[..i + 1]).value, entries[i].seqId))
  {
    FeedPrefix(kv, entries, i + 1);
    FeedAppends(kv, entries[..i + 1], entries[i].seqId);
  }

  lemma {:induction false} OfAbsent(entries: seq<Entry>, s: SeqId)
    requires forall i :: 0 <= i < |entries| ==> entries[i].seqId != s
    ensures Of(entries, s) == []
    decreases |entries|
  {
    if entries != [] {
      OfAbsent(entries[..|entries| - 1], s);
    }
  }

  /** In a step each sequence has exactly the one entry it was given. */
  lemma OfStep(kv: Histories, steps: seq<SeqToken>, i: nat)
    requires OncePerStep(steps) && i < |steps|
    ensures var es := StepEntries(kv, steps);
            Of(es[..i], steps[i].seqId) == [] && Of(es[..i + 1], steps[i].seqId) == [es[i]]
  {
    var es := StepEntries(kv, steps);
    OfAbsent(es[..i], steps[i].seqId);
    assert es[..i + 1][..i] == es[..i];
  }

  lemma {:induction false} StepIsFed(kv: Histories, steps: seq<SeqToken>, p: nat)
    requires OncePerStep(steps) && p <= |steps|
    ensures Feed(kv, StepEntries(kv, steps)[..p]).Some?
    decreases p
  {
    if p > 0 {
      var es := StepEntries(kv, steps);
      StepIsFed(kv, steps, p - 1);
      OfStep(kv, steps, p - 1);
      FeedAppends(kv, es[..p - 1], es[p - 1].seqId);
      assert es[..p][..p - 1] == es[..p - 1];
    }
  }

  /** Whatever else is in the batch, a step extends each of its sequences by its own
      token and yields the logits of that sequence's own history. */
  lemma StepIsPerSequence(m: Model, kv: Histories, steps: seq<SeqToken>, i: nat)
    requires OncePerStep(steps) && i < |steps|
    ensures var es := StepEntries(kv, steps);
            var s := steps[i].seqId;
            && Feed(kv, es).Some?
            && Hist(Feed(kv, es).value, s) == Hist(kv, s) + [steps[i].token]
            && Row(m, kv, es, i) == m.logits(Hist(kv, s) + [steps[i].token])
  {
    var es := StepEntries(kv, steps);
    var s := steps[i].seqId;
    StepIsFed(kv, steps, |steps|);
    assert es[..|steps|] == es;
    OfStep(kv, steps, i);
    assert Tokens([es[i]]) == [steps[i].token];
    FeedAppends(kv, es, s);
    OfRest(es, i + 1, s);
  }

  lemma {:induction false} OfRest(entries: seq<Entry>, p: nat, s: SeqId)
    requires p <= |entries| && forall i :: p <= i < |entries| ==> entries[i].seqId != s
    ensures Of(entries, s) == Of(entries[..p], s)
    decreases |entries|
  {
    if p < |entries| {
      OfRest(entries[..|entries| - 1], p, s);
      assert entries[..|entries| - 1][..p] == entries[..p];
    } else {
      assert entries[..p] == entries;
    }
  }

  /** A sequence that is not in a step is not touched by it. */
  lemma StepLeavesOthers(kv: Histories, steps: seq<SeqToken>, s: SeqId)
    requires OncePerStep(steps) && forall i :: 0 <= i < |steps| ==> steps[i].seqId != s
    ensures Feed(kv, StepEntries(kv, steps)).Some?
    ensures Hist(Feed(kv, StepEntries(kv, steps)).value, s) == Hist(kv, s)
  {
    var es := StepEntries(kv, steps);
    StepIsFed(kv, steps, |steps|);
    assert es[..|steps|] == es;
    OfAbsent(es, s);
    FeedAppends(kv, es, s);
    assert Tokens(Of(es, s)) == [];
  }

  // ---- Schedules ----

  /** A sequence being generated: its history, its own sampler chain, the token it is
      about to decode, and what it has said. */
  datatype Voice = Voice(kv: seq<Token>, chain: Chain, pending: Token, said: seq<Token>)

  /** One step of a sequence running alone. */
  function Say(m: Model, v: Voice): Voice {
    var kv := v.kv + [v.pending];
    var (chain, next) := m.sample(v.chain, m.logits(kv));
    Voice(kv, chain, next, v.said + [next])
  }

  function Alone(m: Model, v: Voice, n: nat): Voice {
    if n == 0 then v else Say(m, Alone(m, v, n - 1))
  }

  lemma {:induction false} AloneFront(m: Model, v: Voice, n: nat)
    ensures Alone(m, v, n + 1) == Alone(m, Say(m, v), n)
    decreases n
  {
    hide Say;
    if n > 0 {
      AloneFront(m, v, n - 1);
    }
  }

  /** A sequence alone says what the ideal generation says after its pending token, with a
      budget of as many tokens, no callback and no regard for end tokens. */
  lemma {:induction false} AloneIsIdeal(m: Model, v: Voice, n: nat)
    ensures var writer := m.(isEog := t => false, renders := t => true);
            var kv := v.kv + [v.pending];
            Alone(m, v, n).said
            == Generation.Ideal(writer, kv, m.logits(kv), v.chain, n, toks => false, v.said).emitted
    decreases n
  {
    if n > 0 {
      AloneFront(m, v, n - 1);
      AloneIsIdeal(m, Say(m, v), n - 1);
    }
  }

  type Choir = map<SeqId, Voice>

  function Kv(choir: Choir): (kv: Histories)
    ensures forall s :: s in choir ==> Hist(kv, s) == choir[s].kv
  {
    map s | s in choir :: choir[s].kv
  }

  /** A choice of sequences for one step, none of them twice. */
  ghost predicate Cast(cast: set<SeqId>, ids: seq<SeqId>) {
    && (forall i :: 0 <= i < |ids| ==> ids[i] in cast)
    && (forall i, j :: 0 <= i < j < |ids| ==> ids[i] != ids[j])
  }

  function Cues(choir: Choir, ids: seq<SeqId>): (steps: seq<SeqToken>)
    requires forall i :: 0 <= i < |ids| ==> ids[i] in choir
    ensures |steps| == |ids|
    ensures forall i :: 0 <= i < |ids| ==> steps[i] == SeqToken(ids[i], choir[ids[i]].pending)
  {
    seq(|ids|, i requires 0 <= i < |ids| => SeqToken(ids[i], choir[ids[i]].pending))
  }

  /** A sequence sampled with its own chain from its row of the decoded batch. */
  function Heard(m: Model, v: Voice, kv: seq<Token>, row: Logits): Voice {
    var (chain, next) := m.sample(v.chain, row);
    Voice(kv, chain, next, v.said + [next])
  }

  /** The first `n` of the chosen sequences sampled, in batch order. */
  function Sampled(m: Model, choir: Choir, entries: seq<Entry>, fed: Histories, ids: seq<SeqId>, n: nat): Choir
    requires n <= |ids| == |entries| && forall i :: 0 <= i < |ids| ==> ids[i] in choir
    decreases n
  {
    if n == 0 then choir
    else
      var s := ids[n - 1];
      Sampled(m, choir, entries, fed, ids, n - 1)
        [s := Heard(m, choir[s], Hist(fed, s), Row(m, Kv(choir), entries, n - 1))]
  }

  /** One batched step: every chosen sequence's pending token is decoded in one batch,
      then each is sampled. */
  function BatchStep(m: Model, choir: Choir, ids: seq<SeqId>): Option<Choir>
    requires forall i :: 0 <= i < |ids| ==> ids[i] in choir
  {
    var entries := StepEntries(Kv(choir), Cues(choir, ids));
    match Feed(Kv(choir), entries)
    case None => None
    case Some(fed) => Some(Sampled(m, choir, entries, fed, ids, |ids|))
  }

  lemma HeardIsSaid(m: Model, choir: Choir, ids: seq<SeqId>, i: nat)
    requires Cast(choir.Keys, ids) && i < |ids|
    ensures var entries := StepEntries(Kv(choir), Cues(choir, ids));
            var v := choir[ids[i]];
            && Feed(Kv(choir), entries).Some?
            && Heard(m, v, Hist(Feed(Kv(choir), entries).value, ids[i]), Row(m, Kv(choir), entries, i)) == Say(m, v)
  {
    StepIsPerSequence(m, Kv(choir), Cues(choir, ids), i);
  }

  lemma {:induction false} SampledKeys(m: Model, choir: Choir, entries: seq<Entry>, fed: Histories,
                                       ids: seq<SeqId>, n: nat)
    requires Cast(choir.Keys, ids) && n <= |ids| == |entries|
    ensures Sampled(m, choir, entries, fed, ids, n).Keys == choir.Keys
    decreases n
  {
    if n > 0 {
      SampledKeys(m, choir, entries, fed, ids, n - 1);
    }
  }

  lemma {:induction false} SampledLeaves(m: Model, choir: Choir, entries: seq<Entry>, fed: Histories,
                                         ids: seq<SeqId>, n: nat, s: SeqId)
    requires Cast(choir.Keys, ids) && n <= |ids| == |entries| && s in choir
    requires forall i :: 0 <= i < n ==> ids[i] != s
    ensures var after := Sampled(m, choir, entries, fed, ids, n); s in after && after[s] == choir[s]
    decreases n
  {
    if n > 0 {
      SampledLeaves(m, choir, entries, fed, ids, n - 1, s);
    }
  }

  lemma {:induction false} SampledHears(m: Model, choir: Choir, entries: seq<Entry>, fed: Histories,
                                        ids: seq<SeqId>, n: nat, i: nat)
    requires Cast(choir.Keys, ids) && i < n <= |ids| == |entries|
    ensures var after := Sampled(m, choir, entries, fed, ids, n);
            var s := ids[i];
            s in after && after[s] == Heard(m, choir[s], Hist(fed, s), Row(m, Kv(choir), entries, i))
    decreases n
  {
    if i < n - 1 {
      SampledHears(m, choir, entries, fed, ids, n - 1, i);
    }
  }

  /** A batched step is each chosen sequence stepping alone. */
  lemma BatchStepIsSay(m: Model, choir: Choir, ids: seq<SeqId>)
    requires Cast(choir.Keys, ids)
    ensures var after := BatchStep(m, choir, ids);
            && after.Some? && after.value.Keys == choir.Keys
            && forall s :: s in choir ==> after.value[s] == if s in ids then Say(m, choir[s]) else choir[s]
  {
    var cues := Cues(choir, ids);
    var entries := StepEntries(Kv(choir), cues);
    StepIsFed(Kv(choir), cues, |cues|);
    assert entries[..|cues|] == entries;
    var fed := Feed(Kv(choir), entries).value;
    SampledKeys(m, choir, entries, fed, ids, |ids|);
    forall s | s in choir
      ensures BatchStep(m, choir, ids).value[s] == if s in ids then Say(m, choir[s]) else choir[s]
    {
      if s in ids {
        var i :| 0 <= i < |ids| && ids[i] == s;
        SampledHears(m, choir, entries, fed, ids, |ids|, i);
        HeardIsSaid(m, choir, ids, i);
      } else {
        SampledLeaves(m, choir, entries, fed, ids, |ids|, s);
      }
    }
  }

  /** Each of the named sequences steps alone. */
  function Stepped(m: Model, choir: Choir, ids: seq<SeqId>): (after: Choir)
    ensures after.Keys == choir.Keys
  {
    map s | s in choir :: if s in ids then Say(m, choir[s]) else choir[s]
  }

  lemma BatchStepIsStepped(m: Model, choir: Choir, ids: seq<SeqId>)
    requires Cast(choir.Keys, ids)
    ensures BatchStep(m, choir, ids) == Some(Stepped(m, choir, ids))
  {
    hide BatchStep, Say;
    BatchStepIsSay(m, choir, ids);
    var after := BatchStep(m, choir, ids).value;
    assert after.Keys == Stepped(m, choir, ids).Keys;
    forall s | s in after ensures after[s] == Stepped(m, choir, ids)[s] {
      assert s in choir;
    }
    assert after == Stepped(m, choir, ids);
  }

  ghost predicate Castable(cast: set<SeqId>, schedule: seq<seq<SeqId>>) {
    forall k :: 0 <= k < |schedule| ==> Cast(cast, schedule[k])
  }

  /** A schedule: which sequences are stepped together, batch by batch. */
  function Perform(m: Model, choir: Choir, schedule: seq<seq<SeqId>>): Option<Choir>
    decreases |schedule|
  {
    if schedule == [] then Some(choir)
    else
      var ids := schedule[|schedule| - 1];
      match Perform(m, choir, schedule[..|schedule| - 1])
      case None => None
      case Some(before) => if forall i :: 0 <= i < |ids| ==> ids[i] in before then BatchStep(m, before, ids) else None
  }

  /** The same schedule with every sequence stepping alone. */
  function Unison(m: Model, choir: Choir, schedule: seq<seq<SeqId>>): (after: Choir)
    ensures after.Keys == choir.Keys
    decreases |schedule|
  {
    if schedule == [] then choir
    else
      var ids := schedule[|schedule| - 1];
      Stepped(m, Unison(m, choir, schedule[..|schedule| - 1]), ids)
  }

  lemma {:induction false} PerformIsUnison(m: Model, choir: Choir, schedule: seq<seq<SeqId>>)
    requires Castable(choir.Keys, schedule)
    ensures Perform(m, choir, schedule) == Some(Unison(m, choir, schedule))
    decreases |schedule|
  {
    hide BatchStep, Stepped;
    if schedule != [] {
      var init := schedule[..|schedule| - 1];
      PerformIsUnison(m, choir, init);
      BatchStepIsStepped(m, Unison(m, choir, init), schedule[|schedule| - 1]);
    }
  }

  /** The steps of a schedule that a sequence takes part in. */
  function Turns(schedule: seq<seq<SeqId>>, s: SeqId): nat {
    if schedule == [] then 0
    else Turns(schedule[..|schedule| - 1], s) + (if s in schedule[|schedule| - 1] then 1 else 0)
  }

  lemma {:induction false} UnisonIsAlone(m: Model, choir: Choir, schedule: seq<seq<SeqId>>, s: SeqId)
    requires s in choir
    ensures Unison(m, choir, schedule)[s] == Alone(m, choir[s], Turns(schedule, s))
    decreases |schedule|
  {
    if schedule != [] {
      UnisonIsAlone(m, choir, schedule[..|schedule| - 1], s);
    }
  }

  /** Interleaving independence: under every schedule, over any subsets of sequences,
      each sequence ends up exactly where running alone for its own number of turns
      takes it: same stream, same history, same chain state. */
  lemma InterleavingIsInvisible(m: Model, choir: Choir, schedule: seq<seq<SeqId>>, s: SeqId)
    requires s in choir && Castable(choir.Keys, schedule)
    ensures var after := Perform(m, choir, schedule);
            after.Some? && s in after.value && after.value[s] == Alone(m, choir[s], Turns(schedule, s))
  {
    PerformIsUnison(m, choir, schedule);
    UnisonIsAlone(m, choir, schedule, s);
  }

  // ---- One chain for all ----

  /** Sampling a whole batch with the session's single chain. */
  function SharedDraws(m: Model, chain: Chain, rows: seq<Logits>): (Chain, seq<Token>) {
    if rows == [] then (chain, [])
    else
      var (c, toks) := SharedDraws(m, chain, rows[..|rows| - 1]);
      var (c', tok) := m.sample(c, rows[|rows| - 1]);
      (c', toks + [tok])
  }

  /** A stateless chain can be shared: every draw is the draw the sequence makes
      alone. */
  lemma {:induction false} SharedGreedyIsAlone(m: Model, chain: Chain, own: Chain, rows: seq<Logits>, i: nat)
    requires Stateless(m) && i < |rows|
    ensures var (c, toks) := SharedDraws(m, chain, rows);
            c == chain && |toks| == |rows| && toks[i] == m.sample(own, rows[i]).1
    decreases |rows|
  {
    var n := |rows| - 1;
    if n > 0 {
      SharedGreedyIsAlone(m, chain, own, rows[..n], if i < n then i else 0);
    }
    assert m.sample(chain, rows[n]).1 == m.sample(own, rows[n]).1;
  }

  /** The rows of logits a step yields. */
  function StepRows(m: Model, kv: Histories, steps: seq<SeqToken>): (rows: seq<Logits>)
    ensures |rows| == |steps|
    ensures forall i :: 0 <= i < |steps| ==> rows[i] == Row(m, kv, StepEntries(kv, steps), i)
  {
    seq<Logits>(|steps|, i requires 0 <= i < |steps| => Row(m, kv, StepEntries(kv, steps), i))
  }

  /** A sequence that was handed a token drawn by the shared chain. */
  function Handed(v: Voice, kv: seq<Token>, next: Token): Voice {
    Voice(kv, v.chain, next, v.said + [next])
  }

  function HandedOut(choir: Choir, fed: Histories, ids: seq<SeqId>, tokens: seq<Token>, n: nat): Choir
    requires n <= |ids| == |tokens| && forall i :: 0 <= i < |ids| ==> ids[i] in choir
    decreases n
  {
    if n == 0 then choir
    else
      var s := ids[n - 1];
      HandedOut(choir, fed, ids, tokens, n - 1)[s := Handed(choir[s], Hist(fed, s), tokens[n - 1])]
  }

  /** One `decode_step`: the chosen sequences' pending tokens in one batch, then one draw
      for each by the session's one chain. */
  function SharedStep(m: Model, chain: Chain, choir: Choir, ids: seq<SeqId>): Option<(Chain, Choir)>
    requires forall i :: 0 <= i < |ids| ==> ids[i] in choir
  {
    var cues := Cues(choir, ids);
    match Feed(Kv(choir), StepEntries(Kv(choir), cues))
    case None => None
    case Some(fed) =>
      var (chain', tokens) := SharedDraws(m, chain, StepRows(m, Kv(choir), cues));
      DrawsCount(m, chain, StepRows(m, Kv(choir), cues));
      Some((chain', HandedOut(choir, fed, ids, tokens, |ids|)))
  }

  lemma {:induction false} DrawsCount(m: Model, chain: Chain, rows: seq<Logits>)
    ensures |SharedDraws(m, chain, rows).1| == |rows|
    decreases |rows|
  {
    if rows != [] {
      DrawsCount(m, chain, rows[..|rows| - 1]);
    }
  }

  lemma {:induction false} HandedOutIsSampled(m: Model, chain: Chain, choir: Choir, entries: seq<Entry>, fed: Histories,
                                              ids: seq<SeqId>, rows: seq<Logits>, n: nat)
    requires Stateless(m) && Cast(choir.Keys, ids) && n <= |ids| == |entries| == |rows|
    requires forall i :: 0 <= i < |rows| ==> rows[i] == Row(m, Kv(choir), entries, i)
    ensures |SharedDraws(m, chain, rows).1| == |rows|
    ensures HandedOut(choir, fed, ids, SharedDraws(m, chain, rows).1, n) == Sampled(m, choir, entries, fed, ids, n)
    decreases n
  {
    hide Row, SharedDraws;
    DrawsCount(m, chain, rows);
    if n > 0 {
      HandedOutIsSampled(m, chain, choir, entries, fed, ids, rows, n - 1);
      var v := choir[ids[n - 1]];
      SharedGreedyIsAlone(m, chain, v.chain, rows, n - 1);
      assert m.sample(v.chain, rows[n - 1]).0 == v.chain;
    }
  }

  /** With a stateless chain the shared step is each chosen sequence stepping alone, and
      the chain stays as it is. */
  lemma SharedStepIsStepped(m: Model, chain: Chain, choir: Choir, ids: seq<SeqId>)
    requires Stateless(m) && Cast(choir.Keys, ids)
    ensures SharedStep(m, chain, choir, ids) == Some((chain, Stepped(m, choir, ids)))
  {
    hide Stepped, SharedDraws, Row;
    BatchStepIsStepped(m, choir, ids);
    var cues := Cues(choir, ids);
    var entries, rows := StepEntries(Kv(choir), cues), StepRows(m, Kv(choir), cues);
    var fed := Feed(Kv(choir), entries).value;
    HandedOutIsSampled(m, chain, choir, entries, fed, ids, rows, |ids|);
    SharedChainStays(m, chain, rows);
  }

  lemma SharedChainStays(m: Model, chain: Chain, rows: seq<Logits>)
    requires Stateless(m)
    ensures SharedDraws(m, chain, rows).0 == chain
  {
    if rows != [] {
      SharedGreedyIsAlone(m, chain, chain, rows, 0);
    }
  }

  /** A schedule of shared steps, batch by batch. */
  function SharedPerform(m: Model, chain: Chain, choir: Choir, schedule: seq<seq<SeqId>>): Option<(Chain, Choir)>
    decreases |schedule|
  {
    if schedule == [] then Some((chain, choir))
    else
      var ids := schedule[|schedule| - 1];
      match SharedPerform(m, chain, choir, schedule[..|schedule| - 1])
      case None => None
      case Some((c, before)) =>
        if forall i :: 0 <= i < |ids| ==> ids[i] in before then SharedStep(m, c, before, ids) else None
  }

  lemma {:induction false} SharedPerformIsUnison(m: Model, chain: Chain, choir: Choir, schedule: seq<seq<SeqId>>)
    requires Stateless(m) && Castable(choir.Keys, schedule)
    ensures SharedPerform(m, chain, choir, schedule) == Some((chain, Unison(m, choir, schedule)))
    decreases |schedule|
  {
    hide SharedStep, Stepped, Stateless;
    if schedule != [] {
      var init := schedule[..|schedule| - 1];
      SharedPerformIsUnison(m, chain, choir, init);
      SharedStepIsStepped(m, chain, Unison(m, choir, init), schedule[|schedule| - 1]);
    }
  }

  /** Interleaving independence for the one shared chain: if its state does not matter,
      every schedule of decode steps over any subsets of sequences leaves each sequence
      exactly where its own number of steps alone takes it. */
  lemma SharedInterleavingIsInvisible(m: Model, chain: Chain, choir: Choir, schedule: seq<seq<SeqId>>, s: SeqId)
    requires Stateless(m) && s in choir && Castable(choir.Keys, schedule)
    ensures var after := SharedPerform(m, chain, choir, schedule);
            && after.Some? && after.value.0 == chain && s in after.value.1
            && after.value.1[s] == Alone(m, choir[s], Turns(schedule, s))
  {
    SharedPerformIsUnison(m, chain, choir, schedule);
    UnisonIsAlone(m, choir, schedule, s);
  }

  lemma DrawTwo(m: Model, chain: Chain, a: Logits, b: Logits)
    ensures var (c, first) := m.sample(chain, a);
            SharedDraws(m, chain, [a, b]).1 == [first, m.sample(c, b).1]
  {
    var none: seq<Token> := [];
    var (c, first) := m.sample(chain, a);
    assert [a][..0] == [] && [a, b][..1] == [a];
    assert none + [first] == [first];
    assert SharedDraws(m, chain, [a]) == (c, [first]);
  }

  /** A chain with state cannot: a sequence's draw depends on who was sampled first. */
  lemma SharedStateMixes()
    ensures exists m: Model, chain: Chain, a: Logits, b: Logits ::
              SharedDraws(m, chain, [a, b]).1 != [m.sample(chain, a).1, m.sample(chain, b).1]
  {
    var m := Model(kv => [0.0], (c: Chain, l) => (c + 1, c), t => false, t => true);
    DrawTwo(m, 0, [0.0], [0.0]);
    assert SharedDraws(m, 0, [[0.0], [0.0]]).1[1] == 1;
  }
}

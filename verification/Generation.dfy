/** `Session::generate` as a function of the session state, the link and the
  caller's callback, and what its two emission orders promise. */
module Generation {
  import opened Options
  import opened Engine

  datatype Finish = Stop | Length | Aborted | DecodeError | RenderError

  /** The tokens handed to the callback, and how the call ended. */
  datatype Outcome = Outcome(emitted: seq<Token>, finish: Finish)

  /** The callback's verdict after the tokens it has been given so far. */
  type Callback = seq<Token> -> bool

  /** The sample/decode loop. `confirm` selects confirm-before-send, the order of a
      distributed model; otherwise a token is emitted when it is sampled. */
  function Loop(m: Model, link: Link, nBatch: nat, confirm: bool, s: State,
                budget: nat, breaks: Callback, emitted: seq<Token>): Outcome
    requires 0 < nBatch
    decreases budget
  {
    if budget == 0 then Outcome(emitted, Length)
    else
      var (chain, tok) := m.sample(s.chain, s.logits);
      var longer := emitted + [tok];
      if m.isEog(tok) then Outcome(emitted, Stop)
      else if !m.renders(tok) then Outcome(emitted, RenderError)
      else if !confirm && breaks(longer) then Outcome(longer, Aborted)
      else
        match Decode(m, link, nBatch, s.(chain := chain), [tok])
        case None => Outcome(if confirm then emitted else longer, DecodeError)
        case Some(next) =>
          if confirm && breaks(longer) then Outcome(longer, Aborted)
          else Loop(m, link, nBatch, confirm, next, budget - 1, breaks, longer)
  }

  /** Prefill, then loop. */
  function Generate(m: Model, link: Link, nBatch: nat, confirm: bool, s: State,
                    prompt: seq<Token>, budget: nat, breaks: Callback): Outcome
    requires 0 < nBatch
  {
    match Decode(m, link, nBatch, s, prompt)
    case None => Outcome([], DecodeError)
    case Some(next) => Loop(m, link, nBatch, confirm, next, budget, breaks, [])
  }

  /** The session state the loop leaves; none is known after a failed decode. */
  function LeftByLoop(m: Model, link: Link, nBatch: nat, confirm: bool, s: State,
                      budget: nat, breaks: Callback, emitted: seq<Token>): Option<State>
    requires 0 < nBatch
    decreases budget
  {
    if budget == 0 then Some(s)
    else
      var (chain, tok) := m.sample(s.chain, s.logits);
      var drawn := s.(chain := chain);
      var longer := emitted + [tok];
      if m.isEog(tok) || !m.renders(tok) || (!confirm && breaks(longer)) then Some(drawn)
      else
        match Decode(m, link, nBatch, drawn, [tok])
        case None => None
        case Some(next) =>
          if confirm && breaks(longer) then Some(next)
          else LeftByLoop(m, link, nBatch, confirm, next, budget - 1, breaks, longer)
  }

  function Left(m: Model, link: Link, nBatch: nat, confirm: bool, s: State,
                prompt: seq<Token>, budget: nat, breaks: Callback): Option<State>
    requires 0 < nBatch
  {
    match Decode(m, link, nBatch, s, prompt)
    case None => None
    case Some(next) => LeftByLoop(m, link, nBatch, confirm, next, budget, breaks, [])
  }

  /** The reference: generation on token histories, with no batches, no link, no
      session state and no emission order. */
  function Ideal(m: Model, kv: seq<Token>, logits: Logits, chain: Chain,
                 budget: nat, breaks: Callback, emitted: seq<Token>): Outcome
    decreases budget
  {
    if budget == 0 then Outcome(emitted, Length)
    else
      var (chain', tok) := m.sample(chain, logits);
      var longer := emitted + [tok];
      if m.isEog(tok) then Outcome(emitted, Stop)
      else if !m.renders(tok) then Outcome(emitted, RenderError)
      else if breaks(longer) then Outcome(longer, Aborted)
      else Ideal(m, kv + [tok], m.logits(kv + [tok]), chain', budget - 1, breaks, longer)
  }

  /** The ideal generation after a prompt, from a session holding `s`. */
  function IdealFrom(m: Model, s: State, prompt: seq<Token>, budget: nat, breaks: Callback): Outcome {
    var kv := s.kv + prompt;
    Ideal(m, kv, if prompt == [] then s.logits else m.logits(kv), s.chain, budget, breaks, [])
  }

  // ---- What the reference says ----

  /** `toks` are the next draws of the model, and each is an ordinary token. */
  ghost predicate Says(m: Model, kv: seq<Token>, logits: Logits, chain: Chain, toks: seq<Token>)
    decreases |toks|
  {
    toks == [] ||
    var (chain', tok) := m.sample(chain, logits);
    && tok == toks[0] && !m.isEog(tok) && m.renders(tok)
    && Says(m, kv + [tok], m.logits(kv + [tok]), chain', toks[1..])
  }

  /** The draw that follows once the model has said `toks`. */
  function DrawAfter(m: Model, kv: seq<Token>, logits: Logits, chain: Chain, toks: seq<Token>): Token
    decreases |toks|
  {
    var (chain', tok) := m.sample(chain, logits);
    if toks == [] then tok
    else DrawAfter(m, kv + [toks[0]], m.logits(kv + [toks[0]]), chain', toks[1..])
  }

  /** The ideal generation says the model's own draws up to the first of four events,
      each of which is told apart by its finish: the callback breaks on the last token,
      the budget is spent, the next draw ends the generation, or it cannot be rendered. */
  lemma {:induction false} IdealEndings(m: Model, kv: seq<Token>, logits: Logits, chain: Chain,
                                        budget: nat, breaks: Callback, emitted: seq<Token>)
    ensures var r := Ideal(m, kv, logits, chain, budget, breaks, emitted);
            && emitted <= r.emitted
            && var said := r.emitted[|emitted|..];
            var broken := said != [] && breaks(r.emitted);
            var next := DrawAfter(m, kv, logits, chain, said);
            && |said| <= budget && Says(m, kv, logits, chain, said)
            && (forall j :: |emitted| < j < |r.emitted| ==> !breaks(r.emitted[..j]))
            && (r.finish == Aborted <==> broken)
            && (r.finish == Length <==> !broken && |said| == budget)
            && (r.finish == Stop <==> !broken && |said| < budget && m.isEog(next))
            && (r.finish == RenderError <==> !broken && |said| < budget && !m.isEog(next) && !m.renders(next))
    decreases budget
  {
    var r := Ideal(m, kv, logits, chain, budget, breaks, emitted);
    if budget > 0 {
      var (chain', tok) := m.sample(chain, logits);
      var longer := emitted + [tok];
      if m.isEog(tok) || !m.renders(tok) {
        assert r.emitted[|emitted|..] == [];
      } else if breaks(longer) {
        assert r.emitted[|emitted|..] == [tok];
      } else {
        IdealEndings(m, kv + [tok], m.logits(kv + [tok]), chain', budget - 1, breaks, longer);
        assert r.emitted[|emitted|..] == [tok] + r.emitted[|longer|..];
        assert r.emitted[..|longer|] == longer;
        assert r.emitted[|longer|..] == [] ==> r.emitted == longer;
      }
    }
  }

  // ---- Healthy runs ----

  lemma {:induction false} HealthyLoop(m: Model, link: Link, nBatch: nat, confirm: bool, s: State,
                                       budget: nat, breaks: Callback, emitted: seq<Token>)
    requires 0 < nBatch && !s.dead && Clean(link, s.calls)
    ensures Loop(m, link, nBatch, confirm, s, budget, breaks, emitted)
         == Ideal(m, s.kv, s.logits, s.chain, budget, breaks, emitted)
    decreases budget
  {
    if budget > 0 {
      var (chain, tok) := m.sample(s.chain, s.logits);
      var asked := s.(chain := chain);
      ChunkingIsInvisible(m, link, nBatch, asked, [tok]);
      var next := Decode(m, link, nBatch, asked, [tok]).value;
      HealthyLoop(m, link, nBatch, confirm, next, budget - 1, breaks, emitted + [tok]);
    }
  }

  /** Without failures, neither the batch size nor the emission order changes what
      is generated. */
  lemma HealthyRunIsIdeal(m: Model, link: Link, nBatch: nat, confirm: bool, s: State,
                          prompt: seq<Token>, budget: nat, breaks: Callback)
    requires 0 < nBatch && !s.dead && Clean(link, s.calls)
    ensures Generate(m, link, nBatch, confirm, s, prompt, budget, breaks)
         == IdealFrom(m, s, prompt, budget, breaks)
  {
    if prompt == [] {
      assert s.kv + prompt == s.kv;
      HealthyLoop(m, link, nBatch, confirm, s, budget, breaks, []);
    } else {
      ChunkingIsInvisible(m, link, nBatch, s, prompt);
      HealthyLoop(m, link, nBatch, confirm, Decode(m, link, nBatch, s, prompt).value, budget, breaks, []);
    }
  }

  // ---- What a run leaves ----

  /** The tokens a run has decoded: all it emitted, save that an aborted
      emit-at-sample run has not decoded its last. */
  function Decoded(confirm: bool, run: Outcome): seq<Token> {
    if !confirm && run.finish == Aborted && run.emitted != [] then run.emitted[..|run.emitted| - 1] else run.emitted
  }

  lemma {:induction false} LoopLeaves(m: Model, link: Link, nBatch: nat, confirm: bool, s: State, kv: seq<Token>,
                                      budget: nat, breaks: Callback, emitted: seq<Token>)
    requires 0 < nBatch && s.kv == kv + emitted && (!s.dead ==> s.logits == m.logits(s.kv))
    ensures var run := Loop(m, link, nBatch, confirm, s, budget, breaks, emitted);
            var left := LeftByLoop(m, link, nBatch, confirm, s, budget, breaks, emitted);
            && (left.None? <==> run.finish == DecodeError)
            && (left.Some? ==> left.value.kv == kv + Decoded(confirm, run)
                               && (!left.value.dead ==> left.value.logits == m.logits(left.value.kv)))
    decreases budget
  {
    if budget > 0 {
      var (chain, tok) := m.sample(s.chain, s.logits);
      var drawn := s.(chain := chain);
      var longer := emitted + [tok];
      assert longer[..|longer| - 1] == emitted;
      if Decode(m, link, nBatch, drawn, [tok]).Some? {
        LiveDecodeIsGenuine(m, link, nBatch, drawn, [tok]);
        var next := Decode(m, link, nBatch, drawn, [tok]).value;
        assert next.kv == kv + longer;
        LoopLeaves(m, link, nBatch, confirm, next, kv, budget - 1, breaks, longer);
      }
    }
  }

  /** A run that did not fail to decode leaves the history, the prompt and what it
      emitted in the KV, save that an aborted emit-at-sample run leaves out its last
      token; and unless the transport was lost the logits are those of that history. */
  lemma RunLeavesHistory(m: Model, link: Link, nBatch: nat, confirm: bool, s: State,
                         prompt: seq<Token>, budget: nat, breaks: Callback)
    requires 0 < nBatch && !s.dead && (prompt == [] ==> s.logits == m.logits(s.kv))
    ensures var run := Generate(m, link, nBatch, confirm, s, prompt, budget, breaks);
            var left := Left(m, link, nBatch, confirm, s, prompt, budget, breaks);
            && (left.None? <==> run.finish == DecodeError)
            && (left.Some? ==> left.value.kv == s.kv + prompt + Decoded(confirm, run)
                               && (!left.value.dead ==> left.value.logits == m.logits(left.value.kv)))
  {
    if Decode(m, link, nBatch, s, prompt).Some? {
      var next := Decode(m, link, nBatch, s, prompt).value;
      if prompt != [] {
        LiveDecodeIsGenuine(m, link, nBatch, s, prompt);
      }
      assert next.kv == s.kv + prompt + [];
      LoopLeaves(m, link, nBatch, confirm, next, s.kv + prompt, budget, breaks, []);
    }
  }

  // ---- Torn runs ----

  lemma {:induction false} IdealExtends(m: Model, kv: seq<Token>, logits: Logits, chain: Chain,
                                        budget: nat, breaks: Callback, emitted: seq<Token>)
    ensures emitted <= Ideal(m, kv, logits, chain, budget, breaks, emitted).emitted
    decreases budget
  {
    if budget > 0 {
      var (chain', tok) := m.sample(chain, logits);
      IdealExtends(m, kv + [tok], m.logits(kv + [tok]), chain', budget - 1, breaks, emitted + [tok]);
    }
  }

  /** What a torn run may differ in from the ideal one. */
  ghost predicate TornShort(torn: Outcome, ideal: Outcome) {
    && torn.emitted <= ideal.emitted
    && (torn.finish == Length || torn.finish == Aborted ==> torn == ideal)
  }

  lemma {:induction false} TornLoop(m: Model, link: Link, nBatch: nat, s: State,
                                    kv: seq<Token>, logits: Logits, chain: Chain,
                                    budget: nat, breaks: Callback, emitted: seq<Token>)
    requires 0 < nBatch
    requires s.dead || (s.kv == kv && s.logits == logits && s.chain == chain)
    ensures TornShort(Loop(m, link, nBatch, true, s, budget, breaks, emitted),
                      Ideal(m, kv, logits, chain, budget, breaks, emitted))
    decreases budget
  {
    IdealExtends(m, kv, logits, chain, budget, breaks, emitted);
    if budget > 0 {
      var (chain', tok) := m.sample(s.chain, s.logits);
      var asked := s.(chain := chain');
      if Decode(m, link, nBatch, asked, [tok]).Some? {
        LiveDecodeIsGenuine(m, link, nBatch, asked, [tok]);
        var next := Decode(m, link, nBatch, asked, [tok]).value;
        TornLoop(m, link, nBatch, next, kv + [tok], m.logits(kv + [tok]), chain',
                 budget - 1, breaks, emitted + [tok]);
      }
    }
  }

  /** Torn-run safety: wherever the transport tears, and whatever the torn fetch
      returned, a confirm-before-send run emits a prefix of what the untorn run
      emits; and a run that ends with `Length` or `Aborted` is the untorn run. */
  lemma TornRunIsPrefix(m: Model, link: Link, nBatch: nat, s: State,
                        prompt: seq<Token>, budget: nat, breaks: Callback)
    requires 0 < nBatch && !s.dead
    ensures TornShort(Generate(m, link, nBatch, true, s, prompt, budget, breaks),
                      IdealFrom(m, s, prompt, budget, breaks))
  {
    var kv := s.kv + prompt;
    if prompt == [] {
      assert kv == s.kv;
      TornLoop(m, link, nBatch, s, s.kv, s.logits, s.chain, budget, breaks, []);
    } else if Decode(m, link, nBatch, s, prompt).Some? {
      LiveDecodeIsGenuine(m, link, nBatch, s, prompt);
      TornLoop(m, link, nBatch, Decode(m, link, nBatch, s, prompt).value,
               kv, m.logits(kv), s.chain, budget, breaks, []);
    }
  }

  // ---- Emission order ----

  /** How the emit-at-sample run `e` compares with the confirm-before-send run `c`
      of the same engine. */
  ghost predicate OneTokenAhead(c: Outcome, e: Outcome, ideal: Outcome) {
    && (c.finish != DecodeError ==> e == c == ideal)
    && (c.finish == DecodeError ==>
          && |c.emitted| < |ideal.emitted|
          && e.emitted == c.emitted + [ideal.emitted[|c.emitted|]]
          && e.emitted <= ideal.emitted
          && (e.finish == DecodeError || (e.finish == Aborted && e == ideal)))
  }

  lemma {:induction false} EmissionLoop(m: Model, link: Link, nBatch: nat, s: State,
                                        budget: nat, breaks: Callback, emitted: seq<Token>)
    requires 0 < nBatch && !s.dead && Honest(link, s.calls)
    ensures OneTokenAhead(Loop(m, link, nBatch, true, s, budget, breaks, emitted),
                          Loop(m, link, nBatch, false, s, budget, breaks, emitted),
                          Ideal(m, s.kv, s.logits, s.chain, budget, breaks, emitted))
    ensures emitted <= Loop(m, link, nBatch, true, s, budget, breaks, emitted).emitted
    decreases budget
  {
    IdealExtends(m, s.kv, s.logits, s.chain, budget, breaks, emitted);
    if budget > 0 {
      var (chain, tok) := m.sample(s.chain, s.logits);
      var asked := s.(chain := chain);
      var longer := emitted + [tok];
      IdealExtends(m, s.kv + [tok], m.logits(s.kv + [tok]), chain, budget - 1, breaks, longer);
      if Decode(m, link, nBatch, asked, [tok]).Some? {
        LiveDecodeIsGenuine(m, link, nBatch, asked, [tok]);
        var next := Decode(m, link, nBatch, asked, [tok]).value;
        EmissionLoop(m, link, nBatch, next, budget - 1, breaks, longer);
      }
    }
  }

  /** On an engine without a transport the two orders agree unless a decode after
      the prefill fails first; then emit-at-sample is exactly one token ahead, and
      that token is the one the failure-free run emits next. */
  lemma EmissionOrderGap(m: Model, link: Link, nBatch: nat, s: State,
                         prompt: seq<Token>, budget: nat, breaks: Callback)
    requires 0 < nBatch && !s.dead && Honest(link, s.calls)
    ensures var c := Generate(m, link, nBatch, true, s, prompt, budget, breaks);
            var e := Generate(m, link, nBatch, false, s, prompt, budget, breaks);
            if Decode(m, link, nBatch, s, prompt).None? then c == e == Outcome([], DecodeError)
            else OneTokenAhead(c, e, IdealFrom(m, s, prompt, budget, breaks))
  {
    if Decode(m, link, nBatch, s, prompt).Some? {
      if prompt != [] {
        LiveDecodeIsGenuine(m, link, nBatch, s, prompt);
      } else {
        assert s.kv + prompt == s.kv;
      }
      EmissionLoop(m, link, nBatch, Decode(m, link, nBatch, s, prompt).value, budget, breaks, []);
    }
  }

  // ---- Which endings can be believed ----

  /** A run that did not end in a decode error ended as the untorn run does. */
  ghost predicate EndsGenuinely(m: Model, link: Link, nBatch: nat, s: State,
                                prompt: seq<Token>, budget: nat, breaks: Callback)
    requires 0 < nBatch
  {
    var run := Generate(m, link, nBatch, true, s, prompt, budget, breaks);
    run.finish != DecodeError ==> run == IdealFrom(m, s, prompt, budget, breaks)
  }

  /** `Stop` and a render error are believed without a confirming decode. They are
      genuine on a link, for every model and request, exactly when the link never
      starts failing with a fetch that is garbled behind a successful status. */
  lemma EndingsAreGenuineIffHonest(link: Link)
    ensures Honest(link, 0) <==>
            forall m: Model, nBatch: nat, s: State, prompt: seq<Token>, budget: nat, breaks: Callback ::
              0 < nBatch && !s.dead && s.calls == 0 ==> EndsGenuinely(m, link, nBatch, s, prompt, budget, breaks)
  {
    if Honest(link, 0) {
      forall m: Model, nBatch: nat, s: State, prompt: seq<Token>, budget: nat, breaks: Callback
        | 0 < nBatch && !s.dead && s.calls == 0
        ensures EndsGenuinely(m, link, nBatch, s, prompt, budget, breaks)
      {
        EmissionOrderGap(m, link, nBatch, s, prompt, budget, breaks);
      }
    } else {
      var i: nat :| link(i).Garbled? && !Disturbed(link, 0, i);
      FalseStop(link, i);
      assert !EndsGenuinely(Fooled(link(i).junk), link, 1, State([], [0.0], 0, 0, false), [1], i + 1, Never());
    }
  }

  /** A fetch that is garbled hands over `junk`; the client's own is a row of zeros. */
  ghost predicate Fetches(link: Link, junk: Logits) {
    forall i: nat :: link(i).Garbled? ==> link(i).junk == junk
  }

  /** A token that neither ends a generation nor fails to render. */
  predicate Ordinary(m: Model, tok: Token) {
    !m.isEog(tok) && m.renders(tok)
  }

  /** What the guard of a believed ending comes to: no chain draws an ending from `junk`. */
  ghost predicate DrawsOrdinary(m: Model, junk: Logits) {
    forall chain: Chain :: Ordinary(m, m.sample(chain, junk).1)
  }

  /** Every chain has some row from which it draws an ordinary token. */
  ghost predicate CanGoOn(m: Model) {
    forall chain: Chain :: GoesOn(m, chain)
  }

  ghost predicate GoesOn(m: Model, chain: Chain) {
    exists row: Logits :: Ordinary(m, m.sample(chain, row).1)
  }

  lemma {:induction false} JunkIsFetched(m: Model, link: Link, junk: Logits, nBatch: nat, s: State, tokens: seq<Token>)
    requires 0 < nBatch && tokens != [] && Fetches(link, junk)
    requires Decode(m, link, nBatch, s, tokens).Some? && Decode(m, link, nBatch, s, tokens).value.dead
    ensures Decode(m, link, nBatch, s, tokens).value.logits == junk
    decreases |tokens|
  {
    if |tokens| > nBatch {
      JunkIsFetched(m, link, junk, nBatch, DecodeCall(m, link, s, tokens[..nBatch], false).value, tokens[nBatch..]);
    }
  }

  lemma {:induction false} OrdinaryJunkLoop(m: Model, link: Link, junk: Logits, nBatch: nat, s: State,
                                            kv: seq<Token>, logits: Logits, chain: Chain,
                                            budget: nat, breaks: Callback, emitted: seq<Token>)
    requires 0 < nBatch && Fetches(link, junk) && DrawsOrdinary(m, junk)
    requires if s.dead then s.logits == junk else s.kv == kv && s.logits == logits && s.chain == chain
    ensures var run := Loop(m, link, nBatch, true, s, budget, breaks, emitted);
            run.finish != DecodeError ==> run == Ideal(m, kv, logits, chain, budget, breaks, emitted)
    decreases budget
  {
    if budget > 0 {
      var (chain', tok) := m.sample(s.chain, s.logits);
      var drawn := s.(chain := chain');
      if s.dead {
        assert Ordinary(m, m.sample(s.chain, junk).1);
      } else if Decode(m, link, nBatch, drawn, [tok]).Some? {
        LiveDecodeIsGenuine(m, link, nBatch, drawn, [tok]);
        var next := Decode(m, link, nBatch, drawn, [tok]).value;
        if next.dead {
          JunkIsFetched(m, link, junk, nBatch, drawn, [tok]);
        }
        OrdinaryJunkLoop(m, link, junk, nBatch, next, kv + [tok], m.logits(kv + [tok]), chain',
                         budget - 1, breaks, emitted + [tok]);
      }
    }
  }

  /** If nothing drawn from a garbled fetch ends a generation, every ending of every run
      on every link is genuine. */
  lemma OrdinaryJunkIsHarmless(m: Model, link: Link, junk: Logits, nBatch: nat, s: State,
                               prompt: seq<Token>, budget: nat, breaks: Callback)
    requires 0 < nBatch && !s.dead && Fetches(link, junk) && DrawsOrdinary(m, junk)
    ensures EndsGenuinely(m, link, nBatch, s, prompt, budget, breaks)
  {
    var kv := s.kv + prompt;
    if prompt == [] {
      assert kv == s.kv;
      OrdinaryJunkLoop(m, link, junk, nBatch, s, s.kv, s.logits, s.chain, budget, breaks, []);
    } else if Decode(m, link, nBatch, s, prompt).Some? {
      LiveDecodeIsGenuine(m, link, nBatch, s, prompt);
      var next := Decode(m, link, nBatch, s, prompt).value;
      if next.dead {
        JunkIsFetched(m, link, junk, nBatch, s, prompt);
      }
      OrdinaryJunkLoop(m, link, junk, nBatch, next, kv, m.logits(kv), s.chain, budget, breaks, []);
    }
  }

  /** A link whose first fetch is garbled. */
  function TornAtOnce(junk: Logits): Link {
    i => if i == 0 then Garbled(junk) else Healthy
  }

  /** A chain that draws an ending from the garbled fetch ends a run falsely wherever the
      model's own logits would have it go on. */
  lemma JunkEndsFalsely(m: Model, junk: Logits, chain: Chain, row: Logits)
    requires !Ordinary(m, m.sample(chain, junk).1) && Ordinary(m, m.sample(chain, row).1)
    ensures var s := State([], junk, chain, 0, false);
            !EndsGenuinely(WithLogits(m, kv => row), TornAtOnce(junk), 1, s, [0], 1, Never())
  {
    var s := State([], junk, chain, 0, false);
    var m' := WithLogits(m, kv => row);
    var run := Generate(m', TornAtOnce(junk), 1, true, s, [0], 1, Never());
    assert run.finish == Stop || run.finish == RenderError;
    assert m'.logits(s.kv + [0]) == row;
    assert IdealFrom(m', s, [0], 1, Never()).finish == Length;
  }

  /** For a sampler and a vocabulary: whatever the model's logits, the link, the request
      and the batch size, every run ends genuinely if and only if no chain draws an ending
      from the row a garbled fetch hands over. */
  lemma EndingsAreGenuineIffJunkIsOrdinary(m: Model, junk: Logits)
    requires CanGoOn(m)
    ensures DrawsOrdinary(m, junk) <==>
            forall logits: seq<Token> -> Logits, link: Link, nBatch: nat, s: State,
                   prompt: seq<Token>, budget: nat, breaks: Callback ::
              0 < nBatch && !s.dead && Fetches(link, junk) ==>
              EndsGenuinely(WithLogits(m, logits), link, nBatch, s, prompt, budget, breaks)
  {
    if DrawsOrdinary(m, junk) {
      forall logits: seq<Token> -> Logits, link: Link, nBatch: nat, s: State,
             prompt: seq<Token>, budget: nat, breaks: Callback
        | 0 < nBatch && !s.dead && Fetches(link, junk)
        ensures EndsGenuinely(WithLogits(m, logits), link, nBatch, s, prompt, budget, breaks)
      {
        var m' := WithLogits(m, logits);
        assert DrawsOrdinary(m', junk) by {
          forall c: Chain ensures Ordinary(m', m'.sample(c, junk).1) {
            assert Ordinary(m, m.sample(c, junk).1);
          }
        }
        OrdinaryJunkIsHarmless(m', link, junk, nBatch, s, prompt, budget, breaks);
      }
    } else {
      var chain: Chain :| !Ordinary(m, m.sample(chain, junk).1);
      assert GoesOn(m, chain);
      var row: Logits :| Ordinary(m, m.sample(chain, row).1);
      JunkEndsFalsely(m, junk, chain, row);
      assert Fetches(TornAtOnce(junk), junk);
    }
  }

  /** A greedy model that takes token 0 for the end violates the condition: from a row of
      zeros it draws token 0, and a run torn at its prefill stops without a token although
      the model goes on. */
  lemma ZerosCanStop()
    ensures var m := Greedy(kv => [0.0, 1.0], t => t == 0);
            var s := State([], [0.0, 1.0], 0, 0, false);
            && !DrawsOrdinary(m, [0.0, 0.0])
            && Generate(m, TornAtOnce([0.0, 0.0]), 1, true, s, [7], 3, Never()) == Outcome([], Stop)
            && IdealFrom(m, s, [7], 3, Never()) == Outcome([1, 1, 1], Length)
  {
    var m := Greedy(kv => [0.0, 1.0], t => t == 0);
    var zeros, row: Logits := [0.0, 0.0], [0.0, 1.0];
    assert m.sample(0, zeros) == (0, 0) && m.sample(0, row) == (0, 1);
    assert !Ordinary(m, m.sample(0, zeros).1);
    assert Ideal(m, [7, 1, 1], row, 0, 1, Never(), [1, 1]) == Outcome([1, 1, 1], Length);
    assert [7] + [1] == [7, 1] && [7, 1] + [1] == [7, 1, 1];
    assert Ideal(m, [7, 1], row, 0, 2, Never(), [1]) == Outcome([1, 1, 1], Length);
  }

  function Never(): Callback {
    e => false
  }

  /** A model that says 1 for ever, unless it is handed `junk` as its logits. */
  function Fooled(junk: Logits): Model {
    Model(kv => Unlike(junk), (c, l) => (c, if l == junk then 0 else 1), t => t == 0, t => true)
  }

  /** A row of the same length that differs in its first entry. */
  function Unlike(row: Logits): (other: Logits)
    ensures |other| == |row| && other != row
  {
    var other := row[0 := row[0] + 1.0];
    assert other[0] != row[0];
    other
  }

  lemma FalseStop(link: Link, i: nat)
    requires link(i).Garbled? && !Disturbed(link, 0, i)
    ensures var m := Fooled(link(i).junk);
            var s := State([], [0.0], 0, 0, false);
            && Generate(m, link, 1, true, s, [1], i + 1, Never()).finish == Stop
            && IdealFrom(m, s, [1], i + 1, Never()).finish == Length
  {
    var m := Fooled(link(i).junk);
    var s := State([], [0.0], 0, 0, false);
    assert 0 < i ==> link(0) == Healthy;
    var next := Decode(m, link, 1, s, [1]).value;
    assert s.kv + [1] == [1];
    FooledIdeal(link(i).junk, [1], 0, i + 1, []);
    if i > 0 {
      FooledLoop(link, i, next, i + 1, []);
    }
  }

  lemma {:induction false} FooledIdeal(junk: Logits, kv: seq<Token>, chain: Chain, budget: nat, emitted: seq<Token>)
    ensures Ideal(Fooled(junk), kv, Unlike(junk), chain, budget, Never(), emitted).finish == Length
    decreases budget
  {
    if budget > 0 {
      FooledIdeal(junk, kv + [1], chain, budget - 1, emitted + [1]);
    }
  }

  lemma {:induction false} FooledLoop(link: Link, i: nat, s: State, budget: nat, emitted: seq<Token>)
    requires link(i).Garbled? && !Disturbed(link, 0, i)
    requires !s.dead && s.calls <= i && s.logits == Unlike(link(i).junk) && budget >= i - s.calls + 2
    ensures Loop(Fooled(link(i).junk), link, 1, true, s, budget, Never(), emitted).finish == Stop
    decreases i - s.calls
  {
    var m := Fooled(link(i).junk);
    var next := Decode(m, link, 1, s, [1]);
    if s.calls < i {
      assert link(s.calls) == Healthy;
      FooledLoop(link, i, next.value, budget - 1, emitted + [1]);
    }
  }

  // ---- Resuming ----

  /** The callback of a resumed run: it has already seen `seen`. */
  function After(breaks: Callback, seen: seq<Token>): Callback {
    (more: seq<Token>) => breaks(seen + more)
  }

  /** Prepending already emitted tokens to a run changes only the record of them. */
  lemma {:induction false} IdealShift(m: Model, kv: seq<Token>, logits: Logits, c: Chain, d: Chain,
                                      budget: nat, breaks: Callback, seen: seq<Token>, emitted: seq<Token>)
    requires Stateless(m)
    ensures var r := Ideal(m, kv, logits, c, budget, After(breaks, seen), emitted);
            Ideal(m, kv, logits, d, budget, breaks, seen + emitted) == Outcome(seen + r.emitted, r.finish)
    decreases budget
  {
    if budget > 0 {
      var tok := m.sample(c, logits).1;
      assert m.sample(d, logits) == (d, tok) && m.sample(c, logits) == (c, tok);
      assert seen + emitted + [tok] == seen + (emitted + [tok]);
      IdealShift(m, kv + [tok], m.logits(kv + [tok]), c, d, budget - 1, breaks, seen, emitted + [tok]);
    }
  }

  lemma OnlyOneLonger(short: seq<Token>, mid: seq<Token>, tok: Token)
    requires short <= mid <= short + [tok] && mid != short
    ensures mid == short + [tok]
  {
  }

  /** A greedy run cut after any prefix of what it emits continues as a fresh run on
      the prompt extended by that prefix. */
  lemma {:induction false} IdealSplit(m: Model, kv: seq<Token>, c: Chain, d: Chain, budget: nat,
                                      breaks: Callback, emitted: seq<Token>, cut: seq<Token>)
    requires Stateless(m)
    requires emitted <= cut <= Ideal(m, kv, m.logits(kv), c, budget, breaks, emitted).emitted
    requires cut == emitted || !breaks(cut)
    ensures |cut| - |emitted| <= budget
    ensures var rest := cut[|emitted|..];
            var r := Ideal(m, kv + rest, m.logits(kv + rest), d, budget - |rest|, After(breaks, cut), []);
            Ideal(m, kv, m.logits(kv), c, budget, breaks, emitted) == Outcome(cut + r.emitted, r.finish)
    decreases budget
  {
    var rest := cut[|emitted|..];
    if cut == emitted {
      assert kv + rest == kv && cut + [] == emitted;
      IdealShift(m, kv, m.logits(kv), d, c, budget, breaks, cut, []);
    } else {
      var tok := m.sample(c, m.logits(kv)).1;
      assert m.sample(c, m.logits(kv)) == (c, tok);
      assert budget > 0;
      var longer := emitted + [tok];
      if !breaks(longer) {
        IdealExtends(m, kv + [tok], m.logits(kv + [tok]), c, budget - 1, breaks, longer);
        assert longer <= cut;
        IdealSplit(m, kv + [tok], c, d, budget - 1, breaks, longer, cut);
        assert kv + rest == kv + [tok] + cut[|longer|..];
      } else {
        OnlyOneLonger(emitted, cut, tok);
      }
    }
  }

  /** Resume composition: with greedy sampling, generating `a + b` tokens is
      generating `a`, then starting afresh on the prompt plus those tokens and
      generating `b`, on any links without failures and with any batch sizes. */
  lemma ResumeComposes(m: Model, link1: Link, link2: Link, nb1: nat, nb2: nat, s: State, spare: State,
                       prompt: seq<Token>, a: nat, b: nat, breaks: Callback)
    requires 0 < nb1 && 0 < nb2 && prompt != [] && Stateless(m)
    requires !s.dead && Clean(link1, s.calls) && s.kv == []
    requires !spare.dead && Clean(link2, spare.calls) && spare.kv == []
    ensures var first := Generate(m, link1, nb1, true, s, prompt, a, breaks);
            first.finish != Aborted ==>
              && |first.emitted| <= a
              && (var rest := Generate(m, link2, nb2, true, spare, prompt + first.emitted,
                                       a + b - |first.emitted|, After(breaks, first.emitted));
                  Generate(m, link1, nb1, true, s, prompt, a + b, breaks)
                  == Outcome(first.emitted + rest.emitted, rest.finish))
  {
    hide Generate, Ideal;
    HealthyRunIsIdeal(m, link1, nb1, true, s, prompt, a, breaks);
    HealthyRunIsIdeal(m, link1, nb1, true, s, prompt, a + b, breaks);
    assert s.kv + prompt == prompt;
    IdealBudget(m, prompt, m.logits(prompt), s.chain, a, b, breaks, []);
    var cut := IdealFrom(m, s, prompt, a, breaks).emitted;
    if IdealFrom(m, s, prompt, a, breaks).finish != Aborted {
      Resumed(m, link2, nb2, s, spare, prompt, a + b, breaks, cut);
    }
  }

  /** A smaller budget emits a prefix, and only an abort has the callback break on
      what was emitted. */
  lemma {:induction false} IdealBudget(m: Model, kv: seq<Token>, logits: Logits, chain: Chain,
                                       a: nat, b: nat, breaks: Callback, emitted: seq<Token>)
    ensures var first := Ideal(m, kv, logits, chain, a, breaks, emitted);
            && first.emitted <= Ideal(m, kv, logits, chain, a + b, breaks, emitted).emitted
            && |first.emitted| <= |emitted| + a
            && (first.finish != Aborted ==> first.emitted == emitted || !breaks(first.emitted))
    decreases a
  {
    IdealExtends(m, kv, logits, chain, a + b, breaks, emitted);
    if a > 0 {
      var (chain', tok) := m.sample(chain, logits);
      IdealBudget(m, kv + [tok], m.logits(kv + [tok]), chain', a - 1, b, breaks, emitted + [tok]);
    }
  }

  /** Resuming a greedy run after any prefix its callback let pass. */
  lemma Resumed(m: Model, link: Link, nBatch: nat, s: State, spare: State,
                prompt: seq<Token>, budget: nat, breaks: Callback, cut: seq<Token>)
    requires 0 < nBatch && prompt != [] && Stateless(m) && s.kv == []
    requires !spare.dead && Clean(link, spare.calls) && spare.kv == []
    requires cut <= IdealFrom(m, s, prompt, budget, breaks).emitted
    requires cut == [] || !breaks(cut)
    ensures |cut| <= budget
    ensures var rest := Generate(m, link, nBatch, true, spare, prompt + cut, budget - |cut|, After(breaks, cut));
            IdealFrom(m, s, prompt, budget, breaks) == Outcome(cut + rest.emitted, rest.finish)
  {
    hide Generate, Ideal;
    assert s.kv + prompt == prompt;
    IdealSplit(m, prompt, s.chain, spare.chain, budget, breaks, [], cut);
    assert cut[0..] == cut && spare.kv + (prompt + cut) == prompt + cut;
    HealthyRunIsIdeal(m, link, nBatch, true, spare, prompt + cut, budget - |cut|, After(breaks, cut));
  }

  /** A run that ended in a decode error never had its callback break. */
  lemma {:induction false} ErrorMeansUnbroken(m: Model, link: Link, nBatch: nat, s: State,
                                              budget: nat, breaks: Callback, emitted: seq<Token>)
    requires 0 < nBatch
    ensures var r := Loop(m, link, nBatch, true, s, budget, breaks, emitted);
            r.finish == DecodeError ==> r.emitted == emitted || !breaks(r.emitted)
    decreases budget
  {
    if budget > 0 {
      var (chain, tok) := m.sample(s.chain, s.logits);
      var decoded := Decode(m, link, nBatch, s.(chain := chain), [tok]);
      if decoded.Some? {
        ErrorMeansUnbroken(m, link, nBatch, decoded.value, budget - 1, breaks, emitted + [tok]);
      }
    }
  }

  /** The transparent retry: when a greedy distributed run is lost to a tear,
      re-prefilling the prompt and the tokens already sent on a fresh engine, with
      what is left of the budget, completes exactly the run that was never torn. */
  lemma RetryIsTransparent(m: Model, torn: Link, link: Link, nb1: nat, nb2: nat, s: State, spare: State,
                           prompt: seq<Token>, budget: nat, breaks: Callback)
    requires 0 < nb1 && 0 < nb2 && prompt != [] && Stateless(m)
    requires !s.dead && s.kv == []
    requires !spare.dead && Clean(link, spare.calls) && spare.kv == []
    requires Generate(m, torn, nb1, true, s, prompt, budget, breaks).finish == DecodeError
    ensures var sent := Generate(m, torn, nb1, true, s, prompt, budget, breaks).emitted;
            && |sent| <= budget
            && (var rest := Generate(m, link, nb2, true, spare, prompt + sent, budget - |sent|, After(breaks, sent));
                IdealFrom(m, s, prompt, budget, breaks) == Outcome(sent + rest.emitted, rest.finish))
  {
    TornRunIsPrefix(m, torn, nb1, s, prompt, budget, breaks);
    var decoded := Decode(m, torn, nb1, s, prompt);
    if decoded.Some? {
      ErrorMeansUnbroken(m, torn, nb1, decoded.value, budget, breaks, []);
    }
    Resumed(m, link, nb2, s, spare, prompt, budget, breaks,
            Generate(m, torn, nb1, true, s, prompt, budget, breaks).emitted);
  }

  /** A chain that counts its draws and draws the count. */
  function Counter(): Model {
    Model(kv => [0.0], (c: Chain, l) => (c + 1, c), t => t == 9, t => true)
  }

  lemma CounterCounts(s: State)
    requires s == State([], [0.0], 0, 0, false)
    ensures IdealFrom(Counter(), s, [7], 2, Never()).emitted == [0, 1]
    ensures IdealFrom(Counter(), s, [7, 0], 1, After(Never(), [0])).emitted == [0]
  {
    var m := Counter();
    assert m.sample(0, [0.0]) == (1, 0) && m.sample(1, [0.0]) == (2, 1);
  }

  /** With a chain whose state matters the retry may diverge: the fresh chain
      replays draws the lost run had already made. */
  lemma SampledRetryCanDiverge()
    ensures exists m: Model, link: Link, s: State, sent: seq<Token>, breaks: Callback ::
              && !Stateless(m) && Clean(link, 0) && s == State([], [0.0], 0, 0, false)
              && sent <= IdealFrom(m, s, [7], 2, breaks).emitted
              && sent + Generate(m, link, 1, true, s, [7] + sent, 1, After(breaks, sent)).emitted
              != IdealFrom(m, s, [7], 2, breaks).emitted
  {
    hide Generate, IdealFrom;
    var m, link: Link, s, breaks := Counter(), i => Healthy, State([], [0.0], 0, 0, false), Never();
    CounterCounts(s);
    HealthyRunIsIdeal(m, link, 1, true, s, [7, 0], 1, After(breaks, [0]));
    assert m.sample(0, [0.0]).0 == 1;
    var sent: seq<Token> := [0];
    assert [7] + sent == [7, 0];
    assert sent <= IdealFrom(m, s, [7], 2, breaks).emitted;
    assert sent + Generate(m, link, 1, true, s, [7] + sent, 1, After(breaks, sent)).emitted == [0, 0];
    assert Clean(link, 0) && !Stateless(m);
  }
}

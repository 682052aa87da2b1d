/** Whole runs of plain and of speculative steps against the ideal generation: the
  same tokens, the same ending, and every piece but a refused last one delivered. */
module PlainRuns {
  import opened Engine
  import opened Speculation
  import Generation

  /** The callback that breaks where the scan, having seen `heard`, refuses a piece. */
  function Refuses(admits: Scan, heard: seq<Token>): Generation.Callback {
    (said: seq<Token>) => !admits(heard + said)
  }

  /** The generation `c` with `said` counted, sent and kept since, `left` tokens before
      its budget is spent. */
  function Grown(c: Gen, said: seq<Token>, left: nat): Gen
    requires c.Confirmed?
  {
    Confirmed(c.kv + said, c.attempt + said, left, c.delivered + said, c.scanned + said)
  }

  /** `h` is how a generation that stood at `c` ends if it says what `r` emits. */
  ghost predicate EndsAs(c: Gen, h: Gen, r: Generation.Outcome)
    requires c.Confirmed?
  {
    && h.Ended?
    && h.attempt == c.attempt + r.emitted
    && (h.ending == Stop <==> r.finish == Generation.Stop || r.finish == Generation.Aborted)
    && (h.ending == Length <==> r.finish == Generation.Length)
    && (h.ending == RenderError <==> r.finish == Generation.RenderError)
    && h.kv == (if r.finish == Generation.RenderError then [] else c.kv + r.emitted)
    && (if r.finish == Generation.Aborted
        then r.emitted != [] && h.delivered == c.delivered + r.emitted[..|r.emitted| - 1]
        else h.delivered == c.delivered + r.emitted)
  }

  lemma SayOneMore(kv: seq<Token>, said: seq<Token>, tok: Token)
    ensures kv + said + [tok] == kv + (said + [tok])
  {
  }

  /** A staged token, once decoded, is refused, is the last of the budget, or is counted. */
  lemma StagedConfirms(admits: Scan, distributed: bool, c: Gen, said: seq<Token>, left: nat, chain: Chain, tok: Token)
    requires c.Confirmed? && 0 < left
    ensures var g := Stage(admits, distributed, Grown(c, said, left), chain, tok);
            var longer := said + [tok];
            && Live(g) && g.chain == chain
            && Confirm(admits, g)
            == (if Refuses(admits, c.scanned)(longer)
                then Ended(c.kv + longer, c.attempt + longer, c.delivered + said, Stop)
                else if left == 1
                then Ended(c.kv + longer, c.attempt + longer, c.delivered + longer, Length)
                else Grown(c, longer, left - 1))
  {
    SayOneMore(c.kv, said, tok);
    SayOneMore(c.attempt, said, tok);
    SayOneMore(c.delivered, said, tok);
    SayOneMore(c.scanned, said, tok);
  }

  /** What the ideal generation does with a token that was drawn and can be rendered. */
  function IdealAfter(m: Model, admits: Scan, c: Gen, said: seq<Token>, left: nat, chain: Chain, tok: Token)
    : Generation.Outcome
    requires c.Confirmed? && 0 < left
  {
    var longer := said + [tok];
    var breaks := Refuses(admits, c.scanned);
    if breaks(longer) then Generation.Outcome(longer, Generation.Aborted)
    else Generation.Ideal(m, c.kv + longer, m.logits(c.kv + longer), chain, left - 1, breaks, longer)
  }

  /** Sampling is the ideal's own draw: it ends the generation or stages a token. */
  lemma SampleIsIdeal(m: Model, admits: Scan, distributed: bool, c: Gen, said: seq<Token>, left: nat, chain: Chain)
    requires c.Confirmed? && 0 < left
    ensures var at := Grown(c, said, left);
            var (chain', tok) := m.sample(chain, m.logits(at.kv));
            var g := Next(m, admits, distributed, at, chain, m.logits(at.kv));
            var r := Generation.Ideal(m, at.kv, m.logits(at.kv), chain, left, Refuses(admits, c.scanned), said);
            if m.isEog(tok) || !m.renders(tok) then EndsAs(c, g, r)
            else g == Stage(admits, distributed, at, chain', tok)
                 && r == IdealAfter(m, admits, c, said, left, chain', tok)
  {
    SayOneMore(c.kv, said, m.sample(chain, m.logits(c.kv + said)).1);
  }

  lemma {:induction false} PendingEndsAs(m: Model, admits: Scan, distributed: bool, c: Gen, said: seq<Token>,
                                         left: nat, chain: Chain, tok: Token, n: nat)
    requires c.Confirmed? && 0 < left <= n
    ensures var g := Stage(admits, distributed, Grown(c, said, left), chain, tok);
            EndsAs(c, Plain(m, admits, distributed, g, n), IdealAfter(m, admits, c, said, left, chain, tok))
    decreases left
  {
    hide Stage, Confirm, Next, Generation.Ideal;
    var at := Grown(c, said, left);
    var g := Stage(admits, distributed, at, chain, tok);
    StagedConfirms(admits, distributed, c, said, left, chain, tok);
    StepKeepsBudget(m, admits, distributed, g);
    var longer := said + [tok];
    var confirmed := Confirm(admits, g);
    if confirmed.Ended? {
      EndsNow(m, admits, distributed, c, g, said, left, chain, tok, n);
    } else {
      SampleIsIdeal(m, admits, distributed, c, longer, left - 1, chain);
      var (chain', tok') := m.sample(chain, m.logits(c.kv + longer));
      var next := PlainStep(m, admits, distributed, g);
      if m.isEog(tok') || !m.renders(tok') {
        EndedStays(m, admits, distributed, next, n - 1);
      } else {
        PendingEndsAs(m, admits, distributed, c, longer, left - 1, chain', tok', n - 1);
      }
    }
  }

  lemma EndsNow(m: Model, admits: Scan, distributed: bool, c: Gen, g: Gen, said: seq<Token>,
                left: nat, chain: Chain, tok: Token, n: nat)
    requires c.Confirmed? && 0 < left <= n && Live(g)
    requires var longer := said + [tok];
             Confirm(admits, g)
             == if Refuses(admits, c.scanned)(longer)
                then Ended(c.kv + longer, c.attempt + longer, c.delivered + said, Stop)
                else Ended(c.kv + longer, c.attempt + longer, c.delivered + longer, Length)
    requires !Refuses(admits, c.scanned)(said + [tok]) ==> left == 1
    ensures EndsAs(c, Plain(m, admits, distributed, g, n), IdealAfter(m, admits, c, said, left, chain, tok))
  {
    hide Confirm;
    StepKeepsBudget(m, admits, distributed, g);
    EndedStays(m, admits, distributed, Confirm(admits, g), n - 1);
    var longer := said + [tok];
    assert longer[..|longer| - 1] == said;
  }

  /** From any generation with budget left, as many plain steps as the budget allows come
      to an end, and the tokens counted, the ending, the KV and the delivered pieces are
      those of the ideal generation whose callback is the stop-string scan. */
  lemma PlainRunIsIdeal(m: Model, admits: Scan, distributed: bool, c: Gen, chain: Chain, n: nat)
    requires c.Confirmed? && 0 < c.remaining <= n
    ensures EndsAs(c, FromConfirmed(m, admits, distributed, c, chain, n),
                   Generation.Ideal(m, c.kv, m.logits(c.kv), chain, c.remaining, Refuses(admits, c.scanned), []))
  {
    hide Stage, Generation.Ideal, Plain, EndsAs;
    Unsaid(c);
    SampleIsIdeal(m, admits, distributed, c, [], c.remaining, chain);
    var (chain', tok) := m.sample(chain, m.logits(c.kv));
    var g := Next(m, admits, distributed, c, chain, m.logits(c.kv));
    if m.isEog(tok) || !m.renders(tok) {
      EndedStays(m, admits, distributed, g, n);
    } else {
      PendingEndsAs(m, admits, distributed, c, [], c.remaining, chain', tok, n);
    }
  }

  lemma Unsaid(c: Gen)
    requires c.Confirmed?
    ensures Grown(c, [], c.remaining) == c
  {
    assert c.kv + [] == c.kv && c.attempt + [] == c.attempt;
    assert c.delivered + [] == c.delivered && c.scanned + [] == c.scanned;
  }

  /** The same from a live generation: one that stood at `c` when `tok` was staged. */
  lemma LiveRunIsIdeal(m: Model, admits: Scan, distributed: bool, c: Gen, chain: Chain, tok: Token, n: nat)
    requires c.Confirmed? && 0 < c.remaining <= n
    ensures var g := Stage(admits, distributed, c, chain, tok);
            Live(g) && EndsAs(c, Plain(m, admits, distributed, g, n),
                              IdealAfter(m, admits, c, [], c.remaining, chain, tok))
  {
    Unsaid(c);
    PendingEndsAs(m, admits, distributed, c, [], c.remaining, chain, tok, n);
  }

  // ---- What is sent when ----

  /** A running generation that stood at `c`: its KV holds what was counted, and what was
      sent is that and, on a solo model only, the pending piece if the scan took it. */
  ghost predicate InOrder(admits: Scan, distributed: bool, c: Gen, h: Gen)
    requires c.Confirmed? && h.Running?
  {
    && c.attempt <= h.attempt
    && var said := h.attempt[|c.attempt|..];
       var tok := h.pending.tok;
       && h.kv == c.kv + said
       && h.delivered == c.delivered + said
                         + (if distributed || Refuses(admits, c.scanned)(said + [tok]) then [] else [tok])
  }

  lemma StagedInOrder(admits: Scan, distributed: bool, c: Gen, said: seq<Token>, left: nat, chain: Chain, tok: Token)
    requires c.Confirmed? && 0 < left
    ensures InOrder(admits, distributed, c, Stage(admits, distributed, Grown(c, said, left), chain, tok))
  {
    var h := Stage(admits, distributed, Grown(c, said, left), chain, tok);
    assert h.attempt[|c.attempt|..] == said;
    assert c.scanned + said + [tok] == c.scanned + (said + [tok]);
    assert c.delivered + said + [] == c.delivered + said;
  }

  /** Confirm-before-send, and the solo exemption: after any number of plain steps, a
      generation still running on a distributed model has sent only what was decoded, and
      one on a solo model that and the piece just sampled. */
  lemma PlainRunIsInOrder(m: Model, admits: Scan, distributed: bool, c: Gen, chain: Chain, n: nat)
    requires c.Confirmed? && 0 < c.remaining
    ensures var h := FromConfirmed(m, admits, distributed, c, chain, n);
            h.Running? ==> InOrder(admits, distributed, c, h)
  {
    hide Stage, Plain, InOrder, Next;
    Unsaid(c);
    NextInOrder(m, admits, distributed, c, [], c.remaining, chain, n);
  }

  lemma {:induction false} NextInOrder(m: Model, admits: Scan, distributed: bool, c: Gen, said: seq<Token>,
                                       left: nat, chain: Chain, n: nat)
    requires c.Confirmed? && 0 < left
    ensures var at := Grown(c, said, left);
            var h := FromConfirmed(m, admits, distributed, at, chain, n);
            h.Running? ==> InOrder(admits, distributed, c, h)
    decreases n
  {
    hide Stage, InOrder, Generation.Ideal, Confirm;
    var at := Grown(c, said, left);
    var (chain', tok) := m.sample(chain, m.logits(at.kv));
    var g := Next(m, admits, distributed, at, chain, m.logits(at.kv));
    SampleIsIdeal(m, admits, distributed, c, said, left, chain);
    if m.isEog(tok) || !m.renders(tok) {
      EndedStays(m, admits, distributed, g, n);
    } else {
      StagedInOrder(admits, distributed, c, said, left, chain', tok);
      StagedConfirms(admits, distributed, c, said, left, chain', tok);
      if n > 0 {
        StepKeepsBudget(m, admits, distributed, g);
        var confirmed := Confirm(admits, g);
        if confirmed.Ended? {
          EndedStays(m, admits, distributed, confirmed, n - 1);
        } else {
          NextInOrder(m, admits, distributed, c, said + [tok], left - 1, chain', n - 1);
        }
      }
    }
  }

  // ---- From the prompt on ----

  lemma SampledIsLive(m: Model, admits: Scan, distributed: bool, c: Gen, chain: Chain, row: Logits)
    requires c.Confirmed? && 0 < c.remaining
    ensures var g := Next(m, admits, distributed, c, chain, row); !g.Confirmed? && (g.Running? ==> Live(g))
  {
  }

  /** A speculative run never stops between a decode and the next draw. */
  lemma {:induction false} NeverBetween(m: Model, admits: Scan, distributed: bool, g: Gen, proposals: seq<seq<Token>>)
    requires !g.Confirmed? && (g.Running? ==> Live(g))
    ensures !SpecRun(m, admits, distributed, g, proposals).Confirmed?
    decreases |proposals|
  {
    hide SpecRound;
    if proposals != [] && g.Running? {
      var drafts := proposals[0];
      var rows := Rows(m, g.kv + [g.pending.tok], drafts);
      NeverBetween(m, admits, distributed, SpecRound(m, admits, distributed, g, drafts, rows), proposals[1..]);
    }
  }

  /** A generation as it stands after the prefill of `prompt`. */
  function Prefilled(prompt: seq<Token>, budget: nat): Gen {
    Confirmed(prompt, [], budget, [], [])
  }

  /** Speculation end to end: whatever is proposed from the shared vocabulary, a speculative
      generation that has ended has said what the ideal generation says. */
  lemma SpeculativeRunIsIdeal(m: Model, admits: Scan, distributed: bool, prompt: seq<Token>, budget: nat,
                              chain: Chain, proposals: seq<seq<Token>>)
    requires 0 < budget && SharedVocabulary(m, proposals)
    ensures var c := Prefilled(prompt, budget);
            var g := Next(m, admits, distributed, c, chain, m.logits(prompt));
            var h := SpecRun(m, admits, distributed, g, proposals);
            && (|proposals| >= budget ==> h.Ended?)
            && (h.Ended? ==>
                  EndsAs(c, h, Generation.Ideal(m, prompt, m.logits(prompt), chain, budget, Refuses(admits, []), [])))
  {
    hide SpecRun, Plain, Next, Generation.Ideal, SharedVocabulary;
    var c := Prefilled(prompt, budget);
    SampledIsLive(m, admits, distributed, c, chain, m.logits(prompt));
    var g := Next(m, admits, distributed, c, chain, m.logits(prompt));
    var n := SpeculationIsInvisible(m, admits, distributed, g, proposals);
    var h := SpecRun(m, admits, distributed, g, proposals);
    NeverBetween(m, admits, distributed, g, proposals);
    PlainRunIsIdeal(m, admits, distributed, c, chain, n + budget);
    if h.Ended? {
      assert Plain(m, admits, distributed, g, n + budget) == h;
    } else if budget <= |proposals| {
      PlainRunIsIdeal(m, admits, distributed, c, chain, n);
    }
  }
}

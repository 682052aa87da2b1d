/** Speculative decoding: one verify decode confirms a pending token and as many
  drafted tokens as the target model's own choices reproduce.

  The reference is the plain step, which decodes one pending token and samples
  the next.  A generation is a value here; class `Decoder` (module
  `SpeculativeRounds`) updates one in place. */
module Speculation {
  import opened Engine

  datatype Ending = Stop | Length | RenderError | RollbackError

  /** A sampled token that has not been decoded yet. On a distributed model its
      piece is unsent; on a solo model it was scanned and sent when sampled. */
  datatype Pending = Unsent(tok: Token) | Sent(tok: Token, admitted: bool)

  /** `scanned` are the tokens whose pieces went through the stop-string scan,
      `delivered` those whose pieces were handed to the client, `attempt` those
      counted as generated.  `Confirmed` is a running generation between the
      decode of its pending token and the sampling of the next. */
  datatype Gen =
    | Running(kv: seq<Token>, attempt: seq<Token>, remaining: nat,
              delivered: seq<Token>, scanned: seq<Token>, chain: Chain, pending: Pending)
    | Confirmed(kv: seq<Token>, attempt: seq<Token>, remaining: nat,
                delivered: seq<Token>, scanned: seq<Token>)
    | Ended(kv: seq<Token>, attempt: seq<Token>, delivered: seq<Token>, ending: Ending)

  /** The stop-string scan: may the last of these tokens' pieces be sent? */
  type Scan = seq<Token> -> bool

  ghost predicate Live(g: Gen) {
    g.Running? && 0 < g.remaining
  }

  // ---- The plain step ----

  /** Count and emit the pending token, whose decode has succeeded. */
  function Confirm(admits: Scan, g: Gen): Gen
    requires Live(g)
  {
    var tok := g.pending.tok;
    var scanned := if g.pending.Unsent? then g.scanned + [tok] else g.scanned;
    var admitted := if g.pending.Unsent? then admits(scanned) else g.pending.admitted;
    var delivered := if g.pending.Unsent? && admitted then g.delivered + [tok] else g.delivered;
    Settle(g.kv + [tok], g.attempt + [tok], g.remaining - 1, delivered, scanned, admitted)
  }

  function Settle(kv: seq<Token>, attempt: seq<Token>, remaining: nat, delivered: seq<Token>,
                  scanned: seq<Token>, admitted: bool): Gen {
    if !admitted then Ended(kv, attempt, delivered, Stop)
    else if remaining == 0 then Ended(kv, attempt, delivered, Length)
    else Confirmed(kv, attempt, remaining, delivered, scanned)
  }

  /** Make `tok`, drawn with the chain now at `chain`, the pending token. */
  function Stage(admits: Scan, distributed: bool, c: Gen, chain: Chain, tok: Token): Gen
    requires c.Confirmed?
  {
    if distributed then
      Running(c.kv, c.attempt, c.remaining, c.delivered, c.scanned, chain, Unsent(tok))
    else
      var scanned := c.scanned + [tok];
      var admitted := admits(scanned);
      Running(c.kv, c.attempt, c.remaining, if admitted then c.delivered + [tok] else c.delivered,
              scanned, chain, Sent(tok, admitted))
  }

  function Continue(m: Model, admits: Scan, distributed: bool, c: Gen, chain: Chain, tok: Token): Gen
    requires c.Confirmed?
  {
    if m.isEog(tok) then Ended(c.kv, c.attempt, c.delivered, Stop)
    else if !m.renders(tok) then Ended([], c.attempt, c.delivered, RenderError)
    else Stage(admits, distributed, c, chain, tok)
  }

  /** Sample from the row of logits the decode produced and continue. */
  function Next(m: Model, admits: Scan, distributed: bool, c: Gen, chain: Chain, row: Logits): Gen {
    if c.Confirmed? then
      var (chain', tok) := m.sample(chain, row);
      Continue(m, admits, distributed, c, chain', tok)
    else c
  }

  function PlainStep(m: Model, admits: Scan, distributed: bool, g: Gen): Gen
    requires g.Running? ==> Live(g)
  {
    if !g.Running? then g
    else
      var c := Confirm(admits, g);
      Next(m, admits, distributed, c, g.chain, m.logits(c.kv))
  }

  /** `n` plain steps; an ended generation stays as it is. */
  function Plain(m: Model, admits: Scan, distributed: bool, g: Gen, n: nat): Gen
    requires g.Running? ==> Live(g)
    decreases n
  {
    if n == 0 then g
    else
      StepKeepsBudget(m, admits, distributed, g);
      Plain(m, admits, distributed, PlainStep(m, admits, distributed, g), n - 1)
  }

  lemma StepKeepsBudget(m: Model, admits: Scan, distributed: bool, g: Gen)
    requires g.Running? ==> Live(g)
    ensures var h := PlainStep(m, admits, distributed, g); h.Running? ==> Live(h)
  {
  }

  // ---- The speculative round ----

  datatype Walk = Walked(accepted: nat, next: Token, chain: Chain) | Unrenderable

  /** Accept drafts while the target's own draw reproduces them; `next` is the
      first draw that is not a draft. */
  function Accept(m: Model, chain: Chain, drafts: seq<Token>, rows: seq<Logits>): Walk
    requires |rows| == |drafts| + 1
    ensures var w := Accept(m, chain, drafts, rows); w.Walked? ==> w.accepted <= |drafts|
    decreases |drafts|
  {
    var (chain', tok) := m.sample(chain, rows[0]);
    if drafts == [] || tok != drafts[0] then Walked(0, tok, chain')
    else if !m.renders(tok) then Unrenderable
    else
      match Accept(m, chain', drafts[1..], rows[1..])
      case Unrenderable => Unrenderable
      case Walked(n, next, last) => Walked(n + 1, next, last)
  }

  /** Count and emit one accepted draft. */
  function Absorb(admits: Scan, c: Gen, tok: Token): Gen
    requires c.Confirmed? ==> 0 < c.remaining
  {
    if c.Confirmed? then
      var scanned := c.scanned + [tok];
      var admitted := admits(scanned);
      Settle(c.kv + [tok], c.attempt + [tok], c.remaining - 1,
             if admitted then c.delivered + [tok] else c.delivered, scanned, admitted)
    else c
  }

  function AbsorbAll(admits: Scan, c: Gen, toks: seq<Token>): (e: Gen)
    requires c.Confirmed? ==> 0 < c.remaining
    ensures e.Confirmed? ==> 0 < e.remaining
    ensures e.Running? ==> c.Running?
    decreases |toks|
  {
    if toks == [] then c else AbsorbAll(admits, Absorb(admits, c, toks[0]), toks[1..])
  }

  /** The part of a round after the pending token is confirmed. */
  function RoundTail(m: Model, admits: Scan, distributed: bool, c: Gen, w: Walk, drafts: seq<Token>): Gen
    requires c.Confirmed? ==> 0 < c.remaining
    requires w.Walked? && w.accepted <= |drafts|
  {
    var e := AbsorbAll(admits, c, drafts[..w.accepted]);
    if e.Confirmed? then Continue(m, admits, distributed, e, w.chain, w.next) else e
  }

  /** One speculative round over the rows of a verify decode. */
  function SpecRound(m: Model, admits: Scan, distributed: bool, g: Gen,
                     drafts: seq<Token>, rows: seq<Logits>): (h: Gen)
    requires Live(g) && |rows| == |drafts| + 1
    ensures h.Running? ==> Live(h)
    ensures !h.Confirmed?
  {
    var w := Accept(m, g.chain, drafts, rows);
    if w.Unrenderable? then Ended([], g.attempt, g.delivered, RenderError)
    else RoundTail(m, admits, distributed, Confirm(admits, g), w, drafts)
  }

  /** A rollback a round needs does not work: of the rejected drafts, before anything is
      counted, or of the drafts past a stop match, after counting. */
  predicate TrimFails(m: Model, admits: Scan, g: Gen, drafts: seq<Token>, rows: seq<Logits>,
                      trimsRejected: bool, trimsStopped: bool)
    requires Live(g) && |rows| == |drafts| + 1
  {
    var w := Accept(m, g.chain, drafts, rows);
    w.Walked? && (
      || (w.accepted < |drafts| && !trimsRejected)
      || (|AbsorbAll(admits, Confirm(admits, g), drafts[..w.accepted]).kv| < |g.kv| + 1 + w.accepted && !trimsStopped))
  }

  /** A round whose rollbacks may fail, which fails the generation. */
  function TrimmedRound(m: Model, admits: Scan, distributed: bool, g: Gen, drafts: seq<Token>, rows: seq<Logits>,
                        trimsRejected: bool, trimsStopped: bool): Gen
    requires Live(g) && |rows| == |drafts| + 1
  {
    if !TrimFails(m, admits, g, drafts, rows, trimsRejected, trimsStopped)
    then SpecRound(m, admits, distributed, g, drafts, rows)
    else
      var w := Accept(m, g.chain, drafts, rows);
      if w.accepted < |drafts| && !trimsRejected then Ended([], g.attempt, g.delivered, RollbackError)
      else
        var e := AbsorbAll(admits, Confirm(admits, g), drafts[..w.accepted]);
        Ended([], e.attempt, e.delivered, RollbackError)
  }

  /** The outcome of a round whose rollbacks may fail: the round itself unless one that it
      needs fails, and then an error that has counted and delivered nothing the round
      would not have, and keeps no KV. */
  lemma TrimmedRoundIsPrefix(m: Model, admits: Scan, distributed: bool, g: Gen, drafts: seq<Token>, rows: seq<Logits>,
                             trimsRejected: bool, trimsStopped: bool)
    requires Live(g) && |rows| == |drafts| + 1
    ensures var t := TrimmedRound(m, admits, distributed, g, drafts, rows, trimsRejected, trimsStopped);
            var r := SpecRound(m, admits, distributed, g, drafts, rows);
            if TrimFails(m, admits, g, drafts, rows, trimsRejected, trimsStopped)
            then t.Ended? && t.ending == RollbackError && t.kv == []
                 && g.attempt <= t.attempt <= r.attempt && t.delivered <= r.delivered
            else t == r
    ensures trimsRejected && trimsStopped ==> !TrimFails(m, admits, g, drafts, rows, trimsRejected, trimsStopped)
  {
    hide Accept, AbsorbAll;
    var w := Accept(m, g.chain, drafts, rows);
    if w.Walked? {
      AbsorbGrows(admits, Confirm(admits, g), drafts[..w.accepted]);
    }
  }

  lemma {:induction false} AbsorbKeeps(admits: Scan, c: Gen, toks: seq<Token>)
    requires c.Confirmed? ==> 0 < c.remaining
    ensures |AbsorbAll(admits, c, toks).kv| <= |c.kv| + |toks|
    decreases |toks|
  {
    if toks != [] {
      AbsorbKeeps(admits, Absorb(admits, c, toks[0]), toks[1..]);
    }
  }

  /** A rollback is needed exactly for what the verify decode put in the KV and the round
      does not keep: a round that keeps all of it fails on no rollback, and one that keeps
      less fails if neither works. */
  lemma RollbackIsNeeded(m: Model, admits: Scan, g: Gen, drafts: seq<Token>, rows: seq<Logits>,
                         trimsRejected: bool, trimsStopped: bool)
    requires Live(g) && |rows| == |drafts| + 1 && Accept(m, g.chain, drafts, rows).Walked?
    ensures var taken := drafts[..Accept(m, g.chain, drafts, rows).accepted];
            var kept := |AbsorbAll(admits, Confirm(admits, g), taken).kv|;
            var fails := TrimFails(m, admits, g, drafts, rows, trimsRejected, trimsStopped);
            && (kept == |g.kv| + 1 + |drafts| ==> !fails)
            && (kept < |g.kv| + 1 + |drafts| && !trimsRejected && !trimsStopped ==> fails)
            && kept <= |g.kv| + 1 + |drafts|
  {
    hide Accept, AbsorbAll;
    var w := Accept(m, g.chain, drafts, rows);
    AbsorbKeeps(admits, Confirm(admits, g), drafts[..w.accepted]);
  }

  /** The rows are the target's own logits after `kv` and each prefix of the drafts. */
  ghost predicate Genuine(m: Model, kv: seq<Token>, drafts: seq<Token>, rows: seq<Logits>) {
    && |rows| == |drafts| + 1
    && forall i :: 0 <= i <= |drafts| ==> rows[i] == m.logits(kv + drafts[..i])
  }

  /** Every draft the target accepts can be rendered, and none that is accepted
      while the generation still runs is an end-of-generation token of the target. */
  ghost predicate Faithful(m: Model, admits: Scan, c: Gen, chain: Chain, drafts: seq<Token>, rows: seq<Logits>)
    requires |rows| == |drafts| + 1
    requires c.Confirmed? ==> 0 < c.remaining
    decreases |drafts|
  {
    drafts == [] ||
    var (chain', tok) := m.sample(chain, rows[0]);
    tok == drafts[0] ==>
      && m.renders(tok)
      && (c.Confirmed? ==> !m.isEog(tok))
      && Faithful(m, admits, Absorb(admits, c, tok), chain', drafts[1..], rows[1..])
  }

  // ---- Rounds are plain steps ----

  /** Sampling a draft and confirming it is absorbing it, in either emission order. */
  lemma AbsorbIsSampleThenConfirm(m: Model, admits: Scan, distributed: bool, c: Gen, chain: Chain,
                                  row: Logits, tok: Token)
    requires c.Confirmed? && 0 < c.remaining
    requires m.sample(chain, row).1 == tok && !m.isEog(tok) && m.renders(tok)
    ensures var g := Next(m, admits, distributed, c, chain, row);
            && Live(g) && g.chain == m.sample(chain, row).0
            && Confirm(admits, g) == Absorb(admits, c, tok)
  {
  }

  lemma GenuineTail(m: Model, kv: seq<Token>, drafts: seq<Token>, rows: seq<Logits>)
    requires Genuine(m, kv, drafts, rows) && drafts != []
    ensures Genuine(m, kv + [drafts[0]], drafts[1..], rows[1..])
  {
    forall i | 0 <= i < |drafts|
      ensures rows[1..][i] == m.logits(kv + [drafts[0]] + drafts[1..][..i])
    {
      assert kv + [drafts[0]] + drafts[1..][..i] == kv + drafts[..i + 1];
    }
  }

  /** The plain run from a confirmed state: sample, then `n` plain steps. */
  function FromConfirmed(m: Model, admits: Scan, distributed: bool, c: Gen, chain: Chain, n: nat): Gen
    requires c.Confirmed? ==> 0 < c.remaining
    requires !c.Running?
  {
    Plain(m, admits, distributed, Next(m, admits, distributed, c, chain, m.logits(c.kv)), n)
  }

  lemma {:induction false} EndedStays(m: Model, admits: Scan, distributed: bool, g: Gen, n: nat)
    requires g.Ended?
    ensures Plain(m, admits, distributed, g, n) == g
    decreases n
  {
    if n > 0 {
      EndedStays(m, admits, distributed, g, n - 1);
    }
  }

  lemma {:induction false} AbsorbedByEnd(admits: Scan, c: Gen, toks: seq<Token>)
    requires !c.Confirmed?
    ensures AbsorbAll(admits, c, toks) == c
    decreases |toks|
  {
    if toks != [] {
      AbsorbedByEnd(admits, c, toks[1..]);
    }
  }

  /** A faithful walk never stops on a token that cannot be rendered. */
  lemma {:induction false} FaithfulWalks(m: Model, admits: Scan, c: Gen, chain: Chain,
                                         drafts: seq<Token>, rows: seq<Logits>)
    requires |rows| == |drafts| + 1 && (c.Confirmed? ==> 0 < c.remaining)
    requires Faithful(m, admits, c, chain, drafts, rows)
    ensures Accept(m, chain, drafts, rows).Walked?
    decreases |drafts|
  {
    var (chain', tok) := m.sample(chain, rows[0]);
    if drafts != [] && tok == drafts[0] {
      FaithfulWalks(m, admits, Absorb(admits, c, tok), chain', drafts[1..], rows[1..]);
    }
  }

  /** Peeling the first accepted draft off a round's tail. */
  lemma PeelDraft(m: Model, admits: Scan, distributed: bool, c: Gen, w: Walk, drafts: seq<Token>)
    requires c.Confirmed? ==> 0 < c.remaining
    requires w.Walked? && 0 < w.accepted <= |drafts|
    ensures RoundTail(m, admits, distributed, c, w, drafts)
         == RoundTail(m, admits, distributed, Absorb(admits, c, drafts[0]),
                      w.(accepted := w.accepted - 1), drafts[1..])
  {
    assert drafts[..w.accepted][0] == drafts[0];
    assert drafts[..w.accepted][1..] == drafts[1..][..w.accepted - 1];
  }

  lemma {:induction false} TailIsPlain(m: Model, admits: Scan, distributed: bool, c: Gen, chain: Chain,
                                       drafts: seq<Token>, rows: seq<Logits>) returns (n: nat)
    requires c.Confirmed? && 0 < c.remaining && Genuine(m, c.kv, drafts, rows)
    requires Faithful(m, admits, c, chain, drafts, rows)
    ensures var w := Accept(m, chain, drafts, rows);
            && w.Walked? && n <= |drafts|
            && RoundTail(m, admits, distributed, c, w, drafts)
            == FromConfirmed(m, admits, distributed, c, chain, n)
    decreases |drafts|
  {
    assert c.kv + drafts[..0] == c.kv;
    FaithfulWalks(m, admits, c, chain, drafts, rows);
    var (chain', tok) := m.sample(chain, rows[0]);
    var w := Accept(m, chain, drafts, rows);
    if drafts == [] || tok != drafts[0] {
      n := 0;
    } else {
      GenuineTail(m, c.kv, drafts, rows);
      PeelDraft(m, admits, distributed, c, w, drafts);
      AbsorbIsSampleThenConfirm(m, admits, distributed, c, chain, rows[0], tok);
      var c1 := Absorb(admits, c, tok);
      var rest := 0;
      if c1.Confirmed? {
        rest := TailIsPlain(m, admits, distributed, c1, chain', drafts[1..], rows[1..]);
      } else {
        AbsorbedByEnd(admits, c1, drafts[1..][..w.accepted - 1]);
      }
      n := rest + 1;
    }
  }

  /** Greedy token-equivalence, round by round: over the target's own logits, a
      round whose accepted drafts are faithful is some number of plain steps, for
      any drafts whatever, any chain and either emission order. */
  lemma RoundIsPlain(m: Model, admits: Scan, distributed: bool, g: Gen,
                     drafts: seq<Token>, rows: seq<Logits>) returns (n: nat)
    requires Live(g) && Genuine(m, g.kv + [g.pending.tok], drafts, rows)
    requires Faithful(m, admits, Confirm(admits, g), g.chain, drafts, rows)
    ensures 1 <= n <= |drafts| + 1
    ensures SpecRound(m, admits, distributed, g, drafts, rows) == Plain(m, admits, distributed, g, n)
  {
    var c := Confirm(admits, g);
    FaithfulWalks(m, admits, c, g.chain, drafts, rows);
    var rest := 0;
    if c.Confirmed? {
      rest := TailIsPlain(m, admits, distributed, c, g.chain, drafts, rows);
    } else {
      AbsorbedByEnd(admits, c, drafts[..Accept(m, g.chain, drafts, rows).accepted]);
    }
    n := rest + 1;
    StepKeepsBudget(m, admits, distributed, g);
  }

  // ---- and only then ----

  /** A plain run only ever adds to the tokens it has counted. */
  lemma {:induction false} PlainGrows(m: Model, admits: Scan, distributed: bool, g: Gen, n: nat)
    requires g.Running? ==> Live(g)
    ensures g.attempt <= Plain(m, admits, distributed, g, n).attempt
    ensures g.Running? && 0 < n ==> g.attempt + [g.pending.tok] <= Plain(m, admits, distributed, g, n).attempt
    decreases n
  {
    if n > 0 {
      StepKeepsBudget(m, admits, distributed, g);
      PlainGrows(m, admits, distributed, PlainStep(m, admits, distributed, g), n - 1);
    }
  }

  lemma {:induction false} AbsorbGrows(admits: Scan, c: Gen, toks: seq<Token>)
    requires c.Confirmed? ==> 0 < c.remaining
    ensures c.attempt <= AbsorbAll(admits, c, toks).attempt
    ensures c.delivered <= AbsorbAll(admits, c, toks).delivered
    decreases |toks|
  {
    if toks != [] {
      AbsorbGrows(admits, Absorb(admits, c, toks[0]), toks[1..]);
    }
  }

  lemma {:induction false} UnfaithfulTail(m: Model, admits: Scan, distributed: bool, c: Gen, chain: Chain,
                                          drafts: seq<Token>, rows: seq<Logits>, n: nat)
    requires c.Confirmed? && 0 < c.remaining && Genuine(m, c.kv, drafts, rows)
    requires Accept(m, chain, drafts, rows).Walked?
    requires !Faithful(m, admits, c, chain, drafts, rows)
    ensures RoundTail(m, admits, distributed, c, Accept(m, chain, drafts, rows), drafts)
         != FromConfirmed(m, admits, distributed, c, chain, n)
    decreases |drafts|
  {
    assert c.kv + drafts[..0] == c.kv;
    var (chain', tok) := m.sample(chain, rows[0]);
    var w := Accept(m, chain, drafts, rows);
    assert drafts != [] && tok == drafts[0] && m.renders(tok);
    GenuineTail(m, c.kv, drafts, rows);
    PeelDraft(m, admits, distributed, c, w, drafts);
    var c1 := Absorb(admits, c, tok);
    AbsorbGrows(admits, c1, drafts[1..][..w.accepted - 1]);
    assert |c.attempt| < |RoundTail(m, admits, distributed, c, w, drafts).attempt|;
    var staged := Next(m, admits, distributed, c, chain, rows[0]);
    if m.isEog(tok) {
      EndedStays(m, admits, distributed, staged, n);
    } else if n > 0 {
      AbsorbIsSampleThenConfirm(m, admits, distributed, c, chain, rows[0], tok);
      if c1.Confirmed? {
        UnfaithfulTail(m, admits, distributed, c1, chain', drafts[1..], rows[1..], n - 1);
      } else {
        EndedIsFaithful(m, admits, c1, chain', drafts[1..], rows[1..]);
      }
    }
  }

  /** After the generation has ended, only rendering can make a round unfaithful. */
  lemma {:induction false} EndedIsFaithful(m: Model, admits: Scan, c: Gen, chain: Chain,
                                           drafts: seq<Token>, rows: seq<Logits>)
    requires |rows| == |drafts| + 1 && !c.Confirmed?
    requires Accept(m, chain, drafts, rows).Walked?
    ensures Faithful(m, admits, c, chain, drafts, rows)
    decreases |drafts|
  {
    if drafts != [] {
      var (chain', tok) := m.sample(chain, rows[0]);
      if tok == drafts[0] {
        EndedIsFaithful(m, admits, c, chain', drafts[1..], rows[1..]);
      }
    }
  }

  /** Token-equivalence holds exactly for faithful rounds: when the target accepts a
      draft it cannot render, or accepts its own end-of-generation token because the
      draft model did not take it for one, no number of plain steps does the same. */
  lemma RoundIsPlainIffFaithful(m: Model, admits: Scan, distributed: bool, g: Gen,
                                drafts: seq<Token>, rows: seq<Logits>)
    requires Live(g) && Genuine(m, g.kv + [g.pending.tok], drafts, rows)
    ensures Faithful(m, admits, Confirm(admits, g), g.chain, drafts, rows)
       <==> exists n: nat :: SpecRound(m, admits, distributed, g, drafts, rows) == Plain(m, admits, distributed, g, n)
  {
    var c := Confirm(admits, g);
    if Faithful(m, admits, c, g.chain, drafts, rows) {
      var n := RoundIsPlain(m, admits, distributed, g, drafts, rows);
    } else {
      forall n: nat
        ensures SpecRound(m, admits, distributed, g, drafts, rows) != Plain(m, admits, distributed, g, n)
      {
        PlainGrows(m, admits, distributed, g, n);
        if Accept(m, g.chain, drafts, rows).Walked? {
          if c.Confirmed? {
            if n > 0 {
              UnfaithfulTail(m, admits, distributed, c, g.chain, drafts, rows, n - 1);
            } else {
              AbsorbGrows(admits, c, drafts[..Accept(m, g.chain, drafts, rows).accepted]);
            }
          } else {
            EndedIsFaithful(m, admits, c, g.chain, drafts, rows);
          }
        }
      }
    }
  }

  /** Such a round: the target draws its end token 1, which the draft model proposed as
      an ordinary token.  The round counts it; no plain run does. */
  lemma EndTokenCanBeCounted(n: nat)
    ensures var m := Greedy(kv => [0.0, 1.0], t => t == 1);
            var g := Running([7], [], 3, [], [], 0, Unsent(7));
            var rows := Rows(m, [7, 7], [1]);
            && SpecRound(m, toks => true, true, g, [1], rows).attempt == [7, 1]
            && SpecRound(m, toks => true, true, g, [1], rows) != Plain(m, toks => true, true, g, n)
  {
    var m := Greedy(kv => [0.0, 1.0], t => t == 1);
    var admits: Scan := toks => true;
    var g := Running([7], [], 3, [], [], 0, Unsent(7));
    var drafts: seq<Token> := [1];
    var rows := Rows(m, [7, 7], drafts);
    assert [7] + [7] == [7, 7];
    assert forall i :: 0 <= i < 2 ==> rows[i] == [0.0, 1.0];
    assert m.sample(0, rows[0]) == (0, 1) && m.sample(0, rows[1]) == (0, 1);
    assert Accept(m, 0, drafts[1..], rows[1..]) == Walked(0, 1, 0);
    assert Accept(m, 0, drafts, rows) == Walked(1, 1, 0);
    assert drafts[..1] == [1];
    var c := Confirm(admits, g);
    assert !Faithful(m, admits, c, 0, drafts, rows);
    RoundIsPlainIffFaithful(m, admits, true, g, drafts, rows);
    assert SpecRound(m, admits, true, g, drafts, rows).attempt == [7, 1];
  }

  // ---- Whole runs ----

  /** The rows a verify decode of the drafts after `kv` yields. */
  function Rows(m: Model, kv: seq<Token>, drafts: seq<Token>): (rows: seq<Logits>)
    ensures Genuine(m, kv, drafts, rows)
  {
    seq<Logits>(|drafts| + 1, i requires 0 <= i <= |drafts| => m.logits(kv + drafts[..i]))
  }

  /** A run of speculative rounds, each with its own proposal. */
  function SpecRun(m: Model, admits: Scan, distributed: bool, g: Gen, proposals: seq<seq<Token>>): Gen
    requires g.Running? ==> Live(g)
    decreases |proposals|
  {
    if proposals == [] || !g.Running? then g
    else
      var drafts := proposals[0];
      var rows := Rows(m, g.kv + [g.pending.tok], drafts);
      SpecRun(m, admits, distributed, SpecRound(m, admits, distributed, g, drafts, rows), proposals[1..])
  }

  /** The draft model takes for end-of-generation whatever the target does, and
      proposes only what the target can render. */
  ghost predicate SharedVocabulary(m: Model, proposals: seq<seq<Token>>) {
    forall i, j :: 0 <= i < |proposals| && 0 <= j < |proposals[i]| ==>
      !m.isEog(proposals[i][j]) && m.renders(proposals[i][j])
  }

  lemma {:induction false} SharedVocabularyIsFaithful(m: Model, admits: Scan, c: Gen, chain: Chain,
                                                      drafts: seq<Token>, rows: seq<Logits>)
    requires |rows| == |drafts| + 1 && (c.Confirmed? ==> 0 < c.remaining)
    requires forall j :: 0 <= j < |drafts| ==> !m.isEog(drafts[j]) && m.renders(drafts[j])
    ensures Faithful(m, admits, c, chain, drafts, rows)
    decreases |drafts|
  {
    if drafts != [] {
      var (chain', tok) := m.sample(chain, rows[0]);
      SharedVocabularyIsFaithful(m, admits, Absorb(admits, c, tok), chain', drafts[1..], rows[1..]);
    }
  }

  lemma {:induction false} PlainComposes(m: Model, admits: Scan, distributed: bool, g: Gen, a: nat, b: nat)
    requires g.Running? ==> Live(g)
    ensures var h := Plain(m, admits, distributed, g, a);
            && (h.Running? ==> Live(h))
            && Plain(m, admits, distributed, g, a + b) == Plain(m, admits, distributed, h, b)
    decreases a
  {
    if a > 0 {
      StepKeepsBudget(m, admits, distributed, g);
      PlainComposes(m, admits, distributed, PlainStep(m, admits, distributed, g), a - 1, b);
    }
  }

  /** However the proposals are chosen, a speculative run is a plain run: it counts,
      scans, delivers and keeps in the KV the same tokens and ends the same way. It
      makes at least one plain step per round, and once it has ended every plain run
      of enough steps has ended in the same state. */
  lemma {:induction false} SpeculationIsInvisible(m: Model, admits: Scan, distributed: bool, g: Gen,
                                                  proposals: seq<seq<Token>>) returns (n: nat)
    requires g.Running? ==> Live(g)
    requires SharedVocabulary(m, proposals)
    ensures var h := SpecRun(m, admits, distributed, g, proposals);
            && h == Plain(m, admits, distributed, g, n)
            && (h.Running? ==> |proposals| <= n)
            && (h.Ended? ==> forall k: nat :: n <= k ==> Plain(m, admits, distributed, g, k) == h)
    decreases |proposals|
  {
    hide SpecRound, PlainStep;
    n := 0;
    if proposals != [] && g.Running? {
      var drafts := proposals[0];
      var rows := Rows(m, g.kv + [g.pending.tok], drafts);
      SharedVocabularyIsFaithful(m, admits, Confirm(admits, g), g.chain, drafts, rows);
      var a := RoundIsPlain(m, admits, distributed, g, drafts, rows);
      var next := SpecRound(m, admits, distributed, g, drafts, rows);
      var b := SpeculationIsInvisible(m, admits, distributed, next, proposals[1..]);
      n := a + b;
      PlainComposes(m, admits, distributed, g, a, b);
    }
    var h := SpecRun(m, admits, distributed, g, proposals);
    if h.Ended? {
      forall k: nat | n <= k
        ensures Plain(m, admits, distributed, g, k) == h
      {
        PlainComposes(m, admits, distributed, g, n, k - n);
        EndedStays(m, admits, distributed, h, k - n);
      }
    }
  }

  // ---- Speculation over a torn transport ----

  /** The drafts are what the target itself goes on to say, as far as it goes on. */
  ghost predicate Foretold(m: Model, admits: Scan, c: Gen, chain: Chain, drafts: seq<Token>)
    requires c.Confirmed? ==> 0 < c.remaining
    decreases |drafts|
  {
    drafts == [] || !c.Confirmed? ||
    var (chain', tok) := m.sample(chain, m.logits(c.kv));
    && tok == drafts[0] && !m.isEog(tok)
    && Foretold(m, admits, Absorb(admits, c, tok), chain', drafts[1..])
  }

  /** The untorn generation comes to count these tokens. */
  ghost predicate Counted(m: Model, admits: Scan, g: Gen, tokens: seq<Token>)
    requires Live(g)
  {
    exists n: nat :: tokens <= Plain(m, admits, true, g, n).attempt
  }

  lemma {:induction false} ForetoldTail(m: Model, admits: Scan, distributed: bool, c: Gen, chain: Chain,
                                        drafts: seq<Token>, k: nat)
    requires c.Confirmed? ==> 0 < c.remaining
    requires !c.Running? && k <= |drafts| && Foretold(m, admits, c, chain, drafts)
    requires forall j :: 0 <= j < |drafts| ==> m.renders(drafts[j])
    ensures AbsorbAll(admits, c, drafts[..k]).attempt <= FromConfirmed(m, admits, distributed, c, chain, k).attempt
    decreases k
  {
    var staged := Next(m, admits, distributed, c, chain, m.logits(c.kv));
    if !c.Confirmed? {
      AbsorbedByEnd(admits, c, drafts[..k]);
      EndedStays(m, admits, distributed, c, k);
    } else if k == 0 {
      PlainGrows(m, admits, distributed, staged, k);
    } else {
      var (chain', tok) := m.sample(chain, m.logits(c.kv));
      AbsorbIsSampleThenConfirm(m, admits, distributed, c, chain, m.logits(c.kv), tok);
      assert drafts[..k][1..] == drafts[1..][..k - 1];
      ForetoldTail(m, admits, distributed, Absorb(admits, c, tok), chain', drafts[1..], k - 1);
    }
  }

  lemma {:induction false} UnforetoldTail(m: Model, admits: Scan, distributed: bool, c: Gen, chain: Chain,
                                          drafts: seq<Token>, n: nat)
    requires c.Confirmed? && 0 < c.remaining && !Foretold(m, admits, c, chain, drafts)
    requires forall j :: 0 <= j < |drafts| ==> m.renders(drafts[j])
    ensures !(AbsorbAll(admits, c, drafts).attempt <= FromConfirmed(m, admits, distributed, c, chain, n).attempt)
    decreases |drafts|
  {
    var row := m.logits(c.kv);
    var (chain', tok) := m.sample(chain, row);
    var staged := Next(m, admits, distributed, c, chain, row);
    var c1 := Absorb(admits, c, drafts[0]);
    AbsorbGrows(admits, c1, drafts[1..]);
    var long := AbsorbAll(admits, c, drafts).attempt;
    assert c.attempt + [drafts[0]] <= long;
    if staged.Ended? {
      EndedStays(m, admits, distributed, staged, n);
    } else if n > 0 {
      PlainGrows(m, admits, distributed, staged, n);
      assert c.attempt + [tok] <= FromConfirmed(m, admits, distributed, c, chain, n).attempt;
      if tok == drafts[0] {
        AbsorbIsSampleThenConfirm(m, admits, distributed, c, chain, row, tok);
        UnforetoldTail(m, admits, distributed, c1, chain', drafts[1..], n - 1);
      } else {
        assert long[|c.attempt|] == drafts[0];
      }
    }
  }

  /** An accepted draft could be rendered. */
  lemma {:induction false} AcceptedRender(m: Model, chain: Chain, drafts: seq<Token>, rows: seq<Logits>, j: nat)
    requires |rows| == |drafts| + 1
    requires Accept(m, chain, drafts, rows).Walked? && j < Accept(m, chain, drafts, rows).accepted
    ensures m.renders(drafts[j])
    decreases |drafts|
  {
    if j > 0 {
      AcceptedRender(m, m.sample(chain, rows[0]).0, drafts[1..], rows[1..], j - 1);
    }
  }

  lemma UnforetoldRound(m: Model, admits: Scan, g: Gen, taken: seq<Token>, n: nat)
    requires Live(g) && forall j :: 0 <= j < |taken| ==> m.renders(taken[j])
    requires !Foretold(m, admits, Confirm(admits, g), g.chain, taken)
    ensures !(AbsorbAll(admits, Confirm(admits, g), taken).attempt <= Plain(m, admits, true, g, n).attempt)
  {
    hide AbsorbAll;
    var c := Confirm(admits, g);
    AbsorbGrows(admits, c, taken);
    StepKeepsBudget(m, admits, true, g);
    if n > 0 {
      UnforetoldTail(m, admits, true, c, g.chain, taken, n - 1);
      assert Plain(m, admits, true, g, n) == FromConfirmed(m, admits, true, c, g.chain, n - 1);
    }
  }

  /** On a distributed model the rows fetched by a verify decode may be garbled behind
      its success.  Whatever rows came back, the round counts only tokens that the untorn
      generation counts (these are the tokens a retry starts from) if and only if the
      drafts those rows accepted are what the target was about to say: unlike a plain
      step, a round believes drafts on rows that nothing has confirmed. */
  lemma TornRoundIsSafeIffForetold(m: Model, admits: Scan, g: Gen, drafts: seq<Token>, rows: seq<Logits>)
    requires Live(g) && |rows| == |drafts| + 1
    ensures var w := Accept(m, g.chain, drafts, rows);
            Counted(m, admits, g, SpecRound(m, admits, true, g, drafts, rows).attempt) <==>
            w.Unrenderable? || Foretold(m, admits, Confirm(admits, g), g.chain, drafts[..w.accepted])
  {
    var w := Accept(m, g.chain, drafts, rows);
    var tokens := SpecRound(m, admits, true, g, drafts, rows).attempt;
    if w.Unrenderable? {
      assert tokens <= Plain(m, admits, true, g, 0).attempt;
    } else {
      var c, taken := Confirm(admits, g), drafts[..w.accepted];
      assert tokens == AbsorbAll(admits, c, taken).attempt;
      forall j | 0 <= j < |taken| ensures m.renders(taken[j]) {
        AcceptedRender(m, g.chain, drafts, rows, j);
      }
      if Foretold(m, admits, c, g.chain, taken) {
        StepKeepsBudget(m, admits, true, g);
        ForetoldTail(m, admits, true, c, g.chain, taken, |taken|);
        assert taken[..|taken|] == taken;
        assert tokens <= Plain(m, admits, true, g, |taken| + 1).attempt;
      } else {
        forall n: nat ensures !(tokens <= Plain(m, admits, true, g, n).attempt) {
          UnforetoldRound(m, admits, g, taken, n);
        }
      }
    }
  }

  /** A round takes no draft on the strength of these rows: none matches, one that matches
      cannot be rendered, or the pending token ends the generation.  This can be told
      from the rows a torn fetch hands over, before the round. */
  ghost predicate TakesNone(m: Model, admits: Scan, g: Gen, drafts: seq<Token>, rows: seq<Logits>)
    requires Live(g) && |rows| == |drafts| + 1
  {
    var w := Accept(m, g.chain, drafts, rows);
    w.Unrenderable? || w.accepted == 0 || !Confirm(admits, g).Confirmed?
  }

  /** Where no draft is taken, a torn round is safe; in particular whenever the first draft
      is not what the torn row draws. */
  lemma RefusedDraftsAreSafe(m: Model, admits: Scan, g: Gen, drafts: seq<Token>, rows: seq<Logits>)
    requires Live(g) && |rows| == |drafts| + 1
    ensures drafts == [] || drafts[0] != m.sample(g.chain, rows[0]).1 ==> TakesNone(m, admits, g, drafts, rows)
    ensures TakesNone(m, admits, g, drafts, rows) ==>
            Counted(m, admits, g, SpecRound(m, admits, true, g, drafts, rows).attempt)
  {
    TornRoundIsSafeIffForetold(m, admits, g, drafts, rows);
  }

  /** A sampler that does not draw the same token from every row. */
  ghost predicate Heeds(m: Model, chain: Chain) {
    exists a: Logits, b: Logits :: m.sample(chain, a).1 != m.sample(chain, b).1
  }

  lemma {:induction false} AcceptIgnoresLogits(m: Model, logits: seq<Token> -> Logits, chain: Chain,
                                               drafts: seq<Token>, rows: seq<Logits>)
    requires |rows| == |drafts| + 1
    ensures Accept(WithLogits(m, logits), chain, drafts, rows) == Accept(m, chain, drafts, rows)
    decreases |drafts|
  {
    if drafts != [] {
      AcceptIgnoresLogits(m, logits, m.sample(chain, rows[0]).0, drafts[1..], rows[1..]);
    }
  }

  /** Taking none is exactly what is needed: a torn round is safe whatever the target's
      logits are if and only if its rows take no draft. */
  lemma TornRoundIsSafeIffTakesNone(m: Model, admits: Scan, g: Gen, drafts: seq<Token>, rows: seq<Logits>)
    requires Live(g) && |rows| == |drafts| + 1 && Heeds(m, g.chain)
    ensures TakesNone(m, admits, g, drafts, rows) <==>
            forall logits: seq<Token> -> Logits ::
              Counted(WithLogits(m, logits), admits, g,
                      SpecRound(WithLogits(m, logits), admits, true, g, drafts, rows).attempt)
  {
    hide SpecRound, Counted;
    if TakesNone(m, admits, g, drafts, rows) {
      forall logits: seq<Token> -> Logits
        ensures Counted(WithLogits(m, logits), admits, g,
                        SpecRound(WithLogits(m, logits), admits, true, g, drafts, rows).attempt)
      {
        AcceptIgnoresLogits(m, logits, g.chain, drafts, rows);
        RefusedDraftsAreSafe(WithLogits(m, logits), admits, g, drafts, rows);
      }
    } else {
      var a: Logits, b: Logits :| m.sample(g.chain, a).1 != m.sample(g.chain, b).1;
      var row := if m.sample(g.chain, a).1 == drafts[0] then b else a;
      var logits: seq<Token> -> Logits := kv => row;
      var m' := WithLogits(m, logits);
      AcceptIgnoresLogits(m, logits, g.chain, drafts, rows);
      TornRoundIsSafeIffForetold(m', admits, g, drafts, rows);
      var taken := drafts[..Accept(m', g.chain, drafts, rows).accepted];
      assert taken != [] && taken[0] == drafts[0];
      assert m'.sample(g.chain, m'.logits(Confirm(admits, g).kv)).1 != taken[0];
    }
  }

  /** With greedy sampling, rows that are all the same accept exactly the leading drafts
      equal to their one draw. */
  lemma {:induction false} SameRowsAccept(m: Model, chain: Chain, drafts: seq<Token>, rows: seq<Logits>, row: Logits)
    requires Stateless(m) && |rows| == |drafts| + 1 && forall i :: 0 <= i < |rows| ==> rows[i] == row
    ensures var w := Accept(m, chain, drafts, rows);
            w.Walked? ==>
              && (forall j :: 0 <= j < w.accepted ==> drafts[j] == m.sample(chain, row).1)
              && (w.accepted < |drafts| ==> drafts[w.accepted] != m.sample(chain, row).1)
    decreases |drafts|
  {
    if drafts != [] {
      assert m.sample(chain, row).0 == chain;
      SameRowsAccept(m, chain, drafts[1..], rows[1..], row);
    }
  }

  /** An unsafe round: the target says token 1 for ever, the draft proposes token 0, and
      the torn rows of zeros draw token 0. */
  lemma ZerosCanTakeADraft()
    ensures var m := Greedy(kv => [0.0, 1.0], t => false);
            var g := Running([7], [], 3, [], [], 0, Unsent(7));
            var tokens := SpecRound(m, toks => true, true, g, [0], [[0.0, 0.0], [0.0, 0.0]]).attempt;
            tokens == [7, 0] && !Counted(m, toks => true, g, tokens)
  {
    hide Counted, Plain, Argmax;
    var m := Greedy(kv => [0.0, 1.0], t => false);
    var admits: Scan := toks => true;
    var g := Running([7], [], 3, [], [], 0, Unsent(7));
    var drafts: seq<Token>, rows: seq<Logits> := [0], [[0.0, 0.0], [0.0, 0.0]];
    ArgmaxOfTwo(0.0, 0.0);
    ArgmaxOfTwo(0.0, 1.0);
    assert m.sample(0, [0.0, 0.0]) == (0, 0) && m.sample(0, [0.0, 1.0]) == (0, 1);
    assert drafts[1..] == [] && rows[1..] == [[0.0, 0.0]];
    assert Accept(m, 0, drafts[1..], rows[1..]) == Walked(0, 0, 0);
    assert Accept(m, 0, drafts, rows) == Walked(1, 0, 0);
    assert drafts[..1] == [0];
    var c := Confirm(admits, g);
    assert !Foretold(m, admits, c, 0, drafts);
    TornRoundIsSafeIffForetold(m, admits, g, drafts, rows);
    assert AbsorbAll(admits, Absorb(admits, c, 0), drafts[1..]) == Absorb(admits, c, 0);
  }
}

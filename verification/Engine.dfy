/** The engine behind the shim, as the session code sees it.

  A model is a record of functions: what the logits are after a decoded token
  history, how a sampler chain draws from logits, which tokens end a generation
  and which tokens can be rendered as text.  Nothing below depends on what these
  functions compute.

  A link says what happens to each decode call made while the transport is up:
  it may be healthy, refused, or garbled, meaning that the call reports success
  although the fetched logits are not the model's.  A refused or garbled call
  leaves the transport dead, and a dead transport fails every later call. */
module Engine {
  import opened Options

  type Token = int
  /** One number per token of the vocabulary, which is not empty. */
  type Logits = l: seq<real> | l != [] witness [0.0]
  /** The bytes of a sampler chain's internal state, as one number. */
  type Chain = int

  datatype Model = Model(
    logits: seq<Token> -> Logits,
    sample: (Chain, Logits) -> (Chain, Token),
    isEog: Token -> bool,
    renders: Token -> bool)

  /** The same sampler and vocabulary over other logits. */
  function WithLogits(m: Model, logits: seq<Token> -> Logits): Model {
    Model(logits, m.sample, m.isEog, m.renders)
  }

  /** The first of the largest entries, which is what greedy sampling draws. */
  function Argmax(row: Logits): (i: nat)
    ensures i < |row| && forall j :: 0 <= j < |row| ==> row[j] <= row[i] && (j < i ==> row[j] < row[i])
    decreases |row|
  {
    if |row| == 1 then 0
    else
      var i := Argmax(row[..|row| - 1]);
      if row[i] < row[|row| - 1] then |row| - 1 else i
  }

  lemma ArgmaxOfTwo(a: real, b: real)
    ensures Argmax([a, b]) == if a < b then 1 else 0
  {
    assert [a, b][..1] == [a];
  }

  /** A greedy model. */
  function Greedy(logits: seq<Token> -> Logits, isEog: Token -> bool): Model {
    Model(logits, (c: Chain, row: Logits) => (c, Argmax(row)), isEog, t => true)
  }

  datatype Fault = Healthy | Refused | Garbled(junk: Logits)

  /** The fate of the i-th decode call. */
  type Link = nat -> Fault

  datatype State = State(kv: seq<Token>, logits: Logits, chain: Chain, calls: nat, dead: bool)

  /** No call from the `from`-th on fails. */
  ghost predicate Clean(link: Link, from: nat) {
    forall i: nat :: from <= i ==> link(i) == Healthy
  }

  /** From the `from`-th call on, the first call that is not healthy is refused
      openly. A solo model has no transport, so its link is always honest. */
  ghost predicate Honest(link: Link, from: nat) {
    forall i: nat :: from <= i && link(i).Garbled? ==> Disturbed(link, from, i)
  }

  ghost predicate Disturbed(link: Link, from: nat, to: nat) {
    exists j: nat :: from <= j < to && link(j) != Healthy
  }

  /** Greedy sampling: the chain has no state that matters. */
  ghost predicate Stateless(m: Model) {
    forall c: Chain, d: Chain, l: Logits ::
      m.sample(c, l).0 == c && m.sample(c, l).1 == m.sample(d, l).1
  }

  /** One decode call at the shim. `None` is a non-zero status. */
  function DecodeCall(m: Model, link: Link, s: State, chunk: seq<Token>, wantLogits: bool): Option<State> {
    if chunk == [] || s.dead then None
    else
      var kv := s.kv + chunk;
      match link(s.calls)
      case Healthy =>
        Some(State(kv, if wantLogits then m.logits(kv) else s.logits, s.chain, s.calls + 1, false))
      case Refused => None
      case Garbled(junk) =>
        Some(State(kv, if wantLogits then junk else s.logits, s.chain, s.calls + 1, true))
  }

  /** Decode in chunks of `nBatch`; only the last chunk asks for logits. */
  function Decode(m: Model, link: Link, nBatch: nat, s: State, tokens: seq<Token>): Option<State>
    requires 0 < nBatch
    decreases |tokens|
  {
    if tokens == [] then Some(s)
    else if |tokens| <= nBatch then DecodeCall(m, link, s, tokens, true)
    else
      match DecodeCall(m, link, s, tokens[..nBatch], false)
      case None => None
      case Some(next) => Decode(m, link, nBatch, next, tokens[nBatch..])
  }

  /** However it is chunked, a healthy decode leaves the KV and the logits of one
      decode of the whole input. */
  lemma {:induction false} ChunkingIsInvisible(m: Model, link: Link, nBatch: nat, s: State, tokens: seq<Token>)
    requires 0 < nBatch && tokens != [] && !s.dead && Clean(link, s.calls)
    ensures Decode(m, link, nBatch, s, tokens).Some?
    ensures var t := Decode(m, link, nBatch, s, tokens).value;
            && t.kv == s.kv + tokens && t.logits == m.logits(s.kv + tokens)
            && t.chain == s.chain && !t.dead && s.calls <= t.calls
    decreases |tokens|
  {
    if |tokens| > nBatch {
      var next := DecodeCall(m, link, s, tokens[..nBatch], false).value;
      ChunkingIsInvisible(m, link, nBatch, next, tokens[nBatch..]);
      assert s.kv + tokens == next.kv + tokens[nBatch..];
    }
  }

  lemma HonestStep(link: Link, from: nat)
    requires Honest(link, from)
    ensures !link(from).Garbled?
    ensures link(from) == Healthy ==> Honest(link, from + 1)
  {
    assert !Disturbed(link, from, from);
    if link(from) == Healthy {
      forall i: nat | from + 1 <= i && link(i).Garbled?
        ensures Disturbed(link, from + 1, i)
      {
        assert Disturbed(link, from, i);
      }
    }
  }

  /** On any link, a decode that succeeds and leaves the transport up did exactly
      what a healthy decode does. */
  lemma {:induction false} LiveDecodeIsGenuine(m: Model, link: Link, nBatch: nat, s: State, tokens: seq<Token>)
    requires 0 < nBatch && tokens != []
    requires Decode(m, link, nBatch, s, tokens).Some?
    ensures var t := Decode(m, link, nBatch, s, tokens).value;
            && !s.dead && t.kv == s.kv + tokens && t.chain == s.chain
            && (!t.dead ==> t.logits == m.logits(t.kv))
            && (Honest(link, s.calls) ==> !t.dead && Honest(link, t.calls))
    decreases |tokens|
  {
    if Honest(link, s.calls) {
      HonestStep(link, s.calls);
    }
    if |tokens| > nBatch {
      var next := DecodeCall(m, link, s, tokens[..nBatch], false).value;
      LiveDecodeIsGenuine(m, link, nBatch, next, tokens[nBatch..]);
      assert s.kv + tokens == next.kv + tokens[nBatch..];
    }
  }
}

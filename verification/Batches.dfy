/** Explicit multi-sequence batches: the per-sequence summary a `Batch` keeps, what
  its checks buy, and one decode of a batch. */
module Batches {
  import opened Options
  import opened Engine

  type SeqId = int
  datatype Entry = Entry(token: Token, pos: int, seqId: SeqId, logits: bool)
  datatype Span = Span(seqId: SeqId, first: int, last: int)

  /** The token history of each sequence. */
  type Histories = map<SeqId, seq<Token>>

  function Hist(kv: Histories, s: SeqId): seq<Token> {
    if s in kv then kv[s] else []
  }

  /** A batch's entries for one sequence, in order. */
  function Of(entries: seq<Entry>, s: SeqId): (es: seq<Entry>)
    ensures |es| <= |entries|
  {
    if entries == [] then []
    else
      var e := entries[|entries| - 1];
      var before := Of(entries[..|entries| - 1], s);
      if e.seqId == s then before + [e] else before
  }

  function Tokens(es: seq<Entry>): (ts: seq<Token>)
    ensures |ts| == |es|
    ensures forall i :: 0 <= i < |es| ==> ts[i] == es[i].token
  {
    seq(|es|, i requires 0 <= i < |es| => es[i].token)
  }

  /** The first span of a sequence, as the linear scan finds it. */
  function Find(spans: seq<Span>, s: SeqId): (k: nat)
    ensures k <= |spans|
    ensures k < |spans| ==> spans[k].seqId == s
    ensures forall i :: 0 <= i < k ==> spans[i].seqId != s
  {
    if spans == [] || spans[0].seqId == s then 0 else 1 + Find(spans[1..], s)
  }

  /** The span agrees with the entries: they are consecutive from first to last. */
  ghost predicate Spans(es: seq<Entry>, span: Span) {
    && es != [] && span.last == span.first + |es| - 1
    && forall k :: 0 <= k < |es| ==> es[k].pos == span.first + k
  }

  /** Every sequence in the batch has one span, which agrees with its entries. */
  ghost predicate Summarised(entries: seq<Entry>, spans: seq<Span>) {
    && Distinct(spans)
    && (forall s: SeqId :: Tracked(entries, spans, s))
  }

  ghost predicate Tracked(entries: seq<Entry>, spans: seq<Span>, s: SeqId) {
    var k := Find(spans, s);
    if k < |spans| then Spans(Of(entries, s), spans[k]) else Of(entries, s) == []
  }

  /** What `push` does to the summary; `None` is its debug assertion failing. */
  function Noted(spans: seq<Span>, e: Entry): Option<seq<Span>> {
    var k := Find(spans, e.seqId);
    if k < |spans| then
      if e.pos == spans[k].last + 1 then Some(spans[k := spans[k].(last := e.pos)]) else None
    else Some(spans + [Span(e.seqId, e.pos, e.pos)])
  }

  lemma OfAppend(entries: seq<Entry>, e: Entry, s: SeqId)
    ensures Of(entries + [e], s) == if e.seqId == s then Of(entries, s) + [e] else Of(entries, s)
  {
    assert (entries + [e])[..|entries|] == entries;
  }

  lemma FindUnique(spans: seq<Span>, k: nat, s: SeqId)
    requires k < |spans| && spans[k].seqId == s
    requires Distinct(spans)
    ensures Find(spans, s) == k
  {
  }

  ghost predicate Distinct(spans: seq<Span>) {
    forall i, j :: 0 <= i < j < |spans| ==> spans[i].seqId != spans[j].seqId
  }

  lemma NotedIsDistinct(spans: seq<Span>, e: Entry)
    requires Distinct(spans) && Noted(spans, e).Some?
    ensures var noted := Noted(spans, e).value;
            var k := Find(spans, e.seqId);
            && Distinct(noted) && k < |noted| && noted[k].seqId == e.seqId && |spans| <= |noted|
            && forall i :: 0 <= i < |noted| && i != k ==> i < |spans| && noted[i] == spans[i]
  {
  }

  lemma NotedTracksOther(entries: seq<Entry>, spans: seq<Span>, e: Entry, s: SeqId)
    requires Distinct(spans) && Tracked(entries, spans, s) && Noted(spans, e).Some? && s != e.seqId
    ensures Tracked(entries + [e], Noted(spans, e).value, s)
  {
    OfAppend(entries, e, s);
    NotedIsDistinct(spans, e);
    var noted := Noted(spans, e).value;
    var j := Find(spans, s);
    if j < |spans| {
      FindUnique(noted, j, s);
    } else {
      assert forall i :: 0 <= i < |noted| ==> noted[i].seqId != s;
    }
  }

  lemma NotedTracksOwn(entries: seq<Entry>, spans: seq<Span>, e: Entry)
    requires Distinct(spans) && Tracked(entries, spans, e.seqId) && Noted(spans, e).Some?
    ensures Tracked(entries + [e], Noted(spans, e).value, e.seqId)
  {
    OfAppend(entries, e, e.seqId);
    NotedIsDistinct(spans, e);
    FindUnique(Noted(spans, e).value, Find(spans, e.seqId), e.seqId);
  }

  /** The summary stays right whatever is pushed. */
  lemma NotedKeepsSummary(entries: seq<Entry>, spans: seq<Span>, e: Entry)
    requires Summarised(entries, spans) && Noted(spans, e).Some?
    ensures Summarised(entries + [e], Noted(spans, e).value)
  {
    NotedIsDistinct(spans, e);
    forall s: SeqId
      ensures Tracked(entries + [e], Noted(spans, e).value, s)
    {
      assert Tracked(entries, spans, s);
      if s == e.seqId {
        NotedTracksOwn(entries, spans, e);
      } else {
        NotedTracksOther(entries, spans, e, s);
      }
    }
  }

  /** Would the token follow the last one the batch holds for its sequence, if any? */
  predicate Follows(entries: seq<Entry>, e: Entry) {
    var es := Of(entries, e.seqId);
    es == [] || e.pos == es[|es| - 1].pos + 1
  }

  /** The summary of one span per sequence takes exactly the tokens that follow. */
  lemma NotedIffFollows(entries: seq<Entry>, spans: seq<Span>, e: Entry)
    requires Summarised(entries, spans)
    ensures Noted(spans, e).Some? <==> Follows(entries, e)
  {
    assert Tracked(entries, spans, e.seqId);
  }

  // ---- One decode of a batch ----

  /** The engine's own rule: a token is taken only at the next position of its
      sequence. */
  function Feed(kv: Histories, entries: seq<Entry>): Option<Histories> {
    if entries == [] then Some(kv)
    else
      var e := entries[|entries| - 1];
      match Feed(kv, entries[..|entries| - 1])
      case None => None
      case Some(fed) =>
        if e.pos == |Hist(fed, e.seqId)| then Some(fed[e.seqId := Hist(fed, e.seqId) + [e.token]]) else None
  }

  /** `decode_batch`'s own check: each sequence is continued where its KV ends. */
  predicate Continues(kv: Histories, spans: seq<Span>) {
    forall i :: 0 <= i < |spans| ==> spans[i].first == |Hist(kv, spans[i].seqId)|
  }

  lemma {:induction false} OfPrefix(entries: seq<Entry>, p: nat, s: SeqId)
    requires p <= |entries|
    ensures Of(entries[..p], s) <= Of(entries, s)
    ensures p < |entries| && entries[p].seqId == s ==>
              |Of(entries[..p], s)| < |Of(entries, s)| && Of(entries, s)[|Of(entries[..p], s)|] == entries[p]
    decreases |entries|
  {
    var n := |entries|;
    if p < n {
      assert entries[..n - 1][..p] == entries[..p];
      if p < n - 1 {
        OfPrefix(entries[..n - 1], p, s);
        assert entries[..n - 1][p] == entries[p];
      } else {
        assert entries[..n - 1] == entries[..p];
      }
    } else {
      assert entries[..p] == entries;
    }
  }

  lemma TokensAppend(es: seq<Entry>, e: Entry)
    ensures Tokens(es + [e]) == Tokens(es) + [e.token]
  {
  }

  /** The last entry of an accepted batch went to its own sequence. */
  lemma FeedLast(kv: Histories, entries: seq<Entry>, s: SeqId)
    requires entries != [] && Feed(kv, entries).Some?
    ensures var init, e := entries[..|entries| - 1], entries[|entries| - 1];
            && Feed(kv, init).Some? && Of(entries, s) == Of(init, s) + (if e.seqId == s then [e] else [])
            && Hist(Feed(kv, entries).value, s)
               == Hist(Feed(kv, init).value, s) + (if e.seqId == s then [e.token] else [])
  {
  }

  /** An accepted batch appended each sequence's tokens. */
  lemma {:induction false} FeedAppends(kv: Histories, entries: seq<Entry>, s: SeqId)
    requires Feed(kv, entries).Some?
    ensures Hist(Feed(kv, entries).value, s) == Hist(kv, s) + Tokens(Of(entries, s))
    decreases |entries|
  {
    if entries == [] {
      assert Hist(kv, s) + [] == Hist(kv, s);
    } else {
      FeedAppendsLast(kv, entries, s);
    }
  }

  lemma {:induction false} FeedAppendsLast(kv: Histories, entries: seq<Entry>, s: SeqId)
    requires entries != [] && Feed(kv, entries).Some?
    ensures Hist(Feed(kv, entries).value, s) == Hist(kv, s) + Tokens(Of(entries, s))
    decreases |entries|, 0
  {
    hide Feed, Of, Hist;
    var init, e := entries[..|entries| - 1], entries[|entries| - 1];
    FeedLast(kv, entries, s);
    FeedAppends(kv, init, s);
    TokensAppend(Of(init, s), e);
    if e.seqId == s {
      assert Hist(kv, s) + Tokens(Of(init, s)) + [e.token] == Hist(kv, s) + (Tokens(Of(init, s)) + [e.token]);
    } else {
      assert Of(init, s) + [] == Of(init, s);
    }
  }

  /** It did so at consecutive positions. */
  lemma {:induction false} FeedIsConsecutive(kv: Histories, entries: seq<Entry>, s: SeqId, k: nat)
    requires Feed(kv, entries).Some? && k < |Of(entries, s)|
    ensures Of(entries, s)[k].pos == |Hist(kv, s)| + k
    decreases |entries|
  {
    var init := entries[..|entries| - 1];
    if k < |Of(init, s)| {
      FeedIsConsecutive(kv, init, s, k);
    } else {
      FeedAppends(kv, init, s);
    }
  }

  lemma {:induction false} CheckedIsFed(kv: Histories, entries: seq<Entry>, spans: seq<Span>, p: nat)
    requires Summarised(entries, spans) && Continues(kv, spans) && p <= |entries|
    ensures Feed(kv, entries[..p]).Some?
    decreases p
  {
    if p > 0 {
      CheckedIsFed(kv, entries, spans, p - 1);
      var e := entries[p - 1];
      assert entries[..p][..p - 1] == entries[..p - 1];
      FeedAppends(kv, entries[..p - 1], e.seqId);
      OfPrefix(entries, p - 1, e.seqId);
      assert Tracked(entries, spans, e.seqId);
    }
  }

  /** The bookkeeping is sufficient, and necessary: a batch built through `push` is
      accepted by the engine exactly when `decode_batch`'s check of one number per
      sequence passes, and then every token lands at the next position of its own
      sequence. */
  lemma CheckIsExact(kv: Histories, entries: seq<Entry>, spans: seq<Span>)
    requires Summarised(entries, spans)
    ensures Continues(kv, spans) <==> Feed(kv, entries).Some?
    ensures Continues(kv, spans) ==> forall s: SeqId ::
              Hist(Feed(kv, entries).value, s) == Hist(kv, s) + Tokens(Of(entries, s))
  {
    if Continues(kv, spans) {
      CheckedIsFed(kv, entries, spans, |entries|);
      assert entries[..|entries|] == entries;
      forall s: SeqId
        ensures Hist(Feed(kv, entries).value, s) == Hist(kv, s) + Tokens(Of(entries, s))
      {
        FeedAppends(kv, entries, s);
      }
    }
    if Feed(kv, entries).Some? {
      forall i | 0 <= i < |spans|
        ensures spans[i].first == |Hist(kv, spans[i].seqId)|
      {
        var s := spans[i].seqId;
        FindUnique(spans, i, s);
        assert Tracked(entries, spans, s);
        FeedIsConsecutive(kv, entries, s, 0);
      }
    }
  }

  // ---- The objects ----

  datatype Pushed = Index(index: nat) | Full | BadSeqId | Tripped

  class Batch {
    const capacity: nat
    const nSeqMax: int
    /** The shim's per-token arrays, of which `nTokens` slots are in use. */
    const slots: array<Entry>
    var nTokens: nat
    var spans: seq<Span>

    ghost predicate Valid()
      reads this, slots
    {
      slots.Length == capacity && nTokens <= capacity && Summarised(Entries(), spans)
    }

    ghost function Entries(): seq<Entry>
      reads this, slots
    {
      if nTokens <= slots.Length then slots[..nTokens] else []
    }

    constructor (capacity: nat, nSeqMax: int)
      ensures Valid() && Entries() == [] && fresh(slots)
      ensures this.capacity == capacity && this.nSeqMax == nSeqMax
    {
      this.capacity := capacity;
      this.nSeqMax := nSeqMax;
      slots := new Entry[capacity](i => Entry(0, 0, 0, false));
      nTokens := 0;
      spans := [];
    }

    /** Append one token. A refused or tripped push changes nothing. */
    method Push(token: Token, pos: int, seqId: SeqId, logits: bool) returns (r: Pushed)
      requires Valid()
      modifies this, slots
      ensures Valid()
      ensures var e := Entry(token, pos, seqId, logits);
              r == if old(nTokens) >= capacity then Full
                   else if seqId < 0 || seqId >= nSeqMax then BadSeqId
                   else if !Follows(old(Entries()), e) then Tripped
                   else Index(old(nTokens))
      ensures Entries() == if r.Index? then old(Entries()) + [Entry(token, pos, seqId, logits)] else old(Entries())
      ensures !r.Index? ==> spans == old(spans)
    {
      var index := nTokens;
      if index >= capacity {
        return Full;
      }
      if seqId < 0 || seqId >= nSeqMax {
        return BadSeqId;
      }
      var e := Entry(token, pos, seqId, logits);
      NotedIffFollows(Entries(), spans, e);
      var noted := Noted(spans, e);
      if noted.None? {
        return Tripped;
      }
      NotedKeepsSummary(Entries(), spans, e);
      spans := noted.value;
      slots[index] := e;
      nTokens := nTokens + 1;
      assert Entries() == old(Entries()) + [e];
      return Index(index);
    }

    method Clear()
      requires slots.Length == capacity
      modifies this
      ensures Valid() && Entries() == []
    {
      nTokens := 0;
      spans := [];
    }
  }

  const I32_MAX: nat := 0x7fff_ffff

  /** Make a batch; `allocates` is whether the shim gets its memory. */
  method NewBatch(capacity: nat, nSeqMax: nat, allocates: bool) returns (b: Option<Batch>)
    ensures b.Some? <==> 0 < capacity <= I32_MAX && 0 < nSeqMax <= I32_MAX && allocates
    ensures b.Some? ==>
              && b.value.Valid() && fresh(b.value) && fresh(b.value.slots) && b.value.Entries() == []
              && b.value.capacity == capacity && b.value.nSeqMax == nSeqMax
  {
    if capacity == 0 || nSeqMax == 0 || capacity > I32_MAX {
      return None;
    }
    if nSeqMax > I32_MAX {
      return None;
    }
    if !allocates {
      return None;
    }
    var batch := new Batch(capacity, nSeqMax);
    b := Some(batch);
  }
}

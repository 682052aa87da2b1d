/** Per-sequence KV memory, position by position, and the surgery on it. */
module KvLanes {
  import opened Options
  import opened Engine

  /** What a sequence's KV holds at each position; the last position is occupied. */
  type Lane = seq<Option<Token>>

  predicate Trimmed(lane: Lane) {
    lane == [] || lane[|lane| - 1].Some?
  }

  function Trim(lane: Lane): (t: Lane)
    ensures Trimmed(t) && t <= lane
    ensures forall i :: |t| <= i < |lane| ==> lane[i].None?
  {
    if Trimmed(lane) then lane else Trim(lane[..|lane| - 1])
  }

  /** The largest position present, as `seq_pos_max` reports it. */
  function PosMax(lane: Lane): Option<int> {
    if lane == [] then None else Some(|lane| - 1)
  }

  /** Where the next token of the sequence must go. */
  function NextPos(lane: Lane): int {
    match PosMax(lane)
    case None => 0
    case Some(p) => p + 1
  }

  /** No position up to the last is missing. */
  ghost predicate Dense(lane: Lane) {
    forall i :: 0 <= i < |lane| ==> lane[i].Some?
  }

  /** The lane that decoding a token history leaves. */
  function LaneOf(tokens: seq<Token>): (lane: Lane)
    ensures |lane| == |tokens| && Dense(lane) && Trimmed(lane)
    ensures forall i :: 0 <= i < |tokens| ==> lane[i] == Some(tokens[i])
  {
    seq(|tokens|, i requires 0 <= i < |tokens| => Some(tokens[i]))
  }

  /** The history a dense lane holds. */
  function History(lane: Lane): (tokens: seq<Token>)
    requires Dense(lane)
    ensures LaneOf(tokens) == lane
  {
    seq(|lane|, i requires 0 <= i < |lane| => lane[i].value)
  }

  lemma HistoryOfLane(tokens: seq<Token>)
    ensures History(LaneOf(tokens)) == tokens
  {
    assert |History(LaneOf(tokens))| == |tokens|;
  }

  /** Resolve a range whose negative ends mean the beginning and the end. */
  function From(p0: int): nat {
    if p0 < 0 then 0 else p0
  }

  function To(lane: Lane, p1: int): nat {
    if p1 < 0 then |lane| else p1
  }

  /** A lane without the positions in `[lo, hi)`, or with no others. */
  function Without(lane: Lane, lo: nat, hi: nat): (holed: Lane)
    ensures |holed| == |lane|
    ensures forall i :: 0 <= i < |lane| ==> holed[i] == if lo <= i < hi then None else lane[i]
  {
    seq(|lane|, i requires 0 <= i < |lane| => if lo <= i < hi then None else lane[i])
  }

  function Within(lane: Lane, lo: nat, hi: nat): (part: Lane)
    ensures |part| == |lane|
    ensures forall i :: 0 <= i < |lane| ==> part[i] == if lo <= i < hi then lane[i] else None
  {
    seq(|lane|, i requires 0 <= i < |lane| => if lo <= i < hi then lane[i] else None)
  }

  /** Remove positions `[p0, p1)`. */
  function Remove(lane: Lane, p0: int, p1: int): (kept: Lane)
    ensures Trimmed(kept)
  {
    Trim(Without(lane, From(p0), To(lane, p1)))
  }

  /** `seq_rm`: a memory that cannot drop part of a sequence refuses, except for the
      whole of it. */
  function SeqRm(lane: Lane, p0: int, p1: int, partial: bool): (r: Option<Lane>) {
    if partial || (From(p0) == 0 && |lane| <= To(lane, p1)) then Some(Remove(lane, p0, p1)) else None
  }

  /** `seq_cp` onto an empty sequence. */
  function CopyOut(lane: Lane, p0: int, p1: int): (copied: Lane)
    ensures Trimmed(copied)
  {
    Trim(Within(lane, From(p0), To(lane, p1)))
  }

  lemma {:induction false} TrimIs(lane: Lane, n: nat)
    requires n <= |lane| && Trimmed(lane[..n]) && forall i :: n <= i < |lane| ==> lane[i].None?
    ensures Trim(lane) == lane[..n]
    decreases |lane|
  {
    if n < |lane| {
      assert lane[..|lane| - 1][..n] == lane[..n];
      TrimIs(lane[..|lane| - 1], n);
    } else {
      assert lane[..n] == lane;
    }
  }

  /** Removing a suffix is a real rollback: what is left is the KV of a session that
      never went past it. */
  lemma RemoveSuffix(tokens: seq<Token>, p: nat)
    requires p <= |tokens|
    ensures Remove(LaneOf(tokens), p, -1) == LaneOf(tokens[..p])
  {
    var lane := LaneOf(tokens);
    var holed := Without(lane, p, |lane|);
    assert holed[..p] == LaneOf(tokens[..p]);
    TrimIs(holed, p);
  }

  /** A removal leaves no gap exactly when it removes nothing or reaches the end. */
  lemma DenseIffSuffix(tokens: seq<Token>, p0: int, p1: int)
    ensures var lane := LaneOf(tokens);
            Dense(Remove(lane, p0, p1)) <==>
            To(lane, p1) <= From(p0) || |tokens| <= From(p0) || |tokens| <= To(lane, p1)
  {
    var lane := LaneOf(tokens);
    var lo, hi := From(p0), To(lane, p1);
    var holed := Without(lane, lo, hi);
    if hi <= lo || |lane| <= lo {
      TrimIs(holed, |lane|);
    } else if |lane| <= hi {
      TrimIs(holed, lo);
    } else {
      TrimIs(holed, |lane|);
      assert Remove(lane, p0, p1)[lo].None?;
    }
  }

  /** What a lane holds at a position, if anything. */
  function At(lane: Lane, i: nat): Option<Token> {
    if i < |lane| then lane[i] else None
  }

  /** Is a position in a range, of which either end may be left open? */
  predicate InRange(p0: int, p1: int, i: nat) {
    (p0 < 0 || p0 <= i) && (p1 < 0 || i < p1)
  }

  /** Surgery position by position: a removal empties exactly the range, a copy fills
      exactly the range, and a memory that cannot drop a part drops all or nothing. */
  lemma SurgeryIsPointwise(lane: Lane, p0: int, p1: int, partial: bool, i: nat)
    ensures At(Remove(lane, p0, p1), i) == if InRange(p0, p1, i) then None else At(lane, i)
    ensures At(CopyOut(lane, p0, p1), i) == if InRange(p0, p1, i) then At(lane, i) else None
    ensures SeqRm(lane, p0, p1, partial)
         == if partial || (p0 <= 0 && forall j: nat :: j < |lane| ==> InRange(p0, p1, j))
            then Some(Remove(lane, p0, p1)) else None
  {
    if lane != [] {
      assert InRange(p0, p1, |lane| - 1) <==> From(p0) < |lane| && (p1 < 0 || |lane| <= p1);
    }
  }

  /** Copying a prefix shares it without re-decoding. */
  lemma CopyPrefix(tokens: seq<Token>, p: nat)
    requires p <= |tokens|
    ensures CopyOut(LaneOf(tokens), -1, p) == LaneOf(tokens[..p])
    ensures CopyOut(LaneOf(tokens), -1, -1) == LaneOf(tokens)
  {
    var lane := LaneOf(tokens);
    var part := Within(lane, 0, p);
    assert part[..p] == LaneOf(tokens[..p]);
    TrimIs(part, p);
    var all := Within(lane, 0, |lane|);
    assert all[..|lane|] == lane;
    TrimIs(all, |lane|);
  }

  /** Two sessions with the same history that decode the same tokens agree. */
  lemma SameHistoryRejoins(m: Model, link1: Link, link2: Link, nb1: nat, nb2: nat, s: State, spare: State,
                           history: seq<Token>, more: seq<Token>)
    requires 0 < nb1 && 0 < nb2 && more != []
    requires !s.dead && s.kv == history && Clean(link1, s.calls)
    requires !spare.dead && spare.kv == [] && Clean(link2, spare.calls)
    ensures var joined := Decode(m, link1, nb1, s, more);
            var straight := Decode(m, link2, nb2, spare, history + more);
            && joined.Some? && straight.Some? && joined.value.kv == straight.value.kv == history + more
            && joined.value.logits == straight.value.logits
  {
    ChunkingIsInvisible(m, link1, nb1, s, more);
    ChunkingIsInvisible(m, link2, nb2, spare, history + more);
    assert spare.kv + (history + more) == history + more;
  }

  /** Rolling back: removing everything from `p` on works unless the memory cannot drop a
      part and there is a part to keep; it leaves a history without holes whose next
      position is `p`; and decoding `more` after it, on any link without failures and with
      any batch size, gives the KV and the logits of a fresh session on the edited history. */
  lemma RollbackRejoins(m: Model, link1: Link, link2: Link, nb1: nat, nb2: nat, s: State, spare: State,
                        p: nat, more: seq<Token>, partial: bool)
    requires 0 < nb1 && 0 < nb2 && p <= |s.kv| && more != []
    requires !s.dead && Clean(link1, s.calls)
    requires !spare.dead && spare.kv == [] && Clean(link2, spare.calls)
    ensures var lane := SeqRm(LaneOf(s.kv), p, -1, partial);
            && (lane.Some? <==> partial || p == 0)
            && (lane.Some? ==>
                  && Dense(lane.value) && NextPos(lane.value) == p
                  && (var rolled := Decode(m, link1, nb1, s.(kv := History(lane.value)), more);
                      var straight := Decode(m, link2, nb2, spare, s.kv[..p] + more);
                      && rolled.Some? && straight.Some?
                      && rolled.value.kv == straight.value.kv && rolled.value.logits == straight.value.logits))
  {
    RemoveSuffix(s.kv, p);
    HistoryOfLane(s.kv[..p]);
    SameHistoryRejoins(m, link1, link2, nb1, nb2, s.(kv := s.kv[..p]), spare, s.kv[..p], more);
  }

  /** Sharing a prefix: continuing a sequence that was given the first `p` positions of
      another by copying is continuing a session that decoded them. */
  lemma CopyRejoins(m: Model, link1: Link, link2: Link, nb1: nat, nb2: nat, s: State, spare: State,
                    tokens: seq<Token>, p: nat, more: seq<Token>)
    requires 0 < nb1 && 0 < nb2 && p <= |tokens| && more != []
    requires !s.dead && Clean(link1, s.calls)
    requires !spare.dead && spare.kv == [] && Clean(link2, spare.calls)
    ensures var lane := CopyOut(LaneOf(tokens), -1, p);
            && Dense(lane) && NextPos(lane) == p
            && (var shared := Decode(m, link1, nb1, s.(kv := History(lane)), more);
                var straight := Decode(m, link2, nb2, spare, tokens[..p] + more);
                && shared.Some? && straight.Some?
                && shared.value.kv == straight.value.kv && shared.value.logits == straight.value.logits)
  {
    CopyPrefix(tokens, p);
    HistoryOfLane(tokens[..p]);
    SameHistoryRejoins(m, link1, link2, nb1, nb2, s.(kv := tokens[..p]), spare, tokens[..p], more);
  }
}

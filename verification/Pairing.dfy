/** One pairing attempt: a host and a joiner, each a program counter, joined by two
  ordered streams.

  The key exchange and the keyed hash are given by a suite of functions.  Its laws,
  `Ideal`, are what the exchange is designed for: two parties derive the same key
  exactly if they used the same code, and hashes under a key tell texts apart. */
module Pairing {
  import opened Options
  import opened Lexical

  type Code = string
  type Secret = int
  type Body = seq<int>
  type Key = seq<int>
  type Mac = seq<int>

  datatype Suite = Suite(
    start: (Code, Secret) -> Body,
    finish: (Code, Secret, Body) -> Option<Key>,
    hash: (Key, string) -> Mac)

  /** A party with one code and secret and a party with another derive keys, and the
      same key exactly if the codes are the same. */
  ghost predicate KeysAgree(suite: Suite, c: Code, m: Secret, d: Code, n: Secret) {
    var here, there := suite.finish(c, m, suite.start(d, n)), suite.finish(d, n, suite.start(c, m));
    here.Some? && there.Some? && (here == there <==> c == d)
  }

  ghost predicate KeysAgreeOnCodes(suite: Suite) {
    forall c, m, d, n :: KeysAgree(suite, c, m, d, n)
  }

  ghost predicate HashTellsApart(suite: Suite) {
    forall k, s, k', s' :: suite.hash(k, s) == suite.hash(k', s') ==> k == k' && s == s'
  }

  ghost predicate Ideal(suite: Suite) {
    KeysAgreeOnCodes(suite) && HashTellsApart(suite)
  }

  // ---- The laws can be met ----

  function Chars(s: string): seq<int> {
    seq(|s|, i requires 0 <= i < |s| => s[i] as int)
  }

  lemma CharsDiffer(s: string, t: string)
    requires Chars(s) == Chars(t)
    ensures s == t
  {
    forall i | 0 <= i < |s| ensures s[i] == t[i] {
      assert Chars(s)[i] == Chars(t)[i];
    }
  }

  function PlainKey(c: Code, body: Body): Key {
    [|c|] + Chars(c) + body
  }

  function PlainHash(k: Key, s: string): Mac {
    [|k|] + k + Chars(s)
  }

  function PlainSuite(): Suite {
    Suite((c, n) => Chars(c), (c, n, body) => Some(PlainKey(c, body)), PlainHash)
  }

  lemma PlainKeysAgree(c: Code, d: Code)
    ensures PlainKey(c, Chars(d)) == PlainKey(d, Chars(c)) <==> c == d
  {
    if PlainKey(c, Chars(d)) == PlainKey(d, Chars(c)) {
      assert PlainKey(c, Chars(d))[0] == |c| && PlainKey(d, Chars(c))[0] == |d|;
      assert PlainKey(c, Chars(d))[1..|c| + 1] == Chars(c);
      assert PlainKey(d, Chars(c))[1..|c| + 1] == Chars(d);
      CharsDiffer(c, d);
    }
  }

  lemma PlainHashTellsApart(k: Key, s: string, k': Key, s': string)
    requires PlainHash(k, s) == PlainHash(k', s')
    ensures k == k' && s == s'
  {
    var h, h' := PlainHash(k, s), PlainHash(k', s');
    assert h[0] == |k| && h'[0] == |k'|;
    assert h[1..|k| + 1] == k && h'[1..|k'| + 1] == k';
    assert h[|k| + 1..] == Chars(s) && h'[|k'| + 1..] == Chars(s');
    CharsDiffer(s, s');
  }

  /** There are suites that meet the laws. */
  lemma SomeSuiteIsIdeal()
    ensures Ideal(PlainSuite())
  {
    hide PlainKey, PlainHash, Chars;
    var suite := PlainSuite();
    forall c, m, d, n ensures KeysAgree(suite, c, m, d, n) {
      PlainKeysAgree(c, d);
    }
    forall k, s, k', s' | suite.hash(k, s) == suite.hash(k', s') ensures k == k' && s == s' {
      PlainHashTellsApart(k, s, k', s');
    }
  }

  // ---- Key confirmation ----

  datatype Role = Host | Joiner

  function Tag(role: Role): string {
    match role
    case Host => "host"
    case Joiner => "joiner"
  }

  function Other(role: Role): Role {
    if role.Host? then Joiner else Host
  }

  const CONTEXT := "onebrain-pair-v1"

  /** What is hashed: the context, the sender's role and the two ids in order. */
  function Transcript(sender: Role, a: string, b: string): string {
    var (lo, hi) := if a == b || Before(a, b) then (a, b) else (b, a);
    CONTEXT + Tag(sender) + lo + hi
  }

  function ConfirmMac(suite: Suite, key: Key, sender: Role, a: string, b: string): Mac {
    suite.hash(key, Transcript(sender, a, b))
  }

  /** The hashed text of a host with the ids "aa" and "bb", in either order. */
  lemma TranscriptOfTwo()
    ensures Transcript(Host, "aa", "bb") == Transcript(Host, "bb", "aa") == "onebrain-pair-v1" + "host" + "aa" + "bb"
    ensures Transcript(Joiner, "aa", "bb") == "onebrain-pair-v1" + "joiner" + "aa" + "bb"
  {
    assert Before("aa", "bb") && !Before("bb", "aa") && "aa" != "bb";
  }

  lemma TranscriptIsSymmetric(sender: Role, a: string, b: string)
    ensures Transcript(sender, a, b) == Transcript(sender, b, a)
  {
    BeforeIsTotal(a, b);
    if Before(a, b) {
      BeforeIsStrict(a, b);
    } else if Before(b, a) {
      BeforeIsStrict(b, a);
    }
  }

  /** The transcript gives away the role, whatever the ids are. */
  lemma TranscriptBindsRole(r: Role, a: string, b: string, r': Role, a': string, b': string)
    requires Transcript(r, a, b) == Transcript(r', a', b')
    ensures r == r'
  {
    hide Before;
    var at := |CONTEXT|;
    assert Transcript(r, a, b)[at] == Tag(r)[0];
    assert Transcript(r', a', b')[at] == Tag(r')[0];
  }

  /** Both sides compute the same MAC for a role exactly if they hold the same key,
      and never the same MAC for two roles. */
  lemma MacBinds(suite: Suite, k: Key, r: Role, k': Key, r': Role, a: string, b: string)
    requires HashTellsApart(suite)
    ensures ConfirmMac(suite, k, r, a, b) == ConfirmMac(suite, k', r', b, a) <==> k == k' && r == r'
  {
    hide Transcript;
    TranscriptIsSymmetric(r, a, b);
    if ConfirmMac(suite, k, r, a, b) == ConfirmMac(suite, k', r', b, a) {
      TranscriptBindsRole(r, a, b, r', b, a);
    }
  }

  lemma SamePair(a: string, b: string, c: string, d: string)
    ensures {a, b} == {c, d} <==> (a == c && b == d) || (a == d && b == c)
  {
    if {a, b} == {c, d} {
      assert a in {c, d} && b in {c, d} && c in {a, b} && d in {a, b};
    }
  }

  lemma TailsDiffer(front: string, a: string, b: string, c: string, d: string)
    requires |a| == |c| && front + a + b == front + c + d
    ensures a == c && b == d
  {
    var whole := front + a + b;
    assert whole[|front|..|front| + |a|] == a && (front + c + d)[|front|..|front| + |a|] == c;
    assert whole[|front| + |a|..] == b && (front + c + d)[|front| + |a|..] == d;
  }

  /** With ids of one length the transcript gives away the role and the two ids. */
  lemma TranscriptBindsIds(r: Role, a: string, b: string, r': Role, a': string, b': string)
    requires |a| == |b| == |a'| == |b'|
    ensures Transcript(r, a, b) == Transcript(r', a', b') <==> r == r' && {a, b} == {a', b'}
  {
    hide Before;
    SamePair(a, b, a', b');
    TranscriptIsSymmetric(r, a, b);
    if Transcript(r, a, b) == Transcript(r', a', b') {
      TranscriptBindsRole(r, a, b, r', a', b');
      var (lo, hi) := if a == b || Before(a, b) then (a, b) else (b, a);
      var (lo', hi') := if a' == b' || Before(a', b') then (a', b') else (b', a');
      TailsDiffer(CONTEXT + Tag(r), lo, hi, lo', hi');
    }
  }

  /** So a MAC is the MAC of one key, one role and one pair of ids. */
  lemma MacBindsIds(suite: Suite, k: Key, r: Role, a: string, b: string, k': Key, r': Role, a': string, b': string)
    requires HashTellsApart(suite) && |a| == |b| == |a'| == |b'|
    ensures ConfirmMac(suite, k, r, a, b) == ConfirmMac(suite, k', r', a', b')
       <==> k == k' && r == r' && {a, b} == {a', b'}
  {
    hide Transcript;
    TranscriptBindsIds(r, a, b, r', a', b');
  }

  // ---- The parties ----

  datatype Message =
    | Pake(body: Body)
    | Confirm(mac: Mac)
    | Introduce(name: string, version: string)
    | Rejected(reason: string)

  datatype Self = Self(
    role: Role, code: Code, secret: Secret, id: string, peerId: string, name: string, version: string)

  datatype Phase =
    | Accepting
    | Starting
    | AwaitPake
    | Confirming(key: Key)
    | AwaitConfirm(key: Key)
    | Introducing
    | AwaitIntroduce
    | Rejecting
    | Paired(peerId: string, name: string, version: string)
    | Failed

  /** A party, what it has sent and how much of the other side's it has read. */
  datatype Party = Party(self: Self, phase: Phase, sent: seq<Message>, read: nat)

  predicate Ended(p: Party) {
    p.phase.Paired? || p.phase.Failed?
  }

  function Start(self: Self): Party {
    Party(self, if self.role.Host? then Accepting else Starting, [], 0)
  }

  function MyMac(suite: Suite, self: Self, key: Key): Mac {
    ConfirmMac(suite, key, self.role, self.id, self.peerId)
  }

  function ExpectedMac(suite: Suite, self: Self, key: Key): Mac {
    ConfirmMac(suite, key, Other(self.role), self.id, self.peerId)
  }

  /** Where a received frame leads. */
  function Received(suite: Suite, self: Self, phase: Phase, m: Message): Phase {
    match phase
    case AwaitPake =>
      if m.Pake? then
        match suite.finish(self.code, self.secret, m.body)
        case None => Failed
        case Some(key) => if self.role.Host? then AwaitConfirm(key) else Confirming(key)
      else Failed
    case AwaitConfirm(key) =>
      if !m.Confirm? then Failed
      else if m.mac != ExpectedMac(suite, self, key) then Rejecting
      else if self.role.Host? then Confirming(key) else Introducing
    case AwaitIntroduce => if m.Introduce? then Paired(self.peerId, m.name, m.version) else Failed
    case _ => phase
  }

  predicate Awaits(phase: Phase) {
    phase.AwaitPake? || phase.AwaitConfirm? || phase.AwaitIntroduce?
  }

  function Refusal(role: Role): string {
    if role.Host? then "wrong pairing code" else "host failed key confirmation"
  }

  /** The frame a party sends in a phase, and the phase that follows. */
  function Sends(suite: Suite, self: Self, phase: Phase): Option<(Message, Phase)> {
    match phase
    case Starting => Some((Pake(suite.start(self.code, self.secret)), AwaitPake))
    case Confirming(key) =>
      Some((Confirm(MyMac(suite, self, key)), if self.role.Host? then Introducing else AwaitConfirm(key)))
    case Introducing => Some((Introduce(self.name, self.version), AwaitIntroduce))
    case Rejecting => Some((Rejected(Refusal(self.role)), Failed))
    case _ => None
  }

  /** One step of a party: the host accepts the stream once something has come over it;
      a read takes the next frame, fails if the other side ended without one, and
      otherwise waits. */
  function Step(suite: Suite, p: Party, inbound: seq<Message>, peerEnded: bool): Party {
    match Sends(suite, p.self, p.phase)
    case Some((m, next)) => Party(p.self, next, p.sent + [m], p.read)
    case None =>
      if p.phase.Accepting? then
        if inbound != [] then Party(p.self, Starting, p.sent, p.read)
        else if peerEnded then Party(p.self, Failed, p.sent, p.read)
        else p
      else if Awaits(p.phase) then
        if p.read < |inbound| then
          Party(p.self, Received(suite, p.self, p.phase, inbound[p.read]), p.sent, p.read + 1)
        else if peerEnded then Party(p.self, Failed, p.sent, p.read)
        else p
      else p
  }

  datatype System = System(host: Party, joiner: Party)

  function Move(suite: Suite, s: System, side: Role): System {
    match side
    case Host => System(Step(suite, s.host, s.joiner.sent, Ended(s.joiner)), s.joiner)
    case Joiner => System(s.host, Step(suite, s.joiner, s.host.sent, Ended(s.host)))
  }

  function Run(suite: Suite, s: System, schedule: seq<Role>): System {
    if schedule == [] then s
    else Move(suite, Run(suite, s, schedule[..|schedule| - 1]), schedule[|schedule| - 1])
  }

  /** A host and a joiner that talk to each other. */
  predicate Facing(h: Self, j: Self) {
    h.role == Host && j.role == Joiner && h.peerId == j.id && j.peerId == h.id
  }

  /** A host and a joiner whose frames reach each other: directly, or passed on by
      someone between whom either of them takes for its peer.  Ids have one length. */
  predicate Opposed(h: Self, j: Self) {
    h.role == Host && j.role == Joiner
    && (Facing(h, j) || |h.id| == |h.peerId| == |j.id| == |j.peerId|)
  }

  /** The same code, and the same two ids for the two ends of the connection. */
  predicate Match(mine: Self, theirs: Self) {
    mine.code == theirs.code && {mine.id, mine.peerId} == {theirs.id, theirs.peerId}
  }

  // ---- The two scripts ----

  ghost function KeyOf(suite: Suite, mine: Self, theirs: Self): Key
    requires KeysAgreeOnCodes(suite)
  {
    assert KeysAgree(suite, mine.code, mine.secret, theirs.code, theirs.secret);
    suite.finish(mine.code, mine.secret, suite.start(theirs.code, theirs.secret)).value
  }

  /** All a party sends in an undisturbed attempt. */
  ghost function Script(suite: Suite, mine: Self, theirs: Self): seq<Message>
    requires KeysAgreeOnCodes(suite)
  {
    var pake := Pake(suite.start(mine.code, mine.secret));
    var confirm := Confirm(MyMac(suite, mine, KeyOf(suite, mine, theirs)));
    if Match(mine, theirs) then [pake, confirm, Introduce(mine.name, mine.version)]
    else if mine.role.Host? then [pake, Rejected(Refusal(Host))]
    else [pake, confirm]
  }

  /** The counts of frames sent and read, the key, and the match of the two sides that go
      with a phase. */
  ghost predicate Consistent(suite: Suite, p: Party, other: Self)
    requires KeysAgreeOnCodes(suite)
  {
    var key := KeyOf(suite, p.self, other);
    var agree := Match(p.self, other);
    && |p.sent| <= |Script(suite, p.self, other)| && p.sent == Script(suite, p.self, other)[..|p.sent|]
    && match p.phase
       case Accepting => p.self.role.Host? && |p.sent| == 0 && p.read == 0
       case Starting => |p.sent| == 0 && p.read == 0
       case AwaitPake => |p.sent| == 1 && p.read == 0
       case AwaitConfirm(k) => k == key && (if p.self.role.Host? then |p.sent| == 1 else |p.sent| == 2) && p.read == 1
       case Confirming(k) =>
         k == key && |p.sent| == 1 && (if p.self.role.Host? then agree && p.read == 2 else p.read == 1)
       case Introducing => agree && |p.sent| == 2 && p.read == 2
       case AwaitIntroduce => agree && |p.sent| == 3 && p.read == 2
       case Rejecting => !agree && p.self.role.Host? && |p.sent| == 1 && p.read == 2
       case Paired(id, name, version) =>
         agree && |p.sent| == 3 && p.read == 3 && id == p.self.peerId && name == other.name && version == other.version
       case Failed => !agree && |p.sent| == 2 && p.read == 2
  }

  ghost predicate Inv(suite: Suite, h: Self, j: Self, s: System)
    requires KeysAgreeOnCodes(suite)
  {
    && s.host.self == h && s.joiner.self == j
    && Consistent(suite, s.host, j) && Consistent(suite, s.joiner, h)
    && s.host.read <= |s.joiner.sent| && s.joiner.read <= |s.host.sent|
  }

  lemma KeysMatchIffCodes(suite: Suite, h: Self, j: Self)
    requires KeysAgreeOnCodes(suite)
    ensures KeyOf(suite, h, j) == KeyOf(suite, j, h) <==> h.code == j.code
  {
    assert KeysAgree(suite, h.code, h.secret, j.code, j.secret);
  }

  /** What one side sends as its confirm is what the other expects exactly if they match. */
  lemma ConfirmVerifies(suite: Suite, mine: Self, theirs: Self)
    requires Ideal(suite) && (Opposed(mine, theirs) || Opposed(theirs, mine))
    ensures MyMac(suite, theirs, KeyOf(suite, theirs, mine)) == ExpectedMac(suite, mine, KeyOf(suite, mine, theirs))
       <==> Match(mine, theirs)
  {
    hide ConfirmMac, KeyOf;
    KeysMatchIffCodes(suite, mine, theirs);
    var k, k' := KeyOf(suite, theirs, mine), KeyOf(suite, mine, theirs);
    if Facing(mine, theirs) || Facing(theirs, mine) {
      MacBinds(suite, k, theirs.role, k', Other(mine.role), theirs.id, theirs.peerId);
    } else {
      MacBindsIds(suite, k, theirs.role, theirs.id, theirs.peerId, k', Other(mine.role), mine.id, mine.peerId);
    }
  }

  /** A step that sends keeps to the script. */
  lemma SendKeeps(suite: Suite, p: Party, other: Self)
    requires Ideal(suite) && Consistent(suite, p, other) && Sends(suite, p.self, p.phase).Some?
    ensures var (m, next) := Sends(suite, p.self, p.phase).value;
            Consistent(suite, Party(p.self, next, p.sent + [m], p.read), other)
  {
    hide MyMac, KeyOf;
    var script := Script(suite, p.self, other);
    var (m, next) := Sends(suite, p.self, p.phase).value;
    assert |p.sent| < |script| && m == script[|p.sent|];
    assert script[..|p.sent| + 1] == script[..|p.sent|] + [m];
  }

  /** A step that reads the next frame of the other side's script keeps to its own. */
  lemma ReadKeeps(suite: Suite, p: Party, other: Self)
    requires Ideal(suite) && (Opposed(p.self, other) || Opposed(other, p.self))
    requires Consistent(suite, p, other) && Awaits(p.phase) && p.read < |Script(suite, other, p.self)|
    ensures var m := Script(suite, other, p.self)[p.read];
            Consistent(suite, Party(p.self, Received(suite, p.self, p.phase, m), p.sent, p.read + 1), other)
  {
    ConfirmVerifies(suite, p.self, other);
    assert KeysAgree(suite, p.self.code, p.self.secret, other.code, other.secret);
    hide MyMac, ExpectedMac;
  }

  /** A party that waits for a frame has one coming: its counterpart has not ended
      without sending it. */
  lemma FrameIsComing(suite: Suite, p: Party, q: Party)
    requires Ideal(suite) && (Opposed(p.self, q.self) || Opposed(q.self, p.self))
    requires Consistent(suite, p, q.self) && Consistent(suite, q, p.self)
    requires (Awaits(p.phase) || p.phase.Accepting?) && Ended(q)
    ensures p.read < |q.sent|
  {
    hide MyMac, KeyOf;
  }

  lemma StepKeeps(suite: Suite, p: Party, q: Party)
    requires Ideal(suite) && (Opposed(p.self, q.self) || Opposed(q.self, p.self))
    requires Consistent(suite, p, q.self) && Consistent(suite, q, p.self) && p.read <= |q.sent|
    ensures var p' := Step(suite, p, q.sent, Ended(q));
            p'.self == p.self && Consistent(suite, p', q.self) && p'.read <= |q.sent| && p.sent <= p'.sent
  {
    if Sends(suite, p.self, p.phase).Some? {
      SendKeeps(suite, p, q.self);
    } else {
      if Ended(q) && (Awaits(p.phase) || p.phase.Accepting?) {
        FrameIsComing(suite, p, q);
      }
      if Awaits(p.phase) && p.read < |q.sent| {
        ReadKeeps(suite, p, q.self);
      }
    }
    hide MyMac, KeyOf, Received, Script;
  }

  lemma MoveKeeps(suite: Suite, h: Self, j: Self, s: System, side: Role)
    requires Ideal(suite) && Opposed(h, j) && Inv(suite, h, j, s)
    ensures Inv(suite, h, j, Move(suite, s, side))
  {
    hide Step, Consistent;
    StepKeeps(suite, s.host, s.joiner);
    StepKeeps(suite, s.joiner, s.host);
  }

  lemma {:induction false} RunKeeps(suite: Suite, h: Self, j: Self, schedule: seq<Role>)
    requires Ideal(suite) && Opposed(h, j)
    ensures Inv(suite, h, j, Run(suite, System(Start(h), Start(j)), schedule))
  {
    hide Move, Ideal;
    if schedule != [] {
      RunKeeps(suite, h, j, schedule[..|schedule| - 1]);
      MoveKeeps(suite, h, j, Run(suite, System(Start(h), Start(j)), schedule[..|schedule| - 1]), schedule[|schedule| - 1]);
    }
  }

  /** Safety in every run, finished or not: a side that has paired has paired with the
      other side, which used the same code; and if the codes differ the host has not
      sent its confirm. */
  lemma PairedIsGenuine(suite: Suite, h: Self, j: Self, schedule: seq<Role>)
    requires Ideal(suite) && Facing(h, j)
    ensures var s := Run(suite, System(Start(h), Start(j)), schedule);
            && (s.host.phase.Paired? ==> h.code == j.code && s.host.phase == Paired(j.id, j.name, j.version))
            && (s.joiner.phase.Paired? ==> h.code == j.code && s.joiner.phase == Paired(h.id, h.name, h.version))
            && (h.code != j.code ==> forall i :: 0 <= i < |s.host.sent| ==> !s.host.sent[i].Confirm?)
  {
    hide Run, KeyOf, MyMac;
    RunKeeps(suite, h, j, schedule);
  }

  /** No deadlock: in every reachable state either both sides have ended or some side
      can move. */
  lemma NoDeadlock(suite: Suite, h: Self, j: Self, schedule: seq<Role>)
    requires Ideal(suite) && Opposed(h, j)
    ensures var s := Run(suite, System(Start(h), Start(j)), schedule);
            (Ended(s.host) && Ended(s.joiner)) || Move(suite, s, Host) != s || Move(suite, s, Joiner) != s
  {
    hide Run, KeyOf, MyMac, Script, Received;
    RunKeeps(suite, h, j, schedule);
  }

  /** When both sides have ended, the codes decide: the same code and both have paired
      with each other, different codes and both have failed. */
  lemma CodesDecide(suite: Suite, h: Self, j: Self, schedule: seq<Role>)
    requires Ideal(suite) && Facing(h, j)
    ensures var s := Run(suite, System(Start(h), Start(j)), schedule);
            Ended(s.host) && Ended(s.joiner) ==>
              if h.code == j.code
              then s.host.phase == Paired(j.id, j.name, j.version) && s.joiner.phase == Paired(h.id, h.name, h.version)
              else s.host.phase == Failed && s.joiner.phase == Failed
  {
    hide Run, KeyOf, MyMac, Script;
    RunKeeps(suite, h, j, schedule);
  }

  /** In general the match decides: with ids of one length, whoever passes the frames on,
      a side that has paired has the same code as the other and the same two ids for the
      two ends, and when both have ended they have paired exactly then. */
  lemma MatchDecides(suite: Suite, h: Self, j: Self, schedule: seq<Role>)
    requires Ideal(suite) && Opposed(h, j)
    ensures var s := Run(suite, System(Start(h), Start(j)), schedule);
            && (s.host.phase.Paired? ==> Match(h, j) && s.host.phase == Paired(h.peerId, j.name, j.version))
            && (s.joiner.phase.Paired? ==> Match(h, j) && s.joiner.phase == Paired(j.peerId, h.name, h.version))
            && (Ended(s.host) && Ended(s.joiner) ==>
                  if Match(h, j) then s.host.phase.Paired? && s.joiner.phase.Paired?
                  else s.host.phase == Failed && s.joiner.phase == Failed)
            && (!Match(h, j) ==> forall i :: 0 <= i < |s.host.sent| ==> !s.host.sent[i].Confirm?)
  {
    hide Run, KeyOf, MyMac;
    RunKeeps(suite, h, j, schedule);
  }

  /** A relay in the middle gains nothing: a host and a joiner with one code whose frames
      are passed on between them, but who do not have each other for a peer, never pair,
      and the host does not send its confirm. */
  lemma RelayedNeverPair(suite: Suite, h: Self, j: Self, schedule: seq<Role>)
    requires Ideal(suite) && Opposed(h, j) && h.id != j.id && !(h.peerId == j.id && j.peerId == h.id)
    ensures var s := Run(suite, System(Start(h), Start(j)), schedule);
            && !s.host.phase.Paired? && !s.joiner.phase.Paired?
            && (forall i :: 0 <= i < |s.host.sent| ==> !s.host.sent[i].Confirm?)
  {
    hide Run;
    MatchDecides(suite, h, j, schedule);
    SamePair(h.id, h.peerId, j.id, j.peerId);
  }

  // ---- Termination ----

  /** How many steps a party has left at most. */
  function Rank(p: Party): nat {
    match p.phase
    case Accepting => 8
    case Starting => 7
    case AwaitPake => 6
    case AwaitConfirm(_) => if p.self.role.Host? then 5 else 4
    case Confirming(_) => if p.self.role.Host? then 4 else 5
    case Introducing => 3
    case AwaitIntroduce => 2
    case Rejecting => 1
    case _ => 0
  }

  function TotalRank(s: System): nat {
    Rank(s.host) + Rank(s.joiner)
  }

  lemma StepDescends(suite: Suite, p: Party, inbound: seq<Message>, peerEnded: bool)
    ensures var p' := Step(suite, p, inbound, peerEnded);
            p'.self == p.self && (p' == p || Rank(p') < Rank(p))
  {
    hide MyMac, ExpectedMac;
  }

  lemma MoveDescends(suite: Suite, s: System, side: Role)
    ensures var s' := Move(suite, s, side); s' == s || TotalRank(s') < TotalRank(s)
  {
    hide Step, Rank;
    StepDescends(suite, s.host, s.joiner.sent, Ended(s.joiner));
    StepDescends(suite, s.joiner, s.host.sent, Ended(s.host));
  }

  /** `k` turns for each side. */
  function Rounds(k: nat): seq<Role> {
    if k == 0 then [] else Rounds(k - 1) + [Host, Joiner]
  }

  lemma RunTwo(suite: Suite, s: System, schedule: seq<Role>, a: Role, b: Role)
    ensures Run(suite, s, schedule + [a, b]) == Move(suite, Move(suite, Run(suite, s, schedule), a), b)
  {
    hide Move;
    var both := schedule + [a, b];
    assert both[..|both| - 1] == schedule + [a];
    assert (schedule + [a])[..|schedule|] == schedule;
  }

  lemma {:induction false} RoundsDescend(suite: Suite, h: Self, j: Self, schedule: seq<Role>, k: nat)
    requires Ideal(suite) && Opposed(h, j)
    ensures var start := System(Start(h), Start(j));
            var s, s' := Run(suite, start, schedule), Run(suite, start, schedule + Rounds(k));
            (Ended(s'.host) && Ended(s'.joiner)) || TotalRank(s') + k <= TotalRank(s)
  {
    hide Move, Run, Rank;
    var start := System(Start(h), Start(j));
    if k == 0 {
      assert schedule + Rounds(0) == schedule;
    } else {
      RoundsDescend(suite, h, j, schedule, k - 1);
      var before := schedule + Rounds(k - 1);
      assert schedule + Rounds(k) == before + [Host, Joiner];
      RunTwo(suite, start, before, Host, Joiner);
      RoundDescends(suite, h, j, before);
    }
  }

  lemma RoundDescends(suite: Suite, h: Self, j: Self, schedule: seq<Role>)
    requires Ideal(suite) && Opposed(h, j)
    ensures var s := Run(suite, System(Start(h), Start(j)), schedule);
            var s' := Move(suite, Move(suite, s, Host), Joiner);
            && (Ended(s.host) && Ended(s.joiner) ==> s' == s)
            && ((Ended(s.host) && Ended(s.joiner)) || TotalRank(s') < TotalRank(s))
  {
    hide Run, Rank, Received;
    var s := Run(suite, System(Start(h), Start(j)), schedule);
    NoDeadlock(suite, h, j, schedule);
    MoveDescends(suite, s, Host);
    MoveDescends(suite, Move(suite, s, Host), Joiner);
  }

  /** Every attempt comes to its end: whatever has happened so far, fifteen more turns
      for each side conclude it. */
  lemma AttemptEnds(suite: Suite, h: Self, j: Self, schedule: seq<Role>)
    requires Ideal(suite) && Opposed(h, j)
    ensures var s := Run(suite, System(Start(h), Start(j)), schedule + Rounds(15));
            Ended(s.host) && Ended(s.joiner)
  {
    hide Run, Rounds;
    RoundsDescend(suite, h, j, schedule, 15);
    RunKeeps(suite, h, j, schedule);
    var s := Run(suite, System(Start(h), Start(j)), schedule);
    assert TotalRank(s) <= 15 by { hide Consistent; }
  }

  /** How many of the turns of a schedule change anything. */
  ghost function Moves(suite: Suite, s: System, schedule: seq<Role>): nat {
    if schedule == [] then 0
    else
      var before := Run(suite, s, schedule[..|schedule| - 1]);
      Moves(suite, s, schedule[..|schedule| - 1])
      + (if Move(suite, before, schedule[|schedule| - 1]) == before then 0 else 1)
  }

  lemma {:induction false} MovesDescend(suite: Suite, s: System, schedule: seq<Role>)
    ensures Moves(suite, s, schedule) + TotalRank(Run(suite, s, schedule)) <= TotalRank(s)
  {
    hide Move, Rank;
    if schedule != [] {
      var init := schedule[..|schedule| - 1];
      MovesDescend(suite, s, init);
      MoveDescends(suite, Run(suite, s, init), schedule[|schedule| - 1]);
    }
  }

  /** Whoever talks to whom, at most fifteen turns of any schedule change anything. */
  lemma AtMostFifteenMoves(suite: Suite, h: Self, j: Self, schedule: seq<Role>)
    requires h.role == Host && j.role == Joiner
    ensures Moves(suite, System(Start(h), Start(j)), schedule) <= 15
  {
    MovesDescend(suite, System(Start(h), Start(j)), schedule);
  }

  /** The first `n` turns of an endless schedule. */
  function Prefix(turns: nat -> Role, n: nat): seq<Role> {
    if n == 0 then [] else Prefix(turns, n - 1) + [turns(n - 1)]
  }

  /** Each side gets a turn again and again. */
  ghost predicate Fair(turns: nat -> Role) {
    forall n: nat, side: Role :: TurnFrom(turns, n, side)
  }

  ghost predicate TurnFrom(turns: nat -> Role, n: nat, side: Role) {
    exists m: nat :: n <= m && turns(m) == side
  }

  lemma OneTurn(suite: Suite, s: System, turns: nat -> Role, n: nat)
    ensures Run(suite, s, Prefix(turns, n + 1)) == Move(suite, Run(suite, s, Prefix(turns, n)), turns(n))
  {
    hide Move;
    assert Prefix(turns, n + 1)[..|Prefix(turns, n + 1)| - 1] == Prefix(turns, n);
  }

  /** If a side could move after `n` turns and has the m-th, something has moved by then. */
  lemma {:induction false} SomethingMoves(suite: Suite, s: System, turns: nat -> Role, n: nat, m: nat) returns (k: nat)
    requires n <= m
    requires var now := Run(suite, s, Prefix(turns, n)); Move(suite, now, turns(m)) != now
    ensures n < k && TotalRank(Run(suite, s, Prefix(turns, k))) < TotalRank(Run(suite, s, Prefix(turns, n)))
    decreases m - n
  {
    hide Move, Rank;
    var now := Run(suite, s, Prefix(turns, n));
    OneTurn(suite, s, turns, n);
    MoveDescends(suite, now, turns(n));
    if Move(suite, now, turns(n)) != now {
      k := n + 1;
    } else {
      k := SomethingMoves(suite, s, turns, n + 1, m);
    }
  }

  /** Every fair run of an attempt comes to its end. */
  lemma {:induction false} FairRunEnds(suite: Suite, h: Self, j: Self, turns: nat -> Role, n: nat) returns (k: nat)
    requires Ideal(suite) && Opposed(h, j) && Fair(turns)
    ensures n <= k
    ensures var s := Run(suite, System(Start(h), Start(j)), Prefix(turns, k)); Ended(s.host) && Ended(s.joiner)
    decreases TotalRank(Run(suite, System(Start(h), Start(j)), Prefix(turns, n)))
  {
    hide Run, Move, Rank, Ideal;
    var start := System(Start(h), Start(j));
    var s := Run(suite, start, Prefix(turns, n));
    if Ended(s.host) && Ended(s.joiner) {
      k := n;
    } else {
      NoDeadlock(suite, h, j, Prefix(turns, n));
      var side := if Move(suite, s, Host) != s then Host else Joiner;
      assert TurnFrom(turns, n, side);
      var m: nat :| n <= m && turns(m) == side;
      var next := SomethingMoves(suite, start, turns, n, m);
      k := FairRunEnds(suite, h, j, turns, next);
    }
  }

  // ---- Against an arbitrary peer ----

  /** A party alone against a stream of frames; each turn says how many of them have
      arrived and whether the peer has ended. */
  function Against(suite: Suite, self: Self, stream: seq<Message>, turns: seq<(nat, bool)>): Party {
    if turns == [] then Start(self)
    else
      var (arrived, ended) := turns[|turns| - 1];
      Step(suite, Against(suite, self, stream, turns[..|turns| - 1]),
           stream[..if arrived < |stream| then arrived else |stream|], ended)
  }

  /** The first frame is a key exchange and the second proves its key in the other role. */
  ghost predicate Proof(suite: Suite, self: Self, stream: seq<Message>) {
    && |stream| >= 2 && stream[0].Pake? && stream[1].Confirm?
    && var key := suite.finish(self.code, self.secret, stream[0].body);
       key.Some? && stream[1].mac == ExpectedMac(suite, self, key.value)
  }

  ghost predicate Guarded(suite: Suite, stream: seq<Message>, p: Party) {
    && (forall i :: 0 <= i < |p.sent| ==> p.sent[i].Confirm? ==> p.self.role.Joiner? || Proof(suite, p.self, stream))
    && match p.phase
       case Accepting => p.read == 0
       case Starting => p.read == 0
       case AwaitPake => p.read == 0
       case AwaitConfirm(key) =>
         && p.read == 1 && |stream| >= 1 && stream[0].Pake?
         && suite.finish(p.self.code, p.self.secret, stream[0].body) == Some(key)
       case Confirming(key) =>
         if p.self.role.Host? then Proof(suite, p.self, stream)
         else
           && p.read == 1 && |stream| >= 1 && stream[0].Pake?
           && suite.finish(p.self.code, p.self.secret, stream[0].body) == Some(key)
       case Introducing => Proof(suite, p.self, stream)
       case AwaitIntroduce => Proof(suite, p.self, stream)
       case Paired(_, _, _) => Proof(suite, p.self, stream)
       case _ => true
  }

  lemma StepGuards(suite: Suite, stream: seq<Message>, p: Party, k: nat, ended: bool)
    requires Guarded(suite, stream, p) && k <= |stream|
    ensures Guarded(suite, stream, Step(suite, p, stream[..k], ended))
  {
    hide MyMac, ExpectedMac;
    if Awaits(p.phase) && p.read < k {
      assert stream[..k][p.read] == stream[p.read];
    }
  }

  /** Whatever the peer sends: a party pairs, and a host reveals its own confirm, only
      after the peer has proved the key in its own role. */
  lemma {:induction false} ProofComesFirst(suite: Suite, self: Self, stream: seq<Message>, turns: seq<(nat, bool)>)
    ensures var p := Against(suite, self, stream, turns);
            && p.self == self && Guarded(suite, stream, p)
            && (p.phase.Paired? ==> Proof(suite, self, stream))
            && (self.role.Host? && (exists i :: 0 <= i < |p.sent| && p.sent[i].Confirm?) ==> Proof(suite, self, stream))
  {
    hide Step, Proof;
    if turns != [] {
      var init := turns[..|turns| - 1];
      ProofComesFirst(suite, self, stream, init);
      var (arrived, ended) := turns[|turns| - 1];
      var k := if arrived < |stream| then arrived else |stream|;
      StepGuards(suite, stream, Against(suite, self, stream, init), k, ended);
      StepDescends(suite, Against(suite, self, stream, init), stream[..k], ended);
    }
  }

  /** A confirm sent back to its sender proves nothing, under any key. */
  lemma ReflectionIsRejected(suite: Suite, self: Self, stream: seq<Message>, key: Key)
    requires HashTellsApart(suite) && |stream| >= 2 && stream[1] == Confirm(MyMac(suite, self, key))
    ensures !Proof(suite, self, stream)
  {
    hide Transcript;
    if Proof(suite, self, stream) {
      TranscriptBindsRole(self.role, self.id, self.peerId, Other(self.role), self.id, self.peerId);
    }
  }

  lemma NoDifference(d: bv8, x: bv8, y: bv8)
    ensures d | (x ^ y) == 0 <==> d == 0 && x == y
  {
  }

  /** The comparison of MACs looks at every byte and finds them equal exactly if they are. */
  method CtEq(a: seq<bv8>, b: seq<bv8>) returns (same: bool)
    requires |a| == |b|
    ensures same <==> a == b
  {
    var diff: bv8 := 0;
    for i := 0 to |a|
      invariant diff == 0 <==> a[..i] == b[..i]
    {
      NoDifference(diff, a[i], b[i]);
      assert a[..i + 1] == a[..i] + [a[i]] && b[..i + 1] == b[..i] + [b[i]];
      diff := diff | (a[i] ^ b[i]);
    }
    assert a[..|a|] == a && b[..|a|] == b;
    same := diff == 0;
  }
}

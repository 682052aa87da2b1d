/** The RPC client's pending-command ledger: commands go out without waiting, one
  in-order server executes them, and pipelined fences ("ack tickets") let a wait
  drain to an old position.

  A `Socket` is the client's ledger together with the wire: what was sent, how far
  the server has executed, which responses are unread, and how many times the
  stream was touched.  `fate(i)` says whether the i-th operation on the stream
  succeeds.  Reading a response waits until the server has executed the command it
  answers; the server is taken to have done no more than it has been waited for,
  or than a `Serve` action let it do. */
module RpcLedger {
  import opened Options

  datatype Ticket = Ticket(marker: nat, markerBytes: nat)

  /** `completed` is the highest submitted count proven executed by a response. */
  datatype Ledger = Ledger(submitted: nat, completed: nat, bytesSubmitted: nat, bytesCompleted: nat,
                           largest: nat, tickets: seq<Ticket>, dead: bool)

  /** `sent` holds the wire size of each command written; commands are counted from
      1. `unread` holds the counts of the answered commands whose responses are still
      in the stream, and `failed` whether a read has ever failed. */
  datatype Wire = Wire(sent: seq<nat>, executed: nat, unread: seq<nat>, failed: bool, touches: nat)

  datatype Socket = Socket(l: Ledger, w: Wire)

  type Fate = nat -> bool

  /** The `OB_RPC_INFLIGHT_CAP` setting. */
  type Setting = Option<nat>

  const FLOOR: nat := 4 * 1024 * 1024
  /** One command byte and an eight-byte length. */
  const HEADER: nat := 9
  /** A fence request carries a four-byte device id. */
  const FENCE: nat := 4

  const FRESH: Socket := Socket(Ledger(0, 0, 0, 0, 0, [], false), Wire([], 0, [], false, 0))

  function Max(a: nat, b: nat): nat {
    if a < b then b else a
  }

  function Sum(s: seq<nat>): nat {
    if s == [] then 0 else Sum(s[..|s| - 1]) + s[|s| - 1]
  }

  function Cap(setting: Setting, largest: nat): nat {
    if setting == Some(0) then 0xffff_ffff_ffff_ffff
    else Max(if setting.Some? then setting.value else FLOOR, 4 * largest + largest / 2 + 1024 * 1024)
  }

  /** What the cap comes to: a window counts as full once it passes the floor, or what was
      set for it, and four and a half times the largest command and a mebibyte.  A setting
      of zero turns it off for every count that 64 bits hold. */
  lemma CapIsFourAndAHalf(setting: Setting, largest: nat, window: nat)
    ensures window > Cap(setting, largest) <==>
            if setting == Some(0) then window >= 0x1_0000_0000_0000_0000
            else
              && window > (if setting.Some? then setting.value else 4 * 1024 * 1024)
              && 2 * window > 9 * largest + 2 * 1024 * 1024
  {
  }

  // ---- The client's operations ----

  /** Read one response; `None` is a short or malformed read. */
  function Read(fate: Fate, w: Wire): (Wire, Option<nat>) {
    if w.unread == [] || !fate(w.touches) then (w.(failed := true, touches := w.touches + 1), None)
    else
      (w.(executed := Max(w.executed, w.unread[0]), unread := w.unread[1..], touches := w.touches + 1),
       Some(w.unread[0]))
  }

  /** Advance the ledger to a position a response has proven executed. */
  function Prove(l: Ledger, marker: nat, bytes: nat): Ledger {
    var completed := Max(l.completed, marker);
    l.(completed := completed,
       bytesCompleted := Max(l.bytesCompleted, bytes),
       largest := if completed == l.submitted then 0 else l.largest)
  }

  /** Take the oldest ticket and read its response. */
  function Pop(fate: Fate, s: Socket): (Socket, bool)
    requires s.l.tickets != []
  {
    var t := s.l.tickets[0];
    var l := s.l.(tickets := s.l.tickets[1..]);
    var (w, answered) := Read(fate, s.w);
    if answered.None? then (Socket(l.(dead := true), w), false)
    else (Socket(Prove(l, t.marker, t.markerBytes), w), true)
  }

  /** Pop tickets while there are any and `more` asks for it. */
  function PopWhile(fate: Fate, s: Socket, more: Ledger -> bool): (Socket, bool)
    decreases |s.l.tickets|
  {
    if s.l.tickets == [] || !more(s.l) then (s, true)
    else
      var (s', ok) := Pop(fate, s);
      if ok then PopWhile(fate, s', more) else (s', false)
  }

  function OverCap(cap: nat, bytes: nat): Ledger -> bool {
    (l: Ledger) => l.bytesSubmitted - l.bytesCompleted + bytes > cap
  }

  function Short(target: nat): Ledger -> bool {
    (l: Ledger) => l.completed < target
  }

  function Always(): Ledger -> bool {
    (l: Ledger) => true
  }

  /** Flow control: note the size of the next command, then pop tickets while it
      would take the unproven bytes over the cap. */
  function Throttle(fate: Fate, setting: Setting, s: Socket, bytes: nat): (Socket, bool) {
    var largest := Max(s.l.largest, bytes);
    PopWhile(fate, s.(l := s.l.(largest := largest)), OverCap(Cap(setting, largest), bytes))
  }

  /** The fire-and-forget send; `answers` says whether the server will respond. */
  function Send(fate: Fate, setting: Setting, s: Socket, payload: nat, answers: bool): (Socket, bool) {
    if s.l.dead then (s, false)
    else
      var bytes := HEADER + payload;
      var (s', ok) := Throttle(fate, setting, s, bytes);
      if !ok then (s', false)
      else if !fate(s'.w.touches) then (Break(s'), false)
      else (Append(s', bytes, answers), true)
  }

  /** A write that fails. */
  function Break(s: Socket): Socket {
    Socket(s.l.(dead := true), s.w.(touches := s.w.touches + 1))
  }

  /** One more command on the wire. */
  function Append(s: Socket, bytes: nat, answers: bool): Socket {
    var n := s.l.submitted + 1;
    Socket(s.l.(submitted := n, bytesSubmitted := s.l.bytesSubmitted + bytes),
           s.w.(sent := s.w.sent + [bytes],
                unread := if answers then s.w.unread + [n] else s.w.unread,
                touches := s.w.touches + 1))
  }

  /** A whole exchange: pop every ticket, send, read the response. The result names
      the command the response that was read answers. */
  function Exchange(fate: Fate, setting: Setting, s: Socket, payload: nat): (Socket, Option<nat>) {
    if s.l.dead then (s, None)
    else
      var (s1, popped) := PopWhile(fate, s, Always());
      if !popped then (s1, None)
      else
        var (s2, sent) := Send(fate, setting, s1, payload, true);
        if !sent then (s2, None)
        else
          var (w, answered) := Read(fate, s2.w);
          if answered.None? then (Socket(s2.l.(dead := true), w), None)
          else (Socket(Prove(s2.l, s2.l.submitted, s2.l.bytesSubmitted), w), answered)
  }

  /** Put a fence on the wire and remember its position. */
  function FenceBegin(fate: Fate, setting: Setting, s: Socket): Socket {
    var (s', ok) := Send(fate, setting, s, FENCE, true);
    if !ok then s'
    else s'.(l := s'.l.(tickets := s'.l.tickets + [Ticket(s'.l.submitted, s'.l.bytesSubmitted)]))
  }

  /** Wait until the first `target` commands have been executed. */
  function DrainTo(fate: Fate, setting: Setting, s: Socket, target: nat): Socket {
    if s.l.completed >= target then s
    else
      var (s', ok) := PopWhile(fate, s, Short(target));
      if !ok || s'.l.completed >= target then s'
      else Exchange(fate, setting, s', FENCE).0
  }

  // ---- The invariant ----

  ghost predicate Ascending(s: seq<nat>, hi: nat) {
    && (forall i :: 0 <= i < |s| ==> 0 < s[i] <= hi)
    && (forall i, j :: 0 <= i < j < |s| ==> s[i] < s[j])
  }

  /** The tickets are, in order, the newest unread responses, lie past what is proven
      and know the bytes sent up to them. */
  ghost predicate Outstanding(tickets: seq<Ticket>, unread: seq<nat>, completed: nat, sent: seq<nat>) {
    && |tickets| <= |unread|
    && forall i :: 0 <= i < |tickets| ==>
         && tickets[i].marker == unread[|unread| - |tickets| + i]
         && completed < tickets[i].marker <= |sent|
         && tickets[i].markerBytes == Sum(sent[..tickets[i].marker])
  }

  /** Counts and byte counts describe what was sent. */
  ghost predicate Counted(s: Socket) {
    && s.l.submitted == |s.w.sent| && s.l.bytesSubmitted == Sum(s.w.sent)
    && s.l.completed <= s.l.submitted && s.l.bytesCompleted == Sum(s.w.sent[..s.l.completed])
    && s.w.executed <= s.l.submitted
  }

  /** What the ledger claims to be executed has been executed. */
  ghost predicate Sound(s: Socket) {
    s.l.completed <= s.w.executed
  }

  /** Until a read fails, the outstanding tickets are exactly the unread responses
      and the ledger is sound. */
  ghost predicate Inv(s: Socket) {
    && Counted(s)
    && Ascending(s.w.unread, s.l.submitted)
    && Outstanding(s.l.tickets, s.w.unread, s.l.completed, s.w.sent)
    && (if s.w.failed then s.l.dead else |s.l.tickets| == |s.w.unread| && Sound(s))
  }

  lemma {:induction false} SumMonotone(s: seq<nat>, i: nat, j: nat)
    requires i <= j <= |s|
    ensures Sum(s[..i]) <= Sum(s[..j])
    decreases j
  {
    if i < j {
      assert s[..j][..j - 1] == s[..j - 1];
      SumMonotone(s, i, j - 1);
    }
  }

  lemma OutstandingTail(tickets: seq<Ticket>, unread: seq<nat>, completed: nat, sent: seq<nat>)
    requires tickets != [] && Outstanding(tickets, unread, completed, sent) && Ascending(unread, |sent|)
    ensures Outstanding(tickets[1..], unread, completed, sent)
    ensures Outstanding(tickets[1..], unread[1..], tickets[0].marker, sent)
    ensures Ascending(unread[1..], |sent|)
  {
    hide Sum;
    var rest := tickets[1..];
    forall i | 0 <= i < |rest|
      ensures rest[i].marker == unread[|unread| - |rest| + i] == unread[1..][|unread[1..]| - |rest| + i]
      ensures tickets[0].marker < rest[i].marker <= |sent|
      ensures rest[i].markerBytes == Sum(sent[..rest[i].marker])
    {
      assert rest[i] == tickets[i + 1];
    }
  }

  lemma PopKeeps(fate: Fate, s: Socket)
    requires Inv(s) && s.l.tickets != []
    ensures var (t, ok) := Pop(fate, s);
            && Inv(t) && t.w.sent == s.w.sent
            && t.l.submitted == s.l.submitted && t.l.bytesSubmitted == s.l.bytesSubmitted
            && t.l.tickets == s.l.tickets[1..] && t.w.touches == s.w.touches + 1
            && s.w.executed <= t.w.executed
  {
    SumMonotone(s.w.sent, s.l.completed, s.l.tickets[0].marker);
    OutstandingTail(s.l.tickets, s.w.unread, s.l.completed, s.w.sent);
  }

  /** A pop that works proves its own ticket's position, and waits for no more. */
  lemma PopProves(fate: Fate, s: Socket)
    requires Inv(s) && s.l.tickets != []
    ensures var (t, ok) := Pop(fate, s);
            var first := s.l.tickets[0];
            && ok == fate(s.w.touches)
            && (if ok then t.l.dead == s.l.dead && t.w.failed == s.w.failed else t.l.dead && t.w.failed)
            && (if ok then t.l.completed == first.marker && t.l.bytesCompleted == first.markerBytes
                else t.l.completed == s.l.completed)
            && (ok && !s.w.failed ==> t.w.executed == Max(s.w.executed, first.marker))
  {
    SumMonotone(s.w.sent, s.l.completed, s.l.tickets[0].marker);
  }

  /** A pop that drains forgets the largest size. */
  lemma PopForgets(fate: Fate, s: Socket)
    requires Inv(s) && s.l.tickets != []
    ensures var (t, ok) := Pop(fate, s);
            t.l.largest == if ok && t.l.completed == s.l.submitted then 0 else s.l.largest
  {
    hide Sum;
    PopKeeps(fate, s);
  }

  lemma {:induction false} PopWhileKeeps(fate: Fate, s: Socket, more: Ledger -> bool)
    requires Inv(s)
    ensures var (t, ok) := PopWhile(fate, s, more);
            && Inv(t) && t.w.sent == s.w.sent
            && t.l.submitted == s.l.submitted && t.l.bytesSubmitted == s.l.bytesSubmitted
            && s.w.executed <= t.w.executed && s.w.touches <= t.w.touches
            && (ok ==> (t.l.tickets == [] || !more(t.l)) && t.l.dead == s.l.dead && t.w.failed == s.w.failed)
            && (!ok ==> t.l.dead && t.w.failed)
    decreases |s.l.tickets|
  {
    if s.l.tickets != [] && more(s.l) {
      PopKeeps(fate, s);
      PopProves(fate, s);
      PopWhileKeeps(fate, Pop(fate, s).0, more);
    }
  }

  /** The state after a send, before any ticket or read accounts for its response. */
  ghost predicate Sending(s: Socket, t: Socket, ok: bool, answers: bool) {
    && Counted(t) && Ascending(t.w.unread, t.l.submitted) && s.w.executed <= t.w.executed
    && (if ok then
          && t.l.submitted == s.l.submitted + 1 && !t.l.dead && !t.w.failed && Sound(t)
          && t.w.executed < t.l.submitted
          && |t.w.unread| == |t.l.tickets| + (if answers then 1 else 0)
          && Sum(t.w.sent[..t.l.submitted]) == t.l.bytesSubmitted
          && Outstanding(t.l.tickets, if answers then t.w.unread[..|t.w.unread| - 1] else t.w.unread,
                         t.l.completed, t.w.sent)
          && (answers ==> t.w.unread[|t.w.unread| - 1] == t.l.submitted)
        else Inv(t) && (s.l.dead || t.l.dead))
  }

  lemma AppendKeeps(s: Socket, bytes: nat, answers: bool)
    requires Inv(s) && !s.l.dead
    ensures Sending(s, Append(s, bytes, answers), true, answers)
  {
    var t := Append(s, bytes, answers);
    var sent := t.w.sent;
    assert sent[..|sent| - 1] == s.w.sent;
    assert sent[..|sent|] == sent;
    assert sent[..s.l.completed] == s.w.sent[..s.l.completed];
    forall i | 0 <= i < |s.l.tickets|
      ensures s.l.tickets[i].markerBytes == Sum(sent[..s.l.tickets[i].marker])
    {
      assert sent[..s.l.tickets[i].marker] == s.w.sent[..s.l.tickets[i].marker];
    }
    if answers {
      assert t.w.unread[..|t.w.unread| - 1] == s.w.unread;
    }
  }

  lemma ThrottleKeeps(fate: Fate, setting: Setting, s: Socket, bytes: nat)
    requires Inv(s)
    ensures var (t, ok) := Throttle(fate, setting, s, bytes);
            && Inv(t) && t.l.submitted == s.l.submitted && s.w.executed <= t.w.executed
            && (ok ==> t.l.dead == s.l.dead && t.w.failed == s.w.failed) && (!ok ==> t.l.dead)
  {
    var largest := Max(s.l.largest, bytes);
    var s0 := s.(l := s.l.(largest := largest));
    PopWhileKeeps(fate, s0, OverCap(Cap(setting, largest), bytes));
  }

  lemma BreakKeeps(s: Socket)
    requires Inv(s)
    ensures Inv(Break(s))
  {
  }

  lemma SendingFrom(s: Socket, mid: Socket, t: Socket, answers: bool)
    requires Sending(mid, t, true, answers)
    requires mid.l.submitted == s.l.submitted && s.w.executed <= mid.w.executed
    ensures Sending(s, t, true, answers)
  {
  }

  lemma SendKeeps(fate: Fate, setting: Setting, s: Socket, payload: nat, answers: bool)
    requires Inv(s)
    ensures var (t, ok) := Send(fate, setting, s, payload, answers); Sending(s, t, ok, answers)
  {
    var bytes := HEADER + payload;
    var (s', ok) := Throttle(fate, setting, s, bytes);
    if s.l.dead {
      assert Send(fate, setting, s, payload, answers) == (s, false);
    } else if !ok {
      ThrottleKeeps(fate, setting, s, bytes);
      assert Send(fate, setting, s, payload, answers) == (s', false);
    } else if !fate(s'.w.touches) {
      ThrottleKeeps(fate, setting, s, bytes);
      BreakKeeps(s');
      assert Send(fate, setting, s, payload, answers) == (Break(s'), false);
    } else {
      var t := Append(s', bytes, answers);
      assert Sending(s, t, true, answers) by {
        ThrottleKeeps(fate, setting, s, bytes);
        AppendKeeps(s', bytes, answers);
        SendingFrom(s, s', t, answers);
      }
      assert Send(fate, setting, s, payload, answers) == (t, true);
    }
  }

  /** What goes on the wire and is counted: a command byte, eight bytes of length and the
      payload, which for a fence are four bytes. */
  lemma SendCounts(fate: Fate, setting: Setting, s: Socket, payload: nat, answers: bool)
    requires Inv(s)
    ensures var (t, ok) := Send(fate, setting, s, payload, answers);
            if ok then t.w.sent == s.w.sent + [1 + 8 + payload] && t.l.bytesSubmitted == s.l.bytesSubmitted + 1 + 8 + payload
            else t.w.sent == s.w.sent && t.l.bytesSubmitted == s.l.bytesSubmitted
  {
    hide Throttle, Inv;
    CountsKept(fate, setting, s, HEADER + payload);
  }

  lemma FenceCounts(fate: Fate, setting: Setting, s: Socket)
    requires Inv(s)
    ensures var t := FenceBegin(fate, setting, s);
            t.w.sent == s.w.sent || t.w.sent == s.w.sent + [13]
  {
    hide Send, Inv;
    SendCounts(fate, setting, s, FENCE, true);
  }

  lemma CountsKept(fate: Fate, setting: Setting, s: Socket, bytes: nat)
    requires Inv(s)
    ensures var (t, ok) := Throttle(fate, setting, s, bytes);
            t.w.sent == s.w.sent && t.l.bytesSubmitted == s.l.bytesSubmitted
  {
    var largest := Max(s.l.largest, bytes);
    PopWhileKeeps(fate, s.(l := s.l.(largest := largest)), OverCap(Cap(setting, largest), bytes));
  }

  lemma FireKeeps(fate: Fate, setting: Setting, s: Socket, payload: nat)
    requires Inv(s)
    ensures Inv(Send(fate, setting, s, payload, false).0)
  {
    SendKeeps(fate, setting, s, payload, false);
  }

  lemma FenceJoins(s: Socket, t: Socket)
    requires Sending(s, t, true, true)
    ensures Inv(t.(l := t.l.(tickets := t.l.tickets + [Ticket(t.l.submitted, t.l.bytesSubmitted)])))
  {
    var tickets := t.l.tickets + [Ticket(t.l.submitted, t.l.bytesSubmitted)];
    forall i | 0 <= i < |tickets|
      ensures tickets[i].marker == t.w.unread[|t.w.unread| - |tickets| + i]
      ensures t.l.completed < tickets[i].marker <= |t.w.sent|
      ensures tickets[i].markerBytes == Sum(t.w.sent[..tickets[i].marker])
    {
      assert i < |t.l.tickets| ==> tickets[i] == t.l.tickets[i];
    }
  }

  /** A fence joins the tickets as the newest unread response. */
  lemma FenceKeeps(fate: Fate, setting: Setting, s: Socket)
    requires Inv(s)
    ensures var t := FenceBegin(fate, setting, s);
            Inv(t) && (!t.l.dead ==> t.l.tickets != [] && t.l.tickets[|t.l.tickets| - 1].marker == t.l.submitted)
  {
    SendKeeps(fate, setting, s, FENCE, true);
    var (t, ok) := Send(fate, setting, s, FENCE, true);
    if ok {
      FenceJoins(s, t);
    }
  }

  /** Reading the response of a command sent with no tickets outstanding. */
  lemma ReplyIsOurs(fate: Fate, s: Socket, t: Socket)
    requires Sending(s, t, true, true) && t.l.tickets == []
    ensures var (w, answered) := Read(fate, t.w);
            if answered.None? then Inv(Socket(t.l.(dead := true), w)) && w.executed == t.w.executed
            else
              var u := Socket(Prove(t.l, t.l.submitted, t.l.bytesSubmitted), w);
              && Inv(u) && answered.value == u.l.submitted == u.l.completed == u.w.executed
              && u.w.unread == [] && !u.l.dead
  {
    SumMonotone(t.w.sent, t.l.completed, t.l.submitted);
  }

  /** Request/response pairing is exact: an exchange that succeeds has read the
      response to its own command, after every command before it was executed, and
      the ledger then proves everything sent. */
  lemma ExchangeIsPaired(fate: Fate, setting: Setting, s: Socket, payload: nat)
    requires Inv(s)
    ensures var (t, answered) := Exchange(fate, setting, s, payload);
            && Inv(t) && s.w.executed <= t.w.executed
            && (answered.Some? ==>
                  && answered.value == t.l.submitted == s.l.submitted + 1
                  && t.l.completed == t.w.executed == t.l.submitted
                  && t.l.tickets == [] && t.w.unread == [] && !t.l.dead)
            && (answered.None? ==> t.l.dead)
  {
    if !s.l.dead {
      PopWhileKeeps(fate, s, Always());
      var (s1, popped) := PopWhile(fate, s, Always());
      if popped {
        SendKeeps(fate, setting, s1, payload, true);
        NothingOutstanding(fate, setting, s1, payload, true);
        var (s2, sent) := Send(fate, setting, s1, payload, true);
        if sent {
          ReplyIsOurs(fate, s1, s2);
        }
      }
    }
  }

  /** A send with no tickets outstanding leaves none. */
  lemma NothingOutstanding(fate: Fate, setting: Setting, s: Socket, payload: nat, answers: bool)
    requires s.l.tickets == []
    ensures Send(fate, setting, s, payload, answers).0.l.tickets == []
    ensures Send(fate, setting, s, payload, answers).0.w.executed == s.w.executed
  {
  }

  /** A drain that leaves the socket live has the target executed. */
  lemma DrainReaches(fate: Fate, setting: Setting, s: Socket, target: nat)
    requires Inv(s)
    ensures var t := DrainTo(fate, setting, s, target);
            && Inv(t) && s.w.executed <= t.w.executed
            && (!t.l.dead && target <= s.l.submitted ==> target <= t.l.completed <= t.w.executed)
  {
    if s.l.completed < target {
      PopWhileKeeps(fate, s, Short(target));
      var (s', ok) := PopWhile(fate, s, Short(target));
      if ok && s'.l.completed < target {
        ExchangeIsPaired(fate, setting, s', FENCE);
      }
    }
  }

  // ---- Positional drains ----

  /** The oldest ticket that proves `target`, or the number of tickets if none does. */
  function Cover(tickets: seq<Ticket>, target: nat): (k: nat)
    ensures k <= |tickets|
    ensures k < |tickets| ==> target <= tickets[k].marker
    ensures forall i :: 0 <= i < k ==> tickets[i].marker < target
  {
    if tickets == [] || target <= tickets[0].marker then 0 else 1 + Cover(tickets[1..], target)
  }

  lemma {:induction false} PopToTarget(fate: Fate, s: Socket, target: nat)
    requires Inv(s) && !s.w.failed && s.l.completed < target
    requires PopWhile(fate, s, Short(target)).1
    ensures var t := PopWhile(fate, s, Short(target)).0;
            var k := Cover(s.l.tickets, target);
            if k < |s.l.tickets| then
              && t.l.completed == s.l.tickets[k].marker
              && t.w.executed == Max(s.w.executed, s.l.tickets[k].marker)
            else t.l.completed < target
    decreases |s.l.tickets|
  {
    hide Pop, Sum;
    if s.l.tickets != [] {
      var t := Pop(fate, s).0;
      assert Inv(t) && t.l.tickets == s.l.tickets[1..] by {
        PopKeeps(fate, s);
      }
      PopProves(fate, s);
      assert PopWhile(fate, s, Short(target)) == PopWhile(fate, t, Short(target));
      if t.l.completed < target {
        PopToTarget(fate, t, target);
      } else {
        assert PopWhile(fate, t, Short(target)) == (t, true);
      }
    }
  }

  /** The tickets up to the covering one are taken, the others stay. */
  lemma {:induction false} PopLeaves(fate: Fate, s: Socket, target: nat)
    requires Inv(s) && s.l.completed < target
    requires PopWhile(fate, s, Short(target)).1
    ensures var k := Cover(s.l.tickets, target);
            PopWhile(fate, s, Short(target)).0.l.tickets == if k < |s.l.tickets| then s.l.tickets[k + 1..] else []
    decreases |s.l.tickets|
  {
    hide Pop, Sum, Max, Inv;
    if s.l.tickets != [] {
      var t, tail := Pop(fate, s).0, s.l.tickets[1..];
      assert Inv(t) && t.l.tickets == tail by {
        PopKeeps(fate, s);
      }
      PopProves(fate, s);
      assert PopWhile(fate, s, Short(target)) == PopWhile(fate, t, Short(target));
      if t.l.completed < target {
        PopLeaves(fate, t, target);
        var k := Cover(tail, target);
        assert Cover(s.l.tickets, target) == 1 + k;
        assert k < |tail| ==> tail[k + 1..] == s.l.tickets[1 + k + 1..];
      } else {
        assert PopWhile(fate, t, Short(target)) == (t, true);
        assert Cover(s.l.tickets, target) == 0;
      }
    }
  }

  /** Draining to a position costs the execution of exactly the commands up to the
      first ticket at or past it; only when no ticket is, of everything. */
  lemma DrainIsPositional(fate: Fate, setting: Setting, s: Socket, target: nat)
    requires Inv(s) && s.l.completed < target <= s.l.submitted
    requires !DrainTo(fate, setting, s, target).l.dead && !s.l.dead
    ensures var t := DrainTo(fate, setting, s, target);
            var k := Cover(s.l.tickets, target);
            if k < |s.l.tickets| then
              && t.l.tickets == s.l.tickets[k + 1..] && t.l.submitted == s.l.submitted
              && t.w.executed == Max(s.w.executed, s.l.tickets[k].marker)
            else t.l.tickets == [] && t.w.executed == t.l.submitted == s.l.submitted + 1
  {
    PopWhileKeeps(fate, s, Short(target));
    var (s', ok) := PopWhile(fate, s, Short(target));
    PopToTarget(fate, s, target);
    PopLeaves(fate, s, target);
    if s'.l.completed < target {
      ExchangeIsPaired(fate, setting, s', FENCE);
    }
  }

  /** A wait never needs work submitted after its position exactly when that position
      carries a ticket of its own. */
  lemma WaitIsExactIffTicketed(fate: Fate, setting: Setting, s: Socket, target: nat)
    requires Inv(s) && s.l.completed < target <= s.l.submitted && s.w.executed <= target
    requires !DrainTo(fate, setting, s, target).l.dead && !s.l.dead
    ensures DrainTo(fate, setting, s, target).w.executed == target
       <==> exists i :: 0 <= i < |s.l.tickets| && s.l.tickets[i].marker == target
  {
    hide DrainTo, Cover, Sum;
    DrainIsPositional(fate, setting, s, target);
    var k := Cover(s.l.tickets, target);
    if k < |s.l.tickets| && s.l.tickets[k].marker != target {
      forall i | 0 <= i < |s.l.tickets|
        ensures s.l.tickets[i].marker != target
      {
        var u := s.w.unread;
        assert k < i ==> u[|u| - |s.l.tickets| + k] < u[|u| - |s.l.tickets| + i];
      }
    }
  }

  /** `event_record` fences and then reads the position in two steps. A command that
      another thread submits in between moves the position past every ticket, so the
      wait for that event is not exact. */
  lemma RacedRecordHasNoTicket(fate: Fate, setting: Setting, s: Socket, payload: nat)
    requires Inv(s)
    ensures var fenced := FenceBegin(fate, setting, s);
            var (t, ok) := Send(fate, setting, fenced, payload, false);
            ok ==> forall i :: 0 <= i < |t.l.tickets| ==> t.l.tickets[i].marker < t.l.submitted
  {
    FenceKeeps(fate, setting, s);
    var fenced := FenceBegin(fate, setting, s);
    SendKeeps(fate, setting, fenced, payload, false);
    var (t, ok) := Send(fate, setting, fenced, payload, false);
    if ok {
      ThrottleKeeps(fate, setting, fenced, HEADER + payload);
      assert t.w.unread == Throttle(fate, setting, fenced, HEADER + payload).0.w.unread;
    }
  }

  // ---- Dead sockets ----

  /** On a dead socket a send, an exchange and a fence do nothing at all. A drain does
      nothing exactly when the ledger already proves its target or no ticket is
      outstanding: it pops tickets without asking whether the socket is dead. */
  lemma DeadSocket(fate: Fate, setting: Setting, s: Socket, payload: nat, answers: bool, target: nat)
    requires s.l.dead
    ensures Send(fate, setting, s, payload, answers) == (s, false)
    ensures Exchange(fate, setting, s, payload) == (s, None)
    ensures FenceBegin(fate, setting, s) == s
    ensures DrainTo(fate, setting, s, target) == s <==> target <= s.l.completed || s.l.tickets == []
    ensures target <= s.l.completed || s.l.tickets == []
       <==> DrainTo(fate, setting, s, target).w.touches == s.w.touches
  {
    if s.l.completed < target && s.l.tickets != [] {
      PopTouches(fate, s, Short(target));
    }
  }

  lemma {:induction false} PopTouches(fate: Fate, s: Socket, more: Ledger -> bool)
    requires s.l.dead
    ensures var t := PopWhile(fate, s, more).0; s.w.touches <= t.w.touches && t.l.dead
    ensures s.l.tickets != [] && more(s.l) ==> s.w.touches < PopWhile(fate, s, more).0.w.touches
    decreases |s.l.tickets|
  {
    if s.l.tickets != [] && more(s.l) {
      PopTouches(fate, Pop(fate, s).0, more);
    }
  }

  // ---- Flow control ----

  /** A send that goes through leaves the unproven bytes within the cap, or no ticket
      to wait on. */
  lemma FlowIsBounded(fate: Fate, setting: Setting, s: Socket, payload: nat, answers: bool)
    requires Inv(s)
    ensures var (t, ok) := Send(fate, setting, s, payload, answers);
            ok ==> t.l.tickets == []
                   || t.l.bytesSubmitted - t.l.bytesCompleted <= Cap(setting, Max(s.l.largest, HEADER + payload))
  {
    if !s.l.dead {
      var bytes := HEADER + payload;
      var largest := Max(s.l.largest, bytes);
      var s0 := s.(l := s.l.(largest := largest));
      assert Inv(s0);
      PopWhileKeeps(fate, s0, OverCap(Cap(setting, largest), bytes));
    }
  }

  /** The size the adaptive cap has learned covers every command in flight. */
  ghost predicate BurstNoted(s: Socket)
    requires Counted(s)
  {
    forall i :: s.l.completed <= i < s.l.submitted ==> s.w.sent[i] <= s.l.largest
  }

  /** The newest ticket is the newest command, and the bytes after the ticket before
      it already exceed the cap, so flow control has to pop every ticket. */
  predicate DrainsFully(l: Ledger, cap: nat, bytes: nat) {
    var n := |l.tickets|;
    && 0 < n && l.tickets[n - 1].marker == l.submitted
    && l.bytesSubmitted - (if n == 1 then l.bytesCompleted else l.tickets[n - 2].markerBytes) + bytes > cap
  }

  lemma {:induction false} ThrottleDrains(fate: Fate, s: Socket, cap: nat, bytes: nat)
    requires Inv(s) && PopWhile(fate, s, OverCap(cap, bytes)).1
    ensures var t := PopWhile(fate, s, OverCap(cap, bytes)).0;
            && (s.l.completed < s.l.submitted ==> (t.l.completed == s.l.submitted <==> DrainsFully(s.l, cap, bytes)))
            && s.l.completed <= t.l.completed
            && t.l.largest == if t.l.completed == s.l.submitted && s.l.completed < s.l.submitted then 0 else s.l.largest
    decreases |s.l.tickets|
  {
    hide Sum, Read, Max, Pop;
    if s.l.tickets != [] {
      var n := |s.l.tickets|;
      if OverCap(cap, bytes)(s.l) {
        PopKeeps(fate, s);
        PopProves(fate, s);
        PopForgets(fate, s);
        var t := Pop(fate, s).0;
        ThrottleDrains(fate, t, cap, bytes);
        if n > 1 {
          assert t.l.tickets[n - 2] == s.l.tickets[n - 1];
          assert n > 2 ==> t.l.tickets[n - 3] == s.l.tickets[n - 2];
          var u := s.w.unread;
          assert s.l.tickets[0].marker < s.l.tickets[n - 1].marker;
        }
      } else if n > 1 {
        SumMonotone(s.w.sent, s.l.completed, s.l.tickets[n - 2].marker);
      }
    }
  }

  lemma ThrottleNotes(fate: Fate, setting: Setting, s: Socket, bytes: nat)
    requires Inv(s) && BurstNoted(s) && Throttle(fate, setting, s, bytes).1 && 0 < bytes
    ensures var t := Throttle(fate, setting, s, bytes).0;
            && Inv(t) && !t.l.dead == !s.l.dead && (t.l.largest == 0 || BurstNoted(t))
            && (if DrainsFully(s.l, Cap(setting, Max(s.l.largest, bytes)), bytes) then t.l.largest == 0
                else t.l.largest == Max(s.l.largest, bytes))
  {
    hide PopWhile, Sum, Cap;
    var largest := Max(s.l.largest, bytes);
    var cap := Cap(setting, largest);
    var s0 := s.(l := s.l.(largest := largest));
    assert Inv(s0);
    PopWhileKeeps(fate, s0, OverCap(cap, bytes));
    ThrottleDrains(fate, s0, cap, bytes);
    assert DrainsFully(s0.l, cap, bytes) == DrainsFully(s.l, cap, bytes);
    if s.l.tickets != [] {
      assert s.l.completed < s.l.tickets[0].marker;
    }
  }

  lemma AppendNotes(s: Socket, bytes: nat, answers: bool)
    requires Counted(s) && Counted(Append(s, bytes, answers))
    requires s.l.largest == 0 || BurstNoted(s)
    ensures 0 < bytes ==> (BurstNoted(Append(s, bytes, answers)) <==> bytes <= s.l.largest)
  {
    var t := Append(s, bytes, answers);
    assert t.w.sent[t.l.submitted - 1] == bytes;
  }

  /** The learned size forgets a command when its own send drains the ledger: it is
      noted before the tickets are popped and wiped by the pop that drains. */
  lemma BurstIsNotedUnlessDrained(fate: Fate, setting: Setting, s: Socket, payload: nat, answers: bool)
    requires Inv(s) && BurstNoted(s) && Send(fate, setting, s, payload, answers).1
    ensures Counted(Send(fate, setting, s, payload, answers).0)
    ensures BurstNoted(Send(fate, setting, s, payload, answers).0)
       <==> !DrainsFully(s.l, Cap(setting, Max(s.l.largest, HEADER + payload)), HEADER + payload)
  {
    var bytes := HEADER + payload;
    var t := Throttle(fate, setting, s, bytes).0;
    var u := Append(t, bytes, answers);
    assert Send(fate, setting, s, payload, answers) == (u, true);
    assert Counted(u) && (BurstNoted(u) <==> !DrainsFully(s.l, Cap(setting, Max(s.l.largest, bytes)), bytes)) by {
      ThrottleNotes(fate, setting, s, bytes);
      AppendKeeps(t, bytes, answers);
      AppendNotes(t, bytes, answers);
    }
  }
}

/** Whole runs of the RPC client: any interleaving of its operations with the
  server's progress, over any transport. */
module RpcRuns {
  import opened Options
  import opened RpcLedger

  /** `Serve(n)` lets the server execute up to the n-th command on its own. */
  datatype Action = Serve(upTo: nat) | Fire(payload: nat) | Ask(payload: nat) | Fence | Drain(target: nat)

  function Do(fate: Fate, setting: Setting, s: Socket, a: Action): Socket {
    match a
    case Serve(n) => s.(w := s.w.(executed := Max(s.w.executed, if n < s.l.submitted then n else s.l.submitted)))
    case Fire(payload) => Send(fate, setting, s, payload, false).0
    case Ask(payload) => Exchange(fate, setting, s, payload).0
    case Fence => FenceBegin(fate, setting, s)
    case Drain(target) => DrainTo(fate, setting, s, target)
  }

  function Run(fate: Fate, setting: Setting, s: Socket, actions: seq<Action>): Socket
    decreases |actions|
  {
    if actions == [] then s else Run(fate, setting, Do(fate, setting, s, actions[0]), actions[1..])
  }

  lemma DoKeeps(fate: Fate, setting: Setting, s: Socket, a: Action)
    requires Inv(s)
    ensures Inv(Do(fate, setting, s, a))
  {
    match a
    case Serve(n) =>
    case Fire(payload) => FireKeeps(fate, setting, s, payload);
    case Ask(payload) => ExchangeIsPaired(fate, setting, s, payload);
    case Fence => FenceKeeps(fate, setting, s);
    case Drain(target) => DrainReaches(fate, setting, s, target);
  }

  /** Ledger soundness over all runs: whatever the transport does, the counters
      describe what was sent, the outstanding tickets are the newest unread responses
      in order, and until a read has failed they are all of them and nothing is
      called completed that the server has not executed. */
  lemma {:induction false} RunKeeps(fate: Fate, setting: Setting, s: Socket, actions: seq<Action>)
    requires Inv(s)
    ensures Inv(Run(fate, setting, s, actions))
    decreases |actions|
  {
    if actions != [] {
      DoKeeps(fate, setting, s, actions[0]);
      RunKeeps(fate, setting, Do(fate, setting, s, actions[0]), actions[1..]);
    }
  }

  // ---- After the first failure ----

  /** The first operation to fail is the i-th. */
  ghost predicate FirstFailure(fate: Fate, i: nat) {
    !fate(i) && forall k: nat :: k < i ==> fate(k)
  }

  /** After its first failure the transport works again soon enough for a drain to
      read from it. Past the i-th operation every one takes a ticket, and there are at
      most i tickets. */
  ghost predicate Relapses(fate: Fate) {
    exists i: nat, j: nat :: FirstFailure(fate, i) && 2 <= i < j <= 2 * i && fate(j)
  }

  /** What limits the operations a run can still make on the stream. */
  ghost predicate Bounded(fate: Fate, s: Socket) {
    if s.l.dead then exists i: nat :: FirstFailure(fate, i) && Spent(s, i)
    else |s.l.tickets| <= s.w.touches && forall k: nat :: k < s.w.touches ==> fate(k)
  }

  ghost predicate Spent(s: Socket, i: nat) {
    && i < s.w.touches && s.w.touches + |s.l.tickets| <= 2 * i + 1
    && (s.w.failed ==> |s.l.tickets| < i)
  }

  ghost predicate Safe(fate: Fate, s: Socket) {
    Inv(s) && Sound(s) && Bounded(fate, s)
  }

  lemma PopSafe(fate: Fate, s: Socket)
    requires Safe(fate, s) && s.l.tickets != [] && !Relapses(fate)
    ensures Safe(fate, Pop(fate, s).0)
  {
    PopKeeps(fate, s);
    PopProves(fate, s);
    var t := Pop(fate, s).0;
    if s.l.dead {
      var i: nat :| FirstFailure(fate, i) && Spent(s, i);
      assert Spent(t, i);
    } else if !fate(s.w.touches) {
      assert FirstFailure(fate, s.w.touches) && Spent(t, s.w.touches);
    }
  }

  lemma {:induction false} PopWhileSafe(fate: Fate, s: Socket, more: Ledger -> bool)
    requires Safe(fate, s) && !Relapses(fate)
    ensures Safe(fate, PopWhile(fate, s, more).0)
    decreases |s.l.tickets|
  {
    if s.l.tickets != [] && more(s.l) {
      PopSafe(fate, s);
      PopWhileSafe(fate, Pop(fate, s).0, more);
    }
  }

  lemma SendSafe(fate: Fate, setting: Setting, s: Socket, payload: nat, answers: bool)
    requires Safe(fate, s) && !Relapses(fate)
    ensures var (t, ok) := Send(fate, setting, s, payload, answers);
            && Sound(t) && Bounded(fate, t) && (ok ==> |t.l.tickets| < t.w.touches)
  {
    hide Cap, PopWhile, Pop, Sum;
    SendKeeps(fate, setting, s, payload, answers);
    if !s.l.dead {
      var bytes := HEADER + payload;
      var largest := Max(s.l.largest, bytes);
      var s0 := s.(l := s.l.(largest := largest));
      assert Safe(fate, s0);
      PopWhileSafe(fate, s0, OverCap(Cap(setting, largest), bytes));
      ThrottleKeeps(fate, setting, s, bytes);
      var (s', ok) := Throttle(fate, setting, s, bytes);
      if ok && !fate(s'.w.touches) {
        assert FirstFailure(fate, s'.w.touches) && Spent(Break(s'), s'.w.touches);
      }
    }
  }

  lemma ReplySafe(fate: Fate, s: Socket, t: Socket)
    requires Sending(s, t, true, true) && t.l.tickets == [] && Bounded(fate, t) && 0 < t.w.touches
    ensures var (w, answered) := Read(fate, t.w);
            if answered.None? then
              Sound(Socket(t.l.(dead := true), w)) && Bounded(fate, Socket(t.l.(dead := true), w))
            else Bounded(fate, Socket(Prove(t.l, t.l.submitted, t.l.bytesSubmitted), w))
  {
    if !fate(t.w.touches) {
      var u := Socket(t.l.(dead := true), Read(fate, t.w).0);
      assert FirstFailure(fate, t.w.touches) && Spent(u, t.w.touches);
    }
  }

  lemma ExchangeSafe(fate: Fate, setting: Setting, s: Socket, payload: nat)
    requires Safe(fate, s) && !Relapses(fate)
    ensures Safe(fate, Exchange(fate, setting, s, payload).0)
  {
    ExchangeIsPaired(fate, setting, s, payload);
    if !s.l.dead {
      PopWhileSafe(fate, s, Always());
      PopWhileKeeps(fate, s, Always());
      var (s1, popped) := PopWhile(fate, s, Always());
      if popped {
        SendSafe(fate, setting, s1, payload, true);
        SendKeeps(fate, setting, s1, payload, true);
        NothingOutstanding(fate, setting, s1, payload, true);
        var (s2, sent) := Send(fate, setting, s1, payload, true);
        if sent {
          ReplySafe(fate, s1, s2);
        }
      }
    }
  }

  lemma FenceSafe(fate: Fate, setting: Setting, s: Socket)
    requires Safe(fate, s) && !Relapses(fate)
    ensures Safe(fate, FenceBegin(fate, setting, s))
  {
    FenceKeeps(fate, setting, s);
    SendSafe(fate, setting, s, FENCE, true);
    SendKeeps(fate, setting, s, FENCE, true);
  }

  lemma DrainSafe(fate: Fate, setting: Setting, s: Socket, target: nat)
    requires Safe(fate, s) && !Relapses(fate)
    ensures Safe(fate, DrainTo(fate, setting, s, target))
  {
    if s.l.completed < target {
      PopWhileSafe(fate, s, Short(target));
      var (s', ok) := PopWhile(fate, s, Short(target));
      if ok && s'.l.completed < target {
        ExchangeSafe(fate, setting, s', FENCE);
      }
    }
  }

  lemma ServeSafe(fate: Fate, setting: Setting, s: Socket, n: nat)
    requires Safe(fate, s)
    ensures Safe(fate, Do(fate, setting, s, Serve(n)))
  {
    if s.l.dead {
      var i: nat :| FirstFailure(fate, i) && Spent(s, i);
      assert Spent(Do(fate, setting, s, Serve(n)), i);
    }
  }

  lemma DoSafe(fate: Fate, setting: Setting, s: Socket, a: Action)
    requires Safe(fate, s) && !Relapses(fate)
    ensures Safe(fate, Do(fate, setting, s, a))
  {
    match a
    case Serve(n) => ServeSafe(fate, setting, s, n);
    case Fire(payload) =>
      FireKeeps(fate, setting, s, payload);
      SendSafe(fate, setting, s, payload, false);
    case Ask(payload) => ExchangeSafe(fate, setting, s, payload);
    case Fence => FenceSafe(fate, setting, s);
    case Drain(target) => DrainSafe(fate, setting, s, target);
  }

  lemma {:induction false} RunSafe(fate: Fate, setting: Setting, s: Socket, actions: seq<Action>)
    requires Safe(fate, s) && !Relapses(fate)
    ensures Sound(Run(fate, setting, s, actions))
    decreases |actions|
  {
    if actions != [] {
      DoSafe(fate, setting, s, actions[0]);
      RunSafe(fate, setting, Do(fate, setting, s, actions[0]), actions[1..]);
    }
  }

  // ---- A run that believes a stale response ----

  lemma {:induction false} RunComposes(fate: Fate, setting: Setting, s: Socket, a: seq<Action>, b: seq<Action>)
    ensures Run(fate, setting, s, a + b) == Run(fate, setting, Run(fate, setting, s, a), b)
    decreases |a|
  {
    if a == [] {
      assert a + b == b;
    } else {
      assert (a + b)[1..] == a[1..] + b;
      RunComposes(fate, setting, Do(fate, setting, s, a[0]), a[1..], b);
    }
  }

  function Repeat(a: Action, n: nat): seq<Action> {
    if n == 0 then [] else [a] + Repeat(a, n - 1)
  }

  const FENCE_BYTES: nat := HEADER + FENCE

  function Tickets(n: nat): seq<Ticket> {
    seq(n, k requires 0 <= k => Ticket(k + 1, FENCE_BYTES * (k + 1)))
  }

  /** A socket with `n` fences on the wire and nothing executed. */
  function Fenced(n: nat): Socket {
    Socket(Ledger(n, 0, FENCE_BYTES * n, 0, if n == 0 then 0 else FENCE_BYTES, Tickets(n), false),
           Wire(seq(n, k => FENCE_BYTES), 0, seq(n, k requires 0 <= k => k + 1), false, n))
  }

  lemma OneFence(fate: Fate, cap: nat, k: nat)
    requires 0 < cap && FENCE_BYTES * (k + 1) <= cap && fate(k)
    ensures Do(fate, Some(cap), Fenced(k), Fence) == Fenced(k + 1)
  {
    hide Sum;
    var t := Do(fate, Some(cap), Fenced(k), Fence);
    var f := Fenced(k + 1);
    assert t.l.tickets == f.l.tickets && t.w.sent == f.w.sent && t.w.unread == f.w.unread;
  }

  lemma {:induction false} FencesRun(fate: Fate, cap: nat, k: nat, n: nat)
    requires 0 < cap && FENCE_BYTES * (k + n) <= cap
    requires forall i: nat :: i < k + n ==> fate(i)
    ensures Run(fate, Some(cap), Fenced(k), Repeat(Fence, n)) == Fenced(k + n)
    decreases n
  {
    hide Do, Fenced;
    if n > 0 {
      OneFence(fate, cap, k);
      FencesRun(fate, cap, k + 1, n - 1);
      assert Repeat(Fence, n)[1..] == Repeat(Fence, n - 1);
    }
  }

  /** A socket after `d` of its reads have failed. */
  function Deafened(s: Socket, d: nat): Socket
    requires d <= |s.l.tickets|
  {
    if d == 0 then s
    else Socket(s.l.(tickets := s.l.tickets[d..], dead := true), s.w.(failed := true, touches := s.w.touches + d))
  }

  lemma {:induction false} FailingDrains(fate: Fate, setting: Setting, s: Socket, target: nat, d: nat)
    requires d <= |s.l.tickets| && s.l.completed < target
    requires forall k: nat :: s.w.touches <= k < s.w.touches + d ==> !fate(k)
    ensures Run(fate, setting, s, Repeat(Drain(target), d)) == Deafened(s, d)
    decreases d
  {
    if d > 0 {
      var t := Do(fate, setting, s, Drain(target));
      assert t == Deafened(s, 1);
      FailingDrains(fate, setting, t, target, d - 1);
      assert Repeat(Drain(target), d)[1..] == Repeat(Drain(target), d - 1);
      assert s.l.tickets[1..][d - 1..] == s.l.tickets[d..];
    }
  }

  /** After `d` failed reads, a read that works answers the first fence but is taken
      for the answer to the one after `d` more. */
  lemma StalePop(fate: Fate, setting: Setting, s: Socket, n: nat, d: nat)
    requires 0 < d < n && (s == Fenced(n) || s == Break(Fenced(n))) && fate(s.w.touches + d)
    ensures var t := DrainTo(fate, setting, Deafened(s, d), d + 1);
            t.l.completed == d + 1 && t.w.executed == 1
  {
    hide Sum, Exchange;
    var deaf := Deafened(s, d);
    assert deaf.l.tickets[0] == Tickets(n)[d];
    assert deaf.w.unread[0] == 1;
    var (p, ok) := Pop(fate, deaf);
    assert ok && p.l.completed == d + 1 && p.w.executed == 1;
    assert PopWhile(fate, p, Short(d + 1)) == (p, true);
    assert PopWhile(fate, deaf, Short(d + 1)) == (p, true);
  }

  lemma StaleRead(fate: Fate, setting: Setting, s: Socket, n: nat, d: nat)
    requires 0 < d < n && (s == Fenced(n) || s == Break(Fenced(n)))
    requires forall k: nat :: s.w.touches <= k < s.w.touches + d ==> !fate(k)
    requires fate(s.w.touches + d)
    ensures var actions := Repeat(Drain(d + 1), d) + [Drain(d + 1)];
            var t := Run(fate, setting, s, actions);
            t.l.completed == d + 1 && t.w.executed == 1
  {
    hide DrainTo, Deafened, Repeat;
    FailingDrains(fate, setting, s, d + 1, d);
    RunComposes(fate, setting, s, Repeat(Drain(d + 1), d), [Drain(d + 1)]);
    StalePop(fate, setting, s, n, d);
    var deaf := Deafened(s, d);
    assert [Drain(d + 1)][1..] == [];
    assert Run(fate, setting, deaf, [Drain(d + 1)]) == Do(fate, setting, deaf, Drain(d + 1));
  }

  lemma BrokenFire(fate: Fate, i: nat)
    requires !fate(i) && 0 < i
    ensures Do(fate, Some(FENCE_BYTES * (i + 1)), Fenced(i), Fire(0)) == Break(Fenced(i))
  {
    hide Sum;
  }

  lemma {:induction false} FirstSuccess(fate: Fate, i: nat, j: nat) returns (k: nat)
    requires i < j && fate(j)
    ensures i < k <= j && fate(k) && forall m: nat :: i < m < k ==> !fate(m)
    decreases j - i
  {
    if fate(i + 1) {
      k := i + 1;
    } else {
      k := FirstSuccess(fate, i + 1, j);
    }
  }

  lemma RelapseRun(fate: Fate, i: nat, j: nat) returns (setting: Setting, actions: seq<Action>)
    requires FirstFailure(fate, i) && 2 <= i < j <= 2 * i && fate(j)
    ensures !Sound(Run(fate, setting, FRESH, actions))
  {
    hide Do, Run, Repeat;
    var k := FirstSuccess(fate, i, j);
    var cap := FENCE_BYTES * (i + 1);
    setting := Some(cap);
    FencesRun(fate, cap, 0, i);
    assert Fenced(0) == FRESH;
    var s := Fenced(i);
    var fences := Repeat(Fence, i);
    if k < 2 * i {
      StaleRead(fate, setting, s, i, k - i);
      var drains := Repeat(Drain(k - i + 1), k - i) + [Drain(k - i + 1)];
      RunComposes(fate, setting, FRESH, fences, drains);
      actions := fences + drains;
    } else {
      BrokenFire(fate, i);
      StaleRead(fate, setting, Break(s), i, i - 1);
      var drains := Repeat(Drain(i), i - 1) + [Drain(i)];
      RunComposes(fate, setting, FRESH, fences, [Fire(0)] + drains);
      RunOne(fate, setting, s, Fire(0), drains);
      actions := fences + ([Fire(0)] + drains);
    }
  }

  lemma RunOne(fate: Fate, setting: Setting, s: Socket, a: Action, rest: seq<Action>)
    ensures Run(fate, setting, s, [a] + rest) == Run(fate, setting, Do(fate, setting, s, a), rest)
  {
    hide Do;
    assert ([a] + rest)[1..] == rest;
  }

  /** The ledger is sound in every run over a transport, reads after a failure
      included, exactly when the transport does not relapse. A closed connection, on
      which everything after the first failure fails, never does. */
  lemma SoundIffNoRelapse(fate: Fate)
    ensures !Relapses(fate) <==>
            forall setting: Setting, actions: seq<Action> :: Sound(Run(fate, setting, FRESH, actions))
  {
    if Relapses(fate) {
      var i: nat, j: nat :| FirstFailure(fate, i) && 2 <= i < j <= 2 * i && fate(j);
      var setting, actions := RelapseRun(fate, i, j);
    } else {
      forall setting: Setting, actions: seq<Action>
        ensures Sound(Run(fate, setting, FRESH, actions))
      {
        assert Safe(fate, FRESH);
        RunSafe(fate, setting, FRESH, actions);
      }
    }
  }

  // ---- Reachable exceptions ----

  /** A run after which a drain touches a dead stream: a fence goes out, the next write
      fails, and the fence's ticket is still there to be popped. */
  lemma DeadStreamCanBeTouched(fate: Fate)
    requires fate(0) && !fate(1)
    ensures var s := Run(fate, None, FRESH, [Fence, Fire(0)]);
            s.l.dead && s.w.touches < DrainTo(fate, None, s, 1).w.touches
  {
    var fenced := Do(fate, None, FRESH, Fence);
    assert fenced.l.tickets == [Ticket(1, FENCE_BYTES)] && fenced.w.touches == 1 && !fenced.l.dead;
    assert [Fence, Fire(0)][1..] == [Fire(0)] && [Fire(0)][1..] == [];
    var s := Do(fate, None, fenced, Fire(0));
    assert Run(fate, None, fenced, [Fire(0)]) == s;
    assert s.l.dead && s.l.tickets != [] && s.l.completed == 0;
    DeadSocket(fate, None, s, 0, false, 1);
    PopTouches(fate, s, Short(1));
  }

  const LARGE: nat := 4 * 1024 * 1024

  /** `n` large commands on the wire, none executed. */
  function Loaded(n: nat): Socket {
    Socket(Ledger(n, 0, (HEADER + LARGE) * n, 0, if n == 0 then 0 else HEADER + LARGE, [], false),
           Wire(seq(n, i => HEADER + LARGE), 0, [], false, n))
  }

  lemma LoadOne(fate: Fate, n: nat)
    requires fate(n)
    ensures Do(fate, None, Loaded(n), Fire(LARGE)) == Loaded(n + 1)
  {
    var t, f := Do(fate, None, Loaded(n), Fire(LARGE)), Loaded(n + 1);
    assert t.w.sent == f.w.sent;
  }

  /** A run after which the learned size covers no command: four large commands and a fence
      fill the window, the next large command pops the fence, which drains the ledger and
      forgets the size that this very command had just been noted with. */
  lemma BurstCanBeForgotten(fate: Fate)
    requires forall i: nat :: i < 7 ==> fate(i)
    ensures var s := Run(fate, None, FRESH, [Fire(LARGE), Fire(LARGE), Fire(LARGE), Fire(LARGE), Fence]);
            var t := Do(fate, None, s, Fire(LARGE));
            && Inv(s) && BurstNoted(s) && DrainsFully(s.l, Cap(None, HEADER + LARGE), HEADER + LARGE)
            && Counted(t) && !BurstNoted(t)
  {
    hide Do, Send, Cap, Loaded, Run;
    var fire := Fire(LARGE);
    var actions := [fire, fire, fire, fire, Fence];
    var s := Run(fate, None, FRESH, actions);
    WindowFilled(fate);
    RunKeeps(fate, None, FRESH, actions);
    FullWindow(fate);
    SendPastOneTicket(fate, s, LARGE);
    BurstIsNotedUnlessDrained(fate, None, s, LARGE, false);
    FireIsSend(fate, s, LARGE);
  }

  lemma FireIsSend(fate: Fate, s: Socket, payload: nat)
    ensures Do(fate, None, s, Fire(payload)) == Send(fate, None, s, payload, false).0
  {
  }

  lemma WindowFilled(fate: Fate)
    requires forall i: nat :: i < 7 ==> fate(i)
    ensures Run(fate, None, FRESH, [Fire(LARGE), Fire(LARGE), Fire(LARGE), Fire(LARGE), Fence])
         == Do(fate, None, Loaded(4), Fence)
  {
    hide Do, Loaded;
    var fire := Fire(LARGE);
    var fires := [fire, fire, fire, fire];
    FourLoads(fate);
    RunComposes(fate, None, FRESH, fires, [Fence]);
    assert [fire, fire, fire, fire, Fence] == fires + [Fence] && [Fence][1..] == [];
  }

  lemma FullWindow(fate: Fate)
    requires forall i: nat :: i < 7 ==> fate(i)
    ensures var s := Do(fate, None, Loaded(4), Fence);
            && !s.l.dead && |s.l.tickets| == 1 && s.w.touches == 5 && s.l.submitted == |s.w.sent|
            && s.l.largest == HEADER + LARGE && DrainsFully(s.l, Cap(None, HEADER + LARGE), HEADER + LARGE)
            && forall i :: 0 <= i < |s.w.sent| ==> s.w.sent[i] <= s.l.largest
  {
    hide Sum;
    var s := Do(fate, None, Loaded(4), Fence);
    assert s.l.tickets == [Ticket(5, s.l.bytesSubmitted)];
  }

  lemma SendPastOneTicket(fate: Fate, s: Socket, payload: nat)
    requires Inv(s) && !s.l.dead && |s.l.tickets| == 1 && fate(s.w.touches) && fate(s.w.touches + 1)
    ensures Send(fate, None, s, payload, false).1
  {
    hide Sum, Cap;
    var bytes := HEADER + payload;
    var largest := Max(s.l.largest, bytes);
    var s0 := s.(l := s.l.(largest := largest));
    var more := OverCap(Cap(None, largest), bytes);
    assert s0.w.unread != [] && Pop(fate, s0).1;
    var popped := Pop(fate, s0).0;
    assert popped.l.tickets == [] && popped.w.touches == s.w.touches + 1;
    assert PopWhile(fate, popped, more) == (popped, true);
    assert PopWhile(fate, s0, more) == (if more(s0.l) then popped else s0, true);
  }

  lemma FourLoads(fate: Fate)
    requires forall i: nat :: i < 7 ==> fate(i)
    ensures Run(fate, None, FRESH, [Fire(LARGE), Fire(LARGE), Fire(LARGE), Fire(LARGE)]) == Loaded(4)
  {
    hide Do;
    var fire := Fire(LARGE);
    assert Loaded(0) == FRESH;
    LoadOne(fate, 0);
    LoadOne(fate, 1);
    LoadOne(fate, 2);
    LoadOne(fate, 3);
    assert [fire, fire, fire, fire][1..] == [fire, fire, fire] && [fire, fire, fire][1..] == [fire, fire];
    assert [fire, fire][1..] == [fire] && [fire][1..] == [];
    assert Run(fate, None, Loaded(3), [fire]) == Loaded(4);
    assert Run(fate, None, Loaded(2), [fire, fire]) == Loaded(4);
    assert Run(fate, None, Loaded(1), [fire, fire, fire]) == Loaded(4);
  }
}

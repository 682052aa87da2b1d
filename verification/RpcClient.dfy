/** The per-socket object whose fields the RPC client updates command by command.
  Each method is proved against its function in module `RpcLedger`. */
module RpcClient {
  import opened Options
  import opened RpcLedger

  class Pending {
    const fate: Fate
    const setting: Setting
    var submitted: nat
    var completed: nat
    var bytesSubmitted: nat
    var bytesCompleted: nat
    var largestCmd: nat
    var tickets: seq<Ticket>
    /** The socket's entry in the dead-socket registry. */
    var dead: bool
    var wire: Wire

    ghost function View(): Socket
      reads this
    {
      Socket(Ledger(submitted, completed, bytesSubmitted, bytesCompleted, largestCmd, tickets, dead), wire)
    }

    constructor (fate: Fate, setting: Setting)
      ensures View() == FRESH && Inv(View())
      ensures this.fate == fate && this.setting == setting
    {
      this.fate := fate;
      this.setting := setting;
      submitted, completed, bytesSubmitted, bytesCompleted, largestCmd := 0, 0, 0, 0, 0;
      tickets, dead, wire := [], false, Wire([], 0, [], false, 0);
    }

    /** Note that everything up to a position is executed. */
    method Advance(marker: nat, bytes: nat)
      modifies this`completed, this`bytesCompleted, this`largestCmd
      ensures View() == old(View()).(l := Prove(old(View()).l, marker, bytes))
    {
      if marker > completed {
        completed := marker;
      }
      if bytes > bytesCompleted {
        bytesCompleted := bytes;
      }
      if completed == submitted {
        largestCmd := 0;
      }
    }

    method TicketPop() returns (ok: bool)
      requires tickets != []
      modifies this
      ensures (View(), ok) == Pop(fate, old(View()))
    {
      var ticket := tickets[0];
      tickets := tickets[1..];
      var (w, answered) := Read(fate, wire);
      wire := w;
      if answered.None? {
        dead := true;
        return false;
      }
      Advance(ticket.marker, ticket.markerBytes);
      return true;
    }

    /** Flow control ahead of a command of this size. */
    method MakeRoom(wireBytes: nat) returns (ok: bool)
      requires Inv(View())
      modifies this
      ensures (View(), ok) == Throttle(fate, setting, old(View()), wireBytes)
    {
      if wireBytes > largestCmd {
        largestCmd := wireBytes;
      }
      ghost var before := View();
      assert Inv(before);
      var cap := Cap(setting, largestCmd);
      ghost var more := OverCap(cap, wireBytes);
      while tickets != [] && bytesSubmitted - bytesCompleted + wireBytes > cap
        invariant Inv(View())
        invariant PopWhile(fate, View(), more) == PopWhile(fate, before, more)
        decreases |tickets|
      {
        PopKeeps(fate, View());
        var popped := TicketPop();
        if !popped {
          return false;
        }
      }
      return true;
    }

    method SendRpcCmd(payload: nat, answers: bool) returns (ok: bool)
      requires Inv(View())
      modifies this
      ensures (View(), ok) == Send(fate, setting, old(View()), payload, answers)
    {
      hide Inv, Throttle;
      if dead {
        return false;
      }
      var wireBytes := HEADER + payload;
      var room := MakeRoom(wireBytes);
      if !room {
        return false;
      }
      if !fate(wire.touches) {
        wire := wire.(touches := wire.touches + 1);
        dead := true;
        return false;
      }
      submitted := submitted + 1;
      bytesSubmitted := bytesSubmitted + wireBytes;
      wire := wire.(sent := wire.sent + [wireBytes],
                    unread := if answers then wire.unread + [submitted] else wire.unread,
                    touches := wire.touches + 1);
      return true;
    }

    /** The response-bearing overload. `answered` is the command whose response was read. */
    method Transact(payload: nat) returns (answered: Option<nat>)
      requires Inv(View())
      modifies this
      ensures (View(), answered) == Exchange(fate, setting, old(View()), payload)
    {
      if dead {
        return None;
      }
      ghost var before := View();
      while tickets != []
        invariant Inv(View())
        invariant PopWhile(fate, View(), Always()) == PopWhile(fate, before, Always())
        decreases |tickets|
      {
        PopKeeps(fate, View());
        var popped := TicketPop();
        if !popped {
          return None;
        }
      }
      var sent := SendRpcCmd(payload, true);
      if !sent {
        return None;
      }
      var (w, reply) := Read(fate, wire);
      wire := w;
      if reply.None? {
        dead := true;
        return None;
      }
      Advance(submitted, bytesSubmitted);
      return reply;
    }

    method FenceBegin()
      requires Inv(View())
      modifies this
      ensures View() == RpcLedger.FenceBegin(fate, setting, old(View()))
    {
      var ok := SendRpcCmd(FENCE, true);
      if !ok {
        return;
      }
      tickets := tickets + [Ticket(submitted, bytesSubmitted)];
    }

    method DrainTo(target: nat)
      requires Inv(View())
      modifies this
      ensures View() == RpcLedger.DrainTo(fate, setting, old(View()), target)
    {
      if completed >= target {
        return;
      }
      ghost var before := View();
      while completed < target && tickets != []
        invariant Inv(View())
        invariant PopWhile(fate, View(), Short(target)) == PopWhile(fate, before, Short(target))
        decreases |tickets|
      {
        PopKeeps(fate, View());
        var popped := TicketPop();
        if !popped {
          return;
        }
      }
      if completed >= target {
        return;
      }
      var fenced := Transact(FENCE);
    }

    /** Drain everything submitted so far. On a live socket nothing sent is left
        unexecuted, and the ledger knows it. */
    method DrainAll()
      requires Inv(View())
      modifies this
      ensures View() == RpcLedger.DrainTo(fate, setting, old(View()), old(submitted))
      ensures Inv(View())
      ensures !dead ==> old(submitted) <= completed <= wire.executed
    {
      DrainReaches(fate, setting, View(), submitted);
      DrainTo(submitted);
    }
  }
}

/** `Session`: the object whose methods drive the engine.  Each method is proved
  against the function of module `Engine` or `Generation` that specifies it. */
module Sessions {
  import opened Options
  import opened Engine
  import Generation

  class Session {
    const model: Model
    const link: Link
    const nBatch: nat
    const distributed: bool
    /** The state the engine keeps behind the session handle. */
    var kv: seq<Token>
    var logits: Logits
    var chain: Chain
    var calls: nat
    var dead: bool

    ghost predicate Valid() {
      0 < nBatch
    }

    ghost function View(): State
      reads this
    {
      State(kv, logits, chain, calls, dead)
    }

    constructor (model: Model, link: Link, nBatch: nat, distributed: bool, logits: Logits, chain: Chain)
      ensures Valid() && View() == State([], logits, chain, 0, false)
      ensures this.model == model && this.link == link && this.distributed == distributed
      ensures this.nBatch == if nBatch < 1 then 1 else nBatch
    {
      this.model := model;
      this.link := link;
      this.nBatch := if nBatch < 1 then 1 else nBatch;
      this.distributed := distributed;
      this.kv := [];
      this.logits := logits;
      this.chain := chain;
      this.calls := 0;
      this.dead := false;
    }

    /** The shim call. A failed call leaves the KV and the logits in no known state. */
    method DecodeCall(chunk: seq<Token>, wantLogits: bool) returns (ok: bool)
      modifies this
      ensures ok == Engine.DecodeCall(model, link, old(View()), chunk, wantLogits).Some?
      ensures ok ==> View() == Engine.DecodeCall(model, link, old(View()), chunk, wantLogits).value
      ensures chain == old(chain)
    {
      if chunk == [] || dead {
        return false;
      }
      var fate := link(calls);
      calls := calls + 1;
      if fate == Refused {
        kv := *;
        logits := *;
        dead := true;
        return false;
      }
      kv := kv + chunk;
      if wantLogits {
        logits := if fate.Garbled? then fate.junk else model.logits(kv);
      }
      dead := fate.Garbled?;
      return true;
    }

    /** Chunked decode. */
    method Decode(tokens: seq<Token>) returns (ok: bool)
      requires Valid()
      modifies this
      ensures ok == Engine.Decode(model, link, nBatch, old(View()), tokens).Some?
      ensures ok ==> View() == Engine.Decode(model, link, nBatch, old(View()), tokens).value
    {
      var at := 0;
      while at < |tokens|
        invariant 0 <= at <= |tokens|
        invariant Engine.Decode(model, link, nBatch, View(), tokens[at..])
               == Engine.Decode(model, link, nBatch, old(View()), tokens)
      {
        var end := if at + nBatch < |tokens| then at + nBatch else |tokens|;
        var wantLogits := end == |tokens|;
        ghost var left := tokens[at..];
        assert left[..end - at] == tokens[at..end] && left[end - at..] == tokens[end..];
        assert wantLogits ==> tokens[at..end] == left && tokens[end..] == [];
        var status := DecodeCall(tokens[at..end], wantLogits);
        if !status {
          return false;
        }
        at := end;
      }
      return true;
    }

    method Sample() returns (tok: Token)
      modifies this`chain
      ensures (chain, tok) == model.sample(old(chain), logits)
    {
      var (next, drawn) := model.sample(chain, logits);
      chain := next;
      return drawn;
    }

    /** Streaming generation. `emitted` records the tokens passed to the callback. */
    method Generate(prompt: seq<Token>, maxNew: nat, onToken: Generation.Callback)
      returns (emitted: seq<Token>, finish: Generation.Finish)
      requires Valid()
      modifies this
      ensures Generation.Outcome(emitted, finish)
           == Generation.Generate(model, link, nBatch, distributed, old(View()), prompt, maxNew, onToken)
      ensures var left := Generation.Left(model, link, nBatch, distributed, old(View()), prompt, maxNew, onToken);
              if finish == Generation.DecodeError then left.None? else left == Some(View())
    {
      hide Engine.Decode;
      emitted := [];
      var prefilled := Decode(prompt);
      if !prefilled {
        return [], Generation.DecodeError;
      }
      ghost var start := View();
      for spent := 0 to maxNew
        invariant Generation.Loop(model, link, nBatch, distributed, View(), maxNew - spent, onToken, emitted)
               == Generation.Loop(model, link, nBatch, distributed, start, maxNew, onToken, [])
        invariant Generation.LeftByLoop(model, link, nBatch, distributed, View(), maxNew - spent, onToken, emitted)
               == Generation.LeftByLoop(model, link, nBatch, distributed, start, maxNew, onToken, [])
      {
        var tok := Sample();
        if model.isEog(tok) {
          return emitted, Generation.Stop;
        }
        if !model.renders(tok) {
          return emitted, Generation.RenderError;
        }
        if distributed {
          var confirmed := Decode([tok]);
          if !confirmed {
            return emitted, Generation.DecodeError;
          }
          emitted := emitted + [tok];
          if onToken(emitted) {
            return emitted, Generation.Aborted;
          }
        } else {
          emitted := emitted + [tok];
          if onToken(emitted) {
            return emitted, Generation.Aborted;
          }
          var decoded := Decode([tok]);
          if !decoded {
            return emitted, Generation.DecodeError;
          }
        }
      }
      return emitted, Generation.Length;
    }

    /** The convenience loop: emit at sample time, never abort, and return the generated
        tokens only when nothing failed.  `seen` are the tokens passed to the callback. */
    method GenerateGreedy(prompt: seq<Token>, maxNew: nat) returns (out: Option<seq<Token>>, seen: seq<Token>)
      requires Valid()
      modifies this
      ensures var run := Generation.Generate(model, link, nBatch, false, old(View()), prompt, maxNew, Generation.Never());
              && seen == run.emitted
              && out == if run.finish == Generation.DecodeError || run.finish == Generation.RenderError
                        then None else Some(run.emitted)
      ensures var left := Generation.Left(model, link, nBatch, false, old(View()), prompt, maxNew, Generation.Never());
              left.Some? ==> left == Some(View())
    {
      hide Engine.Decode;
      seen := [];
      var prefilled := Decode(prompt);
      if !prefilled {
        return None, [];
      }
      ghost var start := View();
      for spent := 0 to maxNew
        invariant Generation.Loop(model, link, nBatch, false, View(), maxNew - spent, Generation.Never(), seen)
               == Generation.Loop(model, link, nBatch, false, start, maxNew, Generation.Never(), [])
        invariant Generation.LeftByLoop(model, link, nBatch, false, View(), maxNew - spent, Generation.Never(), seen)
               == Generation.LeftByLoop(model, link, nBatch, false, start, maxNew, Generation.Never(), [])
      {
        var tok := Sample();
        if model.isEog(tok) {
          return Some(seen), seen;
        }
        if !model.renders(tok) {
          return None, seen;
        }
        seen := seen + [tok];
        var decoded := Decode([tok]);
        if !decoded {
          return None, seen;
        }
      }
      return Some(seen), seen;
    }
  }
}

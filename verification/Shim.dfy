/** The C shim's decode call: two scratch buffers that grow on demand and may fail to. */
module Shims {
  import opened Options
  import opened Engine

  /** What the engine is handed: the tokens, and per token whether to output a row; no
      flags at all means a row for the last token. */
  datatype Handed = Handed(tokens: seq<Token>, flags: Option<seq<bool>>)

  class Shim {
    var scratch: array<Token>
    var flags: array<bool>
    var cap: nat

    /** Both buffers hold `cap` entries, and no output flag is ever set. */
    ghost predicate Valid()
      reads this, scratch, flags
    {
      && cap <= scratch.Length && cap <= flags.Length && cap <= 0x7fff_ffff
      && forall i :: 0 <= i < flags.Length ==> !flags[i]
    }

    constructor ()
      ensures Valid() && cap == 0 && fresh(scratch) && fresh(flags)
    {
      scratch, flags, cap := new Token[0], new bool[0], 0;
    }

    /** `grows` and `growsFlags` say whether the two reallocations succeed.  A call either
        hands the engine exactly its input, or changes neither capacity nor flags. */
    method Decode(tokens: seq<Token>, wantLogits: bool, grows: bool, growsFlags: bool) returns (r: Option<Handed>)
      requires Valid() && |tokens| <= 0x7fff_ffff
      modifies this, scratch
      ensures Valid() && old(cap) <= cap
      ensures fresh(scratch) || scratch == old(scratch)
      ensures fresh(flags) || flags == old(flags)
      ensures r.None? <==> tokens == [] || (|tokens| > old(cap) && !(grows && growsFlags))
      ensures r.None? ==> cap == old(cap)
      ensures r.Some? ==> cap == (if |tokens| > old(cap) then |tokens| else old(cap))
      ensures r.Some? ==> r.value.tokens == tokens && (r.value.flags.None? <==> wantLogits)
      ensures r.Some? && !wantLogits ==>
                |r.value.flags.value| == |tokens| && forall i :: 0 <= i < |tokens| ==> !r.value.flags.value[i]
    {
      if |tokens| == 0 {
        return None;
      }
      if |tokens| > cap {
        if !grows {
          return None;
        }
        var grown := Resized(scratch, |tokens|);
        if !growsFlags {
          scratch := grown;
          return None;
        }
        var grownFlags := new bool[|tokens|](_ => false);
        scratch, flags, cap := grown, grownFlags, |tokens|;
      }
      var held := scratch;
      for i := 0 to |tokens|
        invariant held == scratch && Valid() && cap >= |tokens| && held[..i] == tokens[..i]
        invariant cap == if |tokens| > old(cap) then |tokens| else old(cap)
        invariant (fresh(scratch) || scratch == old(scratch)) && (fresh(flags) || flags == old(flags))
        modifies held
      {
        held[i] := tokens[i];
        assert tokens[..i + 1] == tokens[..i] + [tokens[i]];
      }
      assert tokens[..|tokens|] == tokens;
      r := Some(Handed(scratch[..|tokens|], if wantLogits then None else Some(flags[..|tokens|])));
    }
  }

  /** A reallocation to `n` entries, keeping what fits. */
  method Resized(a: array<Token>, n: nat) returns (b: array<Token>)
    ensures fresh(b) && b.Length == n
    ensures forall i :: 0 <= i < n && i < a.Length ==> b[i] == a[i]
  {
    b := new Token[n](i requires 0 <= i reads a => if i < a.Length then a[i] else 0);
  }
}

/** The stop-string scan: a window of recent text decides what the whole text
  would decide. */
module StopScans {
  /** Length of a character in UTF-8. */
  function Width(c: char): (w: nat)
    ensures 1 <= w <= 4
  {
    if c as int < 0x80 then 1 else if c as int < 0x800 then 2 else if c as int < 0x10000 then 3 else 4
  }

  function Bytes(s: string): nat {
    if s == [] then 0 else Width(s[0]) + Bytes(s[1..])
  }

  lemma {:induction false} BytesSplit(s: string, t: string)
    ensures Bytes(s + t) == Bytes(s) + Bytes(t)
  {
    if s == [] {
      assert s + t == t;
    } else {
      assert (s + t)[1..] == s[1..] + t;
      BytesSplit(s[1..], t);
    }
  }

  ghost predicate OccursAt(s: string, text: string, i: nat) {
    i + |s| <= |text| && text[i..i + |s|] == s
  }

  ghost predicate Occurs(s: string, text: string) {
    exists i: nat :: OccursAt(s, text, i)
  }

  ghost predicate Hit(stops: seq<string>, text: string) {
    exists k :: 0 <= k < |stops| && Occurs(stops[k], text)
  }

  /** The longest suffix of at most `keep` bytes. */
  function Window(text: string, keep: nat): string {
    if Bytes(text) <= keep then text else Window(text[1..], keep)
  }

  lemma {:induction false} WindowIsLongest(text: string, keep: nat, i: nat)
    requires i <= |text| && Bytes(text[i..]) <= keep
    ensures var n := |text| - |Window(text, keep)|; 0 <= n <= i && Window(text, keep) == text[n..]
  {
    if Bytes(text) > keep {
      assert text[1..][i - 1..] == text[i..];
      WindowIsLongest(text[1..], keep, i - 1);
      var n := |text[1..]| - |Window(text[1..], keep)|;
      assert text[1..][n..] == text[n + 1..];
    } else {
      assert text[0..] == text;
    }
  }

  /** Positions shift with the text cut off in front. */
  lemma OccursInSuffix(stop: string, text: string, n: nat, i: nat)
    requires n <= i && n <= |text|
    ensures OccursAt(stop, text, i) <==> OccursAt(stop, text[n..], i - n)
  {
    if i + |stop| <= |text| {
      assert text[n..][i - n..i - n + |stop|] == text[i..i + |stop|];
    }
  }

  /** A stop string first completed by a piece begins at most `keep` bytes before it. */
  lemma StraddlerIsNear(stop: string, text: string, piece: string, keep: nat, i: nat)
    requires Bytes(stop) <= keep + 1 && OccursAt(stop, text + piece, i) && !Occurs(stop, text)
    ensures |text| <= i || Bytes(text[i..]) <= keep
  {
    if i + |stop| <= |text| {
      assert (text + piece)[i..i + |stop|] == text[i..i + |stop|];
      assert OccursAt(stop, text, i);
    } else if i < |text| {
      assert stop == text[i..] + stop[|text| - i..];
      BytesSplit(text[i..], stop[|text| - i..]);
    }
  }

  /** A stop string no longer than the window plus one byte, absent from the text so
      far, occurs after the next piece exactly when it occurs in window plus piece. */
  lemma WindowSuffices(stop: string, text: string, piece: string, keep: nat)
    requires stop != [] && Bytes(stop) <= keep + 1 && !Occurs(stop, text)
    ensures Occurs(stop, text + piece) <==> Occurs(stop, Window(text, keep) + piece)
  {
    hide Bytes, Window, OccursAt;
    EmptyFits(text, keep);
    WindowIsLongest(text, keep, |text|);
    var n := |text| - |Window(text, keep)|;
    var near := Window(text, keep) + piece;
    assert (text + piece)[n..] == near;
    if Occurs(stop, text + piece) {
      var i: nat :| OccursAt(stop, text + piece, i);
      StraddlerIsNear(stop, text, piece, keep, i);
      if i < |text| {
        WindowIsLongest(text, keep, i);
      }
      OccursInSuffix(stop, text + piece, n, i);
    }
    if Occurs(stop, near) {
      var i: nat :| OccursAt(stop, near, i);
      OccursInSuffix(stop, text + piece, n, n + i);
    }
  }

  lemma EmptyFits(text: string, keep: nat)
    ensures Bytes(text[|text|..]) <= keep
  {
  }

  /** Scanning on from a window is scanning on from the text. */
  lemma {:induction false} WindowOfWindow(text: string, piece: string, keep: nat)
    ensures Window(Window(text, keep) + piece, keep) == Window(text + piece, keep)
    decreases |text|
  {
    if Bytes(text) > keep {
      WindowOfWindow(text[1..], piece, keep);
      assert (text + piece)[1..] == text[1..] + piece;
      BytesSplit(text, piece);
    }
  }

  class StopScan {
    const stops: seq<string>
    const keep: nat
    var tail: string
    /** All the text given to the scan so far. */
    ghost var text: string

    ghost predicate Valid()
      reads this
    {
      && (forall k :: 0 <= k < |stops| ==> stops[k] != [] && Bytes(stops[k]) <= keep + 1)
      && (stops != [] ==> tail == Window(text, keep))
      && !Hit(stops, text)
    }

    constructor (wanted: seq<string>)
      ensures Valid() && text == []
      ensures forall s: string :: s in stops <==> s in wanted && s != []
    {
      var kept: seq<string> := [];
      var longest: nat := 0;
      for k := 0 to |wanted|
        invariant forall s: string :: s in kept <==> s in wanted[..k] && s != []
        invariant forall j :: 0 <= j < |kept| ==> kept[j] != [] && Bytes(kept[j]) <= longest
      {
        if wanted[k] != [] {
          kept := kept + [wanted[k]];
          longest := if longest < Bytes(wanted[k]) then Bytes(wanted[k]) else longest;
        }
      }
      assert wanted[..|wanted|] == wanted;
      stops := kept;
      keep := if longest == 0 then 0 else longest - 1;
      tail := [];
      text := [];
    }

    /** May `piece` be emitted? Only if no stop string occurs in everything scanned,
        this piece included. */
    method Admit(piece: string) returns (ok: bool)
      requires Valid()
      modifies this
      ensures text == old(text) + piece
      ensures ok <==> !Hit(stops, text)
      ensures ok ==> Valid()
    {
      ghost var before := text;
      text := text + piece;
      if stops == [] {
        return true;
      }
      tail := tail + piece;
      forall k | 0 <= k < |stops|
        ensures Occurs(stops[k], tail) <==> Occurs(stops[k], text)
      {
        WindowSuffices(stops[k], before, piece, keep);
      }
      for k := 0 to |stops|
        invariant forall j :: 0 <= j < k ==> !Occurs(stops[j], tail)
        invariant tail == old(tail) + piece && text == before + piece
        invariant forall j :: 0 <= j < |stops| ==> (Occurs(stops[j], tail) <==> Occurs(stops[j], text))
      {
        var found := Contains(stops[k], tail);
        if found {
          return false;
        }
      }
      WindowOfWindow(before, piece, keep);
      while Bytes(tail) > keep
        invariant Window(tail, keep) == Window(text, keep) && text == before + piece
        decreases |tail|
      {
        tail := tail[1..];
      }
      return true;
    }
  }

  method Contains(s: string, text: string) returns (found: bool)
    ensures found <==> Occurs(s, text)
  {
    var i: nat := 0;
    while i + |s| <= |text|
      invariant forall j: nat :: j < i ==> !OccursAt(s, text, j)
    {
      if text[i..i + |s|] == s {
        assert OccursAt(s, text, i);
        return true;
      }
      i := i + 1;
    }
    return false;
  }
}

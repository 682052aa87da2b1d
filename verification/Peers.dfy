/** The set of paired peers and what each store operation does to it. */
module Peers {
  import opened Options
  import opened Decimals
  import opened Lexical

  /** Addresses are numbers in the order in which addresses compare. */
  type Addr = int

  datatype Record = Record(
    name: string, added: nat, addrs: seq<Addr>, relay: Option<string>,
    version: Option<string>, build: Option<string>)

  type PeerMap = map<string, Record>

  // ---- Names ----

  /** The characters with the Unicode property White_Space. */
  predicate Blank(c: char) {
    || '\U{0009}' <= c <= '\U{000D}' || c == ' ' || c == '\U{0085}' || c == '\U{00A0}' || c == '\U{1680}'
    || '\U{2000}' <= c <= '\U{200A}' || c == '\U{2028}' || c == '\U{2029}' || c == '\U{202F}'
    || c == '\U{205F}' || c == '\U{3000}'
  }

  function Trim(s: string): string {
    if s == [] then []
    else if Blank(s[0]) then Trim(s[1..])
    else if Blank(s[|s| - 1]) then Trim(s[..|s| - 1])
    else s
  }

  ghost predicate AllBlank(s: string) {
    forall i :: 0 <= i < |s| ==> Blank(s[i])
  }

  /** Trimming takes off exactly the blanks at the two ends. */
  lemma {:induction false} TrimIsCore(s: string) returns (left: string, right: string)
    ensures s == left + Trim(s) + right && AllBlank(left) && AllBlank(right)
    ensures Trim(s) != [] ==> !Blank(Trim(s)[0]) && !Blank(Trim(s)[|Trim(s)| - 1])
    decreases |s|
  {
    hide Blank, AllBlank;
    NothingIsBlank();
    left, right := [], [];
    if s == [] {
    } else if Blank(s[0]) {
      var l, r := TrimIsCore(s[1..]);
      Widen(s[0], l, Trim(s), r);
      assert s == [s[0]] + s[1..];
      left, right := [s[0]] + l, r;
    } else if Blank(s[|s| - 1]) {
      var l, r := TrimIsCore(s[..|s| - 1]);
      Widen(s[|s| - 1], l, Trim(s), r);
      assert s == s[..|s| - 1] + [s[|s| - 1]];
      left, right := l, r + [s[|s| - 1]];
    } else {
      assert [] + s + [] == s;
    }
  }

  lemma NothingIsBlank()
    ensures AllBlank([])
  {
  }

  lemma Widen(c: char, left: string, mid: string, right: string)
    requires Blank(c) && AllBlank(left) && AllBlank(right)
    ensures AllBlank([c] + left) && AllBlank(right + [c])
    ensures [c] + (left + mid + right) == ([c] + left) + mid + right
    ensures (left + mid + right) + [c] == left + mid + (right + [c])
  {
    hide Blank;
  }

  function Base(wanted: string): string {
    if Trim(wanted) == [] then "peer" else Trim(wanted)
  }

  /** The k-th name tried: the base, then the base with the suffixes -2, -3 and so on. */
  function Candidate(base: string, k: nat): string {
    if k == 0 then base else base + "-" + Decimal(k + 1)
  }

  lemma CandidatesDiffer(base: string, j: nat, k: nat)
    requires Candidate(base, j) == Candidate(base, k)
    ensures j == k
  {
    hide Decimal;
    if j > 0 && k > 0 {
      assert Candidate(base, j)[|base| + 1..] == Decimal(j + 1);
      assert Candidate(base, k)[|base| + 1..] == Decimal(k + 1);
      DecimalReadsBack(j + 1);
      DecimalReadsBack(k + 1);
    } else {
      assert |Candidate(base, j)| == |Candidate(base, k)|;
    }
  }

  function Names(peers: PeerMap): set<string> {
    set id | id in peers :: peers[id].name
  }

  predicate Taken(peers: PeerMap, name: string) {
    name in Names(peers)
  }

  function Tried(base: string, k: nat): set<string> {
    set i | 0 <= i < k :: Candidate(base, i)
  }

  lemma {:induction false} TriedSize(base: string, k: nat)
    ensures |Tried(base, k)| == k
  {
    hide Candidate;
    if k == 0 {
      assert Tried(base, 0) == {};
    } else {
      TriedSize(base, k - 1);
      assert Tried(base, k) == Tried(base, k - 1) + {Candidate(base, k - 1)};
      if Candidate(base, k - 1) in Tried(base, k - 1) {
        var i :| 0 <= i < k - 1 && Candidate(base, i) == Candidate(base, k - 1);
        CandidatesDiffer(base, i, k - 1);
      }
    }
  }

  lemma {:induction false} NamesSize(peers: PeerMap)
    ensures |Names(peers)| <= |peers|
    decreases |peers|
  {
    if peers == map[] {
      assert Names(peers) == {};
    } else {
      var id :| id in peers;
      var rest := peers - {id};
      assert |rest.Keys| == |peers.Keys - {id}| by { assert rest.Keys == peers.Keys - {id}; }
      NamesSize(rest);
      assert Names(peers) == Names(rest) + {peers[id].name};
    }
  }

  lemma SubsetSize<T>(a: set<T>, b: set<T>)
    requires a <= b
    ensures |a| <= |b|
  {
    assert b == a + (b - a);
  }

  /** Pigeonhole: if the first `k` candidates are all taken, there are `k` peers. */
  lemma TakenAreFew(peers: PeerMap, base: string, k: nat)
    requires forall i :: 0 <= i < k ==> Candidate(base, i) in Names(peers)
    ensures k <= |peers|
  {
    hide Candidate;
    TriedSize(base, k);
    NamesSize(peers);
    SubsetSize(Tried(base, k), Names(peers));
  }

  /** The first candidate that no peer has. */
  function FreshIndex(peers: PeerMap, base: string, k: nat): (r: nat)
    requires forall i :: 0 <= i < k ==> Candidate(base, i) in Names(peers)
    ensures k <= r <= |peers|
    ensures Candidate(base, r) !in Names(peers)
    ensures forall i :: 0 <= i < r ==> Candidate(base, i) in Names(peers)
    decreases |peers| + 1 - k
  {
    TakenAreFew(peers, base, k);
    if Candidate(base, k) in Names(peers) then FreshIndex(peers, base, k + 1) else k
  }

  function FreshName(peers: PeerMap, base: string): string {
    Candidate(base, FreshIndex(peers, base, 0))
  }

  // ---- Addresses ----

  ghost predicate Ascending(s: seq<Addr>) {
    forall i, j :: 0 <= i < j < |s| ==> s[i] < s[j]
  }

  /** Insert into an ascending sequence, once. */
  function InsertAddr(s: seq<Addr>, x: Addr): seq<Addr> {
    if s == [] || x < s[0] then [x] + s
    else if x == s[0] then s
    else [s[0]] + InsertAddr(s[1..], x)
  }

  /** Sorted, without repetitions. */
  function SortDedup(s: seq<Addr>): seq<Addr> {
    if s == [] then [] else InsertAddr(SortDedup(s[1..]), s[0])
  }

  lemma {:induction false} InsertAddrKeeps(s: seq<Addr>, x: Addr)
    requires Ascending(s)
    ensures Ascending(InsertAddr(s, x))
    ensures forall y :: y in InsertAddr(s, x) <==> y == x || y in s
    decreases s
  {
    if s != [] && s[0] < x {
      InsertAddrKeeps(s[1..], x);
      var r := InsertAddr(s[1..], x);
      assert InsertAddr(s, x) == [s[0]] + r;
      forall i, j | 0 <= i < j < |r| + 1 ensures ([s[0]] + r)[i] < ([s[0]] + r)[j] {
        if i == 0 {
          assert r[j - 1] in r;
          if r[j - 1] != x {
            var k :| 0 <= k < |s[1..]| && s[1..][k] == r[j - 1];
            assert s[0] < s[k + 1];
          }
        }
      }
      assert s == [s[0]] + s[1..];
    }
  }

  /** Sorting and deduplicating keeps exactly the same addresses, each once, ascending. */
  lemma {:induction false} SortDedupIsCanonical(s: seq<Addr>)
    ensures Ascending(SortDedup(s))
    ensures forall y :: y in SortDedup(s) <==> y in s
  {
    if s != [] {
      SortDedupIsCanonical(s[1..]);
      InsertAddrKeeps(SortDedup(s[1..]), s[0]);
      assert s == [s[0]] + s[1..];
    }
  }

  // ---- Operations ----

  datatype Operation =
    | Add(id: string, wanted: string, now: nat)
    | UpdateAddrs(id: string, addrs: seq<Addr>, relay: Option<string>)
    | UpdateHello(id: string, version: string, build: string)
    | Remove(name: string)

  /** The first holder of a name. */
  ghost predicate FirstHolder(peers: PeerMap, name: string, id: string) {
    && id in peers && peers[id].name == name
    && forall other :: other in peers && peers[other].name == name ==> other == id || Before(id, other)
  }

  ghost function Holder(peers: PeerMap, name: string): Option<string> {
    if exists id :: FirstHolder(peers, name, id)
    then var id :| FirstHolder(peers, name, id); Some(id)
    else None
  }

  function WithAddrs(r: Record, addrs: seq<Addr>, relay: Option<string>): Record {
    Record(r.name, r.added, if addrs != [] then addrs else r.addrs, if relay.Some? then relay else r.relay,
           r.version, r.build)
  }

  function WithHello(r: Record, version: string, build: string): Record {
    Record(r.name, r.added, r.addrs, r.relay, Some(version), Some(build))
  }

  /** The peers after an operation. */
  ghost function Apply(peers: PeerMap, op: Operation): PeerMap {
    match op
    case Add(id, wanted, now) =>
      if id in peers then peers
      else peers[id := Record(FreshName(peers, Base(wanted)), now, [], None, None, None)]
    case UpdateAddrs(id, addrs, relay) =>
      if id in peers then peers[id := WithAddrs(peers[id], SortDedup(addrs), relay)] else peers
    case UpdateHello(id, version, build) =>
      if id in peers then peers[id := WithHello(peers[id], version, build)] else peers
    case Remove(name) =>
      match Holder(peers, name)
      case Some(id) => peers - {id}
      case None => peers
  }

  datatype Answer = Named(name: string) | Changed(changed: bool) | Removed(id: string) | UnknownName

  /** What the caller is told. */
  ghost function Reply(peers: PeerMap, op: Operation): Answer {
    match op
    case Add(id, _, _) => Named(Apply(peers, op)[id].name)
    case UpdateAddrs(_, _, _) => Changed(Apply(peers, op) != peers)
    case UpdateHello(_, _, _) => Changed(Apply(peers, op) != peers)
    case Remove(name) =>
      match Holder(peers, name)
      case Some(id) => Removed(id)
      case None => UnknownName
  }

  // ---- The order in which a map of peers is walked, by id ----

  ghost predicate Least(ids: set<string>, id: string) {
    id in ids && forall other :: other in ids ==> other == id || Before(id, other)
  }

  lemma {:induction false} LeastExists(ids: set<string>) returns (id: string)
    requires ids != {}
    ensures Least(ids, id)
    decreases |ids|
  {
    var x :| x in ids;
    if ids == {x} {
      id := x;
    } else {
      var y := LeastExists(ids - {x});
      BeforeIsTotal(x, y);
      if Before(x, y) {
        id := x;
        forall other | other in ids ensures other == x || Before(x, other) {
          if other != x && other != y {
            BeforeIsTransitive(x, y, other);
          }
        }
      } else {
        id := y;
      }
    }
  }

  /** There is a first holder exactly if there is a holder, and only one first. */
  lemma HolderIsFirst(peers: PeerMap, name: string)
    ensures Holder(peers, name).Some? <==> Taken(peers, name)
    ensures forall id :: FirstHolder(peers, name, id) <==> Holder(peers, name) == Some(id)
  {
    hide Before;
    if Taken(peers, name) {
      var holders := set id | id in peers && peers[id].name == name;
      var some :| some in peers && peers[some].name == name;
      assert some in holders;
      var id := LeastExists(holders);
      assert FirstHolder(peers, name, id);
    }
    forall a, b | FirstHolder(peers, name, a) && FirstHolder(peers, name, b)
      ensures a == b
    {
      if a != b {
        BeforeIsStrict(a, b);
      }
    }
  }

  function Holders(peers: PeerMap, name: string): set<string> {
    set id | id in peers && peers[id].name == name
  }

  /** All peers' names in order, each as often as there are peers with it. */
  ghost predicate ListsNames(known: seq<string>, peers: PeerMap) {
    Sorted(known) && forall name :: multiset(known)[name] == |Holders(peers, name)|
  }

  // ---- What every operation keeps ----

  ghost predicate UniqueNames(peers: PeerMap) {
    forall a, b :: a in peers && b in peers && peers[a].name == peers[b].name ==> a == b
  }

  /** Names stay unique. */
  lemma ApplyKeepsNamesUnique(peers: PeerMap, op: Operation)
    requires UniqueNames(peers)
    ensures UniqueNames(Apply(peers, op))
  {
    hide Holder, Candidate, Base;
    match op
    case Add(id, wanted, now) =>
      if id !in peers {
        var name := FreshName(peers, Base(wanted));
        forall other | other in peers ensures peers[other].name != name {
          assert peers[other].name in Names(peers);
        }
      }
    case _ =>
  }

  /** Only `Add` brings an id in, and only `Remove` takes one out. */
  lemma ApplyKeepsIds(peers: PeerMap, op: Operation, id: string)
    ensures id in Apply(peers, op) && id !in peers ==> op.Add? && op.id == id
    ensures id in peers && id !in Apply(peers, op) ==> op.Remove? && peers[id].name == op.name
  {
    hide FreshName, SortDedup, Base;
    if op.Remove? {
      HolderIsFirst(peers, op.name);
    }
  }

  /** A known peer keeps its name and date through every operation, and an operation
      on another peer leaves all of it alone. */
  lemma ApplyKeepsRecords(peers: PeerMap, op: Operation, id: string)
    requires id in peers && id in Apply(peers, op)
    ensures var r := Apply(peers, op)[id];
            && r.name == peers[id].name && r.added == peers[id].added
            && (r != peers[id] ==> (op.UpdateAddrs? || op.UpdateHello?) && op.id == id)
  {
    hide FreshName, SortDedup, Base, Holder;
  }

  /** With unique names, removing by name removes the only holder and nothing else. */
  lemma RemoveTakesTheHolder(peers: PeerMap, name: string)
    requires UniqueNames(peers)
    ensures match Reply(peers, Remove(name))
            case Removed(id) =>
              && id in peers && peers[id].name == name && Apply(peers, Remove(name)) == peers - {id}
              && !Taken(Apply(peers, Remove(name)), name)
            case _ => !Taken(peers, name) && Apply(peers, Remove(name)) == peers
  {
    hide Before;
    HolderIsFirst(peers, name);
  }

  /** A newly added peer gets a name that nobody had, its base name if that was free. */
  lemma AddNamesFreshly(peers: PeerMap, id: string, wanted: string, now: nat)
    requires id !in peers
    ensures var name := Reply(peers, Add(id, wanted, now)).name;
            !Taken(peers, name) && (!Taken(peers, Base(wanted)) ==> name == Base(wanted))
  {
    hide Decimal, Trim;
    var base := Base(wanted);
    var k := FreshIndex(peers, base, 0);
    if k > 0 {
      assert Candidate(base, 0) in Names(peers);
    }
  }

  /** A name without anything but blanks counts as "peer"; a name that is taken gets the
      first free of the suffixes -2, -3 and so on. */
  lemma SuffixesCountFromTwo(peers: PeerMap, id: string, wanted: string, now: nat)
    requires id !in peers
    ensures AllBlank(wanted) <==> Trim(wanted) == []
    ensures AllBlank(wanted) ==> Base(wanted) == "peer"
    ensures var base, name := Base(wanted), Reply(peers, Add(id, wanted, now)).name;
            Taken(peers, base) ==>
              && (!Taken(peers, base + "-2") ==> name == base + "-2")
              && exists n: nat :: 2 <= n && name == base + "-" + Decimal(n)
                                && forall i :: 2 <= i < n ==> Taken(peers, base + "-" + Decimal(i))
  {
    hide Decimal, Trim, Blank, FreshIndex;
    var left, right := TrimIsCore(wanted);
    BlankIffTrimmed(wanted, left, right);
    var base := Base(wanted);
    var k := FreshIndex(peers, base, 0);
    if Taken(peers, base) {
      assert Candidate(base, 0) == base && 0 < k;
      assert Candidate(base, k) == base + "-" + Decimal(k + 1);
      forall i | 2 <= i < k + 1 ensures Taken(peers, base + "-" + Decimal(i)) {
        assert Candidate(base, i - 1) in Names(peers);
      }
      DecimalOfTwo();
      assert Candidate(base, 1) == base + "-" + "2" == base + "-2";
    }
  }

  lemma DecimalOfTwo()
    ensures Decimal(2) == "2"
  {
  }

  lemma BlankIffTrimmed(s: string, left: string, right: string)
    requires s == left + Trim(s) + right && AllBlank(left) && AllBlank(right)
    requires Trim(s) != [] ==> !Blank(Trim(s)[0])
    ensures AllBlank(s) <==> Trim(s) == []
  {
    hide Trim, Blank;
    if Trim(s) != [] {
      assert s[|left|] == Trim(s)[0];
    }
  }

  /** What the caller is told is what happened: the name the peer now has, or whether
      anything changed. */
  lemma RepliesTellTheEffect(peers: PeerMap, op: Operation)
    requires !op.Remove?
    ensures var after := Apply(peers, op);
            match Reply(peers, op)
            case Named(name) => op.Add? && op.id in after && after[op.id].name == name
            case Changed(changed) =>
              changed <==> op.id in peers && after[op.id] != peers[op.id]
            case _ => false
  {
    hide FreshName, SortDedup, Base, Holder;
    var after := Apply(peers, op);
    if op.id in peers && after[op.id] == peers[op.id] {
      assert after == peers;
    }
  }

  /** What an update of a known peer leaves: new addresses and a new relay replace the
      old, missing ones keep them; the last hello is what was heard.  Everything else
      about the peer stays. */
  lemma UpdatesReplace(peers: PeerMap, id: string, addrs: seq<Addr>, relay: Option<string>, version: string, build: string)
    requires id in peers
    ensures var before, after := peers[id], Apply(peers, UpdateAddrs(id, addrs, relay))[id];
            && (addrs == [] ==> after.addrs == before.addrs)
            && (addrs != [] ==> Ascending(after.addrs) && forall a :: a in after.addrs <==> a in addrs)
            && after.relay == (if relay.Some? then relay else before.relay)
            && after.version == before.version && after.build == before.build
    ensures var before, after := peers[id], Apply(peers, UpdateHello(id, version, build))[id];
            && after.version == Some(version) && after.build == Some(build)
            && after.addrs == before.addrs && after.relay == before.relay
  {
    SortDedupIsCanonical(addrs);
    if addrs != [] {
      assert addrs[0] in addrs;
      assert addrs[0] in SortDedup(addrs);
    }
  }

  /** A new peer starts with a date and a name, and nothing else known. */
  lemma AddStartsEmpty(peers: PeerMap, id: string, wanted: string, now: nat)
    requires id !in peers
    ensures var after := Apply(peers, Add(id, wanted, now));
            && after.Keys == peers.Keys + {id} && after[id].added == now
            && after[id].addrs == [] && after[id].relay.None? && after[id].version.None? && after[id].build.None?
  {
    hide FreshName, Base;
  }
}

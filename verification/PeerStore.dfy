/** The store handle: every operation reads the file, works on what it read and
  writes the whole file back. */
module PeerStores {
  import opened Options
  import opened Decimals
  import opened Lexical
  import opened Peers

  /** What is at a path: nothing, something unreadable as a store, or a store. */
  datatype File = Missing | Corrupt | Holds(peers: PeerMap)

  datatype StoreError = ReadFailed | ParseFailed | WriteFailed | UnknownPeer(name: string, known: seq<string>)

  datatype Result<+T> = Ok(value: T) | Err(error: StoreError)

  /** Whether the disk lets a read, a write and a rename through. */
  datatype Disk = Disk(readable: bool, writable: bool, renamable: bool)

  function Loaded(file: File, disk: Disk): Result<PeerMap> {
    match file
    case Missing => Ok(map[])
    case Corrupt => if disk.readable then Err(ParseFailed) else Err(ReadFailed)
    case Holds(peers) => if disk.readable then Ok(peers) else Err(ReadFailed)
  }

  /** Can the whole file be replaced? */
  predicate Saves(disk: Disk) {
    disk.writable && disk.renamable
  }

  /** The file after an operation, and what the caller gets. */
  ghost function FileAfter(file: File, op: Operation, disk: Disk): File {
    match Loaded(file, disk)
    case Err(_) => file
    case Ok(peers) => if Apply(peers, op) == peers || !Saves(disk) then file else Holds(Apply(peers, op))
  }

  ghost function Outcome(file: File, op: Operation, disk: Disk): Result<Answer> {
    match Loaded(file, disk)
    case Err(e) => Err(e)
    case Ok(peers) =>
      if Apply(peers, op) != peers && !Saves(disk) then Err(WriteFailed)
      else Ok(Reply(peers, op))
  }

  /** An operation that succeeds is what every later load sees: the peers that were loaded,
      with the operation applied.  One that fails leaves the same file, and it fails exactly
      if the file cannot be loaded or a change cannot be written. */
  lemma SuccessIsStored(file: File, op: Operation, disk: Disk, later: Disk)
    ensures Outcome(file, op, disk).Ok? ==>
              && Loaded(file, disk).Ok?
              && Outcome(file, op, disk).value == Reply(Loaded(file, disk).value, op)
              && (later.readable ==> Loaded(FileAfter(file, op, disk), later) == Ok(Apply(Loaded(file, disk).value, op)))
    ensures Outcome(file, op, disk).Err? ==> FileAfter(file, op, disk) == file
    ensures Outcome(file, op, disk).Err? <==>
              || file.Corrupt? || (file.Holds? && !disk.readable)
              || (!(disk.writable && disk.renamable) && Apply(Loaded(file, disk).value, op) != Loaded(file, disk).value)
    ensures Outcome(file, op, disk).Err? ==>
              Outcome(file, op, disk).error
              == if !file.Missing? && !disk.readable then ReadFailed
                 else if file.Corrupt? then ParseFailed
                 else WriteFailed
  {
    hide Apply, Reply;
  }

  /** The suffix loop: it tries at most one candidate more than there are peers, and
      its counter stays at most two above their number. */
  method DedupName(peers: PeerMap, base: string) returns (name: string, n: nat)
    ensures name == FreshName(peers, base)
    ensures 2 <= n <= |peers| + 2
  {
    hide Decimal, FreshIndex;
    name := base;
    n := 2;
    while Taken(peers, name)
      invariant 2 <= n && name == Candidate(base, n - 2)
      invariant forall i :: 0 <= i < n - 2 ==> Candidate(base, i) in Names(peers)
      invariant FreshIndex(peers, base, 0) >= n - 2
      decreases |peers| + 2 - n
    {
      TakenAreFew(peers, base, n - 1);
      name := base + "-" + Decimal(n);
      n := n + 1;
    }
    TakenAreFew(peers, base, n - 2);
  }

  class PeerStore {
    /** What is at the store's path and at the temporary path beside it. */
    var file: File
    var tmp: File

    constructor (file: File)
      ensures this.file == file && tmp == Missing
    {
      this.file := file;
      tmp := Missing;
    }

    method Load(disk: Disk) returns (r: Result<PeerMap>)
      ensures r == Loaded(file, disk)
    {
      match file
      case Missing => r := Ok(map[]);
      case Corrupt => r := if disk.readable then Err(ParseFailed) else Err(ReadFailed);
      case Holds(peers) => r := if disk.readable then Ok(peers) else Err(ReadFailed);
    }

    method Contains(id: string, disk: Disk) returns (r: Result<bool>)
      ensures match Loaded(file, disk)
              case Ok(peers) => r == Ok(id in peers)
              case Err(e) => r == Err(e)
    {
      var loaded := Load(disk);
      match loaded
      case Err(e) => r := Err(e);
      case Ok(peers) => r := Ok(id in peers);
    }

    /** Write beside, then rename over: the store is replaced whole or not at all. */
    method Save(peers: PeerMap, disk: Disk) returns (r: Result<()>)
      modifies this
      ensures r == if disk.writable && disk.renamable then Ok(()) else Err(WriteFailed)
      ensures r.Ok? ==> file == Holds(peers) && tmp == Missing
      ensures r.Err? ==> file == old(file)
    {
      if !disk.writable {
        tmp := Corrupt;
        return Err(WriteFailed);
      }
      tmp := Holds(peers);
      if !disk.renamable {
        return Err(WriteFailed);
      }
      file, tmp := tmp, Missing;
      r := Ok(());
    }

    method Add(id: string, wanted: string, now: nat, disk: Disk) returns (r: Result<string>)
      modifies this
      ensures var op := Operation.Add(id, wanted, now);
              && file == FileAfter(old(file), op, disk)
              && match Outcome(old(file), op, disk)
                 case Ok(a) => r == Ok(a.name)
                 case Err(e) => r == Err(e)
    {
      hide FreshName, Trim;
      var loaded := Load(disk);
      if loaded.Err? {
        return Err(loaded.error);
      }
      var peers := loaded.value;
      if id in peers {
        return Ok(peers[id].name);
      }
      var name, _ := DedupName(peers, Base(wanted));
      ghost var before := peers;
      peers := peers[id := Record(name, now, [], None, None, None)];
      assert peers != before by { assert id in peers; }
      var saved := Save(peers, disk);
      if saved.Err? {
        return Err(saved.error);
      }
      r := Ok(name);
    }

    method UpdateAddrs(id: string, addrs: seq<Addr>, relay: Option<string>, disk: Disk) returns (r: Result<bool>)
      modifies this
      ensures var op := Operation.UpdateAddrs(id, addrs, relay);
              && file == FileAfter(old(file), op, disk)
              && match Outcome(old(file), op, disk)
                 case Ok(a) => r == Ok(a.changed)
                 case Err(e) => r == Err(e)
    {
      hide SortDedup;
      var loaded := Load(disk);
      if loaded.Err? {
        return Err(loaded.error);
      }
      var peers := loaded.value;
      if id !in peers {
        return Ok(false);
      }
      var direct := SortDedup(addrs);
      var record, changed := peers[id], false;
      if direct != [] && record.addrs != direct {
        record := record.(addrs := direct);
        changed := true;
      }
      if relay.Some? && record.relay != relay {
        record := record.(relay := relay);
        changed := true;
      }
      ghost var after := Apply(peers, Operation.UpdateAddrs(id, addrs, relay));
      assert after == peers[id := record];
      assert changed <==> record != peers[id];
      if changed {
        assert after[id] != peers[id];
        var saved := Save(peers[id := record], disk);
        if saved.Err? {
          return Err(saved.error);
        }
      } else {
        assert after == peers;
      }
      r := Ok(changed);
    }

    method UpdateHello(id: string, version: string, build: string, disk: Disk) returns (r: Result<bool>)
      modifies this
      ensures var op := Operation.UpdateHello(id, version, build);
              && file == FileAfter(old(file), op, disk)
              && match Outcome(old(file), op, disk)
                 case Ok(a) => r == Ok(a.changed)
                 case Err(e) => r == Err(e)
    {
      var loaded := Load(disk);
      if loaded.Err? {
        return Err(loaded.error);
      }
      var peers := loaded.value;
      if id !in peers {
        return Ok(false);
      }
      var record := peers[id];
      ghost var after := Apply(peers, Operation.UpdateHello(id, version, build));
      if record.version == Some(version) && record.build == Some(build) {
        assert WithHello(record, version, build) == record;
        assert after == peers;
        return Ok(false);
      }
      assert after[id] != peers[id];
      var saved := Save(peers[id := WithHello(record, version, build)], disk);
      if saved.Err? {
        return Err(saved.error);
      }
      r := Ok(true);
    }

    /** The peers are walked in the order of their ids up to the first with the name. */
    method RemoveByName(name: string, disk: Disk) returns (r: Result<string>)
      modifies this
      ensures var op := Operation.Remove(name);
              && file == FileAfter(old(file), op, disk)
              && match Outcome(old(file), op, disk)
                 case Ok(Removed(id)) => r == Ok(id)
                 case Ok(_) =>
                   && r.Err? && r.error.UnknownPeer? && r.error.name == name
                   && ListsNames(r.error.known, Loaded(old(file), disk).value)
                 case Err(e) => r == Err(e)
    {
      hide Before, ListsNames;
      var loaded := Load(disk);
      if loaded.Err? {
        return Err(loaded.error);
      }
      var peers := loaded.value;
      var found := FindHolder(peers, name);
      match found
      case Some(id) =>
        assert id in peers && id !in peers - {id};
        var saved := Save(peers - {id}, disk);
        if saved.Err? {
          return Err(saved.error);
        }
        r := Ok(id);
      case None =>
        var known := ListNames(peers);
        r := Err(UnknownPeer(name, known));
    }
  }

  method FindHolder(peers: PeerMap, name: string) returns (r: Option<string>)
    ensures r == Holder(peers, name)
    ensures r.Some? ==> r.value in peers
  {
    hide Before;
    HolderIsFirst(peers, name);
    var left := peers.Keys;
    while left != {}
      invariant left <= peers.Keys
      invariant forall id :: id in peers && id !in left ==> peers[id].name != name
      decreases |left|
    {
      ghost var least := LeastExists(left);
      var id :| id in left && forall other :: other in left ==> other == id || Before(id, other);
      if peers[id].name == name {
        assert FirstHolder(peers, name, id);
        return Some(id);
      }
      left := left - {id};
    }
    r := None;
  }

  /** The names of the peers visited so far, each as often as visited peers have it. */
  ghost predicate Collected(known: seq<string>, peers: PeerMap, done: set<string>) {
    forall name :: multiset(known)[name] == |Holders(peers, name) * done|
  }

  lemma OneMoreHolder(peers: PeerMap, done: set<string>, id: string, name: string)
    requires id in peers && id !in done
    ensures |Holders(peers, name) * (done + {id})|
         == |Holders(peers, name) * done| + if peers[id].name == name then 1 else 0
  {
    var was, now := Holders(peers, name) * done, Holders(peers, name) * (done + {id});
    if peers[id].name == name {
      assert now == was + {id};
    } else {
      assert now == was;
    }
  }

  lemma CollectOne(known: seq<string>, peers: PeerMap, done: set<string>, id: string)
    requires Collected(known, peers, done) && id in peers && id !in done
    ensures Collected(known + [peers[id].name], peers, done + {id})
  {
    hide Holders;
    assert multiset(known + [peers[id].name]) == multiset(known) + multiset{peers[id].name};
    forall name ensures multiset(known + [peers[id].name])[name] == |Holders(peers, name) * (done + {id})| {
      OneMoreHolder(peers, done, id, name);
    }
  }

  lemma CollectedAll(known: seq<string>, peers: PeerMap)
    requires Collected(known, peers, peers.Keys)
    ensures ListsNames(Sort(known), peers)
  {
    SortIsSorted(known);
    forall name ensures Holders(peers, name) * peers.Keys == Holders(peers, name) { }
  }

  /** The names of the peers, collected in the order of their ids and sorted. */
  method ListNames(peers: PeerMap) returns (known: seq<string>)
    ensures ListsNames(known, peers)
  {
    hide Before, Sort, Collected, ListsNames;
    known := [];
    NoneCollected(peers);
    var left := peers.Keys;
    while left != {}
      invariant left <= peers.Keys && Collected(known, peers, peers.Keys - left)
      decreases |left|
    {
      ghost var least := LeastExists(left);
      var id :| id in left && forall other :: other in left ==> other == id || Before(id, other);
      CollectOne(known, peers, peers.Keys - left, id);
      assert peers.Keys - left + {id} == peers.Keys - (left - {id});
      known := known + [peers[id].name];
      left := left - {id};
    }
    assert peers.Keys - left == peers.Keys;
    CollectedAll(known, peers);
    known := Sort(known);
  }

  lemma NoneCollected(peers: PeerMap)
    ensures Collected([], peers, peers.Keys - peers.Keys)
  {
  }
}

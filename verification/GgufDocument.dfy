/** A built file read back whole: every entry, every tensor record, and where the tensors'
  data lie. */
module GgufDocuments {
  import opened Numbers
  import opened Options
  import opened GgufFormat
  import opened GgufSpec
  import opened GgufWriter
  import opened GgufRoundTrip

  datatype Record = Record(name: Bytes, dims: seq<nat>, kind: nat, offset: nat)

  /** The tensor type of 32-bit floats. */
  const F32_KIND: nat := 0

  // ---- A reader of the format that keeps everything ----

  function ReadWords(b: Bytes, pos: nat, count: nat): (r: Parsed<seq<nat>>)
    requires pos <= |b|
    ensures r.Done? ==> pos <= r.pos <= |b| && |r.value| == count
    decreases count
  {
    if count == 0 then Done([], pos)
    else
      match Unsigned(b, pos, 8)
      case Fail(e) => Fail(e)
      case Done(w, p) =>
        match ReadWords(b, p, count - 1)
        case Fail(e) => Fail(e)
        case Done(rest, next) => Done([w] + rest, next)
  }

  function ReadRecord(b: Bytes, pos: nat): (r: Parsed<Record>)
    ensures r.Done? ==> pos < r.pos <= |b|
  {
    match Text(b, pos)
    case Fail(e) => Fail(e)
    case Done(name, p) =>
      match Unsigned(b, p, 4)
      case Fail(e) => Fail(e)
      case Done(rank, p') =>
        match ReadWords(b, p', rank)
        case Fail(e) => Fail(e)
        case Done(dims, q) =>
          match Unsigned(b, q, 4)
          case Fail(e) => Fail(e)
          case Done(kind, q') =>
            match Unsigned(b, q', 8)
            case Fail(e) => Fail(e)
            case Done(offset, next) => Done(Record(name, dims, kind, offset), next)
  }

  function ReadRecords(b: Bytes, pos: nat, count: nat): (r: Parsed<seq<Record>>)
    requires pos <= |b|
    ensures r.Done? ==> pos <= r.pos <= |b| && |r.value| == count
    decreases count
  {
    if count == 0 then Done([], pos)
    else
      match ReadRecord(b, pos)
      case Fail(e) => Fail(e)
      case Done(t, p) =>
        match ReadRecords(b, p, count - 1)
        case Fail(e) => Fail(e)
        case Done(rest, next) => Done([t] + rest, next)
  }

  function EntryAt(b: Bytes, pos: nat): (r: Parsed<Entry>)
    ensures r.Done? ==> pos < r.pos <= |b|
  {
    match Text(b, pos)
    case Fail(e) => Fail(e)
    case Done(key, p) =>
      match Unsigned(b, p, 4)
      case Fail(e) => Fail(e)
      case Done(ty, p') =>
        match ReadMeta(b, p', ty)
        case Fail(e) => Fail(e)
        case Done(m, next) => Done(Entry(key, m), next)
  }

  function EntriesAt(b: Bytes, pos: nat, count: nat): (r: Parsed<seq<Entry>>)
    requires pos <= |b|
    ensures r.Done? ==> pos <= r.pos <= |b| && |r.value| == count
    decreases count
  {
    if count == 0 then Done([], pos)
    else
      match EntryAt(b, pos)
      case Fail(e) => Fail(e)
      case Done(m, p) =>
        match EntriesAt(b, p, count - 1)
        case Fail(e) => Fail(e)
        case Done(rest, next) => Done([m] + rest, next)
  }

  function ReadDocument(b: Bytes): Parsed<(seq<Entry>, seq<Record>)> {
    match Preamble(b)
    case Fail(e) => Fail(e)
    case Done((tensors, kvs), p) =>
      match EntriesAt(b, p, kvs)
      case Fail(e) => Fail(e)
      case Done(entries, p') =>
        match ReadRecords(b, p', tensors)
        case Fail(e) => Fail(e)
        case Done(records, next) => Done((entries, records), next)
  }

  // ---- What the simulation's reader skips ----

  lemma {:induction false} WordsForget(b: Bytes, pos: nat, count: nat)
    requires pos <= |b|
    ensures Skip64(b, pos, count)
         == match ReadWords(b, pos, count)
            case Fail(e) => Fail(e)
            case Done(_, next) => Done((), next)
    decreases count
  {
    if count > 0 && pos + 8 <= |b| {
      WordsForget(b, pos + 8, count - 1);
    }
  }

  /** On every byte sequence, the simulation steps over a tensor record exactly if there is
      one with at most eight dimensions, and then to its end. */
  lemma RecordForgets(b: Bytes, pos: nat)
    ensures var r := ReadRecord(b, pos);
            TensorInfo(b, pos).Done? <==> r.Done? && |r.value.dims| <= 8
    ensures TensorInfo(b, pos).Done? ==> TensorInfo(b, pos).pos == ReadRecord(b, pos).pos
  {
    hide Le, Text;
    var name := Text(b, pos);
    if name.Done? {
      var rank := Unsigned(b, name.pos, 4);
      if rank.Done? {
        WordsForget(b, rank.pos, rank.value);
      }
    }
  }

  /** A preamble is taken exactly if it is whole, has the magic and is of version 2 or 3;
      what is wrong first is what is reported. */
  lemma PreambleIsChecked(b: Bytes)
    ensures Preamble(b).Done? <==>
              |b| >= 24 && b[..4] == [0x47, 0x47, 0x55, 0x46] && (b[4..8] == [2, 0, 0, 0] || b[4..8] == [3, 0, 0, 0])
    ensures Preamble(b).Done? ==> Preamble(b) == Done((Le(b[8..16]), Le(b[16..24])), 24)
    ensures Preamble(b).Fail? ==>
              Preamble(b).error
              == if |b| >= 4 && b[..4] != [0x47, 0x47, 0x55, 0x46] then BadMagic(Le(b[..4]))
                 else if |b| >= 8 && b[4..8] != [2, 0, 0, 0] && b[4..8] != [3, 0, 0, 0] then BadVersion(Le(b[4..8]))
                 else Truncated
  {
    hide Le;
    PreambleValues();
    if |b| >= 4 {
      assert b[0..4] == b[..4];
      SameFour(b[..4], [0x47, 0x47, 0x55, 0x46]);
    }
    if |b| >= 8 {
      SameFour(b[4..8], [2, 0, 0, 0]);
      SameFour(b[4..8], [3, 0, 0, 0]);
    }
  }

  /** Bytes of one length are told apart by their value. */
  lemma {:induction false} LeTellsApart(a: Bytes, b: Bytes)
    requires |a| == |b| && Le(a) == Le(b)
    ensures a == b
    decreases |a|
  {
    if a != [] {
      assert Le(a) % 0x100 == a[0] && Le(b) % 0x100 == b[0];
      LeTellsApart(a[1..], b[1..]);
      assert a == [a[0]] + a[1..] && b == [b[0]] + b[1..];
    }
  }

  lemma PreambleValues()
    ensures Le([0x47, 0x47, 0x55, 0x46]) == 0x4655_4747 && Le([2, 0, 0, 0]) == 2 && Le([3, 0, 0, 0]) == 3
  {
    var magic := [0x47, 0x47, 0x55, 0x46];
    assert magic[1..] == [0x47, 0x55, 0x46] && magic[1..][1..] == [0x55, 0x46] && magic[1..][1..][1..] == [0x46];
    assert Le([0x46]) == 0x46 && Le([0x55, 0x46]) == 0x4655 && Le([0x47, 0x55, 0x46]) == 0x46_5547;
    assert Le([0, 0, 0]) == 0 by { assert Le([0, 0]) == 0; }
    assert [2, 0, 0, 0][1..] == [0, 0, 0] && [3, 0, 0, 0][1..] == [0, 0, 0];
  }

  /** Four bytes with the value of these four are these four. */
  lemma SameFour(a: Bytes, b: Bytes)
    requires |a| == |b| == 4
    ensures Le(a) == Le(b) <==> a == b
  {
    if Le(a) == Le(b) {
      LeTellsApart(a, b);
    }
  }

  // ---- What was written ----

  /** The tensors' records, their data one after another from `offset` on. */
  function Placed(tensors: seq<Tensor>, offset: nat): (records: seq<Record>)
    ensures |records| == |tensors|
    decreases tensors
  {
    if tensors == [] then []
    else [Record(tensors[0].name, tensors[0].dims, F32_KIND, offset)] + Placed(tensors[1..], offset + Size(tensors[0]))
  }

  lemma {:induction false} WordsReadBack(b: Bytes, pos: nat, dims: seq<U64>)
    requires At(b, pos, WordsBytes(dims, 8))
    ensures ReadWords(b, pos, |dims|) == Done(dims, pos + 8 * |dims|)
    decreases dims
  {
    if dims != [] {
      ReadU64(b, pos, dims[0], WordsBytes(dims[1..], 8));
      WordsReadBack(b, pos + 8, dims[1..]);
      assert [dims[0]] + dims[1..] == dims;
    }
  }

  lemma RecordReadsBack(b: Bytes, pos: nat, t: Tensor, offset: nat)
    requires At(b, pos, TensorBytes(t, offset))
    requires |t.name| < U64_LIMIT && |t.dims| < U32_LIMIT && offset < U64_LIMIT
    ensures ReadRecord(b, pos) == Done(Record(t.name, t.dims, F32_KIND, offset), pos + |TensorBytes(t, offset)|)
  {
    hide ToLe, WordsBytes, Text, TextBytes, At, Unsigned, ReadWords;
    var tail := ToLe(0, 4) + ToLe(offset, 8);
    var dims := WordsBytes(t.dims, 8);
    AtSplit(b, pos, TextBytes(t.name), ToLe(|t.dims|, 4) + (dims + tail));
    ReadText(b, pos, t.name);
    var p := pos + 8 + |t.name|;
    ReadU32(b, p, |t.dims|, dims + tail);
    AtSplit(b, p + 4, dims, tail);
    WordsReadBack(b, p + 4, t.dims);
    var q := p + 4 + |dims|;
    ReadU32(b, q, 0, ToLe(offset, 8));
    ByteLimits();
    ReadWord(b, q + 4, offset, 8);
  }

  lemma {:induction false} RecordsReadBack(b: Bytes, pos: nat, tensors: seq<Tensor>, offset: nat)
    requires At(b, pos, TensorsBytes(tensors, offset))
    requires Laid(tensors) && offset + Total(tensors) < U64_LIMIT
    ensures ReadRecords(b, pos, |tensors|) == Done(Placed(tensors, offset), pos + |TensorsBytes(tensors, offset)|)
    decreases tensors
  {
    hide TensorBytes, ReadRecord, Size;
    if tensors != [] {
      var t := tensors[0];
      AtSplit(b, pos, TensorBytes(t, offset), TensorsBytes(tensors[1..], offset + Size(t)));
      RecordReadsBack(b, pos, t, offset);
      RecordsReadBack(b, pos + |TensorBytes(t, offset)|, tensors[1..], offset + Size(t));
    }
  }

  lemma EntryReadsBack(b: Bytes, pos: nat, e: Entry)
    requires At(b, pos, EntryBytes(e)) && Sized(e)
    ensures EntryAt(b, pos) == Done(e, pos + |EntryBytes(e)|)
  {
    hide ToLe, TextBytes, Payload, Text, Formed, ReadMeta;
    TypeFits(e.meta);
    AtSplit(b, pos, TextBytes(e.key), ToLe(MetaType(e.meta), 4) + Payload(e.meta));
    ReadText(b, pos, e.key);
    ReadU32(b, pos + 8 + |e.key|, MetaType(e.meta), Payload(e.meta));
    MetaReadsBack(b, pos + 8 + |e.key| + 4, e.meta);
  }

  lemma {:induction false} EntriesReadBack(b: Bytes, pos: nat, entries: seq<Entry>)
    requires At(b, pos, EntriesBytes(entries)) && forall i :: 0 <= i < |entries| ==> Sized(entries[i])
    ensures EntriesAt(b, pos, |entries|) == Done(entries, pos + |EntriesBytes(entries)|)
    decreases entries
  {
    hide EntryBytes, EntryAt, Sized;
    if entries != [] {
      AtSplit(b, pos, EntryBytes(entries[0]), EntriesBytes(entries[1..]));
      EntryReadsBack(b, pos, entries[0]);
      EntriesReadBack(b, pos + |EntryBytes(entries[0])|, entries[1..]);
      assert [entries[0]] + entries[1..] == entries;
    }
  }

  /** Whatever is declared, a built file holds all of it: the entries with their values and
      the tensors with their shapes, types and offsets. */
  lemma BuiltFileReadsBack(entries: seq<Entry>, tensors: seq<Tensor>)
    requires |entries| < U64_LIMIT && (forall i :: 0 <= i < |entries| ==> Sized(entries[i])) && Laid(tensors)
    ensures ReadDocument(FileBytes(entries, tensors))
         == Done((entries, Placed(tensors, 0)), |HeaderBytes(entries, tensors)|)
  {
    hide EntriesBytes, TensorsBytes, EntriesAt, ReadRecords, Preamble, HeaderBytes;
    var file, header := FileBytes(entries, tensors), HeaderBytes(entries, tensors);
    assert file[0..0 + |header|] == header;
    var kvs, infos := EntriesBytes(entries), TensorsBytes(tensors, 0);
    ReadPreamble(file, entries, tensors);
    AtSplit(file, 24, kvs, infos);
    EntriesReadBack(file, 24, entries);
    RecordsReadBack(file, 24 + |kvs|, tensors, 0);
    HeaderLength(entries, tensors);
  }

  lemma HeaderLength(entries: seq<Entry>, tensors: seq<Tensor>)
    ensures |HeaderBytes(entries, tensors)| == 24 + |EntriesBytes(entries)| + |TensorsBytes(tensors, 0)|
  {
  }

  // ---- Where the data lie ----

  lemma {:induction false} PlacedAt(tensors: seq<Tensor>, offset: nat, i: nat)
    requires i < |tensors|
    ensures Placed(tensors, offset)[i]
         == Record(tensors[i].name, tensors[i].dims, F32_KIND, offset + Total(tensors[..i]))
    decreases i
  {
    hide Size;
    if i > 0 {
      PlacedAt(tensors[1..], offset + Size(tensors[0]), i - 1);
      assert tensors[..i][1..] == tensors[1..][..i - 1];
    }
  }

  lemma {:induction false} TotalGrows(tensors: seq<Tensor>, i: nat)
    requires i < |tensors|
    ensures Total(tensors[..i]) + Size(tensors[i]) == Total(tensors[..i + 1]) <= Total(tensors)
    decreases |tensors| - i
  {
    hide Size, TensorsBytes, TensorBytes;
    TensorsAppend(tensors[..i], tensors[i], 0);
    assert tensors[..i + 1] == tensors[..i] + [tensors[i]];
    if i + 1 < |tensors| {
      TotalGrows(tensors, i + 1);
    } else {
      assert tensors[..i + 1] == tensors;
    }
  }

  lemma {:induction false} TotalIsMonotone(tensors: seq<Tensor>, i: nat, j: nat)
    requires i < j <= |tensors|
    ensures Total(tensors[..i]) + Size(tensors[i]) <= Total(tensors[..j])
    decreases j
  {
    hide Size;
    if i + 1 < j {
      TotalIsMonotone(tensors, i, j - 1);
      TotalGrows(tensors, j - 1);
    } else {
      TotalGrows(tensors, i);
    }
  }

  /** The tensors' data lie in the data section without overlap, in order. */
  lemma DataDoNotOverlap(tensors: seq<Tensor>, i: nat, j: nat)
    requires i < j < |tensors|
    ensures var records := Placed(tensors, 0);
            records[i].offset + Size(tensors[i]) <= records[j].offset
            && records[j].offset + Size(tensors[j]) <= Total(tensors)
  {
    hide Size, Total, Placed;
    PlacedAt(tensors, 0, i);
    PlacedAt(tensors, 0, j);
    TotalIsMonotone(tensors, i, j);
    TotalGrows(tensors, j);
  }

  /** Sizes that are multiples of 32 put every tensor at a multiple of 32. */
  lemma {:induction false} OffsetsAreAligned(tensors: seq<Tensor>, i: nat)
    requires i < |tensors| && forall k :: 0 <= k < i ==> Size(tensors[k]) % 32 == 0
    ensures Placed(tensors, 0)[i].offset % 32 == 0
    decreases i
  {
    hide Size, Placed;
    PlacedAt(tensors, 0, i);
    if i > 0 {
      OffsetsAreAligned(tensors, i - 1);
      PlacedAt(tensors, 0, i - 1);
      TotalGrows(tensors, i - 1);
    }
  }
}

/** Reading back what the writer wrote. */
module GgufRoundTrip {
  import opened Numbers
  import opened Options
  import opened GgufFormat
  import opened GgufSpec
  import opened GgufWriter

  /** `s` stands in `b` at `pos`. */
  ghost predicate At(b: Bytes, pos: nat, s: Bytes) {
    pos + |s| <= |b| && b[pos..pos + |s|] == s
  }

  lemma AtSplit(b: Bytes, pos: nat, s: Bytes, t: Bytes)
    requires At(b, pos, s + t)
    ensures At(b, pos, s) && At(b, pos + |s|, t)
  {
    assert s == (s + t)[..|s|] == b[pos..pos + |s|];
    assert t == (s + t)[|s|..] == b[pos + |s|..pos + |s| + |t|];
  }

  lemma {:induction false} LeReadsBack(n: nat, width: nat)
    requires n < Power(256, width)
    ensures Le(ToLe(n, width)) == n
  {
    if width > 0 {
      LeReadsBack(n / 0x100, width - 1);
      assert ToLe(n, width)[1..] == ToLe(n / 0x100, width - 1);
    }
  }

  lemma ReadWord(b: Bytes, pos: nat, n: nat, width: nat)
    requires At(b, pos, ToLe(n, width)) && n < Power(256, width)
    ensures Unsigned(b, pos, width) == Done(n, pos + width)
  {
    LeReadsBack(n, width);
  }

  lemma ReadU32(b: Bytes, pos: nat, n: nat, rest: Bytes)
    requires At(b, pos, ToLe(n, 4) + rest) && n < U32_LIMIT
    ensures Unsigned(b, pos, 4) == Done(n, pos + 4)
    ensures At(b, pos + 4, rest)
  {
    ByteLimits();
    AtSplit(b, pos, ToLe(n, 4), rest);
    ReadWord(b, pos, n, 4);
  }

  lemma ReadU64(b: Bytes, pos: nat, n: nat, rest: Bytes)
    requires At(b, pos, ToLe(n, 8) + rest) && n < U64_LIMIT
    ensures Unsigned(b, pos, 8) == Done(n, pos + 8)
    ensures At(b, pos + 8, rest)
  {
    ByteLimits();
    AtSplit(b, pos, ToLe(n, 8), rest);
    ReadWord(b, pos, n, 8);
  }

  lemma ReadText(b: Bytes, pos: nat, s: Bytes)
    requires At(b, pos, TextBytes(s)) && |s| < U64_LIMIT
    ensures Text(b, pos) == Done(s, pos + 8 + |s|)
  {
    ReadU64(b, pos, |s|, s);
  }

  lemma ReadArrayHead(b: Bytes, pos: nat, ty: nat, count: nat, elements: Bytes)
    requires At(b, pos, ToLe(ty, 4) + (ToLe(count, 8) + elements)) && ty < U32_LIMIT && count < U64_LIMIT
    ensures Unsigned(b, pos, 4) == Done(ty, pos + 4)
    ensures Unsigned(b, pos + 4, 8) == Done(count, pos + 12)
    ensures At(b, pos + 12, elements)
  {
    hide ToLe;
    ReadU32(b, pos, ty, ToLe(count, 8) + elements);
    ReadU64(b, pos + 4, count, elements);
  }

  /** Every value of the format, nested as deeply as one likes, reads back as itself. */
  lemma {:induction false} MetaReadsBack(b: Bytes, pos: nat, m: Meta)
    requires At(b, pos, Payload(m)) && Formed(m)
    ensures ReadMeta(b, pos, MetaType(m)) == Done(m, pos + |Payload(m)|)
    decreases m
  {
    hide ToLe, ItemsBytes, ReadItems, Le;
    match m
    case Scalar(t, bits) =>
      CodedIsInverse(t);
      NoOtherCode(t);
      ReadWord(b, pos, bits, Width(t));
    case Str(text) =>
      ReadText(b, pos, text);
    case Array(elem, items) =>
      ReadArrayHead(b, pos, elem, |items|, ItemsBytes(items));
      ItemsReadBack(b, pos + 12, elem, items);
  }

  lemma {:induction false} ItemsReadBack(b: Bytes, pos: nat, elem: nat, items: seq<Meta>)
    requires At(b, pos, ItemsBytes(items))
    requires forall i :: 0 <= i < |items| ==> MetaType(items[i]) == elem && Formed(items[i])
    ensures ReadItems(b, pos, elem, |items|) == Done(items, pos + |ItemsBytes(items)|)
    decreases items
  {
    hide Payload, ReadMeta;
    if items != [] {
      AtSplit(b, pos, Payload(items[0]), ItemsBytes(items[1..]));
      MetaReadsBack(b, pos, items[0]);
      ItemsReadBack(b, pos + |Payload(items[0])|, elem, items[1..]);
      assert [items[0]] + items[1..] == items;
    }
  }

  lemma ReadStr(b: Bytes, pos: nat, m: Meta)
    requires m.Str? && At(b, pos, Payload(m)) && |m.text| < U64_LIMIT
    ensures Text(b, pos) == Done(m.text, pos + |Payload(m)|)
  {
    ReadText(b, pos, m.text);
  }

  /** The simulation's reader steps over any written value, and keeps a natural number. */
  lemma ReadPayload(b: Bytes, pos: nat, m: Meta)
    requires At(b, pos, Payload(m)) && Formed(m) && |b| < U64_LIMIT
    ensures Value(b, pos, MetaType(m)) == Done(NatOf(m), pos + |Payload(m)|)
  {
    hide Payload, ReadMeta, Value, NatOf, MetaType, Formed;
    MetaReadsBack(b, pos, m);
    ValueForgets(b, pos, MetaType(m));
  }

  /** What the reader learns from an entry. */
  function Learned(facts: Facts, e: Entry): Facts {
    if e.meta.Str? && e.key == ARCHITECTURE then Facts(Some(e.meta.text), facts.scalars)
    else
      match NatOf(e.meta)
      case Some(n) => Facts(facts.arch, facts.scalars[e.key := n])
      case None => facts
  }

  /** The bytes of the entry's strings are valid UTF-8. */
  ghost predicate Utf8(lossy: Lossy, e: Entry) {
    lossy(e.key) == e.key && (e.meta.Str? ==> lossy(e.meta.text) == e.meta.text)
  }

  lemma ReadBinding(lossy: Lossy, b: Bytes, pos: nat, e: Entry, facts: Facts)
    requires At(b, pos, Payload(e.meta)) && Sized(e) && Utf8(lossy, e) && |b| < U64_LIMIT
    ensures Bind(lossy, b, pos, e.key, MetaType(e.meta), facts) == Done(Learned(facts, e), pos + |Payload(e.meta)|)
  {
    hide Value, Text, Payload, Ascii, At, NatOf;
    if e.meta.Str? {
      ReadStr(b, pos, e.meta);
    }
    ReadPayload(b, pos, e.meta);
  }

  lemma TypeFits(m: Meta)
    ensures MetaType(m) < U32_LIMIT
  {
  }

  lemma ReadEntry(lossy: Lossy, b: Bytes, pos: nat, e: Entry, facts: Facts)
    requires At(b, pos, EntryBytes(e)) && Sized(e) && Utf8(lossy, e) && |b| < U64_LIMIT
    ensures KeyValue(lossy, b, pos, facts) == Done(Learned(facts, e), pos + |EntryBytes(e)|)
  {
    hide ToLe, TextBytes, Payload, Bind, Text, Formed;
    TypeFits(e.meta);
    var ty := ToLe(MetaType(e.meta), 4);
    AtSplit(b, pos, TextBytes(e.key), ty + Payload(e.meta));
    ReadText(b, pos, e.key);
    ReadU32(b, pos + 8 + |e.key|, MetaType(e.meta), Payload(e.meta));
    ReadBinding(lossy, b, pos + 8 + |e.key| + 4, e, facts);
  }

  function LearnedAll(facts: Facts, entries: seq<Entry>): Facts
    decreases entries
  {
    if entries == [] then facts else LearnedAll(Learned(facts, entries[0]), entries[1..])
  }

  ghost predicate Writable(lossy: Lossy, entries: seq<Entry>) {
    |entries| < U64_LIMIT && forall i :: 0 <= i < |entries| ==> Sized(entries[i]) && Utf8(lossy, entries[i])
  }

  lemma {:induction false} ReadEntries(lossy: Lossy, b: Bytes, pos: nat, entries: seq<Entry>, facts: Facts)
    requires At(b, pos, EntriesBytes(entries)) && Writable(lossy, entries) && |b| < U64_LIMIT
    ensures KeyValues(lossy, b, pos, |entries|, facts)
         == Done(LearnedAll(facts, entries), pos + |EntriesBytes(entries)|)
    decreases entries
  {
    hide EntryBytes, KeyValue, Learned;
    if entries != [] {
      var e := entries[0];
      AtSplit(b, pos, EntryBytes(e), EntriesBytes(entries[1..]));
      ReadEntry(lossy, b, pos, e, facts);
      ReadEntries(lossy, b, pos + |EntryBytes(e)|, entries[1..], Learned(facts, e));
    }
  }

  lemma {:induction false} ReadDims(b: Bytes, pos: nat, dims: seq<U64>)
    requires At(b, pos, WordsBytes(dims, 8))
    ensures Skip64(b, pos, |dims|) == Done((), pos + 8 * |dims|)
    decreases dims
  {
    if dims != [] {
      ReadU64(b, pos, dims[0], WordsBytes(dims[1..], 8));
      ReadDims(b, pos + 8, dims[1..]);
    }
  }

  /** Lengths and offsets that 64 bits can hold. */
  ghost predicate Laid(tensors: seq<Tensor>) {
    && |tensors| < U64_LIMIT && Total(tensors) < U64_LIMIT
    && forall i :: 0 <= i < |tensors| ==> |tensors[i].name| < U64_LIMIT && |tensors[i].dims| < U32_LIMIT
  }

  lemma ReadTensor(b: Bytes, pos: nat, t: Tensor, offset: nat)
    requires At(b, pos, TensorBytes(t, offset))
    requires |t.name| < U64_LIMIT && |t.dims| < U32_LIMIT && offset < U64_LIMIT
    ensures TensorInfo(b, pos)
         == if |t.dims| > 8 then Fail(TooManyDims(|t.dims|)) else Done((), pos + |TensorBytes(t, offset)|)
  {
    hide ToLe, WordsBytes, Text, Skip64, TextBytes, At, Unsigned;
    var tail := ToLe(0, 4) + ToLe(offset, 8);
    var dims := WordsBytes(t.dims, 8);
    AtSplit(b, pos, TextBytes(t.name), ToLe(|t.dims|, 4) + (dims + tail));
    ReadText(b, pos, t.name);
    var p := pos + 8 + |t.name|;
    ReadU32(b, p, |t.dims|, dims + tail);
    if |t.dims| <= 8 {
      AtSplit(b, p + 4, dims, tail);
      ReadDims(b, p + 4, t.dims);
      var q := p + 4 + |dims|;
      ReadU32(b, q, 0, ToLe(offset, 8));
      ByteLimits();
      ReadWord(b, q + 4, offset, 8);
    }
  }

  /** The first tensor with more dimensions than the reader takes. */
  function FirstWide(tensors: seq<Tensor>): Option<nat> {
    if tensors == [] then None
    else if |tensors[0].dims| > 8 then Some(|tensors[0].dims|)
    else FirstWide(tensors[1..])
  }

  lemma {:induction false} ReadTensors(b: Bytes, pos: nat, tensors: seq<Tensor>, offset: nat)
    requires At(b, pos, TensorsBytes(tensors, offset))
    requires Laid(tensors) && offset + Total(tensors) < U64_LIMIT
    ensures TensorInfos(b, pos, |tensors|)
         == match FirstWide(tensors)
            case Some(n) => Fail(TooManyDims(n))
            case None => Done((), pos + |TensorsBytes(tensors, offset)|)
    decreases tensors
  {
    hide TensorBytes, TensorInfo;
    if tensors != [] {
      var t := tensors[0];
      AtSplit(b, pos, TensorBytes(t, offset), TensorsBytes(tensors[1..], offset + Size(t)));
      ReadTensor(b, pos, t, offset);
      if |t.dims| <= 8 {
        ReadTensors(b, pos + |TensorBytes(t, offset)|, tensors[1..], offset + Size(t));
      }
    }
  }

  const NOTHING: Facts := Facts(None, map[])

  lemma ReadPreamble(b: Bytes, entries: seq<Entry>, tensors: seq<Tensor>)
    requires At(b, 0, HeaderBytes(entries, tensors)) && |entries| < U64_LIMIT && |tensors| < U64_LIMIT
    ensures Preamble(b) == Done((|tensors|, |entries|), 24)
    ensures At(b, 24, EntriesBytes(entries) + TensorsBytes(tensors, 0))
  {
    var body := EntriesBytes(entries) + TensorsBytes(tensors, 0);
    var kvs := ToLe(|entries|, 8) + body;
    var counts := ToLe(|tensors|, 8) + kvs;
    ReadU32(b, 0, 0x4655_4747, ToLe(3, 4) + counts);
    ReadU32(b, 4, 3, counts);
    ReadU64(b, 8, |tensors|, kvs);
    ReadU64(b, 16, |entries|, body);
  }

  /** Any file that begins with a written header is read back as that header. */
  lemma ReadHeader(lossy: Lossy, b: Bytes, entries: seq<Entry>, tensors: seq<Tensor>)
    requires At(b, 0, HeaderBytes(entries, tensors)) && Writable(lossy, entries) && Laid(tensors)
    requires |b| < U64_LIMIT
    ensures Header(lossy, b)
         == match FirstWide(tensors)
            case Some(n) => Fail(TooManyDims(n))
            case None => Done(LearnedAll(NOTHING, entries), |HeaderBytes(entries, tensors)|)
  {
    hide EntriesBytes, TensorsBytes, KeyValues, TensorInfos, Preamble, LearnedAll;
    var kvs, infos := EntriesBytes(entries), TensorsBytes(tensors, 0);
    ReadPreamble(b, entries, tensors);
    AtSplit(b, 24, kvs, infos);
    ReadEntries(lossy, b, 24, entries, NOTHING);
    ReadTensors(b, 24 + |kvs|, tensors, 0);
    assert |HeaderBytes(entries, tensors)| == 24 + |kvs| + |infos|;
  }

  /** Parsing a built file comes to an end past the header exactly if no tensor has
      more than eight dimensions. */
  lemma BuiltFileParses(lossy: Lossy, entries: seq<Entry>, tensors: seq<Tensor>)
    requires Writable(lossy, entries) && Laid(tensors) && |FileBytes(entries, tensors)| < U64_LIMIT
    ensures var file := FileBytes(entries, tensors);
            Parse(lossy, file, |file|) == (match FirstWide(tensors)
              case Some(n) => Err(TooManyDims(n))
              case None => Conclude(LearnedAll(NOTHING, entries), |HeaderBytes(entries, tensors)|, |file|))
  {
    hide HeaderBytes, Header, Conclude, LearnedAll;
    var file, header := FileBytes(entries, tensors), HeaderBytes(entries, tensors);
    assert file[0..0 + |header|] == header;
    ReadHeader(lossy, file, entries, tensors);
  }

  // ---- What was declared ----

  /** The last natural number written under a key, of whatever type. */
  function LastNat(entries: seq<Entry>, key: Bytes): Option<nat> {
    if entries == [] then None
    else
      var e := entries[|entries| - 1];
      if e.key == key && NatOf(e.meta).Some? then NatOf(e.meta) else LastNat(entries[..|entries| - 1], key)
  }

  /** The last architecture written. */
  function LastArchitecture(entries: seq<Entry>): Option<Bytes> {
    if entries == [] then None
    else
      var e := entries[|entries| - 1];
      if e.key == ARCHITECTURE && e.meta.Str? then Some(e.meta.text) else LastArchitecture(entries[..|entries| - 1])
  }

  lemma {:induction false} LearnedLast(facts: Facts, entries: seq<Entry>, e: Entry)
    ensures LearnedAll(facts, entries + [e]) == Learned(LearnedAll(facts, entries), e)
    decreases entries
  {
    hide Learned;
    if entries == [] {
      assert (entries + [e])[1..] == [];
    } else {
      assert (entries + [e])[1..] == entries[1..] + [e];
      LearnedLast(Learned(facts, entries[0]), entries[1..], e);
    }
  }

  /** The reader remembers exactly the last binding of each key. */
  lemma {:induction false} LearnedIsLast(entries: seq<Entry>, key: Bytes)
    ensures var facts := LearnedAll(NOTHING, entries);
            && facts.arch == LastArchitecture(entries)
            && LastNat(entries, key) == if key in facts.scalars then Some(facts.scalars[key]) else None
    decreases |entries|
  {
    hide Ascii, Integer;
    if entries != [] {
      var init, e := entries[..|entries| - 1], entries[|entries| - 1];
      assert entries == init + [e];
      LearnedLast(NOTHING, init, e);
      LearnedIsLast(init, key);
    }
  }

  /** The last natural number written under a key is what counts as declared, if it is
      not zero. */
  function Declared(entries: seq<Entry>, key: Bytes): (r: Option<nat>)
    ensures r.Some? ==> 0 < r.value
  {
    match LastNat(entries, key)
    case Some(n) => if n > 0 then Some(n) else None
    case None => None
  }

  lemma DeclaredIsRead(entries: seq<Entry>, key: Bytes)
    ensures Positive(LearnedAll(NOTHING, entries), key) == Declared(entries, key)
  {
    LearnedIsLast(entries, key);
  }

  /** The width of the K or V rows of `kvHeads` heads, of `heads` that share an embedding;
      without a head count, all of it. */
  function HeadsWidth(embd: nat, heads: Option<nat>, kvHeads: Option<nat>): nat {
    if heads.None? || heads.value == 0 then embd
    else (if kvHeads.Some? then kvHeads.value else heads.value) * (embd / heads.value)
  }

  /** That width by the head counts a built file declares. */
  function DeclaredWidth(entries: seq<Entry>, arch: Bytes, embd: nat): nat {
    HeadsWidth(embd, Declared(entries, Key(arch, "attention.head_count")),
               Declared(entries, Key(arch, "attention.head_count_kv")))
  }

  /** A row is never outside [1, embd]. */
  function DeclaredRow(entries: seq<Entry>, arch: Bytes, embd: nat): (row: nat)
    ensures 1 <= row && (0 < embd ==> row <= embd)
  {
    var n := DeclaredWidth(entries, arch, embd);
    if n < 1 || embd < 1 then 1 else if embd < n then embd else n
  }

  /** The sizes of a row leave 64 bits. */
  predicate RowOverflows(entries: seq<Entry>, arch: Bytes, embd: nat) {
    DeclaredWidth(entries, arch, embd) >= U64_LIMIT || 4 * DeclaredRow(entries, arch, embd) >= U64_LIMIT
  }

  /** Head counts and widths of 32 bits never do. */
  lemma SmallRowsFit(entries: seq<Entry>, arch: Bytes, embd: nat)
    requires embd < U32_LIMIT
    requires var n := Declared(entries, Key(arch, "attention.head_count")); n.Some? ==> n.value < U32_LIMIT
    requires var n := Declared(entries, Key(arch, "attention.head_count_kv")); n.Some? ==> n.value < U32_LIMIT
    ensures !RowOverflows(entries, arch, embd)
  {
    hide Key, LastNat, Declared;
    SmallWidth(embd, Declared(entries, Key(arch, "attention.head_count")),
               Declared(entries, Key(arch, "attention.head_count_kv")));
  }

  lemma SmallWidth(embd: nat, heads: Option<nat>, kvHeads: Option<nat>)
    requires embd < U32_LIMIT
    requires (heads.Some? ==> heads.value < U32_LIMIT) && (kvHeads.Some? ==> kvHeads.value < U32_LIMIT)
    ensures HeadsWidth(embd, heads, kvHeads) < U64_LIMIT
  {
    if heads.Some? && heads.value > 0 {
      var share := embd / heads.value;
      assert share <= embd;
      var k := if kvHeads.Some? then kvHeads.value else heads.value;
      SmallProduct(k, share);
    }
  }

  lemma SmallProduct(a: nat, b: nat)
    requires a < U32_LIMIT && b < U32_LIMIT
    ensures a * b < U64_LIMIT
  {
    assert a * b <= a * U32_LIMIT;
    assert U64_LIMIT == U32_LIMIT * U32_LIMIT;
  }

  /** The alignment a built file declares: 32 unless its own metadata say otherwise. */
  function DeclaredAlignment(entries: seq<Entry>): (a: nat)
    ensures 0 < a
  {
    match Declared(entries, ALIGNMENT)
    case Some(a) => a
    case None => 32
  }

  /** What the metadata of a built file say of its model, and what they lack first. */
  function Described(entries: seq<Entry>, weightBytes: nat): Result {
    match LastArchitecture(entries)
    case None => Err(NoArchitecture)
    case Some(arch) =>
      match Declared(entries, Key(arch, "block_count"))
      case None => Err(Lacks(arch, Ascii("block_count")))
      case Some(layers) =>
        match Declared(entries, Key(arch, "embedding_length"))
        case None => Err(Lacks(arch, Ascii("embedding_length")))
        case Some(embd) =>
          if RowOverflows(entries, arch, embd) then Err(Overflow)
          else Ok(Dims(layers, 4 * DeclaredRow(entries, arch, embd), weightBytes, embd))
  }

  lemma WidthIsRead(entries: seq<Entry>, arch: Bytes, embd: nat)
    ensures KvWidth(LearnedAll(NOTHING, entries), arch, embd) == DeclaredWidth(entries, arch, embd)
  {
    hide Key, LearnedAll, LastNat, Declared, Positive;
    DeclaredIsRead(entries, Key(arch, "attention.head_count"));
    DeclaredIsRead(entries, Key(arch, "attention.head_count_kv"));
  }

  lemma ShapeIsRead(entries: seq<Entry>, weightBytes: nat)
    ensures var facts := LearnedAll(NOTHING, entries);
            Described(entries, weightBytes)
            == if facts.arch.None? then Err(NoArchitecture) else Shape(facts, facts.arch.value, weightBytes)
  {
    hide Key, LearnedAll, LastNat, KvWidth, DeclaredWidth, Declared, Ascii, Positive, LastArchitecture;
    LearnedIsLast(entries, []);
    var arch := LastArchitecture(entries);
    if arch.Some? {
      DeclaredIsRead(entries, Key(arch.value, "block_count"));
      DeclaredIsRead(entries, Key(arch.value, "embedding_length"));
      var embd := Declared(entries, Key(arch.value, "embedding_length"));
      if embd.Some? {
        WidthIsRead(entries, arch.value, embd.value);
      }
    }
  }

  /** Rounding up gives the least multiple that is not below. */
  lemma RoundUpIsLeast(n: nat, unit: nat)
    requires 0 < unit
    ensures n <= RoundUp(n, unit) < n + unit
    ensures exists k: nat :: RoundUp(n, unit) == k * unit
    ensures forall k: nat :: n <= k * unit ==> RoundUp(n, unit) <= k * unit
  {
    var m := n + unit - 1;
    var q := m / unit;
    assert m == q * unit + m % unit;
    assert RoundUp(n, unit) == q * unit;
    forall k: nat | n <= k * unit ensures q * unit <= k * unit {
      assert q * unit < (k + 1) * unit;
      FewerMultiples(q, k + 1, unit);
      MoreMultiples(q, k, unit);
    }
  }

  lemma FewerMultiples(a: nat, b: nat, unit: nat)
    requires a * unit < b * unit
    ensures a < b
  {
    if b <= a {
      MoreMultiples(b, a, unit);
    }
  }

  lemma MoreMultiples(a: nat, b: nat, unit: nat)
    requires a <= b
    ensures a * unit <= b * unit
  {
  }

  /** The outcome of parsing a built file, for any metadata at all: too wide a tensor, an
      alignment that puts the data past the end, what the metadata lack, or the model they
      describe with the bytes from the aligned end of the header on as its weights. */
  lemma BuiltFileOutcome(lossy: Lossy, entries: seq<Entry>, tensors: seq<Tensor>)
    requires Writable(lossy, entries) && Laid(tensors) && |FileBytes(entries, tensors)| < U64_LIMIT
    ensures var file := FileBytes(entries, tensors);
            var offset := RoundUp(|HeaderBytes(entries, tensors)|, DeclaredAlignment(entries));
            Parse(lossy, file, |file|)
            == if FirstWide(tensors).Some? then Err(TooManyDims(FirstWide(tensors).value))
               else if offset >= U64_LIMIT then Err(Overflow)
               else if |file| < offset then Err(ShortFile(|file|, offset))
               else Described(entries, |file| - offset)
  {
    hide LearnedAll, HeaderBytes, FileBytes, LastNat, Shape, Described, RoundUp, Parse, Declared, Positive, FirstWide, Ascii;
    var file := FileBytes(entries, tensors);
    BuiltFileParses(lossy, entries, tensors);
    DeclaredIsRead(entries, ALIGNMENT);
    var offset := RoundUp(|HeaderBytes(entries, tensors)|, DeclaredAlignment(entries));
    if offset <= |file| {
      ShapeIsRead(entries, |file| - offset);
    }
  }

  /** What the header of a built file declares about its model. */
  ghost predicate Declares(entries: seq<Entry>, arch: Bytes, layers: nat, embd: nat) {
    && LastArchitecture(entries) == Some(arch)
    && Declared(entries, Key(arch, "block_count")) == Some(layers)
    && Declared(entries, Key(arch, "embedding_length")) == Some(embd)
    && !RowOverflows(entries, arch, embd)
  }

  /** Round trip.  Parsing a built file, under any metadata that declare a model,
      recovers its layer count, embedding width and KV rate; the weight total is the sum
      of the declared tensor sizes exactly if the declared alignment rounds the header
      up to where the builder did. */
  lemma RoundTrip(lossy: Lossy, entries: seq<Entry>, tensors: seq<Tensor>, arch: Bytes, layers: nat, embd: nat)
    requires Writable(lossy, entries) && Laid(tensors) && |FileBytes(entries, tensors)| < U64_LIMIT
    requires Declares(entries, arch, layers, embd) && FirstWide(tensors) == None
    ensures var file := FileBytes(entries, tensors);
            var header := |HeaderBytes(entries, tensors)|;
            var offset := RoundUp(header, DeclaredAlignment(entries));
            var r := Parse(lossy, file, |file|);
            if offset > |file| then r.Err?
            else
              && r == Ok(Dims(layers, 4 * DeclaredRow(entries, arch, embd), |file| - offset, embd))
              && (r.dims.weightBytes == Total(tensors) <==> offset == RoundUp(header, 32))
  {
    hide HeaderBytes, LastNat, DeclaredRow, Key, RoundUp, Parse, Ascii, RowOverflows, Declared;
    BuiltFileOutcome(lossy, entries, tensors);
    RoundUpIsLeast(|HeaderBytes(entries, tensors)|, 32);
  }

  /** With no alignment of its own, or 32, a built file always reads back in full. */
  lemma RoundTripUnaligned(lossy: Lossy, entries: seq<Entry>, tensors: seq<Tensor>, arch: Bytes, layers: nat, embd: nat)
    requires Writable(lossy, entries) && Laid(tensors) && |FileBytes(entries, tensors)| < U64_LIMIT
    requires Declares(entries, arch, layers, embd) && FirstWide(tensors) == None
    requires DeclaredAlignment(entries) == 32
    ensures var file := FileBytes(entries, tensors);
            Parse(lossy, file, |file|)
            == Ok(Dims(layers, 4 * DeclaredRow(entries, arch, embd), Total(tensors), embd))
  {
    hide HeaderBytes, TensorsBytes, Declares, DeclaredRow, RoundUp, Parse, DeclaredAlignment;
    RoundUpIsLeast(|HeaderBytes(entries, tensors)|, 32);
    RoundTrip(lossy, entries, tensors, arch, layers, embd);
  }

  /** A built file parses exactly if its tensors are narrow enough, its own alignment
      leaves the header inside the file, and it declares a model. */
  lemma ParsesIffDeclared(lossy: Lossy, entries: seq<Entry>, tensors: seq<Tensor>)
    requires Writable(lossy, entries) && Laid(tensors) && |FileBytes(entries, tensors)| < U64_LIMIT
    ensures var file := FileBytes(entries, tensors);
            Parse(lossy, file, |file|).Ok? <==>
              && FirstWide(tensors) == None
              && RoundUp(|HeaderBytes(entries, tensors)|, DeclaredAlignment(entries)) <= |file|
              && exists arch, layers, embd :: Declares(entries, arch, layers, embd)
  {
    hide HeaderBytes, FileBytes, LastNat, DeclaredRow, Key, RoundUp, Parse, Ascii, RowOverflows, Declared, LastArchitecture;
    var file := FileBytes(entries, tensors);
    BuiltFileOutcome(lossy, entries, tensors);
    if Parse(lossy, file, |file|).Ok? {
      var arch := LastArchitecture(entries).value;
      var layers := Declared(entries, Key(arch, "block_count")).value;
      assert Declares(entries, arch, layers, Declared(entries, Key(arch, "embedding_length")).value);
    }
  }

  // ---- A model of the simulation ----

  lemma {:induction false} AsciiJoins(s: string, t: string)
    ensures Ascii(s + t) == Ascii(s) + Ascii(t)
    decreases |s|
  {
    if s == [] {
      assert s + t == t;
    } else {
      assert (s + t)[1..] == s[1..] + t;
      AsciiJoins(s[1..], t);
    }
  }

  lemma LastNatOne(entries: seq<Entry>, e: Entry, key: Bytes)
    ensures LastNat(entries + [e], key)
         == if e.key == key && NatOf(e.meta).Some? then NatOf(e.meta) else LastNat(entries, key)
    ensures LastArchitecture(entries + [e])
         == if e.key == ARCHITECTURE && e.meta.Str? then Some(e.meta.text) else LastArchitecture(entries)
  {
    hide Ascii, NatOf;
    assert (entries + [e])[..|entries|] == entries;
  }

  function Number(key: string, n: U32): Entry {
    Entry(Ascii(key), Scalar(UInt32, n))
  }

  /** The metadata that give the synthetic model of the simulation its shape. */
  function SyntheticShape(): seq<Entry> {
    [Entry(Ascii("general.architecture"), Str(Ascii("llama")))] + [Number("llama." + "block_count", 2)]
    + [Number("llama." + "embedding_length", 64)] + [Number("llama." + "attention.head_count", 4)]
    + [Number("llama." + "attention.head_count_kv", 2)]
  }

  lemma SyntheticKey(suffix: string)
    ensures Key(Ascii("llama"), suffix) == Ascii("llama." + suffix)
  {
    AsciiJoins("llama", "." + suffix);
    assert "llama" + ("." + suffix) == "llama." + suffix;
  }

  lemma SyntheticValue(key: Bytes)
    ensures LastNat(SyntheticShape(), key)
         == if key == Ascii("llama." + "attention.head_count_kv") then Some(2)
            else if key == Ascii("llama." + "attention.head_count") then Some(4)
            else if key == Ascii("llama." + "embedding_length") then Some(64)
            else if key == Ascii("llama." + "block_count") then Some(2)
            else None
    ensures LastArchitecture(SyntheticShape()) == Some(Ascii("llama"))
  {
    hide Ascii, LastNat, LastArchitecture;
    var e0 := Entry(Ascii("general.architecture"), Str(Ascii("llama")));
    var e1, e2 := Number("llama." + "block_count", 2), Number("llama." + "embedding_length", 64);
    var e3, e4 := Number("llama." + "attention.head_count", 4), Number("llama." + "attention.head_count_kv", 2);
    assert [] + [e0] == [e0];
    NothingDeclared(key);
    LastNatOne([], e0, key);
    LastNatOne([e0], e1, key);
    LastNatOne([e0] + [e1], e2, key);
    LastNatOne([e0] + [e1] + [e2], e3, key);
    LastNatOne([e0] + [e1] + [e2] + [e3], e4, key);
    assert Ascii("llama." + "attention.head_count_kv") != ARCHITECTURE;
    assert Ascii("llama." + "attention.head_count") != ARCHITECTURE;
    assert Ascii("llama." + "embedding_length") != ARCHITECTURE && Ascii("llama." + "block_count") != ARCHITECTURE;
  }

  lemma NothingDeclared(key: Bytes)
    ensures LastNat([], key) == None
  {
  }

  /** Two layers, and rows of two heads of sixteen: 128 bytes of K and V for each token. */
  lemma SyntheticModelIsDescribed(weightBytes: nat)
    ensures Described(SyntheticShape(), weightBytes) == Ok(Dims(2, 128, weightBytes, 64))
    ensures DeclaredAlignment(SyntheticShape()) == 32
  {
    hide Ascii, LastNat, LastArchitecture, SyntheticShape, Key;
    SyntheticKey("block_count");
    SyntheticKey("embedding_length");
    SyntheticKey("attention.head_count");
    SyntheticKey("attention.head_count_kv");
    SyntheticValue(Ascii("llama." + "block_count"));
    SyntheticValue(Ascii("llama." + "embedding_length"));
    SyntheticValue(Ascii("llama." + "attention.head_count"));
    SyntheticValue(Ascii("llama." + "attention.head_count_kv"));
    SyntheticValue(ALIGNMENT);
    OtherKeys();
  }

  lemma OtherKeys()
    ensures ALIGNMENT != Ascii("llama." + "block_count")
  {
    hide Ascii;
    HeadsDiffer("general.alignment", "llama." + "block_count");
  }

  lemma HeadsDiffer(s: string, t: string)
    requires s != [] && t != [] && s[0] as int % 0x100 != t[0] as int % 0x100
    ensures Ascii(s) != Ascii(t)
  {
    assert Ascii(s)[0] == s[0] as int % 0x100 && Ascii(t)[0] == t[0] as int % 0x100;
  }
}

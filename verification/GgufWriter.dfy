/** The GGUF writer: what each call appends, and the builder that appends it. */
module GgufWriter {
  import opened Numbers
  import opened GgufFormat
  import opened GgufSpec

  type U32 = n: int | 0 <= n < U32_LIMIT
  type U64 = n: int | 0 <= n < U64_LIMIT
  type I32 = n: int | -0x8000_0000 <= n < 0x8000_0000

  datatype Entry = Entry(key: Bytes, meta: Meta)
  datatype Tensor = Tensor(name: Bytes, dims: seq<U64>)

  /** A value whose bits fit its type, whose lengths 64 bits can hold, and whose arrays
      hold items of their one type. */
  predicate Formed(m: Meta) {
    match m
    case Scalar(t, bits) => bits < Power(256, Width(t))
    case Str(text) => |text| < U64_LIMIT
    case Array(elem, items) =>
      && elem < U32_LIMIT && |items| < U64_LIMIT
      && forall i :: 0 <= i < |items| ==> MetaType(items[i]) == elem && Formed(items[i])
  }

  predicate Sized(e: Entry) {
    |e.key| < U64_LIMIT && Formed(e.meta)
  }

  // ---- The values each call declares ----

  function Texts(vals: seq<Bytes>): (items: seq<Meta>)
    ensures |items| == |vals| && forall i :: 0 <= i < |vals| ==> items[i] == Str(vals[i])
  {
    seq(|vals|, i requires 0 <= i < |vals| => Str(vals[i]))
  }

  /** `n` floats of value zero. */
  function FloatZeros(n: nat): (items: seq<Meta>)
    ensures |items| == n && forall i :: 0 <= i < n ==> items[i] == Scalar(Float32, 0)
  {
    seq(n, i requires 0 <= i < n => Scalar(Float32, 0))
  }

  /** The 32 bits of a signed integer. */
  function BitsOf(i: I32): (bits: U32)
    ensures Signed(bits, 4) == i
  {
    ByteLimits();
    if i < 0 then i + U32_LIMIT else i
  }

  function Ints(vals: seq<I32>): (items: seq<Meta>)
    ensures |items| == |vals| && forall i :: 0 <= i < |vals| ==> items[i] == Scalar(Int32, BitsOf(vals[i]))
  {
    seq(|vals|, i requires 0 <= i < |vals| => Scalar(Int32, BitsOf(vals[i])))
  }

  // ---- The bytes of each call ----

  /** The `width` low bytes of `n`, lowest first. */
  function ToLe(n: nat, width: nat): (b: Bytes)
    ensures |b| == width
  {
    if width == 0 then [] else [n % 0x100] + ToLe(n / 0x100, width - 1)
  }

  function Zeros(n: nat): (b: Bytes)
    ensures |b| == n
  {
    if n == 0 then [] else [0] + Zeros(n - 1)
  }

  function TextBytes(s: Bytes): (b: Bytes)
    ensures |b| == 8 + |s|
  {
    ToLe(|s|, 8) + s
  }

  function WordsBytes(words: seq<nat>, width: nat): (b: Bytes)
    ensures |b| == width * |words|
  {
    if words == [] then [] else ToLe(words[0], width) + WordsBytes(words[1..], width)
  }

  function Payload(m: Meta): Bytes
    decreases m
  {
    match m
    case Scalar(t, bits) => ToLe(bits, Width(t))
    case Str(text) => TextBytes(text)
    case Array(elem, items) => ToLe(elem, 4) + (ToLe(|items|, 8) + ItemsBytes(items))
  }

  function ItemsBytes(items: seq<Meta>): Bytes
    decreases items
  {
    if items == [] then [] else Payload(items[0]) + ItemsBytes(items[1..])
  }

  function EntryBytes(e: Entry): Bytes {
    TextBytes(e.key) + (ToLe(MetaType(e.meta), 4) + Payload(e.meta))
  }

  function EntriesBytes(entries: seq<Entry>): Bytes {
    if entries == [] then [] else EntryBytes(entries[0]) + EntriesBytes(entries[1..])
  }

  function Product(dims: seq<nat>): nat {
    if dims == [] then 1 else Product(dims[..|dims| - 1]) * dims[|dims| - 1]
  }

  /** Bytes of a tensor's data: four for each element. */
  function Size(t: Tensor): nat {
    Product(t.dims) * 4
  }

  function Total(tensors: seq<Tensor>): nat {
    if tensors == [] then 0 else Size(tensors[0]) + Total(tensors[1..])
  }

  function TensorBytes(t: Tensor, offset: nat): Bytes {
    TextBytes(t.name) + (ToLe(|t.dims|, 4) + (WordsBytes(t.dims, 8) + (ToLe(0, 4) + ToLe(offset, 8))))
  }

  function TensorsBytes(tensors: seq<Tensor>, offset: nat): Bytes
    decreases tensors
  {
    if tensors == [] then []
    else TensorBytes(tensors[0], offset) + TensorsBytes(tensors[1..], offset + Size(tensors[0]))
  }

  function HeaderBytes(entries: seq<Entry>, tensors: seq<Tensor>): Bytes {
    ToLe(0x4655_4747, 4) + (ToLe(3, 4) + (ToLe(|tensors|, 8) + (ToLe(|entries|, 8)
    + (EntriesBytes(entries) + TensorsBytes(tensors, 0)))))
  }

  /** The header, padded to 32, and a data section of zeros. */
  function FileBytes(entries: seq<Entry>, tensors: seq<Tensor>): Bytes {
    var header := HeaderBytes(entries, tensors);
    header + Zeros(RoundUp(|header|, 32) + Total(tensors) - |header|)
  }

  // ---- Appending ----

  lemma {:induction false} ItemsAppend(items: seq<Meta>, m: Meta)
    ensures ItemsBytes(items + [m]) == ItemsBytes(items) + Payload(m)
  {
    hide Payload;
    if items == [] {
      assert items + [m] == [m];
    } else {
      assert (items + [m])[1..] == items[1..] + [m];
      ItemsAppend(items[1..], m);
    }
  }

  /** Floats of value zero are all zero bytes. */
  lemma {:induction false} FloatZerosBytes(n: nat)
    ensures ItemsBytes(FloatZeros(n)) == Zeros(4 * n)
  {
    if n > 0 {
      assert FloatZeros(n)[1..] == FloatZeros(n - 1);
      FloatZerosBytes(n - 1);
      assert Payload(Scalar(Float32, 0)) == ToLe(0, 4) == [0, 0, 0, 0];
      FourZeros(n - 1);
    }
  }

  lemma FourZeros(n: nat)
    ensures [0, 0, 0, 0] + Zeros(4 * n) == Zeros(4 * (n + 1))
  {
    assert Zeros(4 * n + 4) == [0] + Zeros(4 * n + 3);
    assert Zeros(4 * n + 3) == [0] + Zeros(4 * n + 2);
    assert Zeros(4 * n + 2) == [0] + Zeros(4 * n + 1);
    assert Zeros(4 * n + 1) == [0] + Zeros(4 * n);
  }

  lemma {:induction false} WordsAppend(words: seq<nat>, w: nat, width: nat)
    ensures WordsBytes(words + [w], width) == WordsBytes(words, width) + ToLe(w, width)
  {
    if words == [] {
      assert words + [w] == [w];
    } else {
      assert (words + [w])[1..] == words[1..] + [w];
      WordsAppend(words[1..], w, width);
    }
  }

  lemma {:induction false} EntriesAppend(entries: seq<Entry>, e: Entry)
    ensures EntriesBytes(entries + [e]) == EntriesBytes(entries) + EntryBytes(e)
  {
    if entries == [] {
      assert entries + [e] == [e];
    } else {
      assert (entries + [e])[1..] == entries[1..] + [e];
      EntriesAppend(entries[1..], e);
    }
  }

  lemma {:induction false} TensorsAppend(tensors: seq<Tensor>, t: Tensor, offset: nat)
    ensures Total(tensors + [t]) == Total(tensors) + Size(t)
    ensures TensorsBytes(tensors + [t], offset)
         == TensorsBytes(tensors, offset) + TensorBytes(t, offset + Total(tensors))
  {
    hide TensorBytes, Size;
    if tensors == [] {
      assert tensors + [t] == [t];
    } else {
      assert (tensors + [t])[1..] == tensors[1..] + [t];
      TensorsAppend(tensors[1..], t, offset + Size(tensors[0]));
    }
  }

  lemma Assoc(a: Bytes, b: Bytes, c: Bytes)
    ensures (a + b) + c == a + (b + c)
  {
  }

  /** Key, type and payload, appended one after another, are the entry. */
  lemma EntryAppended(before: Bytes, e: Entry)
    ensures ((before + TextBytes(e.key)) + ToLe(MetaType(e.meta), 4)) + Payload(e.meta) == before + EntryBytes(e)
  {
    hide TextBytes, ToLe, Payload, MetaType;
    var key, ty, payload := TextBytes(e.key), ToLe(MetaType(e.meta), 4), Payload(e.meta);
    Assoc(before, key, ty);
    Assoc(before, key + ty, payload);
    Assoc(key, ty, payload);
  }

  /** Likewise an array's element type, count and elements. */
  lemma ArrayAppended(before: Bytes, ty: Bytes, count: Bytes, elements: Bytes)
    ensures ((before + ty) + count) + elements == before + (ty + (count + elements))
  {
    Assoc(before, ty, count);
    Assoc(before, ty + count, elements);
    Assoc(ty, count, elements);
  }

  lemma TensorAppended(before: Bytes, t: Tensor, offset: nat)
    ensures ((((before + TextBytes(t.name)) + ToLe(|t.dims|, 4)) + WordsBytes(t.dims, 8)) + ToLe(0, 4)) + ToLe(offset, 8)
         == before + TensorBytes(t, offset)
  {
    hide TextBytes, ToLe, WordsBytes;
    var name, rank, dims := TextBytes(t.name), ToLe(|t.dims|, 4), WordsBytes(t.dims, 8);
    var ty, off := ToLe(0, 4), ToLe(offset, 8);
    ArrayAppended(before, name, rank, dims);
    ArrayAppended(before + (name + (rank + dims)), ty, off, []);
    Assoc(before, name + (rank + dims), ty + off);
    Assoc(name, rank + dims, ty + off);
    Assoc(rank, dims, ty + off);
    Assoc(before + (name + (rank + dims)), ty, off);
  }

  lemma HeaderAppended(entries: seq<Entry>, tensors: seq<Tensor>)
    ensures ((((ToLe(0x4655_4747, 4) + ToLe(3, 4)) + ToLe(|tensors|, 8)) + ToLe(|entries|, 8)) + EntriesBytes(entries))
            + TensorsBytes(tensors, 0)
         == HeaderBytes(entries, tensors)
  {
    hide ToLe, EntriesBytes, TensorsBytes;
    var magic, version := ToLe(0x4655_4747, 4), ToLe(3, 4);
    var counts, kvs, infos := ToLe(|tensors|, 8), EntriesBytes(entries), TensorsBytes(tensors, 0);
    var n := ToLe(|entries|, 8);
    ArrayAppended(magic, version, counts, n);
    ArrayAppended(magic + (version + (counts + n)), kvs, infos, []);
    Assoc(magic + (version + (counts + n)), kvs, infos);
    Assoc(magic, version + (counts + n), kvs + infos);
    Assoc(version, counts + n, kvs + infos);
    Assoc(counts, n, kvs + infos);
  }
}

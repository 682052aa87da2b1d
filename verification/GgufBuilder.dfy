/** The builder: counters and buffers that grow call by call. */
module GgufBuilders {
  import opened GgufFormat
  import opened GgufSpec
  import opened GgufWriter

  class GgufBuilder {
    var kvCount: nat
    var kvs: Bytes
    var tensorCount: nat
    var infos: Bytes
    var dataLen: nat

    /** What has been declared so far. */
    ghost var entries: seq<Entry>
    ghost var tensors: seq<Tensor>

    ghost predicate Valid()
      reads this
    {
      && kvCount == |entries| && kvs == EntriesBytes(entries)
      && tensorCount == |tensors| && infos == TensorsBytes(tensors, 0)
      && dataLen == Total(tensors) && dataLen % 32 == 0
    }

    constructor ()
      ensures Valid() && entries == [] && tensors == []
    {
      kvCount, kvs, tensorCount, infos, dataLen := 0, [], 0, [], 0;
      entries, tensors := [], [];
    }

    /** Bookkeeping: the bytes appended since `before` are those of the entry. */
    ghost method Note(before: Bytes, e: Entry)
      requires before == EntriesBytes(entries) && kvs == before + EntryBytes(e)
      requires kvCount == |entries| + 1
      requires tensorCount == |tensors| && infos == TensorsBytes(tensors, 0)
      requires dataLen == Total(tensors) && dataLen % 32 == 0
      modifies this`entries
      ensures Valid() && entries == old(entries) + [e]
    {
      EntriesAppend(entries, e);
      entries := entries + [e];
    }

    method KvStr(key: Bytes, val: Bytes)
      requires Valid()
      modifies this
      ensures Valid() && entries == old(entries) + [Entry(key, Str(val))] && tensors == old(tensors)
    {
      hide TextBytes, ToLe, EntryBytes, EntriesBytes, TensorsBytes, Total;
      ghost var e, before := Entry(key, Str(val)), kvs;
      kvs := kvs + TextBytes(key);
      kvs := kvs + ToLe(8, 4);
      kvs := kvs + TextBytes(val);
      kvCount := kvCount + 1;
      EntryAppended(before, e);
      Note(before, e);
    }

    method KvU32(key: Bytes, val: U32)
      requires Valid()
      modifies this
      ensures Valid() && entries == old(entries) + [Entry(key, Scalar(UInt32, val))] && tensors == old(tensors)
    {
      hide TextBytes, ToLe, EntryBytes, EntriesBytes, TensorsBytes, Total;
      ghost var e, before := Entry(key, Scalar(UInt32, val)), kvs;
      kvs := kvs + TextBytes(key);
      kvs := kvs + ToLe(4, 4);
      kvs := kvs + ToLe(val, 4);
      kvCount := kvCount + 1;
      EntryAppended(before, e);
      Note(before, e);
    }

    method KvF32(key: Bytes, bits: U32)
      requires Valid()
      modifies this
      ensures Valid() && entries == old(entries) + [Entry(key, Scalar(Float32, bits))] && tensors == old(tensors)
    {
      hide TextBytes, ToLe, EntryBytes, EntriesBytes, TensorsBytes, Total;
      ghost var e, before := Entry(key, Scalar(Float32, bits)), kvs;
      kvs := kvs + TextBytes(key);
      kvs := kvs + ToLe(6, 4);
      kvs := kvs + ToLe(bits, 4);
      kvCount := kvCount + 1;
      EntryAppended(before, e);
      Note(before, e);
    }

    method KvStrArray(key: Bytes, vals: seq<Bytes>)
      requires Valid()
      modifies this
      ensures Valid() && entries == old(entries) + [Entry(key, Array(STRING_CODE, Texts(vals)))] && tensors == old(tensors)
    {
      hide TextBytes, ToLe, EntryBytes, EntriesBytes, TensorsBytes, Total;
      ghost var e, before := Entry(key, Array(STRING_CODE, Texts(vals))), kvs;
      kvs := kvs + TextBytes(key);
      kvs := kvs + ToLe(9, 4);
      ghost var start := kvs;
      kvs := kvs + ToLe(8, 4);
      kvs := kvs + ToLe(|vals|, 8);
      ghost var head := kvs;
      for i := 0 to |vals|
        modifies this`kvs
        invariant kvs == head + ItemsBytes(Texts(vals)[..i])
      {
        NextItem(head, Texts(vals), i);
        kvs := kvs + TextBytes(vals[i]);
      }
      assert Texts(vals)[..|vals|] == Texts(vals);
      kvCount := kvCount + 1;
      ArrayAppended(start, ToLe(8, 4), ToLe(|vals|, 8), ItemsBytes(Texts(vals)));
      EntryAppended(before, e);
      Note(before, e);
    }

    /** An array of `n` zeros. */
    method KvF32ArrayZeroed(key: Bytes, n: nat)
      requires Valid()
      modifies this
      ensures Valid() && entries == old(entries) + [Entry(key, Array(Code(Float32), FloatZeros(n)))] && tensors == old(tensors)
    {
      hide TextBytes, ToLe, EntryBytes, EntriesBytes, TensorsBytes, Total;
      ghost var e, before := Entry(key, Array(Code(Float32), FloatZeros(n))), kvs;
      kvs := kvs + TextBytes(key);
      kvs := kvs + ToLe(9, 4);
      ghost var start := kvs;
      kvs := kvs + ToLe(6, 4);
      kvs := kvs + ToLe(n, 8);
      kvs := kvs + Zeros(4 * n);
      kvCount := kvCount + 1;
      FloatZerosBytes(n);
      ArrayAppended(start, ToLe(6, 4), ToLe(n, 8), Zeros(4 * n));
      EntryAppended(before, e);
      Note(before, e);
    }

    method KvI32Array(key: Bytes, vals: seq<I32>)
      requires Valid()
      modifies this
      ensures Valid() && entries == old(entries) + [Entry(key, Array(Code(Int32), Ints(vals)))] && tensors == old(tensors)
    {
      hide TextBytes, ToLe, EntryBytes, EntriesBytes, TensorsBytes, Total;
      ghost var e, before := Entry(key, Array(Code(Int32), Ints(vals))), kvs;
      kvs := kvs + TextBytes(key);
      kvs := kvs + ToLe(9, 4);
      ghost var start := kvs;
      kvs := kvs + ToLe(5, 4);
      kvs := kvs + ToLe(|vals|, 8);
      ghost var head := kvs;
      for i := 0 to |vals|
        modifies this`kvs
        invariant kvs == head + ItemsBytes(Ints(vals)[..i])
      {
        NextItem(head, Ints(vals), i);
        kvs := kvs + ToLe(BitsOf(vals[i]), 4);
      }
      assert Ints(vals)[..|vals|] == Ints(vals);
      kvCount := kvCount + 1;
      ArrayAppended(start, ToLe(5, 4), ToLe(|vals|, 8), ItemsBytes(Ints(vals)));
      EntryAppended(before, e);
      Note(before, e);
    }

    /** The bytes of a tensor must be a multiple of 32, so that every offset is. */
    method TensorF32(name: Bytes, dims: seq<U64>)
      requires Valid() && Size(Tensor(name, dims)) % 32 == 0
      modifies this
      ensures Valid() && tensors == old(tensors) + [Tensor(name, dims)] && entries == old(entries)
    {
      hide TextBytes, ToLe, TensorBytes, TensorsBytes, EntriesBytes, Product, Total, WordsBytes;
      ghost var t := Tensor(name, dims);
      var bytes := Bytes4(dims);
      ghost var before := infos;
      infos := infos + TextBytes(name);
      infos := infos + ToLe(|dims|, 4);
      ghost var head := infos;
      for i := 0 to |dims|
        modifies this`infos
        invariant infos == head + WordsBytes(dims[..i], 8)
      {
        WordsAppend(dims[..i], dims[i], 8);
        assert dims[..i + 1] == dims[..i] + [dims[i]];
        Assoc(head, WordsBytes(dims[..i], 8), ToLe(dims[i], 8));
        infos := infos + ToLe(dims[i], 8);
      }
      assert dims[..|dims|] == dims;
      infos := infos + ToLe(0, 4);
      infos := infos + ToLe(dataLen, 8);
      TensorAppended(before, t, dataLen);
      TensorsAppend(tensors, t, 0);
      tensorCount := tensorCount + 1;
      assert (dataLen + bytes) % 32 == 0 by { Multiples(dataLen, bytes); }
      dataLen := dataLen + bytes;
      tensors := tensors + [t];
    }

    /** The file: the header, padding to 32 and the zeroed data. */
    method Build() returns (out: Bytes)
      requires Valid()
      ensures out == FileBytes(entries, tensors)
    {
      hide ToLe, EntriesBytes, TensorsBytes, HeaderBytes;
      out := ToLe(0x4655_4747, 4);
      out := out + ToLe(3, 4);
      out := out + ToLe(tensorCount, 8);
      out := out + ToLe(kvCount, 8);
      out := out + kvs;
      out := out + infos;
      HeaderAppended(entries, tensors);
      var dataOffset := RoundUp(|out|, 32);
      out := out + Zeros(dataOffset + dataLen - |out|);
    }
  }

  /** Appending one more item to the first `i`. */
  lemma NextItem(head: Bytes, items: seq<Meta>, i: nat)
    requires i < |items|
    ensures (head + ItemsBytes(items[..i])) + Payload(items[i]) == head + ItemsBytes(items[..i + 1])
  {
    hide ItemsBytes, Payload;
    ItemsAppend(items[..i], items[i]);
    assert items[..i + 1] == items[..i] + [items[i]];
    Assoc(head, ItemsBytes(items[..i]), Payload(items[i]));
  }

  lemma Multiples(a: nat, b: nat)
    requires a % 32 == 0 && b % 32 == 0
    ensures (a + b) % 32 == 0
  {
  }

  /** The bytes of a tensor's data. */
  method Bytes4(dims: seq<U64>) returns (bytes: nat)
    ensures bytes == 4 * Product(dims)
  {
    bytes := 1;
    for i := 0 to |dims|
      invariant bytes == Product(dims[..i])
    {
      assert dims[..i + 1][..i] == dims[..i];
      bytes := bytes * dims[i];
    }
    assert dims[..|dims|] == dims;
    bytes := bytes * 4;
  }
}

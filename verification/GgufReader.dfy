/** The reader itself: a cursor that advances over a prefix, the header loops, and
  the loop that doubles the prefix until the header fits. */
module GgufReader {
  import opened Options
  import opened GgufFormat
  import opened GgufPrefix

  datatype Got<+T> = Good(value: T) | Bad(error: GgufError)

  /** A read did what the format says, and left the cursor where it says. */
  ghost predicate Follows<T>(r: Got<T>, format: Parsed<T>, pos: nat) {
    match r
    case Good(v) => format == Done(v, pos)
    case Bad(e) => format == Fail(e)
  }

  class GgufCursor {
    const bytes: Bytes
    var pos: nat

    constructor (bytes: Bytes)
      ensures this.bytes == bytes && pos == 0
    {
      this.bytes := bytes;
      pos := 0;
    }

    method Take(n: nat) returns (r: Got<Bytes>)
      requires pos <= |bytes|
      modifies this
      ensures pos <= |bytes| && Follows(r, GgufFormat.Take(bytes, old(pos), n), pos)
    {
      var end := pos + n;
      if end > |bytes| {
        return Bad(Truncated);
      }
      r := Good(bytes[pos..end]);
      pos := end;
    }

    method U32() returns (r: Got<nat>)
      requires pos <= |bytes|
      modifies this
      ensures pos <= |bytes| && Follows(r, Unsigned(bytes, old(pos), 4), pos)
    {
      var raw := Take(4);
      match raw
      case Bad(e) => r := Bad(e);
      case Good(b) => r := Good(Le(b));
    }

    method U64() returns (r: Got<nat>)
      requires pos <= |bytes|
      modifies this
      ensures pos <= |bytes| && Follows(r, Unsigned(bytes, old(pos), 8), pos)
    {
      var raw := Take(8);
      match raw
      case Bad(e) => r := Bad(e);
      case Good(b) => r := Good(Le(b));
    }

    /** The raw bytes of a string. */
    method Str() returns (r: Got<Bytes>)
      requires pos <= |bytes|
      modifies this
      ensures pos <= |bytes| && Follows(r, Text(bytes, old(pos)), pos)
    {
      var len := U64();
      match len
      case Bad(e) => r := Bad(e);
      case Good(n) => r := Take(n);
    }

    method Value(ty: nat) returns (r: Got<Option<nat>>)
      requires pos <= |bytes|
      modifies this
      ensures pos <= |bytes| && Follows(r, GgufFormat.Value(bytes, old(pos), ty), pos)
      decreases |bytes| - pos, 1
    {
      match FixedWidth(ty)
      case Some(width) =>
        var raw := Take(width);
        match raw {
          case Bad(e) => r := Bad(e);
          case Good(b) => r := Good(Kept(ty, Le(b)));
        }
      case None =>
        if ty == 8 {
          var text := Str();
          match text {
            case Bad(e) => r := Bad(e);
            case Good(_) => r := Good(None);
          }
        } else if ty == 9 {
          r := Array();
        } else {
          r := Bad(UnknownType(ty));
        }
    }

    method Array() returns (r: Got<Option<nat>>)
      requires pos <= |bytes|
      modifies this
      ensures pos <= |bytes| && Follows(r, GgufFormat.Array(bytes, old(pos)), pos)
      decreases |bytes| - pos, 0
    {
      var elem := U32();
      if elem.Bad? {
        return Bad(elem.error);
      }
      var count := U64();
      if count.Bad? {
        return Bad(count.error);
      }
      match FixedWidth(elem.value)
      case Some(width) =>
        if count.value * width >= U64_LIMIT {
          return Bad(Truncated);
        }
        var block := Take(count.value * width);
        match block {
          case Bad(e) => r := Bad(e);
          case Good(_) => r := Good(None);
        }
      case None =>
        ghost var first := pos;
        var i := 0;
        while i < count.value
          invariant i <= count.value && old(pos) < pos <= |bytes|
          invariant Elements(bytes, first, elem.value, count.value) == Elements(bytes, pos, elem.value, count.value - i)
        {
          var one := Value(elem.value);
          if one.Bad? {
            return Bad(one.error);
          }
          i := i + 1;
        }
        r := Good(None);
    }
  }

  /** The body of the metadata loop, on the facts gathered so far. */
  method ReadKeyValue(lossy: Lossy, cur: GgufCursor, facts: Facts) returns (r: Got<Facts>)
    requires cur.pos <= |cur.bytes|
    modifies cur
    ensures cur.pos <= |cur.bytes|
    ensures Follows(r, KeyValue(lossy, cur.bytes, old(cur.pos), facts), cur.pos)
  {
    var key := cur.Str();
    if key.Bad? {
      return Bad(key.error);
    }
    var ty := cur.U32();
    if ty.Bad? {
      return Bad(ty.error);
    }
    if ty.value == 8 && lossy(key.value) == ARCHITECTURE {
      var text := cur.Str();
      if text.Bad? {
        return Bad(text.error);
      }
      return Good(Facts(Some(lossy(text.value)), facts.scalars));
    }
    var v := cur.Value(ty.value);
    match v
    case Bad(e) => r := Bad(e);
    case Good(None) => r := Good(facts);
    case Good(Some(n)) => r := Good(Facts(facts.arch, facts.scalars[lossy(key.value) := n]));
  }

  method ReadKeyValues(lossy: Lossy, cur: GgufCursor, count: nat) returns (r: Got<Facts>)
    requires cur.pos <= |cur.bytes|
    modifies cur
    ensures cur.pos <= |cur.bytes|
    ensures Follows(r, KeyValues(lossy, cur.bytes, old(cur.pos), count, Facts(None, map[])), cur.pos)
  {
    var facts := Facts(None, map[]);
    ghost var whole := KeyValues(lossy, cur.bytes, cur.pos, count, facts);
    var i := 0;
    while i < count
      invariant i <= count && cur.pos <= |cur.bytes|
      invariant whole == KeyValues(lossy, cur.bytes, cur.pos, count - i, facts)
    {
      var one := ReadKeyValue(lossy, cur, facts);
      if one.Bad? {
        return Bad(one.error);
      }
      facts := one.value;
      i := i + 1;
    }
    r := Good(facts);
  }

  method ReadTensorInfo(cur: GgufCursor) returns (r: Got<()>)
    requires cur.pos <= |cur.bytes|
    modifies cur
    ensures cur.pos <= |cur.bytes|
    ensures Follows(r, TensorInfo(cur.bytes, old(cur.pos)), cur.pos)
  {
    var name := cur.Str();
    if name.Bad? {
      return Bad(name.error);
    }
    var dims := cur.U32();
    if dims.Bad? {
      return Bad(dims.error);
    }
    if dims.value > 8 {
      return Bad(TooManyDims(dims.value));
    }
    ghost var first := cur.pos;
    var i := 0;
    while i < dims.value
      invariant i <= dims.value && cur.pos <= |cur.bytes|
      invariant Skip64(cur.bytes, first, dims.value) == Skip64(cur.bytes, cur.pos, dims.value - i)
    {
      var dim := cur.U64();
      if dim.Bad? {
        return Bad(dim.error);
      }
      i := i + 1;
    }
    var ggmlType := cur.U32();
    if ggmlType.Bad? {
      return Bad(ggmlType.error);
    }
    var offset := cur.U64();
    if offset.Bad? {
      return Bad(offset.error);
    }
    r := Good(());
  }

  method ReadTensorInfos(cur: GgufCursor, count: nat) returns (r: Got<()>)
    requires cur.pos <= |cur.bytes|
    modifies cur
    ensures cur.pos <= |cur.bytes|
    ensures Follows(r, TensorInfos(cur.bytes, old(cur.pos), count), cur.pos)
  {
    ghost var whole := TensorInfos(cur.bytes, cur.pos, count);
    var i := 0;
    while i < count
      invariant i <= count && cur.pos <= |cur.bytes|
      invariant whole == TensorInfos(cur.bytes, cur.pos, count - i)
    {
      var info := ReadTensorInfo(cur);
      if info.Bad? {
        return Bad(info.error);
      }
      i := i + 1;
    }
    r := Good(());
  }

  /** Parsing a prefix computes what the format says. */
  method ParseGgufDims(lossy: Lossy, bytes: Bytes, fileLen: nat) returns (r: Result)
    ensures r == Parse(lossy, bytes, fileLen)
  {
    var cur := new GgufCursor(bytes);
    var magic := cur.U32();
    if magic.Bad? {
      return Err(magic.error);
    }
    if magic.value != 0x4655_4747 {
      return Err(BadMagic(magic.value));
    }
    var version := cur.U32();
    if version.Bad? {
      return Err(version.error);
    }
    if !(2 <= version.value <= 3) {
      return Err(BadVersion(version.value));
    }
    var tensors := cur.U64();
    if tensors.Bad? {
      return Err(tensors.error);
    }
    var kvs := cur.U64();
    if kvs.Bad? {
      return Err(kvs.error);
    }
    var facts := ReadKeyValues(lossy, cur, kvs.value);
    if facts.Bad? {
      return Err(facts.error);
    }
    var infos := ReadTensorInfos(cur, tensors.value);
    if infos.Bad? {
      return Err(infos.error);
    }
    r := Conclude(facts.value, cur.pos, fileLen);
  }

  /** The doubling loop: start with a megabyte and double the prefix for as long as
      the error mentions truncation and there is more to read.  Whatever else an error
      text may mention, the outcome is that of parsing the whole file at once. */
  method ReadGgufDims(lossy: Lossy, file: Bytes, mentions: GgufError -> bool) returns (r: Result)
    requires mentions(Truncated)
    ensures r == Parse(lossy, file, |file|)
  {
    var want := if 0x10_0000 < |file| then 0x10_0000 else |file|;
    while true
      invariant want <= |file| && (want == 0 ==> |file| == 0)
      decreases |file| - want
    {
      r := ParseGgufDims(lossy, file[..want], |file|);
      ParseAgrees(lossy, file, want, |file|);
      if r.Err? && want < |file| && mentions(r.error) {
        want := if want * 2 < |file| then want * 2 else |file|;
      } else {
        assert want == |file| ==> file[..want] == file;
        return;
      }
    }
  }
}

/** Reading a prefix: on any prefix of a file the reader either comes to the same
  outcome as on the whole file or reports truncation, so a caller may retry on
  truncation with a longer prefix. */
module GgufPrefix {
  import opened Options
  import opened GgufFormat

  /** The outcome on the first `k` bytes against the outcome on all of them: the same,
      or a truncation, which is reported only if the whole needs more than `k` bytes. */
  ghost predicate Agrees<T>(k: nat, short: Parsed<T>, long: Parsed<T>) {
    short == long || (short == Fail(Truncated) && (long.Done? ==> k < long.pos))
  }

  lemma UnsignedAgrees(b: Bytes, k: nat, pos: nat, width: nat)
    requires k <= |b|
    ensures Agrees(k, Unsigned(b[..k], pos, width), Unsigned(b, pos, width))
  {
    if pos + width <= k {
      assert b[..k][pos..pos + width] == b[pos..pos + width];
    }
  }

  lemma TakeAgrees(b: Bytes, k: nat, pos: nat, n: nat)
    requires k <= |b|
    ensures Agrees(k, Take(b[..k], pos, n), Take(b, pos, n))
  {
    if pos + n <= k {
      assert b[..k][pos..pos + n] == b[pos..pos + n];
    }
  }

  lemma TextAgrees(b: Bytes, k: nat, pos: nat)
    requires k <= |b|
    ensures Agrees(k, Text(b[..k], pos), Text(b, pos))
  {
    UnsignedAgrees(b, k, pos, 8);
    var len := Unsigned(b[..k], pos, 8);
    if len.Done? {
      TakeAgrees(b, k, len.pos, len.value);
    }
  }

  lemma {:induction false} ValueAgrees(b: Bytes, k: nat, pos: nat, ty: nat)
    requires k <= |b|
    ensures Agrees(k, Value(b[..k], pos, ty), Value(b, pos, ty))
    decreases k - pos, 1
  {
    match FixedWidth(ty)
    case Some(width) => UnsignedAgrees(b, k, pos, width);
    case None =>
      if ty == 8 {
        TextAgrees(b, k, pos);
      } else if ty == 9 {
        ArrayAgrees(b, k, pos);
      }
  }

  lemma {:induction false} ArrayAgrees(b: Bytes, k: nat, pos: nat)
    requires k <= |b|
    ensures Agrees(k, Array(b[..k], pos), Array(b, pos))
    decreases k - pos, 0
  {
    UnsignedAgrees(b, k, pos, 4);
    var ty := Unsigned(b[..k], pos, 4);
    if ty.Done? {
      UnsignedAgrees(b, k, ty.pos, 8);
      var count := Unsigned(b[..k], ty.pos, 8);
      if count.Done? {
        match FixedWidth(ty.value)
        case Some(width) => TakeAgrees(b, k, count.pos, count.value * width);
        case None => ElementsAgree(b, k, count.pos, ty.value, count.value);
      }
    }
  }

  lemma {:induction false} ElementsAgree(b: Bytes, k: nat, pos: nat, ty: nat, count: nat)
    requires pos <= k <= |b|
    ensures Agrees(k, Elements(b[..k], pos, ty, count), Elements(b, pos, ty, count))
    decreases k - pos, 2
  {
    if count > 0 {
      ValueAgrees(b, k, pos, ty);
      var one := Value(b[..k], pos, ty);
      if one.Done? {
        ElementsAgree(b, k, one.pos, ty, count - 1);
      }
    }
  }

  lemma BindAgrees(lossy: Lossy, b: Bytes, k: nat, pos: nat, key: Bytes, ty: nat, facts: Facts)
    requires k <= |b|
    ensures Agrees(k, Bind(lossy, b[..k], pos, key, ty, facts), Bind(lossy, b, pos, key, ty, facts))
  {
    TextAgrees(b, k, pos);
    ValueAgrees(b, k, pos, ty);
  }

  lemma KeyValueAgrees(lossy: Lossy, b: Bytes, k: nat, pos: nat, facts: Facts)
    requires k <= |b|
    ensures Agrees(k, KeyValue(lossy, b[..k], pos, facts), KeyValue(lossy, b, pos, facts))
  {
    TextAgrees(b, k, pos);
    var key := Text(b[..k], pos);
    if key.Done? {
      UnsignedAgrees(b, k, key.pos, 4);
      var ty := Unsigned(b[..k], key.pos, 4);
      if ty.Done? {
        BindAgrees(lossy, b, k, ty.pos, lossy(key.value), ty.value, facts);
      }
    }
  }

  lemma {:induction false} KeyValuesAgree(lossy: Lossy, b: Bytes, k: nat, pos: nat, count: nat, facts: Facts)
    requires pos <= k <= |b|
    ensures Agrees(k, KeyValues(lossy, b[..k], pos, count, facts), KeyValues(lossy, b, pos, count, facts))
    decreases count
  {
    hide KeyValue;
    if count > 0 {
      KeyValueAgrees(lossy, b, k, pos, facts);
      var one := KeyValue(lossy, b[..k], pos, facts);
      if one.Done? {
        KeyValuesAgree(lossy, b, k, one.pos, count - 1, one.value);
      }
    }
  }

  lemma {:induction false} Skip64Agrees(b: Bytes, k: nat, pos: nat, count: nat)
    requires pos <= k <= |b|
    ensures Agrees(k, Skip64(b[..k], pos, count), Skip64(b, pos, count))
    decreases count
  {
    if count > 0 {
      UnsignedAgrees(b, k, pos, 8);
      var one := Unsigned(b[..k], pos, 8);
      if one.Done? {
        Skip64Agrees(b, k, one.pos, count - 1);
      }
    }
  }

  lemma TensorInfoAgrees(b: Bytes, k: nat, pos: nat)
    requires k <= |b|
    ensures Agrees(k, TensorInfo(b[..k], pos), TensorInfo(b, pos))
  {
    TextAgrees(b, k, pos);
    var name := Text(b[..k], pos);
    if name.Done? {
      UnsignedAgrees(b, k, name.pos, 4);
      var dims := Unsigned(b[..k], name.pos, 4);
      if dims.Done? {
        Skip64Agrees(b, k, dims.pos, dims.value);
        var skipped := Skip64(b[..k], dims.pos, dims.value);
        if skipped.Done? {
          UnsignedAgrees(b, k, skipped.pos, 4);
          UnsignedAgrees(b, k, skipped.pos + 4, 8);
        }
      }
    }
  }

  lemma {:induction false} TensorInfosAgree(b: Bytes, k: nat, pos: nat, count: nat)
    requires pos <= k <= |b|
    ensures Agrees(k, TensorInfos(b[..k], pos, count), TensorInfos(b, pos, count))
    decreases count
  {
    hide TensorInfo;
    if count > 0 {
      TensorInfoAgrees(b, k, pos);
      var one := TensorInfo(b[..k], pos);
      if one.Done? {
        TensorInfosAgree(b, k, one.pos, count - 1);
      }
    }
  }

  lemma PreambleAgrees(b: Bytes, k: nat)
    requires k <= |b|
    ensures Agrees(k, Preamble(b[..k]), Preamble(b))
  {
    UnsignedAgrees(b, k, 0, 4);
    UnsignedAgrees(b, k, 4, 4);
    UnsignedAgrees(b, k, 8, 8);
    UnsignedAgrees(b, k, 16, 8);
  }

  lemma HeaderAgrees(lossy: Lossy, b: Bytes, k: nat)
    requires k <= |b|
    ensures Agrees(k, Header(lossy, b[..k]), Header(lossy, b))
  {
    PreambleAgrees(b, k);
    var pre := Preamble(b[..k]);
    if pre.Done? {
      KeyValuesAgree(lossy, b, k, pre.pos, pre.value.1, Facts(None, map[]));
      var kvs := KeyValues(lossy, b[..k], pre.pos, pre.value.1, Facts(None, map[]));
      if kvs.Done? {
        TensorInfosAgree(b, k, kvs.pos, pre.value.0);
      }
    }
  }

  /** On any prefix, parsing gives the whole file's outcome or reports truncation. */
  lemma ParseAgrees(lossy: Lossy, b: Bytes, k: nat, fileLen: nat)
    requires k <= |b|
    ensures Parse(lossy, b[..k], fileLen) == Parse(lossy, b, fileLen)
         || Parse(lossy, b[..k], fileLen) == Err(Truncated)
    ensures Header(lossy, b).Done? ==>
              (Parse(lossy, b[..k], fileLen) == Err(Truncated) <==> k < Header(lossy, b).pos)
  {
    HeaderAgrees(lossy, b, k);
    var short, long := Header(lossy, b[..k]), Header(lossy, b);
    if long.Done? {
      if short == long {
        assert Parse(lossy, b[..k], fileLen) == Conclude(long.value, long.pos, fileLen);
      } else {
        assert Parse(lossy, b[..k], fileLen) == Err(Truncated);
      }
    }
  }
}

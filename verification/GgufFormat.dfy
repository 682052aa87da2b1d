/** The GGUF header as the simulation's reader sees it: functions from a byte
  sequence and a position to a value and the next position, or an error.

  Texts are their UTF-8 bytes.  `lossy` is the reader's lossy UTF-8 decoding, taken
  as a map on bytes; it leaves the bytes of a valid string alone.  An `Overflow` is
  a 64-bit overflow, which stops a checked build. */
module GgufFormat {
  import opened Numbers
  import opened Options

  const U32_LIMIT: nat := 0x1_0000_0000
  const U64_LIMIT: nat := 0x1_0000_0000_0000_0000

  type Bytes = seq<Byte>
  type Lossy = Bytes -> Bytes

  datatype GgufError =
    | Truncated
    | BadMagic(magic: nat)
    | BadVersion(version: nat)
    | UnknownType(ty: nat)
    | TooManyDims(dims: nat)
    | ShortFile(fileLen: nat, dataOffset: nat)
    | NoArchitecture
    | Lacks(arch: Bytes, suffix: Bytes)
    | Overflow

  datatype Parsed<+T> = Done(value: T, pos: nat) | Fail(error: GgufError)

  datatype Facts = Facts(arch: Option<Bytes>, scalars: map<Bytes, nat>)

  datatype Dims = Dims(layers: nat, kvRate: nat, weightBytes: nat, embd: nat)

  datatype Result = Ok(dims: Dims) | Err(error: GgufError)

  function Ascii(s: string): (b: Bytes)
    ensures |b| == |s|
  {
    if s == [] then [] else [s[0] as int % 0x100] + Ascii(s[1..])
  }

  /** Little-endian value. */
  function Le(b: Bytes): nat {
    if b == [] then 0 else b[0] + 0x100 * Le(b[1..])
  }

  function Take(b: Bytes, pos: nat, n: nat): (r: Parsed<Bytes>)
    ensures r.Done? <==> pos + n <= |b|
    ensures r.Done? ==> r.pos == pos + n && |r.value| == n
    ensures r.Fail? ==> r.error == Truncated
  {
    if pos + n > |b| then Fail(Truncated) else Done(b[pos..pos + n], pos + n)
  }

  /** An unsigned integer of `width` bytes. */
  function Unsigned(b: Bytes, pos: nat, width: nat): (r: Parsed<nat>)
    ensures r.Done? <==> pos + width <= |b|
    ensures r.Done? ==> r.pos == pos + width
    ensures r.Fail? ==> r.error == Truncated
  {
    match Take(b, pos, width)
    case Fail(e) => Fail(e)
    case Done(raw, next) => Done(Le(raw), next)
  }

  function Text(b: Bytes, pos: nat): (r: Parsed<Bytes>)
    ensures r.Done? ==> pos + 8 <= r.pos <= |b|
    ensures r.Fail? ==> r.error == Truncated
  {
    match Unsigned(b, pos, 8)
    case Fail(e) => Fail(e)
    case Done(len, next) => Take(b, next, len)
  }

  function FixedWidth(ty: nat): Option<nat> {
    if ty == 0 || ty == 1 || ty == 7 then Some(1)
    else if ty == 2 || ty == 3 then Some(2)
    else if 4 <= ty <= 6 then Some(4)
    else if 10 <= ty <= 12 then Some(8)
    else None
  }

  /** What the reader keeps of a scalar: floats and negative integers are dropped. */
  function Kept(ty: nat, raw: nat): Option<nat> {
    if ty == 6 || ty == 12 then None
    else if (ty == 1 && raw >= 0x80) || (ty == 3 && raw >= 0x8000)
         || (ty == 5 && raw >= 0x8000_0000) || (ty == 11 && raw >= 0x8000_0000_0000_0000) then None
    else Some(raw)
  }

  /** One metadata value: `Some` for the non-negative integers, `None` for what is
      only skipped over. */
  function Value(b: Bytes, pos: nat, ty: nat): (r: Parsed<Option<nat>>)
    ensures r.Done? ==> pos < r.pos <= |b|
    decreases |b| - pos, 1
  {
    match FixedWidth(ty)
    case Some(width) =>
      (match Unsigned(b, pos, width)
       case Fail(e) => Fail(e)
       case Done(raw, next) => Done(Kept(ty, raw), next))
    case None =>
      if ty == 8 then
        match Text(b, pos)
        case Fail(e) => Fail(e)
        case Done(_, next) => Done(None, next)
      else if ty == 9 then Array(b, pos)
      else Fail(UnknownType(ty))
  }

  /** An array: its element type, its count and its elements. */
  function Array(b: Bytes, pos: nat): (r: Parsed<Option<nat>>)
    ensures r.Done? ==> pos < r.pos <= |b|
    decreases |b| - pos, 0
  {
    match Unsigned(b, pos, 4)
    case Fail(e) => Fail(e)
    case Done(ty, p) =>
      match Unsigned(b, p, 8)
      case Fail(e) => Fail(e)
      case Done(count, p') =>
        match FixedWidth(ty)
        case Some(width) =>
          if count * width >= U64_LIMIT then Fail(Truncated)
          else (match Take(b, p', count * width)
                case Fail(e) => Fail(e)
                case Done(_, next) => Done(None, next))
        case None => Elements(b, p', ty, count)
  }

  function Elements(b: Bytes, pos: nat, ty: nat, count: nat): (r: Parsed<Option<nat>>)
    requires pos <= |b|
    ensures r.Done? ==> pos <= r.pos <= |b|
    decreases |b| - pos, 2
  {
    if count == 0 then Done(None, pos)
    else
      match Value(b, pos, ty)
      case Fail(e) => Fail(e)
      case Done(_, next) => Elements(b, next, ty, count - 1)
  }

  const ARCHITECTURE: Bytes := Ascii("general.architecture")
  const ALIGNMENT: Bytes := Ascii("general.alignment")

  /** The value of a key: the architecture is kept as text, the integers by key. */
  function Bind(lossy: Lossy, b: Bytes, pos: nat, key: Bytes, ty: nat, facts: Facts): (r: Parsed<Facts>)
    ensures r.Done? ==> pos < r.pos <= |b|
  {
    if ty == 8 && key == ARCHITECTURE then
      match Text(b, pos)
      case Fail(e) => Fail(e)
      case Done(arch, next) => Done(Facts(Some(lossy(arch)), facts.scalars), next)
    else
      match Value(b, pos, ty)
      case Fail(e) => Fail(e)
      case Done(None, next) => Done(facts, next)
      case Done(Some(v), next) => Done(Facts(facts.arch, facts.scalars[key := v]), next)
  }

  /** One metadata entry: a key, a type and a value. */
  function KeyValue(lossy: Lossy, b: Bytes, pos: nat, facts: Facts): (r: Parsed<Facts>)
    ensures r.Done? ==> pos < r.pos <= |b|
  {
    match Text(b, pos)
    case Fail(e) => Fail(e)
    case Done(key, p) =>
      match Unsigned(b, p, 4)
      case Fail(e) => Fail(e)
      case Done(ty, p') => Bind(lossy, b, p', lossy(key), ty, facts)
  }

  function KeyValues(lossy: Lossy, b: Bytes, pos: nat, count: nat, facts: Facts): (r: Parsed<Facts>)
    requires pos <= |b|
    ensures r.Done? ==> pos <= r.pos <= |b|
    decreases count
  {
    if count == 0 then Done(facts, pos)
    else
      match KeyValue(lossy, b, pos, facts)
      case Fail(e) => Fail(e)
      case Done(facts', next) => KeyValues(lossy, b, next, count - 1, facts')
  }

  /** A tensor's dimensions, only skipped over. */
  function Skip64(b: Bytes, pos: nat, count: nat): (r: Parsed<()>)
    requires pos <= |b|
    ensures r.Done? ==> pos <= r.pos <= |b|
    decreases count
  {
    if count == 0 then Done((), pos)
    else
      match Unsigned(b, pos, 8)
      case Fail(e) => Fail(e)
      case Done(_, next) => Skip64(b, next, count - 1)
  }

  function TensorInfo(b: Bytes, pos: nat): (r: Parsed<()>)
    ensures r.Done? ==> pos < r.pos <= |b|
  {
    match Text(b, pos)
    case Fail(e) => Fail(e)
    case Done(_, p) =>
      match Unsigned(b, p, 4)
      case Fail(e) => Fail(e)
      case Done(dims, p') =>
        if dims > 8 then Fail(TooManyDims(dims))
        else
          match Skip64(b, p', dims)
          case Fail(e) => Fail(e)
          case Done(_, q) =>
            match Unsigned(b, q, 4)
            case Fail(e) => Fail(e)
            case Done(_, q') =>
              match Unsigned(b, q', 8)
              case Fail(e) => Fail(e)
              case Done(_, next) => Done((), next)
  }

  function TensorInfos(b: Bytes, pos: nat, count: nat): (r: Parsed<()>)
    requires pos <= |b|
    ensures r.Done? ==> pos <= r.pos <= |b|
    decreases count
  {
    if count == 0 then Done((), pos)
    else
      match TensorInfo(b, pos)
      case Fail(e) => Fail(e)
      case Done(_, next) => TensorInfos(b, next, count - 1)
  }

  /** The magic, the version and the two counts. */
  function Preamble(b: Bytes): (r: Parsed<(nat, nat)>)
    ensures r.Done? ==> r.pos <= |b|
  {
    match Unsigned(b, 0, 4)
    case Fail(e) => Fail(e)
    case Done(magic, p) =>
      if magic != 0x4655_4747 then Fail(BadMagic(magic))
      else
        match Unsigned(b, p, 4)
        case Fail(e) => Fail(e)
        case Done(version, p') =>
          if !(2 <= version <= 3) then Fail(BadVersion(version))
          else
            match Unsigned(b, p', 8)
            case Fail(e) => Fail(e)
            case Done(tensors, q) =>
              match Unsigned(b, q, 8)
              case Fail(e) => Fail(e)
              case Done(kvs, next) => Done((tensors, kvs), next)
  }

  /** The whole header. */
  function Header(lossy: Lossy, b: Bytes): (r: Parsed<Facts>)
    ensures r.Done? ==> r.pos <= |b|
  {
    match Preamble(b)
    case Fail(e) => Fail(e)
    case Done((tensors, kvs), p) =>
      match KeyValues(lossy, b, p, kvs, Facts(None, map[]))
      case Fail(e) => Fail(e)
      case Done(facts, p') =>
        match TensorInfos(b, p', tensors)
        case Fail(e) => Fail(e)
        case Done(_, next) => Done(facts, next)
  }

  function RoundUp(n: nat, unit: nat): nat
    requires 0 < unit
  {
    (n + unit - 1) / unit * unit
  }

  /** A scalar that is present and not zero. */
  function Positive(facts: Facts, key: Bytes): (r: Option<nat>)
    ensures r.Some? ==> 0 < r.value
  {
    if key in facts.scalars && facts.scalars[key] > 0 then Some(facts.scalars[key]) else None
  }

  function Alignment(facts: Facts): (a: nat)
    ensures 0 < a
  {
    match Positive(facts, ALIGNMENT)
    case Some(a) => a
    case None => 32
  }

  function Key(arch: Bytes, suffix: string): Bytes {
    arch + Ascii("." + suffix)
  }

  /** The width of a layer's K or V row, before it is clamped to [1, embd]. */
  function KvWidth(facts: Facts, arch: Bytes, embd: nat): nat {
    match Positive(facts, Key(arch, "attention.head_count"))
    case None => embd
    case Some(heads) =>
      var kvHeads := match Positive(facts, Key(arch, "attention.head_count_kv"))
                     case Some(n) => n
                     case None => heads;
      kvHeads * (embd / heads)
  }

  function Clamped(width: nat, embd: nat): nat {
    var least := if width < embd then width else embd;
    if least < 1 then 1 else least
  }

  /** What the facts say about a model of an architecture. */
  function Shape(facts: Facts, arch: Bytes, weightBytes: nat): (r: Result)
    ensures r != Err(Truncated)
  {
    match Positive(facts, Key(arch, "block_count"))
    case None => Err(Lacks(arch, Ascii("block_count")))
    case Some(layers) =>
      match Positive(facts, Key(arch, "embedding_length"))
      case None => Err(Lacks(arch, Ascii("embedding_length")))
      case Some(embd) =>
        var width := KvWidth(facts, arch, embd);
        if width >= U64_LIMIT || 4 * Clamped(width, embd) >= U64_LIMIT then Err(Overflow)
        else Ok(Dims(layers, 4 * Clamped(width, embd), weightBytes, embd))
  }

  /** The outcome for a file of `fileLen` bytes whose data begin at `dataOffset`. */
  function Judge(facts: Facts, dataOffset: nat, fileLen: nat): (r: Result)
    ensures r != Err(Truncated)
  {
    if dataOffset >= U64_LIMIT then Err(Overflow)
    else if fileLen < dataOffset then Err(ShortFile(fileLen, dataOffset))
    else if facts.arch.None? then Err(NoArchitecture)
    else Shape(facts, facts.arch.value, fileLen - dataOffset)
  }

  /** The outcome for a header that ends at `pos`. */
  function Conclude(facts: Facts, pos: nat, fileLen: nat): Result {
    Judge(facts, RoundUp(pos, Alignment(facts)), fileLen)
  }

  function Parse(lossy: Lossy, b: Bytes, fileLen: nat): Result {
    match Header(lossy, b)
    case Fail(e) => Err(e)
    case Done(facts, pos) => Conclude(facts, pos, fileLen)
  }

  // ---- Widths ----

  /** A two's-complement value of `width` bytes. */
  function Signed(raw: nat, width: nat): int {
    if 2 * raw < Power(256, width) then raw else raw - Power(256, width)
  }

  lemma ByteLimits()
    ensures Power(256, 1) == 0x100 && Power(256, 2) == 0x1_0000
    ensures Power(256, 4) == U32_LIMIT && Power(256, 8) == U64_LIMIT
  {
    assert Power(256, 2) == 0x1_0000;
    assert Power(256, 4) == 0x1_0000_0000;
    assert Power(256, 6) == 0x1_0000_0000_0000;
  }
}

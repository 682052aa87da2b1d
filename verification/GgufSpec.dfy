/** GGUF metadata values as the format lays them out: thirteen value types, arrays of any
  of them, and a reader that keeps everything.  The simulation's reader, which skips what
  it has no use for, is this one with the rest forgotten. */
module GgufSpec {
  import opened Numbers
  import opened Options
  import opened GgufFormat

  datatype ScalarType =
    UInt8 | Int8 | UInt16 | Int16 | UInt32 | Int32 | Float32 | Bool | UInt64 | Int64 | Float64

  function Code(t: ScalarType): nat {
    match t
    case UInt8 => 0
    case Int8 => 1
    case UInt16 => 2
    case Int16 => 3
    case UInt32 => 4
    case Int32 => 5
    case Float32 => 6
    case Bool => 7
    case UInt64 => 10
    case Int64 => 11
    case Float64 => 12
  }

  const STRING_CODE: nat := 8
  const ARRAY_CODE: nat := 9

  /** Bytes of one value. */
  function Width(t: ScalarType): (w: nat)
    ensures 0 < w
  {
    match t
    case UInt8 => 1
    case Int8 => 1
    case Bool => 1
    case UInt16 => 2
    case Int16 => 2
    case UInt32 => 4
    case Int32 => 4
    case Float32 => 4
    case UInt64 => 8
    case Int64 => 8
    case Float64 => 8
  }

  const SCALARS: seq<ScalarType> :=
    [UInt8, Int8, UInt16, Int16, UInt32, Int32, Float32, Bool, UInt64, Int64, Float64]

  /** The scalar type with a code. */
  function Coded(code: nat): (r: Option<ScalarType>)
    ensures r.Some? ==> Code(r.value) == code
    ensures r.None? ==> forall t: ScalarType :: Code(t) != code
  {
    if code < 8 then Some(SCALARS[code]) else if 10 <= code <= 12 then Some(SCALARS[code - 2]) else None
  }

  lemma CodedIsInverse(t: ScalarType)
    ensures Coded(Code(t)) == Some(t)
  {
  }

  /** A metadata value: the bits of a scalar, a text, or an array whose items all have
      the type code `elem`. */
  datatype Meta =
    | Scalar(ty: ScalarType, bits: nat)
    | Str(text: Bytes)
    | Array(elem: nat, items: seq<Meta>)

  function MetaType(m: Meta): nat {
    match m
    case Scalar(t, _) => Code(t)
    case Str(_) => STRING_CODE
    case Array(_, _) => ARRAY_CODE
  }

  /** The number that bits of a type stand for; a float stands for none. */
  function Integer(t: ScalarType, bits: nat): Option<int> {
    if t.Float32? || t.Float64? then None
    else if t.Int8? || t.Int16? || t.Int32? || t.Int64? then Some(Signed(bits, Width(t)))
    else Some(bits)
  }

  /** What the simulation needs of a value: an integer that is not negative. */
  function NatOf(m: Meta): Option<nat> {
    if !m.Scalar? then None
    else
      match Integer(m.ty, m.bits)
      case Some(i) => if 0 <= i then Some(i) else None
      case None => None
  }

  // ---- Reading everything ----

  function ReadMeta(b: Bytes, pos: nat, ty: nat): (r: Parsed<Meta>)
    ensures r.Done? ==> pos < r.pos <= |b| && MetaType(r.value) == ty
    decreases |b| - pos, 1
  {
    if ty == STRING_CODE then
      match Text(b, pos)
      case Fail(e) => Fail(e)
      case Done(text, next) => Done(Str(text), next)
    else if ty == ARRAY_CODE then
      match Unsigned(b, pos, 4)
      case Fail(e) => Fail(e)
      case Done(elem, p) =>
        match Unsigned(b, p, 8)
        case Fail(e) => Fail(e)
        case Done(count, p') =>
          match ReadItems(b, p', elem, count)
          case Fail(e) => Fail(e)
          case Done(items, next) => Done(Array(elem, items), next)
    else
      match Coded(ty)
      case None => Fail(UnknownType(ty))
      case Some(t) =>
        match Unsigned(b, pos, Width(t))
        case Fail(e) => Fail(e)
        case Done(bits, next) => Done(Scalar(t, bits), next)
  }

  function ReadItems(b: Bytes, pos: nat, elem: nat, count: nat): (r: Parsed<seq<Meta>>)
    requires pos <= |b|
    ensures r.Done? ==> pos <= r.pos <= |b| && |r.value| == count
    decreases |b| - pos, 2
  {
    if count == 0 then Done([], pos)
    else
      match ReadMeta(b, pos, elem)
      case Fail(e) => Fail(e)
      case Done(m, p) =>
        match ReadItems(b, p, elem, count - 1)
        case Fail(e) => Fail(e)
        case Done(rest, next) => Done([m] + rest, next)
  }

  // ---- The simulation's reader forgets ----

  lemma WidthsAgree(ty: nat)
    ensures FixedWidth(ty) == match Coded(ty) case Some(t) => Some(Width(t)) case None => None
  {
  }

  /** The byte at the front is below 256, and so on up. */
  lemma {:induction false} LeFits(b: Bytes)
    ensures Le(b) < Power(256, |b|)
  {
    if b != [] {
      LeFits(b[1..]);
    }
  }

  /** A scalar is kept with its value exactly if it is an integer and not negative. */
  lemma KeptIsNatural(t: ScalarType, bits: nat)
    requires bits < Power(256, Width(t))
    ensures Kept(Code(t), bits) == NatOf(Scalar(t, bits))
  {
    ByteLimits();
  }

  lemma ScalarForgets(b: Bytes, pos: nat, t: ScalarType)
    ensures Value(b, pos, Code(t))
         == match ReadMeta(b, pos, Code(t))
            case Fail(e) => Fail(e)
            case Done(m, next) => Done(NatOf(m), next)
  {
    hide Kept, NatOf, Le;
    CodedIsInverse(t);
    WidthsAgree(Code(t));
    if pos + Width(t) <= |b| {
      LeFits(b[pos..pos + Width(t)]);
      KeptIsNatural(t, Le(b[pos..pos + Width(t)]));
    }
  }

  /** Scalars one after another take exactly their width each. */
  lemma {:induction false} ScalarsAreOneBlock(b: Bytes, pos: nat, t: ScalarType, count: nat)
    requires pos <= |b|
    ensures var r := ReadItems(b, pos, Code(t), count);
            if pos + count * Width(t) <= |b| then r.Done? && r.pos == pos + count * Width(t) else r == Fail(Truncated)
    decreases count
  {
    hide Width, Code, Le;
    if count > 0 {
      var w := Width(t);
      CodedIsInverse(t);
      NoOtherCode(t);
      assert count * w == w + (count - 1) * w;
      assert 0 <= (count - 1) * w;
      if pos + w <= |b| {
        ScalarsAreOneBlock(b, pos + w, t, count - 1);
      }
    }
  }

  lemma NoOtherCode(t: ScalarType)
    ensures Code(t) != STRING_CODE && Code(t) != ARRAY_CODE
  {
  }

  /** On every byte sequence that 64 bits can index, the simulation reads a value exactly as
      the format has it, fails where and as the full reader fails, and keeps of the value
      only a natural number. */
  lemma {:induction false} ValueForgets(b: Bytes, pos: nat, ty: nat)
    requires |b| < U64_LIMIT
    ensures Value(b, pos, ty)
         == match ReadMeta(b, pos, ty)
            case Fail(e) => Fail(e)
            case Done(m, next) => Done(NatOf(m), next)
    decreases |b| - pos, 1
  {
    hide Le;
    WidthsAgree(ty);
    if Coded(ty).Some? {
      ScalarForgets(b, pos, Coded(ty).value);
    } else if ty == ARRAY_CODE {
      ArrayForgets(b, pos);
    }
  }

  lemma {:induction false} ArrayForgets(b: Bytes, pos: nat)
    requires |b| < U64_LIMIT
    ensures GgufFormat.Array(b, pos)
         == match ReadMeta(b, pos, ARRAY_CODE)
            case Fail(e) => Fail(e)
            case Done(_, next) => Done(None, next)
    decreases |b| - pos, 0
  {
    hide Le, FixedWidth, Coded, ReadItems, Elements;
    if pos + 12 <= |b| {
      var elem, count := Unsigned(b, pos, 4).value, Unsigned(b, pos + 4, 8).value;
      WidthsAgree(elem);
      if Coded(elem).Some? {
        ScalarsAreOneBlock(b, pos + 12, Coded(elem).value, count);
      } else {
        ElementsForget(b, pos + 12, elem, count);
      }
    }
  }

  lemma {:induction false} ElementsForget(b: Bytes, pos: nat, elem: nat, count: nat)
    requires |b| < U64_LIMIT && pos <= |b|
    ensures Elements(b, pos, elem, count)
         == match ReadItems(b, pos, elem, count)
            case Fail(e) => Fail(e)
            case Done(_, next) => Done(None, next)
    decreases |b| - pos, 2
  {
    hide Value, ReadMeta;
    if count > 0 {
      ValueForgets(b, pos, elem);
      var r := ReadMeta(b, pos, elem);
      if r.Done? {
        ElementsForget(b, r.pos, elem, count - 1);
      }
    }
  }
}

/** Scalars and the value trees that the accessor context hands to the engine. */
module Values {
  import opened PropertyTypes

  datatype Option<+T> = None | Some(value: T)

  datatype Error =
    | NotInWrite
    | Detached
    | MissingValue
    | MissingPrimaryKey
    | ModifyPrimaryKey
    | InvalidProperty
    | NullPrimaryKey
    | DuplicateKey
    | ReadOnly
    | NotSupported
    | BadCast
    | BadLink
    | OutOfBounds
    | NotNullable

  datatype Result<+T> = Ok(value: T) | Fail(error: Error)

  datatype Scalar =
    | IntV(i: int)
    | BoolV(b: bool)
    | StringV(s: string)
    | DataV(d: seq<bv8>)
    | DateV(seconds: int, nanoseconds: int)
    | FloatV(f: real)
    | DoubleV(x: real)

  predicate IsScalar(b: Base) {
    !b.Object? && !b.LinkingObjects? && !b.Any?
  }

  function BaseOf(s: Scalar): Base {
    match s
    case IntV(_) => Int
    case BoolV(_) => Bool
    case StringV(_) => String
    case DataV(_) => Data
    case DateV(_, _) => Date
    case FloatV(_) => Float
    case DoubleV(_) => Double
  }

  /** What a required column holds in a row that was just added. */
  function Zero(b: Base): (z: Scalar)
    requires IsScalar(b)
    ensures BaseOf(z) == b
  {
    match b
    case Int => IntV(0)
    case Bool => BoolV(false)
    case String => StringV("")
    case Data => DataV([])
    case Date => DateV(0, 0)
    case Float => FloatV(0.0)
    case Double => DoubleV(0.0)
  }

  /** What the typed read of a null cell is equal to. Integer and boolean reads
      answer the default value; float and double reads answer a reserved NaN and
      the object-like types a null object, which equal no value that can be set. */
  function NullReadsAs(b: Base): Option<Scalar> {
    match b
    case Int => Some(IntV(0))
    case Bool => Some(BoolV(false))
    case _ => None
  }

  datatype Address = At(cls: nat, row: nat, col: nat)

  /** `Ref` is a managed object, `SameList` a managed list. An array doubles as an
      object given by position, and only then may trailing properties be missing. */
  datatype Value =
    | Null
    | Leaf(s: Scalar)
    | Ref(cls: nat, row: nat)
    | SameList(a: Address)
    | Arr(elems: seq<Value>)
    | Dict(fields: seq<Slot>)

  /** A dictionary, with its entries laid out in the order of the properties. */
  datatype Slot = Absent | Given(v: Value)

  predicate AllowMissing(v: Value) {
    v.Arr?
  }

  /** The number of containers in a tree: the measure on which `create` recurs. */
  function Weight(v: Value): nat
    decreases v, 0
  {
    match v
    case Arr(es) => 1 + ElemsWeight(es)
    case Dict(fs) => 1 + FieldsWeight(fs)
    case _ => 0
  }

  function ElemsWeight(es: seq<Value>): nat
    decreases es, 1
  {
    if es == [] then 0 else Weight(es[0]) + ElemsWeight(es[1..])
  }

  function FieldsWeight(fs: seq<Slot>): nat
    decreases fs, 1
  {
    if fs == [] then 0
    else SlotWeight(fs[0]) + FieldsWeight(fs[1..])
  }

  function SlotWeight(f: Slot): nat
    decreases f, 1
  {
    match f
    case Absent => 0
    case Given(v) => Weight(v)
  }

  lemma {:induction false} ElemWeight(es: seq<Value>, k: nat)
    requires k < |es|
    ensures Weight(es[k]) < Weight(Arr(es))
    decreases |es|
  {
    if k > 0 {
      ElemWeight(es[1..], k - 1);
    }
  }

  lemma {:induction false} FieldWeight(fs: seq<Slot>, k: nat)
    requires k < |fs| && fs[k].Given?
    ensures Weight(fs[k].v) < Weight(Dict(fs))
    decreases |fs|
  {
    if k == 0 {
      assert SlotWeight(fs[0]) == Weight(fs[0].v);
    } else {
      FieldWeight(fs[1..], k - 1);
    }
  }

  lemma {:induction false} FlatWeight(es: seq<Value>)
    requires forall e :: e in es ==> Weight(e) == 0
    ensures Weight(Arr(es)) == 1
    decreases |es|
  {
    if es != [] {
      assert es[0] in es;
      FlatWeight(es[1..]);
    }
  }

  /** `value_for_property`: fails on anything that is not an object. */
  function Lookup(v: Value, i: nat): (r: Result<Option<Value>>)
    ensures r.Ok? ==> v.Arr? || v.Dict?
    ensures r.Ok? && r.value.Some? ==> Weight(r.value.value) < Weight(v)
  {
    match v
    case Arr(es) =>
      if i < |es| then ElemWeight(es, i); Ok(Some(es[i])) else Ok(None)
    case Dict(fs) =>
      if i < |fs| && fs[i].Given? then FieldWeight(fs, i); Ok(Some(fs[i].v)) else Ok(None)
    case _ => Fail(BadCast)
  }
}

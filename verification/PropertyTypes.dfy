/** The property type byte: a base type in the low six bits and two flags on top.

    The engine works on the record `PropType`. The functions on bytes are the
    operators the accessors really call, and the lemmas say that each of them
    computes the matching question about the record. */
module PropertyTypes {
  datatype Base = Int | Bool | String | Data | Date | Float | Double | Object | LinkingObjects | Any

  datatype PropType = PropType(base: Base, nullable: bool, isArray: bool)

  type Byte = bv8

  const NULLABLE: Byte := 64
  const ARRAY: Byte := 128
  const FLAGS: Byte := NULLABLE | ARRAY

  function IsArray(a: Byte): bool {
    a & ARRAY == ARRAY
  }

  function IsNullable(a: Byte): bool {
    a & NULLABLE == NULLABLE
  }

  /** The overloaded `==`: both flags are masked away on both sides. */
  function SameBase(a: Byte, b: Byte): bool {
    a & !FLAGS == b & !FLAGS
  }

  function BaseCode(b: Base): Byte {
    match b
    case Int => 0
    case Bool => 1
    case String => 2
    case Data => 3
    case Date => 4
    case Float => 5
    case Double => 6
    case Object => 7
    case LinkingObjects => 8
    case Any => 9
  }

  function Encode(t: PropType): Byte {
    BaseCode(t.base) | (if t.nullable then NULLABLE else 0) | (if t.isArray then ARRAY else 0)
  }

  datatype Choice = Case(base: Base) | Unreachable

  /** Where a `switch` whose cases are the ten plain base types ends up for the byte `a`. */
  function Switch(a: Byte): Choice {
    if a == 0 then Case(Int) else if a == 1 then Case(Bool) else if a == 2 then Case(String)
    else if a == 3 then Case(Data) else if a == 4 then Case(Date) else if a == 5 then Case(Float)
    else if a == 6 then Case(Double) else if a == 7 then Case(Object)
    else if a == 8 then Case(LinkingObjects) else if a == 9 then Case(Any) else Unreachable
  }

  /** Every byte operator answers the question it is meant to answer about the record. */
  lemma OperatorsReadTheRecord(t: PropType, u: PropType)
    ensures IsArray(Encode(t)) == t.isArray
    ensures IsNullable(Encode(t)) == t.nullable
    ensures SameBase(Encode(t), Encode(u)) <==> t.base == u.base
    ensures Encode(t) == Encode(u) <==> t == u
  {
    match t.base { case _ => }
    match u.base { case _ => }
  }

  /** The setter masks with `~Nullable`, the getter with `~Flags`. The getter's
      switch always finds the base type; the setter's finds it exactly for the
      types that are not arrays, which is why arrays leave the setter first. */
  lemma MasksAgreeOffArrays(t: PropType)
    ensures Switch(Encode(t) & !FLAGS) == Case(t.base)
    ensures Switch(Encode(t) & !NULLABLE) == Case(t.base) <==> !t.isArray
    ensures t.isArray ==> Switch(Encode(t) & !NULLABLE) == Unreachable
  {
    match t.base { case _ => }
  }

  /** A byte is the type of some property exactly when the getter's switch is defined on it. */
  lemma BytesThatAreTypes(a: Byte)
    ensures (exists t :: Encode(t) == a) <==> Switch(a & !FLAGS).Case?
  {
    if Switch(a & !FLAGS).Case? {
      var t := PropType(Switch(a & !FLAGS).base, IsNullable(a), IsArray(a));
      assert Encode(t) == a;
    }
    if t :| Encode(t) == a {
      MasksAgreeOffArrays(t);
    }
  }
}

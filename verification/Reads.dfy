/** `get_property_value_impl` and what it answers after a set. */
module Reads {
  import opened PropertyTypes
  import opened Values
  import opened Schemas
  import opened Stores
  import opened Upsert
  import opened Monitor
  import opened Footprints
  import opened Effects

  /** A boxed value: the getter answers handles for objects, lists and backlinks. */
  datatype Boxed =
    | BNull
    | BScalar(s: Scalar)
    | BMixed
    | BObject(cls: nat, row: nat)
    | BList(a: Address)
    | BBacklinks(cls: nat, row: nat)

  /** `is_null`: a list is never null. */
  predicate IsNull(s: Store, a: Address) {
    CellAt(s, a) == One(None) || CellAt(s, a) == Link(None)
  }

  function GetProperty(env: Env, s: Store, a: Address): Result<Boxed>
    requires HasProp(env, a.cls, a.col)
  {
    var p := Prop(env, a.cls, a.col);
    if a.row >= Count(s, a.cls) then Fail(Detached)
    else if p.ptype.nullable && IsNull(s, a) then Ok(BNull)
    else if p.ptype.isArray && !p.ptype.base.LinkingObjects? then Ok(BList(a))
    else
      match p.ptype.base
      case Object => if LinkAt(s, a).Some? then Ok(BObject(p.target, LinkAt(s, a).value)) else Fail(Detached)
      case LinkingObjects => Ok(BBacklinks(a.cls, a.row))
      case Any => Ok(BMixed)
      case _ => if ScalarAt(s, a).Some? then Ok(BScalar(ScalarAt(s, a).value)) else Fail(Detached)
  }

  /** The getter in terms of the cell. On well-formed tables it throws only for a row
      that is not there, answers null for a null cell, the very scalar or the row of
      the link otherwise, and for a list, empty or not, a handle of the list. */
  lemma GetterReadsTheCell(env: Env, s: Store, a: Address)
    requires WellFormed(env, s) && HasProp(env, a.cls, a.col)
    ensures var p, b := Prop(env, a.cls, a.col), GetProperty(env, s, a);
            if a.row >= Count(s, a.cls) then b == Fail(Detached)
            else if p.ptype.base.LinkingObjects? then b == Ok(BBacklinks(a.cls, a.row))
            else
              match CellAt(s, a)
              case Many(_) => p.ptype.isArray && b == Ok(BList(a))
              case Link(to) =>
                p.ptype.base.Object? && b == Ok(if to.Some? then BObject(p.target, to.value) else BNull)
              case One(x) =>
                && (IsScalar(p.ptype.base) ==> b == Ok(if x.Some? then BScalar(x.value) else BNull))
                && (p.ptype.base.Any? ==> b == Ok(if p.ptype.nullable && x.None? then BNull else BMixed))
  {
    if InStore(env, s, a) {
      assert CellOk(env, s, a);
    }
  }

  /** So a cell that is neither mixed nor a list is known by what the getter answers. */
  lemma GetterTellsApart(env: Env, s: Store, s': Store, a: Address)
    requires WellFormed(env, s) && WellFormed(env, s') && InStore(env, s, a) && InStore(env, s', a)
    requires !Prop(env, a.cls, a.col).ptype.isArray && !Prop(env, a.cls, a.col).ptype.base.Any?
    ensures GetProperty(env, s', a) == GetProperty(env, s, a) <==> CellAt(s', a) == CellAt(s, a)
  {
    assert CellOk(env, s, a) && CellOk(env, s', a);
  }

  /** What the getter answers in a row that was just added: null where the property is
      nullable, no elements in a list, else zero, false, the empty string, no bytes or
      the epoch. */
  lemma FreshRowReads(env: Env, s: Store, cls: nat, i: nat)
    requires WellFormed(env, s) && HasProp(env, cls, i)
    ensures var s', a, p := AddRow(env, s, cls), At(cls, Count(s, cls), i), Prop(env, cls, i);
            && Count(s', cls) == Count(s, cls) + 1
            && (p.ptype.isArray ==> ListAt(s', a) == [])
            && (!p.ptype.isArray && p.ptype.nullable ==> GetProperty(env, s', a) == Ok(BNull))
            && (!p.ptype.isArray && !p.ptype.nullable && IsScalar(p.ptype.base) ==>
                  GetProperty(env, s', a) == Ok(BScalar(
                    match p.ptype.base
                    case Bool => BoolV(false)
                    case String => StringV("")
                    case Data => DataV([])
                    case Date => DateV(0, 0)
                    case Float => FloatV(0.0)
                    case Double => DoubleV(0.0)
                    case _ => IntV(0))))
  {
    var a := At(cls, Count(s, cls), i);
    assert CellAt(AddRow(env, s, cls), a) == FreshCell(Prop(env, cls, i));
  }

  /** `b` is what a caller who set `v` at `a` may expect to read back: the value, but
      for a scalar that the diff form loses. */
  ghost predicate ReadsBack(env: Env, lo: Store, s: Store, a: Address, v: Value, b: Boxed, d: bool, ts: seq<Target>)
    requires HasProp(env, a.cls, a.col)
  {
    var p := Prop(env, a.cls, a.col);
    if p.ptype.isArray then
      && b == BList(a)
      && (v.Null? ==> ListAt(s, a) == [])
      && (v.Arr? ==> ListReflects(env, lo, s, p, v.elems, ListAt(s, a), if d then OldList(lo, a) else [], ts))
      && (v == SameList(a) ==> ListAt(s, a) == OldList(lo, a))
      && (v.Null? || v.Arr? || v == SameList(a))
    else if v.Null? then b == BNull
    else if p.ptype.base.Object? then
      && b.BObject? && b.cls == p.target && RowReflects(env, lo, s, p, v, b.row, d, ts)
      && Placed(env, lo, p, v, b.row, if d then OldLink(lo, a) else None)
    else v.Leaf? && b == if d && Lost(p, OldScalar(lo, a), v.s) then BNull else BScalar(v.s)
  }

  /** Read after write: after a set that returned normally, in either form, of
      whatever value, given or default, to whatever kind of property, the getter
      answers the value set: null, the very scalar, the linked row, or the list with
      exactly the given elements. */
  lemma ReadAfterWrite(env: Env, st: State, a: Address, v: Value, tu: bool, d: bool, isDefault: bool)
    requires Ready(env, st) && InStore(env, st.store, a) && !IsPrimary(env, a.cls, a.col)
    requires isDefault ==> CellAt(st.store, a) == FreshCell(Prop(env, a.cls, a.col))
    requires NoRepeats(Own(env, st.store, a) + CellTargets(env, st.store, a, v, d))
    requires SetProperty(env, st, a, v, tu, d, isDefault).res.Ok?
    ensures var s', ts := SetProperty(env, st, a, v, tu, d, isDefault).st.store, CellTargets(env, st.store, a, v, d);
            && GetProperty(env, s', a).Ok?
            && ReadsBack(env, st.store, s', a, v, GetProperty(env, s', a).value, d, ts)
  {
    var s' := SetProperty(env, st, a, v, tu, d, isDefault).st.store;
    SetPropertyEffect(env, st, a, v, tu, d, isDefault);
    assert InStore(env, s', a) && CellOk(env, s', a);
  }

  /** The same for a scalar in either form: the diff form reads back what was set
      exactly when the cell was not a null that already read as the value. Where it
      was, the getter still answers null. */
  lemma ScalarReadAfterWrite(env: Env, st: State, a: Address, x: Scalar, tu: bool, d: bool)
    requires Ready(env, st) && InStore(env, st.store, a) && !IsPrimary(env, a.cls, a.col)
    requires var t := Prop(env, a.cls, a.col).ptype; IsScalar(t.base) && !t.isArray
    requires SetProperty(env, st, a, Leaf(x), tu, d, false).res.Ok?
    ensures var p, s' := Prop(env, a.cls, a.col), SetProperty(env, st, a, Leaf(x), tu, d, false).st.store;
            && (GetProperty(env, s', a) == Ok(BScalar(x)) <==> !(d && Lost(p, ScalarAt(st.store, a), x)))
            && (d && Lost(p, ScalarAt(st.store, a), x) ==> GetProperty(env, s', a) == Ok(BNull))
  {
    var s' := SetProperty(env, st, a, Leaf(x), tu, d, false).st.store;
    assert CellTargets(env, st.store, a, Leaf(x), d) == [];
    SetPropertyEffect(env, st, a, Leaf(x), tu, d, false);
    assert InStore(env, s', a) && CellOk(env, s', a);
  }

  // ----- the value that gets lost, on one row

  const OPTIONAL_INT := Property(PropType(Int, true, false), 0, None)
  const ONE_CLASS := RawEnv([ObjectSchema([OPTIONAL_INT], None)], false, true)
  const EMPTY := State(Store([0], map[]), [])
  const ZERO := Dict([Given(Leaf(IntV(0)))])

  lemma ZeroGiven(d: bool)
    ensures ValidEnv(ONE_CLASS)
    ensures var r := Create(ONE_CLASS, EMPTY, 0, ZERO, true, d, None);
            r.res == Ok(0) && CellAt(r.st.store, At(0, 0, 0)) == One(if d then None else Some(IntV(0)))
            && Count(r.st.store, 0) == 1
  {
    var env: Env := ONE_CLASS;
    var l := Locate(env, EMPTY, 0, ZERO, true, d, None);
    var at, a := Located(0, true, true), At(0, 0, 0);
    assert l.res == Ok(at) && CellAt(l.st.store, a) == One(None);
    var w := SetProperty(env, l.st, a, Leaf(IntV(0)), true, d, false);
    assert Populate(env, l.st, 0, ZERO, at, true, d, 0) == Populate(env, w.st, 0, ZERO, at, true, d, 1);
  }

  /** One class with one optional integer, no rows yet: the diff form of `create`,
      given zero, adds a row that holds null; the full form holds zero. */
  lemma ZeroIsLost()
    ensures ValidEnv(ONE_CLASS)
    ensures var diff := Create(ONE_CLASS, EMPTY, 0, ZERO, true, true, None);
            var full := Create(ONE_CLASS, EMPTY, 0, ZERO, true, false, None);
            && diff.res == Ok(0) && GetProperty(ONE_CLASS, diff.st.store, At(0, 0, 0)) == Ok(BNull)
            && full.res == Ok(0) && GetProperty(ONE_CLASS, full.st.store, At(0, 0, 0)) == Ok(BScalar(IntV(0)))
  {
    ZeroGiven(true);
    ZeroGiven(false);
  }
}

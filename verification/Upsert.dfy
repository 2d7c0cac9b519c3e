/** The recursive writer: `Object::create`, `set_property_value_impl` and `List::assign`.

    Each function takes the tables and the log as they stand and answers how they
    stand when the call returns or throws. `tu` is `try_update`, `d` is
    `update_only_diff`, `cur` is `current_row`. */
module Upsert {
  import opened PropertyTypes
  import opened Values
  import opened Schemas
  import opened Stores

  datatype Located = Located(row: nat, created: bool, skipPrimary: bool)

  /** A value to write and whether it is the property's default. */
  datatype Chosen = Chosen(v: Value, isDefault: bool)

  // ----- finding or adding the row

  function PrimaryValue(env: Env, cls: nat, v: Value): Result<Value>
    requires HasClass(env, cls) && Keyed(env, cls)
  {
    var p := Prop(env, cls, KeyCol(env, cls));
    match Lookup(v, KeyCol(env, cls))
    case Fail(e) => Fail(e)
    case Ok(Some(x)) => Ok(x)
    case Ok(None) =>
      if p.dflt.Some? then Ok(p.dflt.value)
      else if p.ptype.nullable then Ok(Null)
      else Fail(MissingValue)
  }

  function UnboxKey(p: Property, v: Value): Result<Key> {
    if v.Null? then (if p.ptype.nullable then Ok(None) else Fail(NullPrimaryKey))
    else if v.Leaf? && BaseOf(v.s) == p.ptype.base then Ok(Some(v.s))
    else Fail(BadCast)
  }

  /** The primary key that the tree `v` gives its object. */
  function KeyOf(env: Env, cls: nat, v: Value): Result<Key>
    requires HasClass(env, cls) && Keyed(env, cls)
  {
    match PrimaryValue(env, cls, v)
    case Fail(e) => Fail(e)
    case Ok(x) => UnboxKey(Prop(env, cls, KeyCol(env, cls)), x)
  }

  function FindKey(env: Env, s: Store, cls: nat, key: Key): (f: Option<nat>)
    requires HasClass(env, cls) && Keyed(env, cls)
    ensures f.Some? ==> f.value < Count(s, cls) && KeyAt(env, s, cls, f.value) == key
    ensures f.None? ==> forall q :: 0 <= q < Count(s, cls) ==> KeyAt(env, s, cls, q) != key
  {
    FindFirst(s, cls, KeyCol(env, cls), key)
  }

  function Append(env: Env, st: State, cls: nat, key: Option<Key>, skipPrimary: bool): Out<Located> {
    Out(Emit(env, st, NewRow(cls, key)), Ok(Located(Count(st.store, cls), true, skipPrimary)))
  }

  function Locate(env: Env, st: State, cls: nat, v: Value, tu: bool, d: bool, cur: Option<nat>): Out<Located>
    requires HasClass(env, cls)
  {
    if Keyed(env, cls) then
      match KeyOf(env, cls, v)
      case Fail(e) => Out(st, Fail(e))
      case Ok(key) =>
        match FindKey(env, st.store, cls, key)
        case None => Append(env, st, cls, Some(key), true)
        case Some(r) =>
          if tu then Out(st, Ok(Located(r, false, true)))
          else if env.migrating then Append(env, st, cls, None, false)
          else Out(st, Fail(DuplicateKey))
    else if d && cur.Some? then Out(st, Ok(Located(cur.value, false, true)))
    else Append(env, st, cls, None, true)
  }

  // ----- one property of the populate loop

  /** What the loop does with property `i`: write nothing, write a value, or throw. */
  function Choose(env: Env, cls: nat, v: Value, i: nat, created: bool, skipPrimary: bool): (r: Result<Option<Chosen>>)
    requires HasProp(env, cls, i)
    ensures r.Ok? && r.value.Some? ==> v.Arr? || v.Dict?
    ensures r.Ok? && r.value.Some? && !r.value.value.isDefault ==> Weight(r.value.value.v) < Weight(v)
    ensures r.Ok? && r.value.Some? && r.value.value.isDefault ==>
              Weight(r.value.value.v) <= 1 && (Prop(env, cls, i).ptype.isArray || Weight(r.value.value.v) == 0)
  {
    var p := Prop(env, cls, i);
    DefaultWeight(p);
    if IsComputed(p) || (skipPrimary && IsPrimary(env, cls, i)) then Ok(None)
    else
      match Lookup(v, i)
      case Fail(e) => Fail(e)
      case Ok(given) =>
        if !created && given.None? then Ok(None)
        else
          var chosen := if given.Some? then given else p.dflt;
          if (chosen.None? || chosen.value.Null?) && !p.ptype.nullable && !p.ptype.isArray
             && (IsPrimary(env, cls, i) || !AllowMissing(v)) then Fail(MissingValue)
          else if chosen.None? then Ok(None)
          else Ok(Some(Chosen(chosen.value, given.None?)))
  }

  /** `unbox<T>` for anything that is not a row. */
  function UnboxScalar(p: Property, v: Value): Result<Option<Scalar>> {
    if !IsScalar(p.ptype.base) then Fail(NotSupported)
    else if v.Null? && p.ptype.nullable then Ok(None)
    else if v.Leaf? && BaseOf(v.s) == p.ptype.base then Ok(Some(v.s))
    else Fail(BadCast)
  }

  function WriteNull(env: Env, st: State, a: Address, p: Property, d: bool, isDefault: bool): Out<()> {
    if p.ptype.isArray then Out(st, Fail(NotNullable))
    else if p.ptype.base.Object? then
      if (d && LinkAt(st.store, a).None?) || isDefault then Out(st, Ok(()))
      else Out(Emit(env, st, Put(a, Link(None), false)), Ok(()))
    else if d && ScalarAt(st.store, a).None? then Out(st, Ok(()))
    else Out(Emit(env, st, Put(a, One(None), isDefault)), Ok(()))
  }

  function WriteScalar(env: Env, st: State, a: Address, p: Property, v: Value, d: bool, isDefault: bool): Out<()> {
    match UnboxScalar(p, v)
    case Fail(e) => Out(st, Fail(e))
    case Ok(x) =>
      if d && x.Some? && ReadsAs(p.ptype.base, ScalarAt(st.store, a), x.value) then Out(st, Ok(()))
      else Out(Emit(env, st, Put(a, One(x), isDefault)), Ok(()))
  }

  /** `did_change`, unless the body of the bracket threw. */
  function Finish(env: Env, o: Out<()>): Out<()> {
    if o.res.Fail? then o else Out(Emit(env, o.st, Did), Ok(()))
  }

  // ----- the recursion

  function Create(env: Env, st: State, cls: nat, v: Value, tu: bool, d: bool, cur: Option<nat>): Out<nat>
    requires HasClass(env, cls)
    decreases Weight(v), 5, 0
  {
    if !env.writing then Out(st, Fail(NotInWrite))
    else
      var l := Locate(env, st, cls, v, tu, d, cur);
      match l.res
      case Fail(e) => Out(l.st, Fail(e))
      case Ok(at) =>
        var o := Populate(env, l.st, cls, v, at, tu, d, 0);
        if o.res.Fail? then Out(o.st, Fail(o.res.error)) else Out(o.st, Ok(at.row))
  }

  function Populate(env: Env, st: State, cls: nat, v: Value, at: Located, tu: bool, d: bool, i: nat): Out<()>
    requires HasClass(env, cls)
    decreases Weight(v), 4, |env.schema[cls].props| - i
  {
    if i >= |env.schema[cls].props| then Out(st, Ok(()))
    else
      match Choose(env, cls, v, i, at.created, at.skipPrimary)
      case Fail(e) => Out(st, Fail(e))
      case Ok(None) => Populate(env, st, cls, v, at, tu, d, i + 1)
      case Ok(Some(c)) =>
        var o := SetProperty(env, st, At(cls, at.row, i), c.v, tu, d, c.isDefault);
        if o.res.Fail? then o else Populate(env, o.st, cls, v, at, tu, d, i + 1)
  }

  function SetProperty(env: Env, st: State, a: Address, v: Value, tu: bool, d: bool, isDefault: bool): Out<()>
    requires HasProp(env, a.cls, a.col)
    decreases Weight(v), if IsLink(Prop(env, a.cls, a.col)) then 8 else 3, 0
  {
    var p := Prop(env, a.cls, a.col);
    var st1 := Emit(env, st, Will(a));
    if p.ptype.nullable && v.Null? then Finish(env, WriteNull(env, st1, a, p, d, isDefault))
    else if p.ptype.isArray then Finish(env, Assign(env, st1, a, v, tu, d))
    else if p.ptype.base.Object? then Finish(env, WriteLink(env, st1, a, v, tu, d, isDefault))
    else Finish(env, WriteScalar(env, st1, a, p, v, d, isDefault))
  }

  function WriteLink(env: Env, st: State, a: Address, v: Value, tu: bool, d: bool, isDefault: bool): Out<()>
    requires HasProp(env, a.cls, a.col) && IsLink(Prop(env, a.cls, a.col))
    decreases Weight(v), 7, 0
  {
    var curr := LinkAt(st.store, a);
    var o := UnboxRow(env, st, Prop(env, a.cls, a.col), v, tu, d, curr);
    if o.res.Fail? then Out(o.st, Fail(o.res.error))
    else if d && curr == Some(o.res.value) then Out(o.st, Ok(()))
    else Out(Emit(env, o.st, Put(a, Link(Some(o.res.value)), isDefault)), Ok(()))
  }

  /** `unbox<RowExpr>(v, true, tu, d, cur)`: a managed object is its row, anything else is created. */
  function UnboxRow(env: Env, st: State, p: Property, v: Value, tu: bool, d: bool, cur: Option<nat>): Out<nat>
    requires ValidProperty(|env.schema|, p) && p.ptype.base.Object?
    decreases Weight(v), 6, 0
  {
    match v
    case Ref(c, r) =>
      if c == p.target && r < Count(st.store, c) then Out(st, Ok(r)) else Out(st, Fail(BadLink))
    case _ => Create(env, st, p.target, v, tu, d, cur)
  }

  function UnboxItem(env: Env, st: State, p: Property, v: Value, tu: bool, d: bool, cur: Option<nat>): Out<Item>
    requires ValidProperty(|env.schema|, p)
    decreases Weight(v), 6, 1
  {
    if p.ptype.base.Object? then
      var o := UnboxRow(env, st, p, v, tu, d, cur);
      if o.res.Fail? then Out(o.st, Fail(o.res.error)) else Out(o.st, Ok(Row(o.res.value)))
    else
      match UnboxScalar(p, v)
      case Fail(e) => Out(st, Fail(e))
      case Ok(x) => Out(st, Ok(Val(x)))
  }

  function Assign(env: Env, st: State, a: Address, v: Value, tu: bool, d: bool): Out<()>
    requires HasProp(env, a.cls, a.col) && Prop(env, a.cls, a.col).ptype.isArray
    decreases Weight(v), 2, 0
  {
    if Prop(env, a.cls, a.col).ptype.base.LinkingObjects? then Out(st, Fail(ReadOnly))
    else if v == SameList(a) then Out(st, Ok(()))
    else if v.Null? then Out(Emit(env, st, ListClear(a)), Ok(()))
    else if d then
      if !v.Arr? then Out(st, Fail(BadCast))
      else AssignFrom(env, st, a, v.elems, 0, |ListAt(st.store, a)|, tu)
    else
      var st1 := Emit(env, st, ListClear(a));
      if !v.Arr? then Out(st1, Fail(BadCast))
      else AssignFrom(env, st1, a, v.elems, 0, 0, tu)
  }

  /** `help_get_current_row`: the row an element of a list of objects points at. */
  function CurrentRow(item: Item): Option<nat> {
    if item.Row? then Some(item.r) else None
  }

  /** Both enumerations from element `k` on: positions below `sz` are compared and
      set, the others added, and whatever is left below `sz` is removed. The full
      form is the case `sz == 0` on a list that was just cleared. */
  function AssignFrom(env: Env, st: State, a: Address, es: seq<Value>, k: nat, sz: nat, tu: bool): Out<()>
    requires HasProp(env, a.cls, a.col)
    requires k <= |es|
    decreases Weight(Arr(es)), 1, |es| - k
  {
    if k == |es| then Trim(env, st, a, k, sz)
    else
      var o := Element(env, st, a, es, k, sz, tu);
      if o.res.Fail? then o else AssignFrom(env, o.st, a, es, k + 1, sz, tu)
  }

  function Element(env: Env, st: State, a: Address, es: seq<Value>, k: nat, sz: nat, tu: bool): Out<()>
    requires HasProp(env, a.cls, a.col)
    requires k < |es|
    decreases Weight(Arr(es)), 0, 0
  {
    ElemWeight(es, k);
    var p := Prop(env, a.cls, a.col);
    var before := ListAt(st.store, a);
    if k < sz then
      if k >= |before| then Out(st, Fail(OutOfBounds))
      else
        var o := UnboxItem(env, st, p, es[k], tu, true, CurrentRow(before[k]));
        if o.res.Fail? then Out(o.st, Fail(o.res.error))
        else if before[k] == o.res.value then Out(o.st, Ok(()))
        else if k >= |ListAt(o.st.store, a)| then Out(o.st, Fail(OutOfBounds))
        else Out(Emit(env, o.st, ListSet(a, k, o.res.value)), Ok(()))
    else
      var o := UnboxItem(env, st, p, es[k], tu, false, None);
      if o.res.Fail? then Out(o.st, Fail(o.res.error))
      else Out(Emit(env, o.st, ListAdd(a, o.res.value)), Ok(()))
  }

  function Trim(env: Env, st: State, a: Address, k: nat, sz: nat): Out<()>
    decreases sz
  {
    if k >= sz then Out(st, Ok(()))
    else if k >= |ListAt(st.store, a)| then Out(st, Fail(OutOfBounds))
    else Trim(env, Emit(env, st, ListRemove(a, k)), a, k, sz - 1)
  }

  // ----- entry points

  /** `Object::set_property_value`; `i` is the position of the named property, if there is one. */
  function SetPropertyValue(env: Env, st: State, cls: nat, row: nat, i: Option<nat>, v: Value, tu: bool): Out<()>
    requires HasClass(env, cls)
  {
    if row >= Count(st.store, cls) then Out(st, Fail(Detached))
    else if !env.writing then Out(st, Fail(NotInWrite))
    else if i.None? || i.value >= |env.schema[cls].props| then Out(st, Fail(InvalidProperty))
    else if IsPrimary(env, cls, i.value) && !env.migrating then Out(st, Fail(ModifyPrimaryKey))
    else SetProperty(env, st, At(cls, row, i.value), v, tu, false, false)
  }

  /** `get_for_primary_key_impl`, on the value the caller looks for. */
  function GetForPrimaryKey(env: Env, s: Store, cls: nat, v: Value): Result<Option<nat>>
    requires HasClass(env, cls)
  {
    if !Keyed(env, cls) then Fail(MissingPrimaryKey)
    else
      match UnboxKey(Prop(env, cls, KeyCol(env, cls)), v)
      case Fail(e) => Fail(e)
      case Ok(key) => Ok(FindKey(env, s, cls, key))
  }
}

/** What a tree asks for, in terms of the tree and the schema alone. The engine's own
    choices, in `Upsert`, are proved against these. */
module Terms {
  import opened PropertyTypes
  import opened Values
  import opened Schemas
  import opened Stores

  predicate IsObject(v: Value) {
    v.Arr? || v.Dict?
  }

  /** The value that the tree gives property `i`, by position or by name. */
  function ValueAt(v: Value, i: nat): (r: Option<Value>)
    ensures r.Some? ==> Weight(r.value) < Weight(v)
  {
    if v.Arr? && i < |v.elems| then ElemWeight(v.elems, i); Some(v.elems[i])
    else if v.Dict? && i < |v.fields| && v.fields[i].Given? then FieldWeight(v.fields, i); Some(v.fields[i].v)
    else None
  }

  /** A property that `create` sets: not computed, and not the primary key. */
  predicate IsSet(env: Env, cls: nat, i: nat)
    requires HasProp(env, cls, i)
  {
    !Prop(env, cls, i).ptype.base.LinkingObjects? && env.schema[cls].primaryKey != Some(i)
  }

  /** The value given, else, in a row that was added, the default. */
  function GivenOrDefault(env: Env, cls: nat, v: Value, i: nat, created: bool): (r: Option<Value>)
    requires HasProp(env, cls, i)
    ensures r.Some? ==> IsObject(v)
    ensures r.Some? && ValueAt(v, i).Some? ==> Weight(r.value) < Weight(v)
    ensures r.Some? && ValueAt(v, i).None? ==>
              Weight(r.value) <= 1 && (Prop(env, cls, i).ptype.isArray || Weight(r.value) == 0)
  {
    DefaultWeight(Prop(env, cls, i));
    if !IsObject(v) then None
    else if ValueAt(v, i).Some? then ValueAt(v, i)
    else if created then Prop(env, cls, i).dflt
    else None
  }

  /** The value that is due to property `i` of a row, if there is one. */
  function Due(env: Env, cls: nat, v: Value, i: nat, created: bool): (r: Option<Value>)
    requires HasProp(env, cls, i)
    ensures r.Some? ==> r == GivenOrDefault(env, cls, v, i, created)
  {
    if IsSet(env, cls, i) then GivenOrDefault(env, cls, v, i, created) else None
  }

  /** A property may go without a value and without a default where it is nullable or a
      list, or where the tree is an array, which may leave out the last ones. */
  predicate MayBeMissing(p: Property, v: Value) {
    p.ptype.nullable || p.ptype.isArray || v.Arr?
  }

  predicate WellGiven(env: Env, cls: nat, v: Value, i: nat, created: bool)
    requires HasProp(env, cls, i)
  {
    IsSet(env, cls, i) ==>
      IsObject(v) && (created && Due(env, cls, v, i, created).None? ==> MayBeMissing(Prop(env, cls, i), v))
  }

  /** The scalar, or the null, that `x` is for a property of type `p`. */
  predicate IsScalarFor(p: Property, x: Value, o: Option<Scalar>) {
    && IsScalar(p.ptype.base)
    && if x.Null? then p.ptype.nullable && o.None?
       else x.Leaf? && BaseOf(x.s) == p.ptype.base && o == Some(x.s)
  }

  /** The tree asks for an object with this key: the value given, else the default,
      else null where the key is nullable. */
  predicate AsksFor(env: Env, cls: nat, v: Value, key: Key)
    requires HasClass(env, cls) && Keyed(env, cls)
  {
    var i := KeyCol(env, cls);
    var p := Prop(env, cls, i);
    && IsObject(v)
    && if ValueAt(v, i).Some? then IsScalarFor(p, ValueAt(v, i).value, key)
       else if p.dflt.Some? then IsScalarFor(p, p.dflt.value, key)
       else p.ptype.nullable && key.None?
  }
}

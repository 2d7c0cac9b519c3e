/** Object schemas and the environment in which the engine runs. */
module Schemas {
  import opened PropertyTypes
  import opened Values

  datatype Property = Property(ptype: PropType, target: nat, dflt: Option<Value>)

  /** The column of a property is its position in `props`, the computed ones last. */
  datatype ObjectSchema = ObjectSchema(props: seq<Property>, primaryKey: Option<nat>)

  datatype RawEnv = RawEnv(schema: seq<ObjectSchema>, migrating: bool, writing: bool)

  predicate IsFlat(v: Value) {
    v.Null? || v.Leaf? || v.Ref?
  }

  /** A default is no object tree: it is flat, or a list of flat values. */
  predicate DefaultOk(p: Property, v: Value) {
    IsFlat(v) || (p.ptype.isArray && v.Arr? && forall e :: e in v.elems ==> IsFlat(e))
  }

  predicate ValidProperty(n: nat, p: Property) {
    && (p.ptype.base.Object? ==> p.target < n && p.ptype.isArray != p.ptype.nullable)
    && (p.ptype.base.LinkingObjects? ==> p.ptype.isArray && !p.ptype.nullable)
    && (p.dflt.Some? ==> DefaultOk(p, p.dflt.value))
  }

  /** Backlinks are computed: they can be read, and `create` does not look at them. */
  predicate IsComputed(p: Property) {
    p.ptype.base.LinkingObjects?
  }

  predicate ValidClass(n: nat, os: ObjectSchema) {
    && (forall i :: 0 <= i < |os.props| ==> ValidProperty(n, os.props[i]))
    && (forall i, j :: 0 <= i < j < |os.props| && IsComputed(os.props[i]) ==> IsComputed(os.props[j]))
    && (os.primaryKey.Some? ==>
        && os.primaryKey.value < |os.props|
        && var t := os.props[os.primaryKey.value].ptype;
           !t.isArray && (t.base.Int? || t.base.String?))
  }

  predicate ValidEnv(e: RawEnv) {
    forall c :: 0 <= c < |e.schema| ==> ValidClass(|e.schema|, e.schema[c])
  }

  type Env = e: RawEnv | ValidEnv(e) witness RawEnv([], false, true)

  predicate HasClass(env: Env, cls: nat) {
    cls < |env.schema|
  }

  predicate HasProp(env: Env, cls: nat, i: nat) {
    cls < |env.schema| && i < |env.schema[cls].props|
  }

  function Prop(env: Env, cls: nat, i: nat): (p: Property)
    requires HasProp(env, cls, i)
    ensures ValidProperty(|env.schema|, p)
  {
    assert ValidClass(|env.schema|, env.schema[cls]);
    env.schema[cls].props[i]
  }

  predicate Keyed(env: Env, cls: nat)
    requires HasClass(env, cls)
  {
    env.schema[cls].primaryKey.Some?
  }

  function KeyCol(env: Env, cls: nat): (k: nat)
    requires HasClass(env, cls) && Keyed(env, cls)
    ensures HasProp(env, cls, k)
    ensures IsScalar(Prop(env, cls, k).ptype.base) && !Prop(env, cls, k).ptype.isArray
  {
    assert ValidClass(|env.schema|, env.schema[cls]);
    env.schema[cls].primaryKey.value
  }

  predicate IsPrimary(env: Env, cls: nat, i: nat)
    requires HasClass(env, cls)
  {
    env.schema[cls].primaryKey == Some(i)
  }

  /** A property that holds one link. */
  predicate IsLink(p: Property) {
    p.ptype.base.Object? && !p.ptype.isArray
  }

  lemma DefaultWeight(p: Property)
    ensures p.dflt.Some? && DefaultOk(p, p.dflt.value) ==>
              Weight(p.dflt.value) <= 1 && (p.ptype.isArray || Weight(p.dflt.value) == 0)
  {
    if p.dflt.Some? && p.dflt.value.Arr? && DefaultOk(p, p.dflt.value) {
      FlatWeight(p.dflt.value.elems);
    }
  }
}

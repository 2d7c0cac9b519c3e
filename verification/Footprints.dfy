/** Which rows a value tree reaches, computed before anything is written. */
module Footprints {
  import opened PropertyTypes
  import opened Values
  import opened Schemas
  import opened Stores
  import opened Upsert
  import opened Monitor

  /** A row the tree writes to: named by its primary key, which need not be in the
      table yet, or, where the class has none, the existing row it reuses. */
  datatype Target = ByKey(cls: nat, key: Key) | ByRow(cls: nat, row: nat)

  ghost predicate Existing(s: Store, ts: seq<Target>) {
    forall t :: t in ts && t.ByRow? ==> t.row < Count(s, t.cls)
  }

  function LinkSeen(s: Store, cls: nat, row: Option<nat>, i: nat): Option<nat> {
    if row.Some? then LinkAt(s, At(cls, row.value, i)) else None
  }

  function ListSeen(s: Store, cls: nat, row: Option<nat>, d: bool, i: nat): seq<Item> {
    if d && row.Some? then ListAt(s, At(cls, row.value, i)) else []
  }

  function ObjectTargets(env: Env, s: Store, cls: nat, v: Value, d: bool, cur: Option<nat>): (ts: seq<Target>)
    requires HasClass(env, cls)
    ensures Existing(s, ts)
    decreases Weight(v), 2, 0
  {
    if Keyed(env, cls) then
      match KeyOf(env, cls, v)
      case Fail(_) => []
      case Ok(key) => [ByKey(cls, key)] + FieldTargets(env, s, cls, v, FindKey(env, s, cls, key), d, 0)
    else if d && cur.Some? && cur.value < Count(s, cls) then
      [ByRow(cls, cur.value)] + FieldTargets(env, s, cls, v, cur, d, 0)
    else FieldTargets(env, s, cls, v, None, d, 0)
  }

  function FieldTargets(env: Env, s: Store, cls: nat, v: Value, row: Option<nat>, d: bool, i: nat): (ts: seq<Target>)
    requires HasClass(env, cls)
    ensures Existing(s, ts)
    decreases Weight(v), 1, |env.schema[cls].props| - i
  {
    if i >= |env.schema[cls].props| then []
    else
      FieldTarget(env, s, cls, v, LinkSeen(s, cls, row, i), ListSeen(s, cls, row, d, i), d, i)
      + FieldTargets(env, s, cls, v, row, d, i + 1)
  }

  function FieldTarget(env: Env, s: Store, cls: nat, v: Value, link: Option<nat>, list: seq<Item>, d: bool,
                       i: nat): (ts: seq<Target>)
    requires HasProp(env, cls, i)
    ensures Existing(s, ts)
    decreases Weight(v), 0, 0
  {
    match Lookup(v, i)
    case Ok(Some(x)) => ValueTargets(env, s, Prop(env, cls, i), x, d, link, list)
    case _ => []
  }

  /** `link` and `list` are what the cell that receives `v` holds. */
  function ValueTargets(env: Env, s: Store, p: Property, v: Value, d: bool, link: Option<nat>,
                        list: seq<Item>): (ts: seq<Target>)
    requires ValidProperty(|env.schema|, p)
    ensures Existing(s, ts)
    decreases Weight(v), 5, 0
  {
    if !p.ptype.base.Object? then []
    else if p.ptype.isArray then
      if v.Arr? then ElemTargets(env, s, p, v.elems, list, |list|, 0) else []
    else if v.Null? then []
    else RowTargets(env, s, p, v, d, link)
  }

  function RowTargets(env: Env, s: Store, p: Property, v: Value, d: bool, cur: Option<nat>): (ts: seq<Target>)
    requires ValidProperty(|env.schema|, p) && p.ptype.base.Object?
    ensures Existing(s, ts)
    decreases Weight(v), 3, 0
  {
    if v.Ref? then [] else ObjectTargets(env, s, p.target, v, d, cur)
  }

  function CurrentAt(list: seq<Item>, sz: nat, k: nat): Option<nat> {
    if k < sz && k < |list| then CurrentRow(list[k]) else None
  }

  function ElemTargets(env: Env, s: Store, p: Property, es: seq<Value>, list: seq<Item>, sz: nat,
                       k: nat): (ts: seq<Target>)
    requires ValidProperty(|env.schema|, p) && p.ptype.base.Object? && k <= |es|
    ensures Existing(s, ts)
    decreases Weight(Arr(es)), 4, |es| - k
  {
    if k == |es| then []
    else
      ElemWeight(es, k);
      RowTargets(env, s, p, es[k], k < sz, CurrentAt(list, sz, k)) + ElemTargets(env, s, p, es, list, sz, k + 1)
  }

  // ----- sequences of targets

  ghost predicate NoRepeats(ts: seq<Target>) {
    forall i, j :: 0 <= i < j < |ts| ==> ts[i] != ts[j]
  }

  ghost predicate Apart(ts: seq<Target>, us: seq<Target>) {
    forall t :: t in ts ==> t !in us
  }

  lemma NoRepeatsSplit(ts: seq<Target>, us: seq<Target>)
    requires NoRepeats(ts + us)
    ensures NoRepeats(ts) && NoRepeats(us) && Apart(ts, us)
  {
    var w := ts + us;
    assert forall i :: 0 <= i < |ts| ==> w[i] == ts[i];
    assert forall j :: 0 <= j < |us| ==> w[|ts| + j] == us[j];
  }

  lemma NoRepeatsJoin(t: Target, us: seq<Target>)
    requires NoRepeats(us) && t !in us
    ensures NoRepeats([t] + us)
  {
  }

  // ----- what a write to the targets may change

  function TargetOf(env: Env, s: Store, cls: nat, row: nat): Target
    requires HasClass(env, cls)
  {
    if Keyed(env, cls) then ByKey(cls, KeyAt(env, s, cls, row)) else ByRow(cls, row)
  }

  ghost predicate RowSame(s: Store, s': Store, cls: nat, row: nat) {
    forall c: nat :: CellAt(s', At(cls, row, c)) == CellAt(s, At(cls, row, c))
  }

  /** From `s` to `s'` rows were only added, keys stayed, an old row that is not
      among the targets kept every cell, and a new row with a key is a target. */
  ghost predicate Frame(env: Env, s: Store, s': Store, ts: seq<Target>) {
    && Grows(env, s, s')
    && (forall cls: nat, row: nat ::
          HasClass(env, cls) && row < Count(s, cls) && TargetOf(env, s, cls, row) !in ts ==> RowSame(s, s', cls, row))
    && (forall cls: nat, row: nat ::
          HasClass(env, cls) && Keyed(env, cls) && Count(s, cls) <= row < Count(s', cls) ==>
            TargetOf(env, s', cls, row) in ts)
  }

  /** `ts` covers `us`, except for rows that `s` does not have yet. */
  ghost predicate Covers(s: Store, ts: seq<Target>, us: seq<Target>) {
    forall u :: u in us ==> u in ts || (u.ByRow? && u.row >= Count(s, u.cls))
  }

  lemma FrameTransitive(env: Env, s: Store, s': Store, s'': Store, ts: seq<Target>, us: seq<Target>, all: seq<Target>)
    requires !env.migrating && Frame(env, s, s', ts) && Frame(env, s', s'', us)
    requires Covers(s, all, ts) && Covers(s, all, us)
    ensures Frame(env, s, s'', all)
  {
    GrowsTransitive(env, s, s', s'');
    forall cls: nat, row: nat | HasClass(env, cls) && row < Count(s, cls) && TargetOf(env, s, cls, row) !in all
      ensures RowSame(s, s'', cls, row)
    {
      assert row < Count(s', cls);
      assert TargetOf(env, s', cls, row) == TargetOf(env, s, cls, row);
      assert RowSame(s, s', cls, row) && RowSame(s', s'', cls, row);
    }
    forall cls: nat, row: nat | HasClass(env, cls) && Keyed(env, cls) && Count(s, cls) <= row < Count(s'', cls)
      ensures TargetOf(env, s'', cls, row) in all
    {
      if row < Count(s', cls) {
        assert TargetOf(env, s', cls, row) in ts;
        assert TargetOf(env, s'', cls, row) == TargetOf(env, s', cls, row);
      }
    }
  }

  lemma FrameRefl(env: Env, s: Store, ts: seq<Target>)
    ensures Frame(env, s, s, ts)
  {
  }

  /** A write to one cell stays within the target of its row. */
  lemma FramePut(env: Env, s: Store, a: Address, c: Cell, ts: seq<Target>)
    requires Good(env, s) && InStore(env, s, a) && !IsPrimary(env, a.cls, a.col)
    requires TargetOf(env, s, a.cls, a.row) in ts
    requires Fits(s, Prop(env, a.cls, a.col), c)
    ensures Frame(env, s, PutCell(s, a, c), ts)
  {
    PutKeepsGood(env, s, a, c);
  }

  // ----- a key is looked up to the same row after writes to other targets

  lemma FindKeyIs(env: Env, s: Store, cls: nat, key: Key, r: nat)
    requires HasClass(env, cls) && Keyed(env, cls) && DistinctKeys(env, s)
    requires r < Count(s, cls) && KeyAt(env, s, cls, r) == key
    ensures FindKey(env, s, cls, key) == Some(r)
  {
    var f := FindKey(env, s, cls, key);
    assert f.Some?;
  }

  lemma FindKeyStable(env: Env, s: Store, s': Store, cls: nat, key: Key, ts: seq<Target>)
    requires HasClass(env, cls) && Keyed(env, cls) && !env.migrating && Good(env, s) && Good(env, s')
    requires Frame(env, s, s', ts) && ByKey(cls, key) !in ts
    ensures FindKey(env, s', cls, key) == FindKey(env, s, cls, key)
  {
    var f := FindKey(env, s, cls, key);
    if f.Some? {
      assert KeyAt(env, s', cls, f.value) == key;
      FindKeyIs(env, s', cls, key, f.value);
    } else {
      forall q: nat | q < Count(s', cls) ensures KeyAt(env, s', cls, q) != key {
        assert q < Count(s, cls) || TargetOf(env, s', cls, q) in ts;
      }
    }
  }

  // ----- the targets of a tree do not move when other targets are written

  ghost predicate Steady(env: Env, s: Store, s': Store, ts: seq<Target>) {
    !env.migrating && Good(env, s) && Good(env, s') && Frame(env, s, s', ts)
  }

  lemma {:induction false} ObjectTargetsStable(env: Env, s: Store, s': Store, ts: seq<Target>,
                                               cls: nat, v: Value, d: bool, cur: Option<nat>)
    requires HasClass(env, cls) && Steady(env, s, s', ts) && RowOk(s, cls, cur)
    requires Apart(ObjectTargets(env, s, cls, v, d, cur), ts)
    ensures ObjectTargets(env, s', cls, v, d, cur) == ObjectTargets(env, s, cls, v, d, cur)
    decreases Weight(v), 2, 0
  {
    if Keyed(env, cls) {
      if KeyOf(env, cls, v).Ok? {
        var key := KeyOf(env, cls, v).value;
        var row := FindKey(env, s, cls, key);
        assert ByKey(cls, key) in ObjectTargets(env, s, cls, v, d, cur);
        FindKeyStable(env, s, s', cls, key, ts);
        if row.Some? {
          assert TargetOf(env, s, cls, row.value) == ByKey(cls, key);
          assert RowSame(s, s', cls, row.value);
        }
        FieldTargetsStable(env, s, s', ts, cls, v, row, row, d, 0);
      }
    } else if d && cur.Some? {
      assert ByRow(cls, cur.value) in ObjectTargets(env, s, cls, v, d, cur);
      assert RowSame(s, s', cls, cur.value);
      FieldTargetsStable(env, s, s', ts, cls, v, cur, cur, d, 0);
    } else {
      FieldTargetsStable(env, s, s', ts, cls, v, None, None, d, 0);
    }
  }

  /** The row that is looked at may be another one, as long as it holds the same. */
  ghost predicate SeenSame(env: Env, s: Store, s': Store, cls: nat, row: Option<nat>, row': Option<nat>, d: bool,
                           i: nat) {
    forall j: nat :: i <= j && HasProp(env, cls, j) ==>
      && LinkSeen(s', cls, row', j) == LinkSeen(s, cls, row, j)
      && ListSeen(s', cls, row', d, j) == ListSeen(s, cls, row, d, j)
  }

  lemma {:induction false} FieldTargetsStable(env: Env, s: Store, s': Store, ts: seq<Target>, cls: nat, v: Value,
                                              row: Option<nat>, row': Option<nat>, d: bool, i: nat)
    requires HasClass(env, cls) && Steady(env, s, s', ts) && RowOk(s, cls, row)
    requires SeenSame(env, s, s', cls, row, row', d, i)
    requires Apart(FieldTargets(env, s, cls, v, row, d, i), ts)
    ensures FieldTargets(env, s', cls, v, row', d, i) == FieldTargets(env, s, cls, v, row, d, i)
    decreases Weight(v), 1, |env.schema[cls].props| - i
  {
    if i < |env.schema[cls].props| {
      var link, list := LinkSeen(s, cls, row, i), ListSeen(s, cls, row, d, i);
      var here := FieldTarget(env, s, cls, v, link, list, d, i);
      var rest := FieldTargets(env, s, cls, v, row, d, i + 1);
      assert forall t :: t in here ==> t in here + rest;
      assert forall t :: t in rest ==> t in here + rest;
      FieldTargetsStable(env, s, s', ts, cls, v, row, row', d, i + 1);
      if row.Some? {
        assert CellOk(env, s, At(cls, row.value, i));
      }
      if Lookup(v, i).Ok? && Lookup(v, i).value.Some? {
        ValueTargetsStable(env, s, s', ts, Prop(env, cls, i), Lookup(v, i).value.value, d, link, list);
      }
    }
  }

  ghost predicate SeenOk(s: Store, p: Property, link: Option<nat>, list: seq<Item>) {
    p.ptype.base.Object? ==>
      if p.ptype.isArray then forall k :: 0 <= k < |list| ==> ItemFits(s, p, list[k])
      else RowOk(s, p.target, link)
  }

  lemma {:induction false} ValueTargetsStable(env: Env, s: Store, s': Store, ts: seq<Target>,
                                              p: Property, v: Value, d: bool, link: Option<nat>, list: seq<Item>)
    requires ValidProperty(|env.schema|, p) && Steady(env, s, s', ts) && SeenOk(s, p, link, list)
    requires Apart(ValueTargets(env, s, p, v, d, link, list), ts)
    ensures ValueTargets(env, s', p, v, d, link, list) == ValueTargets(env, s, p, v, d, link, list)
    decreases Weight(v), 5, 0
  {
    if p.ptype.base.Object? {
      if p.ptype.isArray {
        if v.Arr? {
          ElemTargetsStable(env, s, s', ts, p, v.elems, list, list, |list|, 0);
        }
      } else if !v.Null? && !v.Ref? {
        assert ValueTargets(env, s, p, v, d, link, list) == ObjectTargets(env, s, p.target, v, d, link);
        ObjectTargetsStable(env, s, s', ts, p.target, v, d, link);
      }
    }
  }

  lemma {:induction false} ElemTargetsStable(env: Env, s: Store, s': Store, ts: seq<Target>, p: Property,
                                             es: seq<Value>, list: seq<Item>, list': seq<Item>, sz: nat, k: nat)
    requires ValidProperty(|env.schema|, p) && p.ptype.base.Object? && k <= |es|
    requires Steady(env, s, s', ts)
    requires forall j :: k <= j < |list| && j < sz ==> ItemFits(s, p, list[j])
    requires forall j: nat :: k <= j < sz ==> CurrentAt(list', sz, j) == CurrentAt(list, sz, j)
    requires Apart(ElemTargets(env, s, p, es, list, sz, k), ts)
    ensures ElemTargets(env, s', p, es, list', sz, k) == ElemTargets(env, s, p, es, list, sz, k)
    decreases Weight(Arr(es)), 4, |es| - k
  {
    if k < |es| {
      ElemWeight(es, k);
      var cur := CurrentAt(list, sz, k);
      var here := RowTargets(env, s, p, es[k], k < sz, cur);
      var rest := ElemTargets(env, s, p, es, list, sz, k + 1);
      assert forall t :: t in here ==> t in here + rest;
      assert forall t :: t in rest ==> t in here + rest;
      ElemTargetsStable(env, s, s', ts, p, es, list, list', sz, k + 1);
      if !es[k].Ref? {
        ObjectTargetsStable(env, s, s', ts, p.target, es[k], k < sz, cur);
      }
      assert CurrentAt(list', sz, k) == cur;
    }
  }

  // ----- flat values reach nothing

  lemma {:induction false} FlatFields(env: Env, s: Store, cls: nat, v: Value, row: Option<nat>, d: bool, i: nat)
    requires HasClass(env, cls) && IsFlat(v)
    ensures FieldTargets(env, s, cls, v, row, d, i) == []
    decreases |env.schema[cls].props| - i
  {
    if i < |env.schema[cls].props| {
      FlatFields(env, s, cls, v, row, d, i + 1);
    }
  }

  lemma FlatRow(env: Env, s: Store, p: Property, v: Value, d: bool, cur: Option<nat>)
    requires ValidProperty(|env.schema|, p) && p.ptype.base.Object? && IsFlat(v) && (!d || cur.None?)
    ensures RowTargets(env, s, p, v, d, cur) == []
  {
    FlatFields(env, s, p.target, v, None, d, 0);
  }

  lemma {:induction false} FlatElems(env: Env, s: Store, p: Property, es: seq<Value>, list: seq<Item>, k: nat)
    requires ValidProperty(|env.schema|, p) && p.ptype.base.Object? && k <= |es|
    requires forall e :: e in es ==> IsFlat(e)
    ensures ElemTargets(env, s, p, es, list, 0, k) == []
    decreases |es| - k
  {
    if k < |es| {
      FlatRow(env, s, p, es[k], false, None);
      FlatElems(env, s, p, es, list, k + 1);
    }
  }

  lemma DefaultTargets(env: Env, s: Store, p: Property, v: Value, d: bool)
    requires ValidProperty(|env.schema|, p) && DefaultOk(p, v)
    ensures ValueTargets(env, s, p, v, d, None, []) == []
  {
    if p.ptype.base.Object? {
      if p.ptype.isArray {
        if v.Arr? {
          FlatElems(env, s, p, v.elems, [], 0);
        }
      } else if !v.Null? {
        FlatRow(env, s, p, v, d, None);
      }
    }
  }

  // ----- targets that need no tables

  /** Every class that a property links to has a primary key. */
  predicate LinkedKeyed(env: Env) {
    forall c, i :: 0 <= c < |env.schema| && 0 <= i < |env.schema[c].props| ==>
      (Prop(env, c, i).ptype.base.Object? ==> Keyed(env, Prop(env, c, i).target))
  }

  predicate TargetKeyed(env: Env, p: Property) {
    ValidProperty(|env.schema|, p) && (p.ptype.base.Object? ==> Keyed(env, p.target))
  }

  lemma PropTargetKeyed(env: Env, cls: nat, i: nat)
    requires LinkedKeyed(env) && HasProp(env, cls, i)
    ensures TargetKeyed(env, Prop(env, cls, i))
  {
  }

  ghost predicate KeysOnly(ts: seq<Target>) {
    forall t :: t in ts ==> t.ByKey?
  }

  /** The full form, and the diff form where there are keys everywhere, reach rows by
      key only, and these are the keys in the tree, whatever the tables hold. */
  lemma {:induction false} SameTargets(env: Env, s: Store, s': Store, cls: nat, v: Value,
                                       d: bool, d': bool, cur: Option<nat>, cur': Option<nat>)
    requires HasClass(env, cls)
    requires (!d && !d') || (LinkedKeyed(env) && (Keyed(env, cls) || (cur.None? && cur'.None?)))
    ensures ObjectTargets(env, s, cls, v, d, cur) == ObjectTargets(env, s', cls, v, d', cur')
    ensures KeysOnly(ObjectTargets(env, s, cls, v, d, cur))
    decreases Weight(v), 2, 0
  {
    if Keyed(env, cls) {
      if KeyOf(env, cls, v).Ok? {
        var key := KeyOf(env, cls, v).value;
        SameFields(env, s, s', cls, v, FindKey(env, s, cls, key), FindKey(env, s', cls, key), d, d', 0);
      }
    } else {
      SameFields(env, s, s', cls, v, None, None, d, d', 0);
    }
  }

  lemma {:induction false} SameFields(env: Env, s: Store, s': Store, cls: nat, v: Value,
                                      row: Option<nat>, row': Option<nat>, d: bool, d': bool, i: nat)
    requires HasClass(env, cls) && ((!d && !d') || LinkedKeyed(env))
    ensures FieldTargets(env, s, cls, v, row, d, i) == FieldTargets(env, s', cls, v, row', d', i)
    ensures KeysOnly(FieldTargets(env, s, cls, v, row, d, i))
    decreases Weight(v), 1, |env.schema[cls].props| - i
  {
    if i < |env.schema[cls].props| {
      SameFields(env, s, s', cls, v, row, row', d, d', i + 1);
      if Lookup(v, i).Ok? && Lookup(v, i).value.Some? {
        if LinkedKeyed(env) {
          PropTargetKeyed(env, cls, i);
        }
        SameValues(env, s, s', Prop(env, cls, i), Lookup(v, i).value.value, d, d',
                   LinkSeen(s, cls, row, i), LinkSeen(s', cls, row', i),
                   ListSeen(s, cls, row, d, i), ListSeen(s', cls, row', d', i));
      }
    }
  }

  lemma {:induction false} SameValues(env: Env, s: Store, s': Store, p: Property, v: Value, d: bool, d': bool,
                                      link: Option<nat>, link': Option<nat>, list: seq<Item>, list': seq<Item>)
    requires ValidProperty(|env.schema|, p)
    requires (!d && !d' && list == list' == []) || (LinkedKeyed(env) && TargetKeyed(env, p))
    ensures ValueTargets(env, s, p, v, d, link, list) == ValueTargets(env, s', p, v, d', link', list')
    ensures KeysOnly(ValueTargets(env, s, p, v, d, link, list))
    decreases Weight(v), 5, 0
  {
    if p.ptype.base.Object? {
      if p.ptype.isArray {
        if v.Arr? {
          SameElems(env, s, s', p, v.elems, list, list', |list|, |list'|, 0);
        }
      } else if !v.Null? && !v.Ref? {
        SameTargets(env, s, s', p.target, v, d, d', link, link');
      }
    }
  }

  lemma {:induction false} SameElems(env: Env, s: Store, s': Store, p: Property, es: seq<Value>,
                                     list: seq<Item>, list': seq<Item>, sz: nat, sz': nat, k: nat)
    requires ValidProperty(|env.schema|, p) && p.ptype.base.Object? && k <= |es|
    requires sz == sz' == 0 || (LinkedKeyed(env) && TargetKeyed(env, p))
    ensures ElemTargets(env, s, p, es, list, sz, k) == ElemTargets(env, s', p, es, list', sz', k)
    ensures KeysOnly(ElemTargets(env, s, p, es, list, sz, k))
    decreases Weight(Arr(es)), 4, |es| - k
  {
    if k < |es| {
      ElemWeight(es, k);
      SameElems(env, s, s', p, es, list, list', sz, sz', k + 1);
      if !es[k].Ref? {
        SameTargets(env, s, s', p.target, es[k], k < sz, k < sz', CurrentAt(list, sz, k), CurrentAt(list', sz', k));
      }
    }
  }
}

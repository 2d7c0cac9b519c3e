/** A batch that writes an object tree: the first object of the collection has the
    tree create what it names, the later ones find it and write it again. */
module Batches {
  import opened PropertyTypes
  import opened Values
  import opened Schemas
  import opened Stores
  import opened Terms
  import opened Upsert
  import opened Monitor
  import opened Footprints
  import opened Effects
  import opened Results

  // ----- the same tree written twice

  /** From `s1` to `s2` the targets `ts`, already written since `lo`, were written
      again, along with an old row, `own`. */
  ghost predicate Again(env: Env, lo: Store, s1: Store, s2: Store, own: Target, ts: seq<Target>) {
    && !env.migrating && Good(env, s1) && Good(env, s2) && Grows(env, lo, s1)
    && Frame(env, s1, s2, [own] + ts) && KeysOnly(ts) && (own.ByRow? ==> own.row < Count(lo, own.cls))
  }

  /** Rows without a key are new in each round, and the next round leaves them alone. */
  lemma KeylessAlone(env: Env, lo: Store, s1: Store, s2: Store, own: Target, ts: seq<Target>, cls: nat, r: nat)
    requires Again(env, lo, s1, s2, own, ts) && HasClass(env, cls) && !Keyed(env, cls)
    requires r < Count(s1, cls) && Owns(env, lo, s1, cls, r, ts)
    ensures r >= Count(lo, cls) && r < Count(s2, cls) && RowSame(s1, s2, cls, r)
  {
    assert TargetOf(env, s1, cls, r) == ByRow(cls, r);
    assert ByRow(cls, r) !in ts && ByRow(cls, r) != own;
  }

  lemma {:induction false} ObjectAgain(env: Env, lo: Store, s1: Store, s2: Store, own: Target, ts: seq<Target>,
                                       cls: nat, v: Value, r1: nat, r2: nat)
    requires Again(env, lo, s1, s2, own, ts) && HasClass(env, cls)
    requires Reflects(env, lo, s1, cls, r1, v, false, ts) && Reflects(env, s1, s2, cls, r2, v, false, ts)
    ensures Reflects(env, lo, s2, cls, r1, v, false, ts) && Reflects(env, lo, s2, cls, r2, v, false, ts)
    ensures Keyed(env, cls) ==> r1 == r2
    decreases Weight(v), 3
  {
    if Keyed(env, cls) {
      assert KeyAt(env, s2, cls, r1) == KeyAt(env, s1, cls, r1) == KeyAt(env, s2, cls, r2);
      FindKeyIs(env, s2, cls, KeyAt(env, s2, cls, r1), r1);
      FindKeyIs(env, s2, cls, KeyAt(env, s2, cls, r2), r2);
      forall i: nat | HasProp(env, cls, i) ensures FieldReflects(env, lo, s2, At(cls, r1, i), v, false, ts) {
        KeyedFieldAgain(env, lo, s1, s2, own, ts, At(cls, r1, i), v);
      }
    } else {
      KeylessAlone(env, lo, s1, s2, own, ts, cls, r1);
      assert ByRow(cls, r2) !in ts && r2 >= Count(s1, cls);
      forall i: nat | HasProp(env, cls, i)
        ensures FieldReflects(env, lo, s2, At(cls, r1, i), v, false, ts)
        ensures FieldReflects(env, lo, s2, At(cls, r2, i), v, false, ts)
      {
        KeylessFieldAgain(env, lo, s1, s2, own, ts, At(cls, r1, i), At(cls, r2, i), v);
      }
    }
  }

  lemma {:induction false} KeyedFieldAgain(env: Env, lo: Store, s1: Store, s2: Store, own: Target, ts: seq<Target>,
                                           a: Address, v: Value)
    requires Again(env, lo, s1, s2, own, ts) && HasProp(env, a.cls, a.col) && a.row < Count(s1, a.cls)
    requires FieldReflects(env, lo, s1, a, v, false, ts) && FieldReflects(env, s1, s2, a, v, false, ts)
    ensures FieldReflects(env, lo, s2, a, v, false, ts)
    decreases Weight(v), 2
  {
    var first := Due(env, a.cls, v, a.col, a.row >= Count(lo, a.cls));
    var second := Due(env, a.cls, v, a.col, false);
    if second.Some? {
      CellAgain(env, lo, s1, s2, own, ts, a, a, second.value);
    } else if first.Some? {
      DefaultAgain(env, lo, s1, s2, own, ts, a, first.value);
    }
  }

  lemma {:induction false} KeylessFieldAgain(env: Env, lo: Store, s1: Store, s2: Store, own: Target, ts: seq<Target>,
                                             a1: Address, a2: Address, v: Value)
    requires Again(env, lo, s1, s2, own, ts) && HasProp(env, a1.cls, a1.col) && a1.cls == a2.cls && a1.col == a2.col
    requires a1.row >= Count(lo, a1.cls) && a2.row >= Count(s1, a1.cls) && CellAt(s2, a1) == CellAt(s1, a1)
    requires FieldReflects(env, lo, s1, a1, v, false, ts) && FieldReflects(env, s1, s2, a2, v, false, ts)
    ensures FieldReflects(env, lo, s2, a1, v, false, ts) && FieldReflects(env, lo, s2, a2, v, false, ts)
    decreases Weight(v), 2
  {
    var due := Due(env, a1.cls, v, a1.col, true);
    if due.Some? {
      CellAgain(env, lo, s1, s2, own, ts, a1, a2, due.value);
    }
  }

  /** Both the cell of the first round, if it is as it was, and that of the second
      hold what the two rounds together make of the value. */
  lemma {:induction false} CellAgain(env: Env, lo: Store, s1: Store, s2: Store, own: Target, ts: seq<Target>,
                                     a1: Address, a2: Address, v: Value)
    requires Again(env, lo, s1, s2, own, ts) && HasProp(env, a1.cls, a1.col) && a1.cls == a2.cls && a1.col == a2.col
    requires CellReflects(env, lo, s1, a1, v, false, ts) && CellReflects(env, s1, s2, a2, v, false, ts)
    ensures CellReflects(env, lo, s2, a2, v, false, ts)
    ensures CellAt(s2, a1) == CellAt(s1, a1) ==> CellReflects(env, lo, s2, a1, v, false, ts)
    decreases Weight(v), if IsLink(Prop(env, a1.cls, a1.col)) then 5 else 1
  {
    var p := Prop(env, a1.cls, a1.col);
    if p.ptype.nullable && v.Null? {
    } else if p.ptype.isArray {
      if v.Arr? {
        var items1, items2 := ListAt(s1, a1), ListAt(s2, a2);
        forall k: nat | k < |v.elems|
          ensures ItemReflects(env, lo, s2, p, v.elems[k], items1[k], false, ts)
          ensures ItemReflects(env, lo, s2, p, v.elems[k], items2[k], false, ts)
        {
          ElemWeight(v.elems, k);
          assert ItemReflects(env, lo, s1, p, v.elems[k], items1[k], false, ts);
          assert ItemReflects(env, s1, s2, p, v.elems[k], items2[k], false, ts);
          if p.ptype.base.Object? {
            RowAgain(env, lo, s1, s2, own, ts, p, v.elems[k], items1[k].r, items2[k].r);
          }
        }
      }
    } else if p.ptype.base.Object? {
      RowAgain(env, lo, s1, s2, own, ts, p, v, LinkAt(s1, a1).value, LinkAt(s2, a2).value);
    }
  }

  lemma {:induction false} RowAgain(env: Env, lo: Store, s1: Store, s2: Store, own: Target, ts: seq<Target>,
                                    p: Property, v: Value, r1: nat, r2: nat)
    requires Again(env, lo, s1, s2, own, ts) && ValidProperty(|env.schema|, p) && p.ptype.base.Object?
    requires RowReflects(env, lo, s1, p, v, r1, false, ts) && RowReflects(env, s1, s2, p, v, r2, false, ts)
    ensures RowReflects(env, lo, s2, p, v, r1, false, ts) && RowReflects(env, lo, s2, p, v, r2, false, ts)
    decreases Weight(v), 4
  {
    if !v.Ref? {
      ObjectAgain(env, lo, s1, s2, own, ts, p.target, v, r1, r2);
    }
  }

  /** A default was written in the first round only; the second keeps it. */
  lemma DefaultAgain(env: Env, lo: Store, s1: Store, s2: Store, own: Target, ts: seq<Target>, a: Address, v: Value)
    requires Again(env, lo, s1, s2, own, ts) && HasProp(env, a.cls, a.col)
    requires DefaultOk(Prop(env, a.cls, a.col), v) && CellAt(s2, a) == CellAt(s1, a)
    requires CellReflects(env, lo, s1, a, v, false, ts)
    ensures CellReflects(env, lo, s2, a, v, false, ts)
  {
    var p := Prop(env, a.cls, a.col);
    if p.ptype.nullable && v.Null? {
    } else if p.ptype.isArray {
      if v.Arr? {
        forall k: nat | k < |v.elems|
          ensures ItemReflects(env, lo, s2, p, v.elems[k], ListAt(s2, a)[k], false, ts)
        {
          ElemWeight(v.elems, k);
          assert v.elems[k] in v.elems;
          assert ItemReflects(env, lo, s1, p, v.elems[k], ListAt(s1, a)[k], false, ts);
          if p.ptype.base.Object? {
            FlatRowAgain(env, lo, s1, s2, own, ts, p, v.elems[k], ListAt(s1, a)[k].r);
          }
        }
      }
    } else if p.ptype.base.Object? {
      FlatRowAgain(env, lo, s1, s2, own, ts, p, v, LinkAt(s1, a).value);
    }
  }

  lemma FlatRowAgain(env: Env, lo: Store, s1: Store, s2: Store, own: Target, ts: seq<Target>,
                     p: Property, v: Value, r: nat)
    requires Again(env, lo, s1, s2, own, ts) && ValidProperty(|env.schema|, p) && p.ptype.base.Object? && IsFlat(v)
    requires RowReflects(env, lo, s1, p, v, r, false, ts)
    ensures RowReflects(env, lo, s2, p, v, r, false, ts)
  {
    if !v.Ref? {
      KeylessAlone(env, lo, s1, s2, own, ts, p.target, r);
      forall i: nat | HasProp(env, p.target, i) ensures FieldReflects(env, lo, s2, At(p.target, r, i), v, false, ts) {
        assert FieldReflects(env, lo, s1, At(p.target, r, i), v, false, ts);
      }
    }
  }

  // ----- the batch

  /** The targets of the value, which in the full form are keys of the tree alone. */
  function BatchTargets(env: Env, s: Store, cls: nat, i: nat, v: Value): seq<Target>
    requires HasProp(env, cls, i)
  {
    ValueTargets(env, s, Prop(env, cls, i), v, false, None, [])
  }

  /** A cell of an old row that the batch has no business with. */
  predicate Elsewhere(env: Env, s: Store, a: Address, rows: seq<nat>, cls: nat, i: nat, ts: seq<Target>) {
    && HasClass(env, a.cls) && a.row < Count(s, a.cls) && TargetOf(env, s, a.cls, a.row) !in ts
    && !(a.cls == cls && a.col == i && a.row in rows)
  }

  /** From `s` to `s'` only the targets changed and column `i` of the rows `rows`;
      objects may have been added, those with a key as targets. */
  ghost predicate OnlyTouched(env: Env, s: Store, s': Store, rows: seq<nat>, cls: nat, i: nat, ts: seq<Target>) {
    && Grows(env, s, s')
    && (forall a: Address :: Elsewhere(env, s, a, rows, cls, i, ts) ==> CellAt(s', a) == CellAt(s, a))
    && (forall c: nat, row: nat :: HasClass(env, c) && Keyed(env, c) && Count(s, c) <= row < Count(s', c) ==>
          TargetOf(env, s', c, row) in ts)
  }

  /** Writing the value takes no object out of the collection and moves none. New
      objects may join it at its end. */
  ghost predicate Independent(env: Env, live: Live, s: Store, cls: nat, i: nat, ts: seq<Target>) {
    forall s' :: Good(env, s') && OnlyTouched(env, s, s', live(s), cls, i, ts) ==> live(s) <= live(s')
  }

  /** The collection holds rows of its table, and no target of the value. */
  ghost predicate Clear(env: Env, s: Store, rows: seq<nat>, cls: nat, ts: seq<Target>) {
    HasClass(env, cls) && forall row :: row in rows ==> row < Count(s, cls) && TargetOf(env, s, cls, row) !in ts
  }

  /** The value makes a link to a new object for every object it is written to. */
  predicate MakesOwn(env: Env, p: Property, v: Value)
    requires ValidProperty(|env.schema|, p)
  {
    IsLink(p) && Keyless(env, p, v)
  }

  /** Different objects link to different rows. */
  ghost predicate Different(s: Store, rows: seq<nat>, cls: nat, i: nat, k: nat)
    requires k <= |rows|
  {
    forall j, m :: 0 <= j < m < k && rows[j] != rows[m] ==>
      LinkAt(s, At(cls, rows[j], i)) != LinkAt(s, At(cls, rows[m], i))
  }

  /** The batch has reached the first `k` objects: each holds the value, and where it
      makes an object without a key, an object of its own. */
  ghost predicate Reached(env: Env, s: Store, s': Store, rows: seq<nat>, cls: nat, i: nat, v: Value, ts: seq<Target>,
                          k: nat)
    requires HasProp(env, cls, i) && k <= |rows|
  {
    && Good(env, s') && OnlyTouched(env, s, s', rows, cls, i, ts)
    && (forall j :: 0 <= j < k ==> CellReflects(env, s, s', At(cls, rows[j], i), v, false, ts))
    && (MakesOwn(env, Prop(env, cls, i), v) ==> Different(s', rows, cls, i, k))
  }

  /** What holds throughout the batch. */
  ghost predicate Batch(env: Env, s: Store, rows: seq<nat>, cls: nat, i: nat, v: Value, ts: seq<Target>) {
    && !env.migrating && Good(env, s) && HasProp(env, cls, i) && !IsPrimary(env, cls, i)
    && ts == BatchTargets(env, s, cls, i, v) && NoRepeats(ts) && Clear(env, s, rows, cls, ts)
  }

  /** One write of the batch, from what `SetPropertyEffect` says of it. */
  lemma OneWrite(env: Env, s: Store, st: State, rows: seq<nat>, cls: nat, i: nat, v: Value, ts: seq<Target>, row: nat)
    requires Batch(env, s, rows, cls, i, v, ts) && row in rows && Good(env, st.store) && Grows(env, s, st.store)
    requires SetProperty(env, st, At(cls, row, i), v, true, false, false).res.Ok?
    ensures var s1, a := SetProperty(env, st, At(cls, row, i), v, true, false, false).st.store, At(cls, row, i);
            && Again(env, s, st.store, s1, TargetOf(env, s, cls, row), ts) && OthersSame(st.store, s1, a)
            && CellReflects(env, st.store, s1, a, v, false, ts)
  {
    var a, p, own := At(cls, row, i), Prop(env, cls, i), [TargetOf(env, s, cls, row)];
    SameValues(env, s, st.store, p, v, false, false, None, LinkAt(st.store, a), [], []);
    assert Own(env, st.store, a) == own && CellTargets(env, st.store, a, v, false) == ts;
    NoRepeatsJoin(own[0], ts);
    SetPropertyEffect(env, st, a, v, true, false, false);
  }

  /** The row of a link that makes its own object was added by that write. */
  lemma OwnIsNew(env: Env, lo: Store, s: Store, a: Address, v: Value, ts: seq<Target>)
    requires HasProp(env, a.cls, a.col) && MakesOwn(env, Prop(env, a.cls, a.col), v) && KeysOnly(ts)
    requires CellReflects(env, lo, s, a, v, false, ts)
    ensures LinkAt(s, a).Some?
    ensures Count(lo, Prop(env, a.cls, a.col).target) <= LinkAt(s, a).value < Count(s, Prop(env, a.cls, a.col).target)
  {
    var p := Prop(env, a.cls, a.col);
    assert Reflects(env, lo, s, p.target, LinkAt(s, a).value, v, false, ts);
  }

  lemma TouchedStep(env: Env, s: Store, s1: Store, s2: Store, rows: seq<nat>, cls: nat, i: nat, ts: seq<Target>,
                    row: nat)
    requires OnlyTouched(env, s, s1, rows, cls, i, ts) && Clear(env, s, rows, cls, ts) && row in rows
    requires Again(env, s, s1, s2, TargetOf(env, s, cls, row), ts) && OthersSame(s1, s2, At(cls, row, i))
    ensures OnlyTouched(env, s, s2, rows, cls, i, ts)
  {
    var own := TargetOf(env, s, cls, row);
    GrowsTransitive(env, s, s1, s2);
    forall a: Address | Elsewhere(env, s, a, rows, cls, i, ts)
      ensures CellAt(s2, a) == CellAt(s, a)
    {
      assert TargetOf(env, s1, a.cls, a.row) == TargetOf(env, s, a.cls, a.row);
      if TargetOf(env, s1, a.cls, a.row) == own {
        SameRow(env, s1, a.cls, a.row, cls, row);
      } else {
        assert RowSame(s1, s2, a.cls, a.row);
      }
    }
    forall c: nat, q: nat | HasClass(env, c) && Keyed(env, c) && Count(s, c) <= q < Count(s2, c)
      ensures TargetOf(env, s2, c, q) in ts
    {
      if q < Count(s1, c) {
        assert TargetOf(env, s1, c, q) in ts;
      } else if TargetOf(env, s2, c, q) == own {
        SameRow(env, s2, c, q, cls, row);
      }
    }
  }

  /** Rows with the same target are the same. */
  lemma SameRow(env: Env, s: Store, c: nat, q: nat, cls: nat, row: nat)
    requires HasClass(env, c) && HasClass(env, cls) && DistinctKeys(env, s) && q < Count(s, c) && row < Count(s, cls)
    requires TargetOf(env, s, c, q) == TargetOf(env, s, cls, row)
    ensures c == cls && q == row
  {
    if Keyed(env, cls) {
      FindKeyIs(env, s, cls, KeyAt(env, s, cls, q), q);
      FindKeyIs(env, s, cls, KeyAt(env, s, cls, row), row);
    }
  }

  lemma {:induction false} ReachedStep(env: Env, s: Store, s1: Store, s2: Store, rows: seq<nat>, cls: nat, i: nat,
                                       v: Value, ts: seq<Target>, k: nat)
    requires Batch(env, s, rows, cls, i, v, ts) && k < |rows| && Reached(env, s, s1, rows, cls, i, v, ts, k)
    requires k == 0 ==> s1 == s
    requires Again(env, s, s1, s2, TargetOf(env, s, cls, rows[k]), ts) && OthersSame(s1, s2, At(cls, rows[k], i))
    requires CellReflects(env, s1, s2, At(cls, rows[k], i), v, false, ts)
    ensures Reached(env, s, s2, rows, cls, i, v, ts, k + 1)
  {
    TouchedStep(env, s, s1, s2, rows, cls, i, ts, rows[k]);
    forall j | 0 <= j <= k
      ensures CellReflects(env, s, s2, At(cls, rows[j], i), v, false, ts)
    {
      if j < k || k > 0 {
        HeldStep(env, s, s1, s2, rows, cls, i, v, ts, k, if j < k then j else 0);
      }
    }
    if MakesOwn(env, Prop(env, cls, i), v) {
      DifferentStep(env, s, s1, s2, rows, cls, i, v, ts, k);
    }
  }

  /** The new object is none of those made before. */
  lemma DifferentStep(env: Env, s: Store, s1: Store, s2: Store, rows: seq<nat>, cls: nat, i: nat, v: Value,
                      ts: seq<Target>, k: nat)
    requires Batch(env, s, rows, cls, i, v, ts) && k < |rows| && MakesOwn(env, Prop(env, cls, i), v)
    requires forall j :: 0 <= j < k ==> CellReflects(env, s, s1, At(cls, rows[j], i), v, false, ts)
    requires Different(s1, rows, cls, i, k)
    requires Again(env, s, s1, s2, TargetOf(env, s, cls, rows[k]), ts)
    requires CellReflects(env, s1, s2, At(cls, rows[k], i), v, false, ts)
    ensures Different(s2, rows, cls, i, k + 1)
  {
    OwnIsNew(env, s1, s2, At(cls, rows[k], i), v, ts);
    forall j | 0 <= j < k && rows[j] != rows[k]
      ensures LinkAt(s2, At(cls, rows[j], i)) == LinkAt(s1, At(cls, rows[j], i)) != LinkAt(s2, At(cls, rows[k], i))
    {
      OwnIsNew(env, s, s1, At(cls, rows[j], i), v, ts);
      OtherKept(env, s, s1, s2, rows, cls, i, ts, rows[j], rows[k]);
    }
  }

  /** An object reached before and the one reached now hold the value since `s`. */
  lemma HeldStep(env: Env, s: Store, s1: Store, s2: Store, rows: seq<nat>, cls: nat, i: nat, v: Value,
                 ts: seq<Target>, k: nat, j: nat)
    requires Batch(env, s, rows, cls, i, v, ts) && j < k < |rows|
    requires CellReflects(env, s, s1, At(cls, rows[j], i), v, false, ts)
    requires Again(env, s, s1, s2, TargetOf(env, s, cls, rows[k]), ts)
    requires CellReflects(env, s1, s2, At(cls, rows[k], i), v, false, ts)
    ensures CellReflects(env, s, s2, At(cls, rows[j], i), v, false, ts)
    ensures CellReflects(env, s, s2, At(cls, rows[k], i), v, false, ts)
  {
    OtherKept(env, s, s1, s2, rows, cls, i, ts, rows[j], rows[k]);
    CellAgain(env, s, s1, s2, TargetOf(env, s, cls, rows[k]), ts, At(cls, rows[j], i), At(cls, rows[k], i), v);
  }

  lemma OtherKept(env: Env, s: Store, s1: Store, s2: Store, rows: seq<nat>, cls: nat, i: nat, ts: seq<Target>,
                  q: nat, row: nat)
    requires Clear(env, s, rows, cls, ts) && q in rows && row in rows && Good(env, s)
    requires Again(env, s, s1, s2, TargetOf(env, s, cls, row), ts)
    ensures q != row ==> RowSame(s1, s2, cls, q)
  {
    if q != row {
      assert TargetOf(env, s1, cls, q) == TargetOf(env, s, cls, q);
      if TargetOf(env, s, cls, q) == TargetOf(env, s, cls, row) {
        SameRow(env, s, cls, q, cls, row);
      }
    }
  }

  lemma NextReached(env: Env, s: Store, st: State, rows: seq<nat>, cls: nat, i: nat, v: Value, ts: seq<Target>, k: nat)
    requires Batch(env, s, rows, cls, i, v, ts) && k < |rows| && Reached(env, s, st.store, rows, cls, i, v, ts, k)
    requires k == 0 ==> st.store == s
    requires SetProperty(env, st, At(cls, rows[k], i), v, true, false, false).res.Ok?
    ensures var o := SetProperty(env, st, At(cls, rows[k], i), v, true, false, false);
            Reached(env, s, o.st.store, rows, cls, i, v, ts, k + 1)
  {
    var o := SetProperty(env, st, At(cls, rows[k], i), v, true, false, false);
    OneWrite(env, s, st, rows, cls, i, v, ts, rows[k]);
    ReachedStep(env, s, st.store, o.st.store, rows, cls, i, v, ts, k);
  }

  lemma StillThere(env: Env, live: Live, s: Store, s': Store, cls: nat, i: nat, ts: seq<Target>, k: nat)
    requires Independent(env, live, s, cls, i, ts) && k < |live(s)|
    requires Good(env, s') && OnlyTouched(env, s, s', live(s), cls, i, ts)
    ensures k < |live(s')| && live(s')[k] == live(s)[k] && live(s)[k] in live(s)
  {
    assert live(s) <= live(s');
  }

  lemma {:induction false} SetAllFromReaches(env: Env, s: Store, st: State, cls: nat, i: nat, live: Live, v: Value,
                                             ts: seq<Target>, k: nat)
    requires Batch(env, s, live(s), cls, i, v, ts) && Independent(env, live, s, cls, i, ts) && k <= |live(s)|
    requires Reached(env, s, st.store, live(s), cls, i, v, ts, k) && (k == 0 ==> st.store == s)
    ensures var r := SetAllFrom(env, st, cls, i, live, v, k, |live(s)|);
            r.res.Ok? ==> Reached(env, s, r.st.store, live(s), cls, i, v, ts, |live(s)|)
    decreases |live(s)| - k
  {
    var rows := live(s);
    if k < |rows| {
      StillThere(env, live, s, st.store, cls, i, ts, k);
      var o := SetProperty(env, st, At(cls, rows[k], i), v, true, false, false);
      if o.res.Ok? {
        NextReached(env, s, st, rows, cls, i, v, ts, k);
        SetAllFromReaches(env, s, o.st, cls, i, live, v, ts, k + 1);
      }
    }
  }

  /** The batch covers the collection, for any value: a tree that repeats no key, and
      reaches no object of the collection. Every object that was in the collection at
      the call ends up holding the value as if it alone had been written, although
      the others were written after it; no cell changes but this column of these
      objects and the rows the tree names by their keys. */
  lemma SetAllCovers(env: Env, st: State, cls: nat, i: nat, live: Live, v: Value)
    requires Ready(env, st) && HasProp(env, cls, i)
    requires var ts := BatchTargets(env, st.store, cls, i, v);
             && NoRepeats(ts) && Clear(env, st.store, live(st.store), cls, ts)
             && Independent(env, live, st.store, cls, i, ts)
    requires SetAll(env, st, cls, Some(i), live, v).res.Ok?
    ensures var s', ts := SetAll(env, st, cls, Some(i), live, v).st.store, BatchTargets(env, st.store, cls, i, v);
            && Good(env, s') && OnlyTouched(env, st.store, s', live(st.store), cls, i, ts)
            && forall row :: row in live(st.store) ==> CellReflects(env, st.store, s', At(cls, row, i), v, false, ts)
  {
    BatchReaches(env, st, cls, i, live, v);
  }

  lemma BatchReaches(env: Env, st: State, cls: nat, i: nat, live: Live, v: Value)
    requires Ready(env, st) && HasProp(env, cls, i)
    requires var ts := BatchTargets(env, st.store, cls, i, v);
             && NoRepeats(ts) && Clear(env, st.store, live(st.store), cls, ts)
             && Independent(env, live, st.store, cls, i, ts)
    requires SetAll(env, st, cls, Some(i), live, v).res.Ok?
    ensures var s', rows := SetAll(env, st, cls, Some(i), live, v).st.store, live(st.store);
            Reached(env, st.store, s', rows, cls, i, v, BatchTargets(env, st.store, cls, i, v), |rows|)
  {
    var s, ts := st.store, BatchTargets(env, st.store, cls, i, v);
    SameValues(env, s, s, Prop(env, cls, i), v, false, false, None, None, [], []);
    SetAllFromReaches(env, s, st, cls, i, live, v, ts, 0);
  }

  lemma LinkLeads(env: Env, lo: Store, s: Store, a: Address, v: Value, ts: seq<Target>)
    requires HasProp(env, a.cls, a.col) && IsLink(Prop(env, a.cls, a.col)) && !v.Null? && !v.Ref?
    requires CellReflects(env, lo, s, a, v, false, ts)
    ensures LinkAt(s, a).Some?
    ensures var c := Prop(env, a.cls, a.col).target;
            Keyed(env, c) ==>
              LinkAt(s, a).value < Count(s, c) && AsksFor(env, c, v, KeyAt(env, s, c, LinkAt(s, a).value))
  {
    var c := Prop(env, a.cls, a.col).target;
    assert Reflects(env, lo, s, c, LinkAt(s, a).value, v, false, ts);
  }

  /** Where the value is an object with a key, the whole collection links to the one
      row that holds the key; without a key, every object links to a row of its own. */
  lemma SetAllShares(env: Env, st: State, cls: nat, i: nat, live: Live, v: Value, row: nat, other: nat)
    requires Ready(env, st) && HasProp(env, cls, i)
    requires var ts := BatchTargets(env, st.store, cls, i, v);
             && NoRepeats(ts) && Clear(env, st.store, live(st.store), cls, ts)
             && Independent(env, live, st.store, cls, i, ts)
    requires SetAll(env, st, cls, Some(i), live, v).res.Ok?
    requires IsLink(Prop(env, cls, i)) && !v.Null? && !v.Ref?
    requires row in live(st.store) && other in live(st.store) && row != other
    ensures var p, s' := Prop(env, cls, i), SetAll(env, st, cls, Some(i), live, v).st.store;
            var link, link2 := LinkAt(s', At(cls, row, i)), LinkAt(s', At(cls, other, i));
            && link.Some?
            && if Keyed(env, p.target) then
                 && link == link2 && link.value < Count(s', p.target)
                 && AsksFor(env, p.target, v, KeyAt(env, s', p.target, link.value))
               else link != link2
  {
    BatchReaches(env, st, cls, i, live, v);
    var s' := SetAll(env, st, cls, Some(i), live, v).st.store;
    var a, b, ts := At(cls, row, i), At(cls, other, i), BatchTargets(env, st.store, cls, i, v);
    LinkLeads(env, st.store, s', a, v, ts);
    LinkLeads(env, st.store, s', b, v, ts);
    var c := Prop(env, cls, i).target;
    if Keyed(env, c) {
      var link, link2 := LinkAt(s', a).value, LinkAt(s', b).value;
      assert KeyAt(env, s', c, link) == KeyAt(env, s', c, link2);
      FindKeyIs(env, s', c, KeyAt(env, s', c, link), link);
      FindKeyIs(env, s', c, KeyAt(env, s', c, link), link2);
    }
  }
}

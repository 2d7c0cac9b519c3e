/** The diff form against the full form, from the same tables. */
module Refinement {
  import opened PropertyTypes
  import opened Values
  import opened Schemas
  import opened Stores
  import opened Terms
  import opened Upsert
  import opened Monitor
  import opened Footprints
  import opened Effects

  // ----- when the diff form loses nothing

  /** Nowhere in the tree is a null cell given the value that it already reads as.
      A caller can check this before the call: it looks only at the tree, the
      schema and the tables as they stand. */
  ghost predicate Faithful(env: Env, s: Store, cls: nat, v: Value)
    requires HasClass(env, cls)
    decreases Weight(v), 3
  {
    if Keyed(env, cls) then
      KeyOf(env, cls, v).Ok? ==> RowFaithful(env, s, cls, v, FindKey(env, s, cls, KeyOf(env, cls, v).value))
    else RowFaithful(env, s, cls, v, None)
  }

  /** What the cell holds before the call, if the row is there. */
  function Was(s: Store, cls: nat, row: Option<nat>, i: nat): Cell {
    if row.Some? then CellAt(s, At(cls, row.value, i)) else One(None)
  }

  ghost predicate RowFaithful(env: Env, s: Store, cls: nat, v: Value, row: Option<nat>)
    requires HasClass(env, cls)
    decreases Weight(v), 2
  {
    forall i: nat :: HasProp(env, cls, i) ==> FieldFaithful(env, s, cls, i, row.None?, Was(s, cls, row, i), v)
  }

  ghost predicate FieldFaithful(env: Env, s: Store, cls: nat, i: nat, created: bool, was: Cell, v: Value)
    requires HasProp(env, cls, i)
    decreases Weight(v), 1
  {
    var due := Due(env, cls, v, i, created);
    due.Some? ==> CellFaithful(env, s, Prop(env, cls, i), was, due.value)
  }

  ghost predicate CellFaithful(env: Env, s: Store, p: Property, was: Cell, v: Value)
    requires ValidProperty(|env.schema|, p)
    decreases Weight(v), if IsLink(p) then 5 else 0
  {
    if p.ptype.nullable && v.Null? then true
    else if p.ptype.isArray then
      p.ptype.base.Object? && v.Arr? && was.Many? ==>
        forall k: nat :: k < |v.elems| && k < |was.items| ==>
          (ElemWeight(v.elems, k); LinkFaithful(env, s, p, v.elems[k]))
    else if p.ptype.base.Object? then LinkFaithful(env, s, p, v)
    else
      v.Leaf? ==> !Lost(p, if was.One? then was.s else None, v.s)
  }

  ghost predicate LinkFaithful(env: Env, s: Store, p: Property, v: Value)
    requires ValidProperty(|env.schema|, p) && p.ptype.base.Object?
    decreases Weight(v), 4
  {
    v.Ref? || Faithful(env, s, p.target, v)
  }

  // ----- being faithful does not depend on what other targets hold

  lemma {:induction false} FaithfulStable(env: Env, s: Store, s': Store, us: seq<Target>, cls: nat, v: Value)
    requires LinkedKeyed(env) && HasClass(env, cls) && Steady(env, s, s', us)
    requires Apart(ObjectTargets(env, s, cls, v, true, None), us)
    requires Faithful(env, s, cls, v)
    ensures Faithful(env, s', cls, v)
    decreases Weight(v), 3
  {
    if Keyed(env, cls) {
      if KeyOf(env, cls, v).Ok? {
        var key := KeyOf(env, cls, v).value;
        var row := FindKey(env, s, cls, key);
        assert ByKey(cls, key) in ObjectTargets(env, s, cls, v, true, None);
        FindKeyStable(env, s, s', cls, key, us);
        if row.Some? {
          assert TargetOf(env, s, cls, row.value) == ByKey(cls, key);
          assert RowSame(s, s', cls, row.value);
        }
        var fields := FieldTargets(env, s, cls, v, row, true, 0);
        assert forall t :: t in fields ==> t in [ByKey(cls, key)] + fields;
        RowFaithfulStable(env, s, s', us, cls, v, row);
      }
    } else {
      RowFaithfulStable(env, s, s', us, cls, v, None);
    }
  }

  lemma {:induction false} RowFaithfulStable(env: Env, s: Store, s': Store, us: seq<Target>, cls: nat, v: Value,
                                             row: Option<nat>)
    requires LinkedKeyed(env) && HasClass(env, cls) && Steady(env, s, s', us)
    requires row.Some? ==> RowSame(s, s', cls, row.value)
    requires Apart(FieldTargets(env, s, cls, v, row, true, 0), us)
    requires RowFaithful(env, s, cls, v, row)
    ensures RowFaithful(env, s', cls, v, row)
    decreases Weight(v), 2
  {
    forall i: nat | HasProp(env, cls, i)
      ensures FieldFaithful(env, s', cls, i, row.None?, Was(s', cls, row, i), v)
    {
      FieldIn(env, s, cls, v, row, 0, i);
      FieldFaithfulStable(env, s, s', us, cls, i, row.None?, Was(s, cls, row, i), Was(s', cls, row, i), v);
    }
  }

  /** The targets of one property, which with keys everywhere need no row. */
  function FieldOf(env: Env, s: Store, cls: nat, v: Value, i: nat): seq<Target>
    requires HasProp(env, cls, i)
  {
    FieldTarget(env, s, cls, v, None, [], true, i)
  }

  lemma {:induction false} FieldIn(env: Env, s: Store, cls: nat, v: Value, row: Option<nat>, j: nat, i: nat)
    requires LinkedKeyed(env) && HasProp(env, cls, i) && j <= i
    ensures forall t :: t in FieldOf(env, s, cls, v, i) ==> t in FieldTargets(env, s, cls, v, row, true, j)
    decreases i - j
  {
    if j == i {
      PropTargetKeyed(env, cls, i);
      if Lookup(v, i).Ok? && Lookup(v, i).value.Some? {
        SameValues(env, s, s, Prop(env, cls, i), Lookup(v, i).value.value, true, true,
                   None, LinkSeen(s, cls, row, i), [], ListSeen(s, cls, row, true, i));
      }
    } else {
      FieldIn(env, s, cls, v, row, j + 1, i);
    }
  }

  /** The two old cells agree on what the predicate looks at. */
  predicate SameWas(p: Property, was: Cell, was': Cell) {
    && (if was.Many? then |was.items| else 0) == (if was'.Many? then |was'.items| else 0)
    && (p.ptype.nullable ==> (if was.One? then was.s else None) == (if was'.One? then was'.s else None))
  }

  lemma {:induction false} FieldFaithfulStable(env: Env, s: Store, s': Store, us: seq<Target>, cls: nat, i: nat,
                                               created: bool, was: Cell, was': Cell, v: Value)
    requires LinkedKeyed(env) && HasProp(env, cls, i) && Steady(env, s, s', us)
    requires SameWas(Prop(env, cls, i), was, was') && Apart(FieldOf(env, s, cls, v, i), us)
    requires FieldFaithful(env, s, cls, i, created, was, v)
    ensures FieldFaithful(env, s', cls, i, created, was', v)
    decreases Weight(v), 1
  {
    var due := Due(env, cls, v, i, created);
    PropTargetKeyed(env, cls, i);
    if due.Some? {
      if ValueAt(v, i).None? {
        DefaultTargets(env, s, Prop(env, cls, i), due.value, true);
      }
      CellFaithfulStable(env, s, s', us, Prop(env, cls, i), was, was', due.value);
    }
  }

  lemma {:induction false} CellFaithfulStable(env: Env, s: Store, s': Store, us: seq<Target>,
                                              p: Property, was: Cell, was': Cell, v: Value)
    requires LinkedKeyed(env) && TargetKeyed(env, p) && Steady(env, s, s', us)
    requires SameWas(p, was, was') && Apart(ValueTargets(env, s, p, v, true, None, []), us)
    requires CellFaithful(env, s, p, was, v)
    ensures CellFaithful(env, s', p, was', v)
    decreases Weight(v), if IsLink(p) then 5 else 0
  {
    if p.ptype.nullable && v.Null? {
    } else if p.ptype.isArray {
      if p.ptype.base.Object? && v.Arr? && was.Many? && was'.Many? {
        forall k: nat | k < |v.elems| && k < |was'.items| ensures LinkFaithful(env, s', p, v.elems[k]) {
          ElemWeight(v.elems, k);
          ElemIn(env, s, p, v.elems, 0, k);
          LinkFaithfulStable(env, s, s', us, p, v.elems[k]);
        }
      }
    } else if p.ptype.base.Object? {
      LinkFaithfulStable(env, s, s', us, p, v);
    }
  }

  lemma {:induction false} ElemIn(env: Env, s: Store, p: Property, es: seq<Value>, j: nat, k: nat)
    requires LinkedKeyed(env) && TargetKeyed(env, p) && p.ptype.base.Object? && j <= k < |es|
    ensures forall t :: t in RowTargets(env, s, p, es[k], true, None) ==> t in ElemTargets(env, s, p, es, [], 0, j)
    decreases k - j
  {
    if j == k {
      if !es[k].Ref? {
        SameTargets(env, s, s, p.target, es[k], true, false, None, None);
      }
    } else {
      ElemIn(env, s, p, es, j + 1, k);
    }
  }

  lemma {:induction false} LinkFaithfulStable(env: Env, s: Store, s': Store, us: seq<Target>, p: Property, v: Value)
    requires LinkedKeyed(env) && TargetKeyed(env, p) && p.ptype.base.Object? && Steady(env, s, s', us)
    requires Apart(RowTargets(env, s, p, v, true, None), us)
    requires LinkFaithful(env, s, p, v)
    ensures LinkFaithful(env, s', p, v)
    decreases Weight(v), 4
  {
    if !v.Ref? {
      FaithfulStable(env, s, s', us, p.target, v);
    }
  }

  // ----- only if: a result that both forms describe has lost nothing

  lemma {:induction false} BothReflect(env: Env, lo: Store, s: Store, cls: nat, row: nat, v: Value,
                                       ts: seq<Target>, us: seq<Target>)
    requires LinkedKeyed(env) && HasClass(env, cls)
    requires !env.migrating && Good(env, lo) && Good(env, s) && Grows(env, lo, s)
    requires Reflects(env, lo, s, cls, row, v, true, ts) && Reflects(env, lo, s, cls, row, v, false, us)
    requires Keyed(env, cls) || row >= Count(lo, cls)
    ensures Faithful(env, lo, cls, v)
    decreases Weight(v), 3
  {
    var was := if row < Count(lo, cls) then Some(row) else None;
    if Keyed(env, cls) {
      var key := KeyAt(env, s, cls, row);
      if row < Count(lo, cls) {
        FindKeyIs(env, lo, cls, key, row);
      } else {
        forall q: nat | q < Count(lo, cls) ensures KeyAt(env, lo, cls, q) != key {
          assert KeyAt(env, s, cls, q) != KeyAt(env, s, cls, row);
        }
      }
    }
    forall i: nat | HasProp(env, cls, i)
      ensures FieldFaithful(env, lo, cls, i, was.None?, Was(lo, cls, was, i), v)
    {
      var a := At(cls, row, i);
      assert FieldReflects(env, lo, s, a, v, true, ts) && FieldReflects(env, lo, s, a, v, false, us);
      PropTargetKeyed(env, cls, i);
      var due := Due(env, cls, v, i, was.None?);
      if due.Some? {
        BothCell(env, lo, s, a, due.value, ts, us);
      }
    }
  }

  lemma {:induction false} BothCell(env: Env, lo: Store, s: Store, a: Address, v: Value, ts: seq<Target>,
                                    us: seq<Target>)
    requires LinkedKeyed(env) && HasProp(env, a.cls, a.col) && TargetKeyed(env, Prop(env, a.cls, a.col))
    requires !env.migrating && Good(env, lo) && Good(env, s) && Grows(env, lo, s)
    requires CellReflects(env, lo, s, a, v, true, ts) && CellReflects(env, lo, s, a, v, false, us)
    ensures CellFaithful(env, lo, Prop(env, a.cls, a.col), Before(lo, a), v)
    decreases Weight(v), if IsLink(Prop(env, a.cls, a.col)) then 5 else 0
  {
    var p := Prop(env, a.cls, a.col);
    if p.ptype.nullable && v.Null? {
    } else if p.ptype.isArray {
      if p.ptype.base.Object? && v.Arr? && Before(lo, a).Many? {
        forall k: nat | k < |v.elems| && k < |Before(lo, a).items| ensures LinkFaithful(env, lo, p, v.elems[k]) {
          ElemWeight(v.elems, k);
          var item := ListAt(s, a)[k];
          assert ItemReflects(env, lo, s, p, v.elems[k], item, true, ts);
          assert ItemReflects(env, lo, s, p, v.elems[k], item, false, us);
          BothRow(env, lo, s, p, v.elems[k], item.r, ts, us);
        }
      }
    } else if p.ptype.base.Object? {
      BothRow(env, lo, s, p, v, LinkAt(s, a).value, ts, us);
    }
  }

  lemma {:induction false} BothRow(env: Env, lo: Store, s: Store, p: Property, v: Value, r: nat, ts: seq<Target>,
                                   us: seq<Target>)
    requires LinkedKeyed(env) && TargetKeyed(env, p) && p.ptype.base.Object?
    requires !env.migrating && Good(env, lo) && Good(env, s) && Grows(env, lo, s)
    requires RowReflects(env, lo, s, p, v, r, true, ts) && RowReflects(env, lo, s, p, v, r, false, us)
    ensures LinkFaithful(env, lo, p, v)
    decreases Weight(v), 4
  {
    if !v.Ref? {
      BothReflect(env, lo, s, p.target, r, v, ts, us);
    }
  }

  // ----- if: the two runs side by side

  /** How far the tables of the two runs may differ: in the cells `open`, lists still
      being built, and elsewhere not at all, or only in scalars that the diff form lost. */
  datatype Slack = Slack(open: set<Address>, exact: bool)

  function With(xs: Slack, a: Address): Slack {
    xs.(open := xs.open + {a})
  }

  /** The diff run kept a null where the full run holds the value that it reads as. */
  predicate LostCell(p: Property, c1: Cell, c2: Cell) {
    && p.ptype.nullable && !p.ptype.isArray && !p.ptype.base.Object?
    && c1 == One(None)
    && ((p.ptype.base.Int? && c2 == One(Some(IntV(0)))) || (p.ptype.base.Bool? && c2 == One(Some(BoolV(false)))))
  }

  predicate Matches(env: Env, exact: bool, a: Address, c1: Cell, c2: Cell) {
    c1 == c2 || (!exact && HasProp(env, a.cls, a.col) && !IsPrimary(env, a.cls, a.col)
                 && LostCell(Prop(env, a.cls, a.col), c1, c2))
  }

  ghost predicate Agree(env: Env, s1: Store, s2: Store, xs: Slack) {
    && s1.rows == s2.rows && s1.cells.Keys == s2.cells.Keys
    && forall a: Address :: a !in xs.open ==> Matches(env, xs.exact, a, CellAt(s1, a), CellAt(s2, a))
  }

  ghost predicate Pair(env: Env, st1: State, st2: State, xs: Slack) {
    && LinkedKeyed(env) && Ready(env, st1) && Ready(env, st2) && Agree(env, st1.store, st2.store, xs)
    && forall a :: a in xs.open ==> InStore(env, st1.store, a) && !IsPrimary(env, a.cls, a.col)
  }

  ghost predicate ClearOf(env: Env, s: Store, xs: Slack, ts: seq<Target>) {
    forall a :: a in xs.open ==> HasClass(env, a.cls) && TargetOf(env, s, a.cls, a.row) !in ts
  }

  /** Same answer or same exception, and after an answer tables that agree. */
  ghost predicate Alike<T>(env: Env, o1: Out<T>, o2: Out<T>, xs: Slack) {
    o1.res == o2.res && (o1.res.Ok? ==> Agree(env, o1.st.store, o2.st.store, xs))
  }

  lemma AgreeAll(env: Env, s1: Store, s2: Store)
    requires Agree(env, s1, s2, Slack({}, true))
    ensures s1 == s2
  {
    forall a | a in s1.cells ensures s1.cells[a] == s2.cells[a] {
      assert CellAt(s1, a) == CellAt(s2, a);
    }
  }

  lemma AgreePut(env: Env, s1: Store, s2: Store, xs: Slack, a: Address, c: Cell)
    requires Agree(env, s1, s2, xs) || Agree(env, s1, s2, With(xs, a))
    ensures Agree(env, PutCell(s1, a, c), PutCell(s2, a, c), xs)
  {
    forall b: Address | b !in xs.open
      ensures Matches(env, xs.exact, b, CellAt(PutCell(s1, a, c), b), CellAt(PutCell(s2, a, c), b))
    {
      assert b == a || b !in With(xs, a).open;
    }
  }

  /** The run that writes nothing agrees where its cell matches what was written. */
  lemma AgreeHeld(env: Env, s1: Store, s2: Store, xs: Slack, a: Address, c: Cell)
    requires Agree(env, s1, s2, xs) && a in s1.cells && Matches(env, xs.exact, a, CellAt(s1, a), c)
    ensures Agree(env, s1, PutCell(s2, a, c), xs)
  {
  }

  lemma FindKeyAgree(env: Env, st1: State, st2: State, xs: Slack, cls: nat, key: Key)
    requires Pair(env, st1, st2, xs) && HasClass(env, cls) && Keyed(env, cls)
    ensures FindKey(env, st1.store, cls, key) == FindKey(env, st2.store, cls, key)
  {
    var s1, s2 := st1.store, st2.store;
    assert forall r: nat :: KeyAt(env, s1, cls, r) == KeyAt(env, s2, cls, r);
    var f := FindKey(env, s1, cls, key);
    if f.Some? {
      FindKeyIs(env, s2, cls, key, f.value);
    } else {
      assert FindKey(env, s2, cls, key).None?;
    }
  }

  lemma LocateAlike(env: Env, st1: State, st2: State, xs: Slack, cls: nat, v: Value, tu: bool, d: bool,
                    cur: Option<nat>)
    requires Pair(env, st1, st2, xs) && HasClass(env, cls) && (Keyed(env, cls) || cur.None?)
    ensures Alike(env, Locate(env, st1, cls, v, tu, d, cur), Locate(env, st2, cls, v, tu, false, None), xs)
  {
    if Keyed(env, cls) {
      if KeyOf(env, cls, v).Ok? {
        FindKeyAgree(env, st1, st2, xs, cls, KeyOf(env, cls, v).value);
        AppendAlike(env, st1, st2, xs, cls, Some(KeyOf(env, cls, v).value));
      }
    } else {
      AppendAlike(env, st1, st2, xs, cls, None);
    }
  }

  lemma AgreeAdd(env: Env, s1: Store, s2: Store, xs: Slack, cls: nat)
    requires Agree(env, s1, s2, xs) && HasClass(env, cls)
    ensures Agree(env, AddRow(env, s1, cls), AddRow(env, s2, cls), xs)
  {
  }

  lemma AppendAlike(env: Env, st1: State, st2: State, xs: Slack, cls: nat, key: Option<Key>)
    requires Agree(env, st1.store, st2.store, xs) && HasClass(env, cls)
    ensures Alike(env, Append(env, st1, cls, key, true), Append(env, st2, cls, key, true), xs)
  {
    var row := Count(st1.store, cls);
    var t1, t2 := AddRow(env, st1.store, cls), AddRow(env, st2.store, cls);
    AgreeAdd(env, st1.store, st2.store, xs, cls);
    if Keyed(env, cls) && key.Some? {
      AgreePut(env, t1, t2, xs, At(cls, row, KeyCol(env, cls)), One(key.value));
    }
  }

  lemma {:induction false} CreateAlike(env: Env, st1: State, st2: State, xs: Slack,
                                       cls: nat, v: Value, tu: bool, d: bool, cur: Option<nat>)
    requires Pair(env, st1, st2, xs) && HasClass(env, cls) && (Keyed(env, cls) || cur.None?)
    requires RowOk(st1.store, cls, cur)
    requires var ts := ObjectTargets(env, st1.store, cls, v, d, cur);
             NoRepeats(ts) && ClearOf(env, st1.store, xs, ts)
    requires xs.exact && d ==> Faithful(env, st1.store, cls, v)
    ensures Alike(env, Create(env, st1, cls, v, tu, d, cur), Create(env, st2, cls, v, tu, false, None), xs)
    decreases Weight(v), 5, 0
  {
    LocateAlike(env, st1, st2, xs, cls, v, tu, d, cur);
    var l1 := Locate(env, st1, cls, v, tu, d, cur);
    var l2 := Locate(env, st2, cls, v, tu, false, None);
    if env.writing && l1.res.Ok? {
      LocatedPair(env, st1, st2, xs, cls, v, tu, d, cur);
      PopulateAlike(env, l1.st, l2.st, xs, cls, v, l1.res.value, tu, d, 0);
    }
  }

  /** What both runs may rely on once the row is there. */
  ghost predicate PairAt(env: Env, st1: State, st2: State, xs: Slack, cls: nat, v: Value, at: Located,
                         d: bool, i: nat)
    requires HasClass(env, cls)
  {
    var ts := [TargetOf(env, st1.store, cls, at.row)] + FieldTargets(env, st1.store, cls, v, Some(at.row), d, i);
    && Pair(env, st1, st2, xs) && at.row < Count(st1.store, cls) && at.skipPrimary
    && (at.created ==> FreshFrom(env, st1.store, cls, at.row, i) && FreshFrom(env, st2.store, cls, at.row, i))
    && NoRepeats(ts) && ClearOf(env, st1.store, xs, ts)
    && (xs.exact && d ==> FieldsFaithful(env, st1.store, cls, at, v, i))
  }

  lemma LocatedPair(env: Env, st1: State, st2: State, xs: Slack, cls: nat, v: Value, tu: bool, d: bool,
                    cur: Option<nat>)
    requires Pair(env, st1, st2, xs) && HasClass(env, cls) && (Keyed(env, cls) || cur.None?)
    requires RowOk(st1.store, cls, cur)
    requires var ts := ObjectTargets(env, st1.store, cls, v, d, cur);
             NoRepeats(ts) && ClearOf(env, st1.store, xs, ts)
    requires xs.exact && d ==> Faithful(env, st1.store, cls, v)
    requires var l1, l2 := Locate(env, st1, cls, v, tu, d, cur), Locate(env, st2, cls, v, tu, false, None);
             l1.res.Ok? && Alike(env, l1, l2, xs)
    ensures var l1, l2 := Locate(env, st1, cls, v, tu, d, cur), Locate(env, st2, cls, v, tu, false, None);
            PairAt(env, l1.st, l2.st, xs, cls, v, l1.res.value, d, 0)
  {
    SameTargets(env, st1.store, st2.store, cls, v, d, false, cur, None);
    LocatedTargets(env, st1, cls, v, tu, d, cur);
    LocatedTargets(env, st2, cls, v, tu, false, None);
    LocateEffect(env, st1, cls, v, tu, d, cur);
    LocateEffect(env, st2, cls, v, tu, false, None);
    LocatedClear(env, st1, xs, cls, v, tu, d, cur);
    if xs.exact && d {
      LocatedFaithful(env, st1, cls, v, tu, cur);
    }
  }

  lemma LocatedClear(env: Env, st: State, xs: Slack, cls: nat, v: Value, tu: bool, d: bool, cur: Option<nat>)
    requires LinkedKeyed(env) && Ready(env, st) && HasClass(env, cls) && RowOk(st.store, cls, cur)
    requires forall a :: a in xs.open ==> InStore(env, st.store, a)
    requires Locate(env, st, cls, v, tu, d, cur).res.Ok?
    requires LocatedOk(env, st.store, Locate(env, st, cls, v, tu, d, cur).st.store, cls, v, d, cur,
                       Locate(env, st, cls, v, tu, d, cur).res.value)
    requires var ts := ObjectTargets(env, st.store, cls, v, d, cur);
             var l := Locate(env, st, cls, v, tu, d, cur);
             var own := TargetOf(env, l.st.store, cls, l.res.value.row);
             var fields := FieldTargets(env, l.st.store, cls, v, Some(l.res.value.row), d, 0);
             && ClearOf(env, st.store, xs, ts)
             && ts == (if Keyed(env, cls) || !l.res.value.created then [own] + fields else fields)
    ensures var l := Locate(env, st, cls, v, tu, d, cur);
            var own := TargetOf(env, l.st.store, cls, l.res.value.row);
            var fields := FieldTargets(env, l.st.store, cls, v, Some(l.res.value.row), d, 0);
            && ClearOf(env, l.st.store, xs, [own] + fields)
            && forall a :: a in xs.open ==> InStore(env, l.st.store, a)
  {
    var l := Locate(env, st, cls, v, tu, d, cur);
    forall a | a in xs.open ensures TargetOf(env, l.st.store, a.cls, a.row) == TargetOf(env, st.store, a.cls, a.row) {
      assert InStore(env, st.store, a);
    }
  }

  /** Fields from `i` on, judged by what the located row holds now. */
  ghost predicate FieldsFaithful(env: Env, s: Store, cls: nat, at: Located, v: Value, i: nat)
    requires HasClass(env, cls)
  {
    forall j: nat :: i <= j && HasProp(env, cls, j) ==>
      FieldFaithful(env, s, cls, j, at.created, CellAt(s, At(cls, at.row, j)), v)
  }

  lemma LocatedFaithful(env: Env, st: State, cls: nat, v: Value, tu: bool, cur: Option<nat>)
    requires LinkedKeyed(env) && Ready(env, st) && HasClass(env, cls) && (Keyed(env, cls) || cur.None?)
    requires RowOk(st.store, cls, cur) && NoRepeats(ObjectTargets(env, st.store, cls, v, true, cur))
    requires Locate(env, st, cls, v, tu, true, cur).res.Ok? && Faithful(env, st.store, cls, v)
    ensures var l := Locate(env, st, cls, v, tu, true, cur);
            FieldsFaithful(env, l.st.store, cls, l.res.value, v, 0)
  {
    var l := Locate(env, st, cls, v, tu, true, cur);
    var s, s1, at := st.store, l.st.store, l.res.value;
    LocateEffect(env, st, cls, v, tu, true, cur);
    if at.created {
      var fields := FieldTargets(env, s, cls, v, None, true, 0);
      var us := if Keyed(env, cls) then [TargetOf(env, s1, cls, at.row)] else [];
      if Keyed(env, cls) {
        NoRepeatsSplit(us, fields);
      }
      forall j: nat | HasProp(env, cls, j)
        ensures FieldFaithful(env, s1, cls, j, true, CellAt(s1, At(cls, at.row, j)), v)
      {
        assert FieldFaithful(env, s, cls, j, true, Was(s, cls, None, j), v);
        if !IsPrimary(env, cls, j) {
          FieldIn(env, s, cls, v, None, 0, j);
          FieldFaithfulStable(env, s, s1, us, cls, j, true, One(None), CellAt(s1, At(cls, at.row, j)), v);
        }
      }
    }
  }

  lemma {:induction false} PopulateAlike(env: Env, st1: State, st2: State, xs: Slack,
                                         cls: nat, v: Value, at: Located, tu: bool, d: bool, i: nat)
    requires HasClass(env, cls) && PairAt(env, st1, st2, xs, cls, v, at, d, i)
    ensures Alike(env, Populate(env, st1, cls, v, at, tu, d, i), Populate(env, st2, cls, v, at, tu, false, i), xs)
    decreases Weight(v), 4, |env.schema[cls].props| - i, 1
  {
    if i < |env.schema[cls].props| {
      var s, own := st1.store, [TargetOf(env, st1.store, cls, at.row)];
      var here, rest := HereField(env, s, cls, v, at.row, d, i), FieldTargets(env, s, cls, v, Some(at.row), d, i + 1);
      assert FieldTargets(env, s, cls, v, Some(at.row), d, i) == here + rest;
      SplitThree(own, here, rest);
      ClearSplit(env, s, xs, own, here, rest);
      var c := Choose(env, cls, v, i, at.created, true);
      if c.Ok? && c.value.None? {
        PopulateAlike(env, st1, st2, xs, cls, v, at, tu, d, i + 1);
      } else if c.Ok? {
        PropertyAlike(env, st1, st2, xs, cls, v, at, tu, d, i);
      }
    }
  }

  lemma ClearSplit(env: Env, s: Store, xs: Slack, own: seq<Target>, here: seq<Target>, rest: seq<Target>)
    requires ClearOf(env, s, xs, own + (here + rest))
    ensures ClearOf(env, s, xs, own + here) && ClearOf(env, s, xs, own + rest)
  {
    assert forall t :: t in own + here || t in own + rest ==> t in own + (here + rest);
  }

  lemma ClearKept(env: Env, s: Store, s': Store, xs: Slack, ts: seq<Target>)
    requires !env.migrating && Grows(env, s, s') && ClearOf(env, s, xs, ts)
    requires forall a :: a in xs.open ==> InStore(env, s, a)
    ensures ClearOf(env, s', xs, ts)
    ensures forall a :: a in xs.open ==> InStore(env, s', a)
  {
    forall a | a in xs.open
      ensures InStore(env, s', a) && TargetOf(env, s', a.cls, a.row) == TargetOf(env, s, a.cls, a.row)
    {
      assert InStore(env, s, a);
    }
  }

  /** The case of `PopulateAlike` in which property `i` is written. */
  ghost predicate PairChosen(env: Env, st1: State, st2: State, xs: Slack, cls: nat, v: Value, at: Located, d: bool,
                             i: nat)
  {
    && Pair(env, st1, st2, xs) && HasProp(env, cls, i) && at.row < Count(st1.store, cls) && at.skipPrimary
    && (at.created ==> FreshFrom(env, st1.store, cls, at.row, i) && FreshFrom(env, st2.store, cls, at.row, i))
    && (var c := Choose(env, cls, v, i, at.created, true); c.Ok? && c.value.Some?)
    && (var own, here := [TargetOf(env, st1.store, cls, at.row)], HereField(env, st1.store, cls, v, at.row, d, i);
        var rest := FieldTargets(env, st1.store, cls, v, Some(at.row), d, i + 1);
        && NoRepeats(own + here) && NoRepeats(own + rest) && Apart(rest, own + here)
        && ClearOf(env, st1.store, xs, own + here) && ClearOf(env, st1.store, xs, own + rest))
    && (xs.exact && d ==> FieldsFaithful(env, st1.store, cls, at, v, i))
  }

  lemma {:induction false} PropertyAlike(env: Env, st1: State, st2: State, xs: Slack,
                                         cls: nat, v: Value, at: Located, tu: bool, d: bool, i: nat)
    requires PairChosen(env, st1, st2, xs, cls, v, at, d, i)
    ensures Alike(env, Populate(env, st1, cls, v, at, tu, d, i), Populate(env, st2, cls, v, at, tu, false, i), xs)
    decreases Weight(v), 4, |env.schema[cls].props| - i, 0
  {
    var a, c := At(cls, at.row, i), Choose(env, cls, v, i, at.created, true).value.value;
    ChosenPair(env, st1, st2, xs, cls, v, at, d, i);
    SetPropertyAlike(env, st1, st2, xs, a, c.v, tu, d, c.isDefault);
    var w1 := SetProperty(env, st1, a, c.v, tu, d, c.isDefault);
    var w2 := SetProperty(env, st2, a, c.v, tu, false, c.isDefault);
    if w1.res.Ok? {
      PairNext(env, st1, st2, xs, cls, v, at, tu, d, i);
      PopulateAlike(env, w1.st, w2.st, xs, cls, v, at, tu, d, i + 1);
    }
    AlikeTurn(env, st1, st2, xs, cls, v, at, tu, d, i);
  }

  /** The chosen value is one that both runs can be compared on. */
  lemma ChosenPair(env: Env, st1: State, st2: State, xs: Slack, cls: nat, v: Value, at: Located, d: bool, i: nat)
    requires PairChosen(env, st1, st2, xs, cls, v, at, d, i)
    ensures var a, c := At(cls, at.row, i), Choose(env, cls, v, i, at.created, true).value.value;
            var ts := Own(env, st1.store, a) + CellTargets(env, st1.store, a, c.v, d);
            && (c.isDefault ==> CellAt(st1.store, a) == FreshCell(Prop(env, cls, i)))
            && NoRepeats(ts) && ClearOf(env, st1.store, xs, ts)
            && (xs.exact && d ==> CellFaithful(env, st1.store, Prop(env, cls, i), CellAt(st1.store, a), c.v))
  {
    ChosenTargets(env, st1.store, At(cls, at.row, i), v, at.created, d);
  }

  lemma AlikeTurn(env: Env, st1: State, st2: State, xs: Slack, cls: nat, v: Value, at: Located, tu: bool, d: bool,
                  i: nat)
    requires HasProp(env, cls, i)
    requires var c := Choose(env, cls, v, i, at.created, at.skipPrimary); c.Ok? && c.value.Some?
    requires var a, c := At(cls, at.row, i), Choose(env, cls, v, i, at.created, at.skipPrimary).value.value;
             var w1 := SetProperty(env, st1, a, c.v, tu, d, c.isDefault);
             var w2 := SetProperty(env, st2, a, c.v, tu, false, c.isDefault);
             && Alike(env, w1, w2, xs)
             && (w1.res.Ok? ==> Alike(env, Populate(env, w1.st, cls, v, at, tu, d, i + 1),
                                      Populate(env, w2.st, cls, v, at, tu, false, i + 1), xs))
    ensures Alike(env, Populate(env, st1, cls, v, at, tu, d, i), Populate(env, st2, cls, v, at, tu, false, i), xs)
  {
  }

  /** After the property was set in both runs they are ready for the next one. */
  lemma PairNext(env: Env, st1: State, st2: State, xs: Slack, cls: nat, v: Value, at: Located, tu: bool, d: bool,
                 i: nat)
    requires PairChosen(env, st1, st2, xs, cls, v, at, d, i)
    requires var a, c := At(cls, at.row, i), Choose(env, cls, v, i, at.created, true).value.value;
             var w1 := SetProperty(env, st1, a, c.v, tu, d, c.isDefault);
             w1.res.Ok? && Alike(env, w1, SetProperty(env, st2, a, c.v, tu, false, c.isDefault), xs)
    ensures var a, c := At(cls, at.row, i), Choose(env, cls, v, i, at.created, true).value.value;
            PairAt(env, SetProperty(env, st1, a, c.v, tu, d, c.isDefault).st,
                   SetProperty(env, st2, a, c.v, tu, false, c.isDefault).st, xs, cls, v, at, d, i + 1)
  {
    var s, a := st1.store, At(cls, at.row, i);
    var own, here := [TargetOf(env, s, cls, at.row)], HereField(env, s, cls, v, at.row, d, i);
    var rest := FieldTargets(env, s, cls, v, Some(at.row), d, i + 1);
    var c := Choose(env, cls, v, i, at.created, true).value.value;
    ChosenTargets(env, s, a, v, at.created, d);
    SetPropertyEffect(env, st1, a, c.v, tu, d, c.isDefault);
    var w1 := SetProperty(env, st1, a, c.v, tu, d, c.isDefault);
    PropertyStep(env, st1, w1.st, cls, v, at, d, i);
    SecondRunFrame(env, st1, st2, xs, a, c.v, tu, d, c.isDefault);
    ClearKept(env, s, w1.st.store, xs, own + rest);
    if xs.exact && d {
      FieldsFaithfulStable(env, s, w1.st.store, own + here, cls, at, v, i);
    }
  }

  /** The full run, too, leaves the rest of the row as it was. */
  lemma SecondRunFrame(env: Env, st1: State, st2: State, xs: Slack, a: Address, v: Value, tu: bool, d: bool,
                       isDefault: bool)
    requires Pair(env, st1, st2, xs) && InStore(env, st1.store, a) && !IsPrimary(env, a.cls, a.col)
    requires isDefault ==> CellAt(st2.store, a) == FreshCell(Prop(env, a.cls, a.col))
    requires NoRepeats(Own(env, st1.store, a) + CellTargets(env, st1.store, a, v, d))
    ensures var w2 := SetProperty(env, st2, a, v, tu, false, isDefault);
            Good(env, w2.st.store) && OthersSame(st2.store, w2.st.store, a)
  {
    PropTargetKeyed(env, a.cls, a.col);
    SameValues(env, st1.store, st2.store, Prop(env, a.cls, a.col), v, d, false,
               LinkAt(st1.store, a), LinkAt(st2.store, a), if d then ListAt(st1.store, a) else [], []);
    OwnAgree(env, st1, st2, xs, a);
    SetPropertyEffect(env, st2, a, v, tu, false, isDefault);
  }

  lemma OwnAgree(env: Env, st1: State, st2: State, xs: Slack, a: Address)
    requires Pair(env, st1, st2, xs) && HasClass(env, a.cls)
    ensures Own(env, st2.store, a) == Own(env, st1.store, a)
    ensures InStore(env, st2.store, a) == InStore(env, st1.store, a)
  {
  }

  lemma FieldsFaithfulStable(env: Env, s: Store, s': Store, us: seq<Target>, cls: nat, at: Located, v: Value, i: nat)
    requires LinkedKeyed(env) && HasProp(env, cls, i) && Steady(env, s, s', us) && OthersSame(s, s', At(cls, at.row, i))
    requires Apart(FieldTargets(env, s, cls, v, Some(at.row), true, i + 1), us)
    requires FieldsFaithful(env, s, cls, at, v, i)
    ensures FieldsFaithful(env, s', cls, at, v, i + 1)
  {
    forall j: nat | i + 1 <= j && HasProp(env, cls, j)
      ensures FieldFaithful(env, s', cls, j, at.created, CellAt(s', At(cls, at.row, j)), v)
    {
      FieldIn(env, s, cls, v, Some(at.row), i + 1, j);
      var was := CellAt(s, At(cls, at.row, j));
      FieldFaithfulStable(env, s, s', us, cls, j, at.created, was, was, v);
    }
  }

  lemma {:induction false} SetPropertyAlike(env: Env, st1: State, st2: State, xs: Slack,
                                            a: Address, v: Value, tu: bool, d: bool, isDefault: bool)
    requires Pair(env, st1, st2, xs) && InStore(env, st1.store, a) && !IsPrimary(env, a.cls, a.col)
    requires isDefault ==> CellAt(st1.store, a) == FreshCell(Prop(env, a.cls, a.col))
    requires var ts := Own(env, st1.store, a) + CellTargets(env, st1.store, a, v, d);
             NoRepeats(ts) && ClearOf(env, st1.store, xs, ts)
    requires xs.exact && d ==> CellFaithful(env, st1.store, Prop(env, a.cls, a.col), CellAt(st1.store, a), v)
    ensures Alike(env, SetProperty(env, st1, a, v, tu, d, isDefault),
                  SetProperty(env, st2, a, v, tu, false, isDefault), xs)
    decreases Weight(v), if IsLink(Prop(env, a.cls, a.col)) then 8 else 3, 0
  {
    var p := Prop(env, a.cls, a.col);
    var u1, u2 := Emit(env, st1, Will(a)), Emit(env, st2, Will(a));
    assert TargetOf(env, st1.store, a.cls, a.row) in Own(env, st1.store, a) + CellTargets(env, st1.store, a, v, d);
    assert a !in xs.open;
    OwnAgree(env, st1, st2, xs, a);
    assert CellOk(env, st1.store, a) && CellOk(env, st2.store, a);
    if p.ptype.nullable && v.Null? {
      WriteNullAlike(env, u1, u2, xs, a, d, isDefault);
    } else if p.ptype.isArray {
      AssignAlike(env, u1, u2, xs, a, v, tu, d);
    } else if p.ptype.base.Object? {
      WriteLinkAlike(env, u1, u2, xs, a, v, tu, d, isDefault);
    } else {
      WriteScalarAlike(env, u1, u2, xs, a, v, d, isDefault);
    }
  }

  lemma WriteNullAlike(env: Env, st1: State, st2: State, xs: Slack, a: Address, d: bool, isDefault: bool)
    requires Pair(env, st1, st2, xs) && InStore(env, st1.store, a) && !IsPrimary(env, a.cls, a.col) && a !in xs.open
    requires CellOk(env, st1.store, a)
    ensures var p := Prop(env, a.cls, a.col);
            Alike(env, WriteNull(env, st1, a, p, d, isDefault), WriteNull(env, st2, a, p, false, isDefault), xs)
  {
    var p := Prop(env, a.cls, a.col);
    var c := if p.ptype.base.Object? then Link(None) else One(None);
    AgreePut(env, st1.store, st2.store, xs, a, c);
    if CellAt(st1.store, a) == c {
      AgreeHeld(env, st1.store, st2.store, xs, a, c);
    }
  }

  lemma WriteScalarAlike(env: Env, st1: State, st2: State, xs: Slack, a: Address, v: Value, d: bool,
                         isDefault: bool)
    requires Pair(env, st1, st2, xs) && InStore(env, st1.store, a) && !IsPrimary(env, a.cls, a.col) && a !in xs.open
    requires CellOk(env, st1.store, a)
    requires var t := Prop(env, a.cls, a.col).ptype; !t.isArray && !t.base.Object? && !(t.nullable && v.Null?)
    requires xs.exact && d ==> CellFaithful(env, st1.store, Prop(env, a.cls, a.col), CellAt(st1.store, a), v)
    ensures var p := Prop(env, a.cls, a.col);
            Alike(env, WriteScalar(env, st1, a, p, v, d, isDefault),
                  WriteScalar(env, st2, a, p, v, false, isDefault), xs)
  {
    var p := Prop(env, a.cls, a.col);
    var x := UnboxScalar(p, v);
    if x.Ok? {
      AgreePut(env, st1.store, st2.store, xs, a, One(x.value));
      if Matches(env, xs.exact, a, CellAt(st1.store, a), One(x.value)) {
        AgreeHeld(env, st1.store, st2.store, xs, a, One(x.value));
      }
    }
  }

  lemma {:induction false} UnboxRowAlike(env: Env, st1: State, st2: State, xs: Slack,
                                         p: Property, v: Value, tu: bool, d: bool, cur: Option<nat>, cur2: Option<nat>)
    requires Pair(env, st1, st2, xs) && TargetKeyed(env, p) && p.ptype.base.Object? && RowOk(st1.store, p.target, cur)
    requires var ts := RowTargets(env, st1.store, p, v, d, cur);
             NoRepeats(ts) && ClearOf(env, st1.store, xs, ts)
    requires xs.exact && d ==> LinkFaithful(env, st1.store, p, v)
    ensures Alike(env, UnboxRow(env, st1, p, v, tu, d, cur), UnboxRow(env, st2, p, v, tu, false, cur2), xs)
    decreases Weight(v), 6, 0
  {
    if !v.Ref? {
      CreateAlike(env, st1, st2, xs, p.target, v, tu, d, cur);
      FullIgnoresCurrent(env, st2, p.target, v, tu, cur2);
    }
  }

  lemma FullIgnoresCurrent(env: Env, st: State, cls: nat, v: Value, tu: bool, cur: Option<nat>)
    requires HasClass(env, cls)
    ensures Create(env, st, cls, v, tu, false, cur) == Create(env, st, cls, v, tu, false, None)
  {
  }

  lemma {:induction false} WriteLinkAlike(env: Env, st1: State, st2: State, xs: Slack,
                                          a: Address, v: Value, tu: bool, d: bool, isDefault: bool)
    requires Pair(env, st1, st2, xs) && InStore(env, st1.store, a) && !IsPrimary(env, a.cls, a.col) && a !in xs.open
    requires CellOk(env, st1.store, a) && CellAt(st1.store, a) == CellAt(st2.store, a)
    requires IsLink(Prop(env, a.cls, a.col)) && !v.Null?
    requires var p, curr := Prop(env, a.cls, a.col), LinkAt(st1.store, a);
             var ts := Own(env, st1.store, a) + RowTargets(env, st1.store, p, v, d, curr);
             NoRepeats(ts) && ClearOf(env, st1.store, xs, ts)
    requires xs.exact && d ==> LinkFaithful(env, st1.store, Prop(env, a.cls, a.col), v)
    ensures Alike(env, WriteLink(env, st1, a, v, tu, d, isDefault), WriteLink(env, st2, a, v, tu, false, isDefault), xs)
    decreases Weight(v), 7, 0
  {
    var s, p, curr := st1.store, Prop(env, a.cls, a.col), LinkAt(st1.store, a);
    var own, ts := Own(env, s, a), RowTargets(env, s, p, v, d, curr);
    PropTargetKeyed(env, a.cls, a.col);
    NoRepeatsSplit(own, ts);
    assert forall t :: t in ts ==> t in own + ts;
    UnboxRowEffect(env, st1, p, v, tu, d, curr);
    UnboxRowAlike(env, st1, st2, xs, p, v, tu, d, curr, LinkAt(st2.store, a));
    OwnRowSame(env, s, UnboxRow(env, st1, p, v, tu, d, curr).st.store, a, ts);
    LinkFinish(env, st1, st2, xs, a, v, tu, d, isDefault);
  }

  /** The row is unboxed alike, and the diff run's cell is as it was: the link is written alike. */
  lemma {:induction false} LinkFinish(env: Env, st1: State, st2: State, xs: Slack, a: Address, v: Value, tu: bool,
                                      d: bool, isDefault: bool)
    requires HasProp(env, a.cls, a.col) && IsLink(Prop(env, a.cls, a.col))
    requires LinkAt(st1.store, a) == LinkAt(st2.store, a)
    requires var p, curr := Prop(env, a.cls, a.col), LinkAt(st1.store, a);
             var u1, u2 := UnboxRow(env, st1, p, v, tu, d, curr), UnboxRow(env, st2, p, v, tu, false, curr);
             && Alike(env, u1, u2, xs) && Good(env, u1.st.store) && InStore(env, u1.st.store, a)
             && LinkAt(u1.st.store, a) == curr
    ensures Alike(env, WriteLink(env, st1, a, v, tu, d, isDefault), WriteLink(env, st2, a, v, tu, false, isDefault), xs)
  {
    var p, curr := Prop(env, a.cls, a.col), LinkAt(st1.store, a);
    var u1, u2 := UnboxRow(env, st1, p, v, tu, d, curr), UnboxRow(env, st2, p, v, tu, false, curr);
    if u1.res.Ok? {
      LinkJoin(env, u1.st.store, u2.st.store, xs, a, u1.res.value);
    }
  }

  /** Both runs store the row that both unboxed; the diff run may hold it already. */
  lemma LinkJoin(env: Env, s1: Store, s2: Store, xs: Slack, a: Address, r: nat)
    requires Good(env, s1) && Agree(env, s1, s2, xs) && InStore(env, s1, a) && IsLink(Prop(env, a.cls, a.col))
    ensures Agree(env, PutCell(s1, a, Link(Some(r))), PutCell(s2, a, Link(Some(r))), xs)
    ensures LinkAt(s1, a) == Some(r) ==> Agree(env, s1, PutCell(s2, a, Link(Some(r))), xs)
  {
    assert CellOk(env, s1, a);
    AgreePut(env, s1, s2, xs, a, Link(Some(r)));
    if LinkAt(s1, a) == Some(r) {
      AgreeHeld(env, s1, s2, xs, a, Link(Some(r)));
    }
  }

  // ----- lists side by side

  /** The full run's list is the part of the diff run's list that is done. */
  ghost predicate ListsInStep(s1: Store, s2: Store, a: Address, k: nat, sz: nat) {
    && |ListAt(s1, a)| == ListLength(k, sz)
    && ListAt(s2, a) == ListAt(s1, a)[..k]
  }

  /** The elements from `k` on that the diff run compares lose nothing. */
  ghost predicate ElemsFaithful(env: Env, s: Store, p: Property, es: seq<Value>, k: nat, sz: nat)
    requires ValidProperty(|env.schema|, p)
  {
    p.ptype.base.Object? ==> forall j: nat :: k <= j < |es| && j < sz ==> LinkFaithful(env, s, p, es[j])
  }

  lemma {:induction false} AssignAlike(env: Env, st1: State, st2: State, xs: Slack,
                                       a: Address, v: Value, tu: bool, d: bool)
    requires Pair(env, st1, st2, xs) && InStore(env, st1.store, a) && !IsPrimary(env, a.cls, a.col) && a !in xs.open
    requires CellOk(env, st1.store, a) && CellAt(st1.store, a) == CellAt(st2.store, a)
    requires Prop(env, a.cls, a.col).ptype.isArray && !(Prop(env, a.cls, a.col).ptype.nullable && v.Null?)
    requires var ts := Own(env, st1.store, a) + CellTargets(env, st1.store, a, v, d);
             NoRepeats(ts) && ClearOf(env, st1.store, xs, ts)
    requires xs.exact && d ==> CellFaithful(env, st1.store, Prop(env, a.cls, a.col), CellAt(st1.store, a), v)
    ensures Alike(env, Assign(env, st1, a, v, tu, d), Assign(env, st2, a, v, tu, false), xs)
    decreases Weight(v), 2, 0
  {
    var s, p := st1.store, Prop(env, a.cls, a.col);
    AgreePut(env, s, st2.store, xs, a, Many([]));
    if v.Arr? && !p.ptype.base.LinkingObjects? {
      var c2 := Emit(env, st2, ListClear(a));
      var c1 := if d then st1 else Emit(env, st1, ListClear(a));
      var sz := if d then |ListAt(s, a)| else 0;
      ClearedPair(env, st1, st2, xs, a, v, d);
      AssignFromAlike(env, c1, c2, xs, a, v.elems, 0, sz, tu);
    }
  }

  /** Both runs at the start of their loops. */
  lemma ClearedPair(env: Env, st1: State, st2: State, xs: Slack, a: Address, v: Value, d: bool)
    requires Pair(env, st1, st2, xs) && InStore(env, st1.store, a) && !IsPrimary(env, a.cls, a.col) && a !in xs.open
    requires CellOk(env, st1.store, a) && CellAt(st1.store, a) == CellAt(st2.store, a)
    requires Prop(env, a.cls, a.col).ptype.isArray && v.Arr?
    requires var ts := Own(env, st1.store, a) + CellTargets(env, st1.store, a, v, d);
             NoRepeats(ts) && ClearOf(env, st1.store, xs, ts)
    requires xs.exact && d ==> CellFaithful(env, st1.store, Prop(env, a.cls, a.col), CellAt(st1.store, a), v)
    ensures var p := Prop(env, a.cls, a.col);
            var c1 := if d then st1 else Emit(env, st1, ListClear(a));
            var c2 := Emit(env, st2, ListClear(a));
            var sz := if d then |ListAt(st1.store, a)| else 0;
            var ts := Own(env, c1.store, a) + ListTargets(env, c1.store, p, v.elems, ListAt(c1.store, a), sz, 0);
            && Pair(env, c1, c2, With(xs, a)) && InStore(env, c1.store, a)
            && ListsInStep(c1.store, c2.store, a, 0, sz)
            && NoRepeats(ts) && ClearOf(env, c1.store, xs, ts)
            && (xs.exact ==> ElemsFaithful(env, c1.store, p, v.elems, 0, sz))
  {
    var s, p := st1.store, Prop(env, a.cls, a.col);
    OwnAgree(env, st1, st2, xs, a);
    PutKeepsGood(env, s, a, Many([]));
    PutKeepsGood(env, st2.store, a, Many([]));
    PropTargetKeyed(env, a.cls, a.col);
    var c1 := if d then st1 else Emit(env, st1, ListClear(a));
    ClearKept(env, s, c1.store, xs, Own(env, s, a) + CellTargets(env, s, a, v, d));
    if p.ptype.base.Object? {
      var list := if d then ListAt(s, a) else [];
      SameElems(env, s, c1.store, p, v.elems, list, ListAt(c1.store, a), |list|, |list|, 0);
    }
  }

  lemma {:induction false} AssignFromAlike(env: Env, st1: State, st2: State, xs: Slack,
                                           a: Address, es: seq<Value>, k: nat, sz: nat, tu: bool)
    requires Pair(env, st1, st2, With(xs, a)) && InStore(env, st1.store, a) && !IsPrimary(env, a.cls, a.col)
    requires Prop(env, a.cls, a.col).ptype.isArray && k <= |es| && ListsInStep(st1.store, st2.store, a, k, sz)
    requires var ts := Own(env, st1.store, a)
                       + ListTargets(env, st1.store, Prop(env, a.cls, a.col), es, ListAt(st1.store, a), sz, k);
             NoRepeats(ts) && ClearOf(env, st1.store, xs, ts)
    requires xs.exact ==> ElemsFaithful(env, st1.store, Prop(env, a.cls, a.col), es, k, sz)
    ensures Alike(env, AssignFrom(env, st1, a, es, k, sz, tu), AssignFrom(env, st2, a, es, k, 0, tu), xs)
    decreases Weight(Arr(es)), 1, |es| - k
  {
    var s, p, before := st1.store, Prop(env, a.cls, a.col), ListAt(st1.store, a);
    if k == |es| {
      TrimIs(env, st1, a, k, sz);
      assert Trim(env, st2, a, k, 0) == Out(st2, Ok(()));
      assert CellOk(env, s, a);
      OwnAgree(env, st1, st2, With(xs, a), a);
      assert CellOk(env, st2.store, a);
      AgreeTrim(env, s, st2.store, xs, a, ListAt(st2.store, a));
    } else {
      var own := Own(env, s, a);
      var here, rest := HereTargets(env, s, p, es, before, sz, k), ListTargets(env, s, p, es, before, sz, k + 1);
      assert ListTargets(env, s, p, es, before, sz, k) == here + rest;
      SplitThree(own, here, rest);
      ClearSplit(env, s, xs, own, here, rest);
      ElementEffect(env, st1, a, es, k, sz, tu);
      ElementAlike(env, st1, st2, xs, a, es, k, sz, tu);
      var e1, e2 := Element(env, st1, a, es, k, sz, tu), Element(env, st2, a, es, k, 0, tu);
      if e1.res.Ok? {
        NextElement(env, st1, e1.st, xs, a, es, k, sz);
        AssignFromAlike(env, e1.st, e2.st, xs, a, es, k + 1, sz, tu);
      }
    }
  }

  /** Between two elements: targets, clearance and faithfulness of the rest carry over. */
  lemma NextElement(env: Env, st: State, st1: State, xs: Slack, a: Address, es: seq<Value>, k: nat, sz: nat)
    requires LinkedKeyed(env) && Ready(env, st) && Ready(env, st1) && InStore(env, st.store, a)
    requires Prop(env, a.cls, a.col).ptype.isArray && k < |es|
    requires |ListAt(st.store, a)| == ListLength(k, sz) && OneItem(ListAt(st.store, a), ListAt(st1.store, a), k, sz)
    requires forall x :: x in xs.open ==> InStore(env, st.store, x)
    requires var p, before, own := Prop(env, a.cls, a.col), ListAt(st.store, a), Own(env, st.store, a);
             var here := HereTargets(env, st.store, p, es, before, sz, k);
             var rest := ListTargets(env, st.store, p, es, before, sz, k + 1);
             && Frame(env, st.store, st1.store, own + here)
             && NoRepeats(own + rest) && Apart(rest, own + here) && ClearOf(env, st.store, xs, own + rest)
    requires xs.exact ==> ElemsFaithful(env, st.store, Prop(env, a.cls, a.col), es, k, sz)
    ensures var p := Prop(env, a.cls, a.col);
            var ts := Own(env, st1.store, a) + ListTargets(env, st1.store, p, es, ListAt(st1.store, a), sz, k + 1);
            && InStore(env, st1.store, a) && NoRepeats(ts) && ClearOf(env, st1.store, xs, ts)
            && (xs.exact ==> ElemsFaithful(env, st1.store, p, es, k + 1, sz))
  {
    var s, s1, p, own := st.store, st1.store, Prop(env, a.cls, a.col), Own(env, st.store, a);
    var here := HereTargets(env, s, p, es, ListAt(s, a), sz, k);
    var rest := ListTargets(env, s, p, es, ListAt(s, a), sz, k + 1);
    ListTargetsStable(env, s, s1, a, es, k, sz, own + here);
    ClearKept(env, s, s1, xs, own + rest);
    PropTargetKeyed(env, a.cls, a.col);
    if p.ptype.base.Object? {
      SameElems(env, s, s, p, es, [], ListAt(s, a), 0, sz, k + 1);
      forall j: nat | xs.exact && k + 1 <= j < |es| && j < sz ensures LinkFaithful(env, s1, p, es[j]) {
        ElemIn(env, s, p, es, k + 1, j);
        LinkFaithfulStable(env, s, s1, own + here, p, es[j]);
      }
    }
  }

  lemma {:induction false} TrimIs(env: Env, st: State, a: Address, k: nat, sz: nat)
    requires |ListAt(st.store, a)| == ListLength(k, sz) && a in st.store.cells && CellAt(st.store, a).Many?
    ensures var r := Trim(env, st, a, k, sz);
            r.res == Ok(()) && r.st.store == PutCell(st.store, a, Many(ListAt(st.store, a)[..k]))
    decreases sz
  {
    var list := ListAt(st.store, a);
    if k < sz {
      var st1 := Emit(env, st, ListRemove(a, k));
      TrimIs(env, st1, a, k, sz - 1);
      assert ListAt(st1.store, a)[..k] == list[..k];
    } else {
      assert list[..k] == list;
      assert st.store.cells[a := Many(list)] == st.store.cells;
    }
  }

  lemma AgreeTrim(env: Env, s1: Store, s2: Store, xs: Slack, a: Address, done: seq<Item>)
    requires Agree(env, s1, s2, With(xs, a)) && a in s2.cells && CellAt(s2, a) == Many(done)
    ensures Agree(env, PutCell(s1, a, Many(done)), s2, xs)
  {
  }

  lemma {:induction false} UnboxItemAlike(env: Env, st1: State, st2: State, xs: Slack,
                                          p: Property, v: Value, tu: bool, d: bool, cur: Option<nat>)
    requires Pair(env, st1, st2, xs) && TargetKeyed(env, p)
    requires p.ptype.base.Object? ==>
               && RowOk(st1.store, p.target, cur) && (xs.exact && d ==> LinkFaithful(env, st1.store, p, v))
               && var ts := RowTargets(env, st1.store, p, v, d, cur);
                  NoRepeats(ts) && ClearOf(env, st1.store, xs, ts)
    ensures Alike(env, UnboxItem(env, st1, p, v, tu, d, cur), UnboxItem(env, st2, p, v, tu, false, None), xs)
    decreases Weight(v), 6, 1
  {
    if p.ptype.base.Object? {
      UnboxRowAlike(env, st1, st2, xs, p, v, tu, d, cur, None);
    }
  }

  /** The list being built is clear of the rows of its element. */
  lemma ClearHere(env: Env, s: Store, xs: Slack, a: Address, here: seq<Target>)
    requires HasClass(env, a.cls)
    requires NoRepeats(Own(env, s, a) + here) && ClearOf(env, s, xs, Own(env, s, a) + here)
    ensures NoRepeats(here) && Apart(Own(env, s, a), here) && ClearOf(env, s, With(xs, a), here)
  {
    var own := Own(env, s, a);
    NoRepeatsSplit(own, here);
    assert forall t :: t in here ==> t in own + here;
    assert TargetOf(env, s, a.cls, a.row) in own;
  }

  lemma {:induction false} ElementAlike(env: Env, st1: State, st2: State, xs: Slack,
                                        a: Address, es: seq<Value>, k: nat, sz: nat, tu: bool)
    requires Pair(env, st1, st2, With(xs, a)) && InStore(env, st1.store, a) && !IsPrimary(env, a.cls, a.col)
    requires Prop(env, a.cls, a.col).ptype.isArray && k < |es| && ListsInStep(st1.store, st2.store, a, k, sz)
    requires var p, before := Prop(env, a.cls, a.col), ListAt(st1.store, a);
             var ts := Own(env, st1.store, a) + HereTargets(env, st1.store, p, es, before, sz, k);
             NoRepeats(ts) && ClearOf(env, st1.store, xs, ts)
    requires xs.exact ==> ElemsFaithful(env, st1.store, Prop(env, a.cls, a.col), es, k, sz)
    ensures var e1, e2 := Element(env, st1, a, es, k, sz, tu), Element(env, st2, a, es, k, 0, tu);
            && Alike(env, e1, e2, With(xs, a))
            && (e1.res.Ok? ==>
                  Pair(env, e1.st, e2.st, With(xs, a)) && ListsInStep(e1.st.store, e2.st.store, a, k + 1, sz))
    decreases Weight(Arr(es)), 0, 0
  {
    ElemWeight(es, k);
    var s, p, before := st1.store, Prop(env, a.cls, a.col), ListAt(st1.store, a);
    var cur, here := CurrentAt(before, sz, k), HereTargets(env, s, p, es, before, sz, k);
    assert CellOk(env, s, a);
    PropTargetKeyed(env, a.cls, a.col);
    ClearHere(env, s, xs, a, here);
    UnboxItemAlike(env, st1, st2, With(xs, a), p, es[k], tu, k < sz, cur);
    UnboxItemEffect(env, st1, p, es[k], tu, k < sz, cur);
    ElementSecond(env, st1, st2, xs, a, es, k, sz, tu);
    ElementJoin(env, st1, st2, xs, a, es, k, sz, tu);
  }

  /** The full run's view of element `k`. */
  lemma ElementSecond(env: Env, st1: State, st2: State, xs: Slack, a: Address, es: seq<Value>, k: nat,
                      sz: nat, tu: bool)
    requires Pair(env, st1, st2, With(xs, a)) && InStore(env, st1.store, a)
    requires Prop(env, a.cls, a.col).ptype.isArray && k < |es|
    requires var here := HereTargets(env, st1.store, Prop(env, a.cls, a.col), es, ListAt(st1.store, a), sz, k);
             NoRepeats(here) && Apart(Own(env, st1.store, a), here)
    ensures var u2 := UnboxItem(env, st2, Prop(env, a.cls, a.col), es[k], tu, false, None);
            && Good(env, u2.st.store) && InStore(env, u2.st.store, a)
            && ListAt(u2.st.store, a) == ListAt(st2.store, a)
            && (u2.res.Ok? ==> ItemFits(u2.st.store, Prop(env, a.cls, a.col), u2.res.value))
  {
    var p := Prop(env, a.cls, a.col);
    PropTargetKeyed(env, a.cls, a.col);
    OwnAgree(env, st1, st2, With(xs, a), a);
    var here := if p.ptype.base.Object? then RowTargets(env, st2.store, p, es[k], false, None) else [];
    if p.ptype.base.Object? && !es[k].Ref? {
      SameTargets(env, st1.store, st2.store, p.target, es[k], k < sz, false,
                  CurrentAt(ListAt(st1.store, a), sz, k), None);
    }
    UnboxItemEffect(env, st2, p, es[k], tu, false, None);
    var u2 := UnboxItem(env, st2, p, es[k], tu, false, None);
    OwnRowSame(env, st2.store, u2.st.store, a, here);
  }

  /** Both runs store the element that both unboxed. */
  lemma {:induction false} ElementJoin(env: Env, st1: State, st2: State, xs: Slack, a: Address, es: seq<Value>,
                                       k: nat, sz: nat, tu: bool)
    requires Pair(env, st1, st2, With(xs, a)) && InStore(env, st1.store, a) && !IsPrimary(env, a.cls, a.col)
    requires Prop(env, a.cls, a.col).ptype.isArray && k < |es| && ListsInStep(st1.store, st2.store, a, k, sz)
    requires var p, before := Prop(env, a.cls, a.col), ListAt(st1.store, a);
             var here := HereTargets(env, st1.store, p, es, before, sz, k);
             var u1 := UnboxItem(env, st1, p, es[k], tu, k < sz, CurrentAt(before, sz, k));
             var u2 := UnboxItem(env, st2, p, es[k], tu, false, None);
             && Alike(env, u1, u2, With(xs, a)) && Good(env, u1.st.store) && Good(env, u2.st.store)
             && Frame(env, st1.store, u1.st.store, here) && Apart(Own(env, st1.store, a), here)
             && InStore(env, u2.st.store, a) && ListAt(u2.st.store, a) == ListAt(st2.store, a)
             && (u1.res.Ok? ==> ItemFits(u1.st.store, p, u1.res.value))
             && (u2.res.Ok? ==> ItemFits(u2.st.store, p, u2.res.value))
    ensures var e1, e2 := Element(env, st1, a, es, k, sz, tu), Element(env, st2, a, es, k, 0, tu);
            && Alike(env, e1, e2, With(xs, a))
            && (e1.res.Ok? ==>
                  Pair(env, e1.st, e2.st, With(xs, a)) && ListsInStep(e1.st.store, e2.st.store, a, k + 1, sz))
  {
    var p, before := Prop(env, a.cls, a.col), ListAt(st1.store, a);
    var here := HereTargets(env, st1.store, p, es, before, sz, k);
    var u1 := UnboxItem(env, st1, p, es[k], tu, k < sz, CurrentAt(before, sz, k));
    var u2 := UnboxItem(env, st2, p, es[k], tu, false, None);
    OwnRowSame(env, st1.store, u1.st.store, a, here);
    if u1.res.Ok? {
      assert CellOk(env, u1.st.store, a) && CellOk(env, u2.st.store, a);
      ElementIs(env, st1, a, es, k, sz, tu);
      ElementIs(env, st2, a, es, k, 0, tu);
      ClearKept(env, st1.store, u1.st.store, With(xs, a), []);
      JoinLists(env, u1.st.store, u2.st.store, xs, a, u1.res.value, k, sz);
    }
  }

  lemma JoinLists(env: Env, s1: Store, s2: Store, xs: Slack, a: Address, item: Item, k: nat, sz: nat)
    requires !env.migrating && Good(env, s1) && Good(env, s2) && Agree(env, s1, s2, With(xs, a))
    requires InStore(env, s1, a) && InStore(env, s2, a) && !IsPrimary(env, a.cls, a.col)
    requires Prop(env, a.cls, a.col).ptype.isArray && ListsInStep(s1, s2, a, k, sz)
    requires ItemFits(s1, Prop(env, a.cls, a.col), item) && ItemFits(s2, Prop(env, a.cls, a.col), item)
    ensures var t1 := PutCell(s1, a, Many(WithItem(ListAt(s1, a), item, k, sz)));
            var t2 := PutCell(s2, a, Many(WithItem(ListAt(s2, a), item, k, 0)));
            && Good(env, t1) && Good(env, t2) && Agree(env, t1, t2, With(xs, a)) && ListsInStep(t1, t2, a, k + 1, sz)
  {
    assert CellOk(env, s1, a) && CellOk(env, s2, a);
    var list1, list2 := WithItem(ListAt(s1, a), item, k, sz), WithItem(ListAt(s2, a), item, k, 0);
    PutKeepsGood(env, s1, a, Many(list1));
    PutKeepsGood(env, s2, a, Many(list2));
    assert list2 == list1[..k + 1];
  }

  // ----- the theorem

  /** From the same tables, for a tree that repeats no key and where every linked
      class has one: the two forms answer the same row or throw alike, and after an
      answer their tables have the same rows and cells, except that the diff form may
      have kept nulls where the full form holds the value they read as. The tables are
      the same exactly when nowhere in the tree a null cell is given that value. */
  lemma DiffRefinesFull(env: Env, st: State, cls: nat, v: Value, tu: bool, cur: Option<nat>)
    requires LinkedKeyed(env) && Ready(env, st) && HasClass(env, cls) && (Keyed(env, cls) || cur.None?)
    requires RowOk(st.store, cls, cur) && NoRepeats(ObjectTargets(env, st.store, cls, v, true, cur))
    ensures var diff, full := Create(env, st, cls, v, tu, true, cur), Create(env, st, cls, v, tu, false, cur);
            && diff.res == full.res
            && (diff.res.Ok? ==>
                  && Agree(env, diff.st.store, full.st.store, Slack({}, false))
                  && (diff.st.store == full.st.store <==> Faithful(env, st.store, cls, v)))
  {
    var diff, full := Create(env, st, cls, v, tu, true, cur), Create(env, st, cls, v, tu, false, cur);
    FullIgnoresCurrent(env, st, cls, v, tu, cur);
    CreateAlike(env, st, st, Slack({}, false), cls, v, tu, true, cur);
    if diff.res.Ok? {
      if Faithful(env, st.store, cls, v) {
        CreateAlike(env, st, st, Slack({}, true), cls, v, tu, true, cur);
        AgreeAll(env, diff.st.store, full.st.store);
      } else if diff.st.store == full.st.store {
        SameTargets(env, st.store, st.store, cls, v, true, false, cur, cur);
        CreateEffect(env, st, cls, v, tu, true, cur);
        CreateEffect(env, st, cls, v, tu, false, cur);
        var ts := ObjectTargets(env, st.store, cls, v, true, cur);
        BothReflect(env, st.store, diff.st.store, cls, diff.res.value, v, ts, ts);
      }
    }
  }
}

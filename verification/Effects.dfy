/** What a normal return of the writer leaves in the tables. */
module Effects {
  import opened PropertyTypes
  import opened Values
  import opened Schemas
  import opened Stores
  import opened Terms
  import opened Upsert
  import opened Monitor
  import opened Footprints

  // ----- what the tree makes of a row

  /** The row is one the tree may write: a target, or a row that `lo` did not have. */
  ghost predicate Owns(env: Env, lo: Store, s: Store, cls: nat, row: nat, ts: seq<Target>)
    requires HasClass(env, cls)
  {
    TargetOf(env, s, cls, row) in ts || (!Keyed(env, cls) && row >= Count(lo, cls))
  }

  /** A cell of the store before the call; a row that was not there held nothing. */
  function Before(lo: Store, a: Address): Cell {
    if a.row < Count(lo, a.cls) then CellAt(lo, a) else One(None)
  }

  function OldScalar(lo: Store, a: Address): Option<Scalar> {
    if Before(lo, a).One? then Before(lo, a).s else None
  }

  function OldLink(lo: Store, a: Address): Option<nat> {
    if Before(lo, a).Link? then Before(lo, a).to else None
  }

  function OldList(lo: Store, a: Address): seq<Item> {
    if Before(lo, a).Many? then Before(lo, a).items else []
  }

  /** The diff form loses `x`: the cell was null, and a null cell already reads as `x`. */
  predicate Lost(p: Property, before: Option<Scalar>, x: Scalar) {
    && p.ptype.nullable && before.None?
    && ((p.ptype.base.Int? && x == IntV(0)) || (p.ptype.base.Bool? && x == BoolV(false)))
  }

  /** `Reflects(env, lo, s, cls, row, v, d, ts)` describes the row completely: it is
      what a call that started from `lo` with the tree `v` has made of it in `s`.
      Every property holds the given value, else, in an added row, its default or
      what a fresh row holds, else what it held in `lo`. */
  ghost predicate Reflects(env: Env, lo: Store, s: Store, cls: nat, row: nat, v: Value, d: bool, ts: seq<Target>)
    requires HasClass(env, cls)
    decreases Weight(v), 3
  {
    && row < Count(s, cls)
    && Owns(env, lo, s, cls, row, ts)
    && (Keyed(env, cls) ==> AsksFor(env, cls, v, KeyAt(env, s, cls, row)))
    && forall i: nat :: HasProp(env, cls, i) ==> FieldReflects(env, lo, s, At(cls, row, i), v, d, ts)
  }

  ghost predicate FieldReflects(env: Env, lo: Store, s: Store, a: Address, v: Value, d: bool, ts: seq<Target>)
    requires HasProp(env, a.cls, a.col)
    decreases Weight(v), 2
  {
    var created := a.row >= Count(lo, a.cls);
    var due := Due(env, a.cls, v, a.col, created);
    && WellGiven(env, a.cls, v, a.col, created)
    && if due.Some? then CellReflects(env, lo, s, a, due.value, d, ts)
       else IsPrimary(env, a.cls, a.col)
            || CellAt(s, a) == (if created then FreshCell(Prop(env, a.cls, a.col)) else CellAt(lo, a))
  }

  ghost predicate CellReflects(env: Env, lo: Store, s: Store, a: Address, v: Value, d: bool, ts: seq<Target>)
    requires HasProp(env, a.cls, a.col)
    decreases Weight(v), if IsLink(Prop(env, a.cls, a.col)) then 5 else 1
  {
    var p := Prop(env, a.cls, a.col);
    if p.ptype.nullable && v.Null? then
      !p.ptype.isArray && CellAt(s, a) == (if p.ptype.base.Object? then Link(None) else One(None))
    else if p.ptype.isArray then
      && !p.ptype.base.LinkingObjects?
      && ((v == SameList(a) && ListAt(s, a) == OldList(lo, a)) || (v.Null? && ListAt(s, a) == [])
          || (v.Arr? && ListReflects(env, lo, s, p, v.elems, ListAt(s, a), if d then OldList(lo, a) else [], ts)))
    else if p.ptype.base.Object? then
      && LinkAt(s, a).Some? && RowReflects(env, lo, s, p, v, LinkAt(s, a).value, d, ts)
      && Placed(env, lo, p, v, LinkAt(s, a).value, if d then OldLink(lo, a) else None)
    else
      && v.Leaf? && IsScalarFor(p, v, Some(v.s))
      && ScalarAt(s, a) == if d && Lost(p, OldScalar(lo, a), v.s) then None else Some(v.s)
  }

  /** The elements in their order: those within `was` were compared with the old
      element, the others added. */
  ghost predicate ListReflects(env: Env, lo: Store, s: Store, p: Property, es: seq<Value>, items: seq<Item>,
                               was: seq<Item>, ts: seq<Target>)
    requires ValidProperty(|env.schema|, p)
    decreases Weight(Arr(es)), 0
  {
    && |items| == |es|
    && (forall k: nat :: k < |es| ==>
          (ElemWeight(es, k); ItemReflects(env, lo, s, p, es[k], items[k], k < |was|, ts)))
    && ListPlaced(env, lo, p, es, items, was, |was|, 0)
  }

  ghost predicate ItemReflects(env: Env, lo: Store, s: Store, p: Property, v: Value, item: Item, d: bool,
                               ts: seq<Target>)
    requires ValidProperty(|env.schema|, p)
    decreases Weight(v), 5
  {
    if p.ptype.base.Object? then item.Row? && RowReflects(env, lo, s, p, v, item.r, d, ts)
    else item.Val? && IsScalarFor(p, v, item.s)
  }

  ghost predicate RowReflects(env: Env, lo: Store, s: Store, p: Property, v: Value, r: nat, d: bool, ts: seq<Target>)
    requires ValidProperty(|env.schema|, p) && p.ptype.base.Object?
    decreases Weight(v), 4
  {
    if v.Ref? then v.cls == p.target && v.row == r < Count(s, p.target)
    else Reflects(env, lo, s, p.target, r, v, d, ts)
  }

  /** The value is an object without a key, which no key can lead to. */
  predicate Keyless(env: Env, p: Property, v: Value)
    requires ValidProperty(|env.schema|, p)
  {
    p.ptype.base.Object? && !v.Null? && !v.Ref? && !Keyed(env, p.target)
  }

  /** Which row an object without a key is: the row `cur` that was there to compare
      with, else a row that `lo` did not have. */
  predicate Placed(env: Env, lo: Store, p: Property, v: Value, r: nat, cur: Option<nat>)
    requires ValidProperty(|env.schema|, p) && p.ptype.base.Object?
  {
    v.Ref? || Keyed(env, p.target) || if cur.Some? then r == cur.value else r >= Count(lo, p.target)
  }

  predicate ItemPlaced(env: Env, lo: Store, p: Property, v: Value, item: Item, cur: Option<nat>)
    requires ValidProperty(|env.schema|, p)
  {
    p.ptype.base.Object? ==> item.Row? && Placed(env, lo, p, v, item.r, cur)
  }

  /** The rows of the elements from `k` on; those that are added ascend. */
  ghost predicate ListPlaced(env: Env, lo: Store, p: Property, es: seq<Value>, items: seq<Item>,
                             was: seq<Item>, sz: nat, k: nat)
    requires ValidProperty(|env.schema|, p) && |items| == |es|
  {
    && (forall j: nat :: k <= j < |es| ==> ItemPlaced(env, lo, p, es[j], items[j], CurrentAt(was, sz, j)))
    && (forall i: nat, j: nat :: k <= i < j < |es| && sz <= i ==> Ascend(env, p, es[i], es[j], items[i], items[j]))
  }

  predicate Ascend(env: Env, p: Property, v: Value, v': Value, item: Item, item': Item)
    requires ValidProperty(|env.schema|, p)
  {
    Keyless(env, p, v) && Keyless(env, p, v') ==> item.Row? && item'.Row? && item.r < item'.r
  }

  // ----- writes to other targets leave the description true

  ghost predicate Within(ts: seq<Target>, ts': seq<Target>) {
    forall t :: t in ts ==> t in ts'
  }

  /** The description from `lo` to `s` of a tree with targets `ts` may be read from
      `lo'` to `s'`: before `lo` only the targets `ws` were written and after `s`
      only `us`, and `ts` has none of either. */
  ghost predicate Carries(env: Env, lo: Store, s: Store, ts: seq<Target>, ws: seq<Target>, us: seq<Target>,
                          lo': Store, s': Store, ts': seq<Target>) {
    && Steady(env, s, s', us) && Apart(ts, us) && Existing(lo, us)
    && Frame(env, lo', lo, ws) && Apart(ts, ws) && Existing(lo', ts)
    && Grows(env, lo, s) && Within(ts, ts')
  }

  lemma OwnedRowSame(env: Env, lo: Store, s: Store, ts: seq<Target>, ws: seq<Target>, us: seq<Target>,
                     lo': Store, s': Store, ts': seq<Target>, cls: nat, row: nat)
    requires Carries(env, lo, s, ts, ws, us, lo', s', ts')
    requires HasClass(env, cls) && row < Count(s, cls) && Owns(env, lo, s, cls, row, ts)
    ensures RowSame(s, s', cls, row) && row < Count(s', cls)
    ensures Owns(env, lo', s', cls, row, ts') && TargetOf(env, s', cls, row) == TargetOf(env, s, cls, row)
    ensures row < Count(lo, cls) <==> row < Count(lo', cls)
    ensures row < Count(lo, cls) ==> RowSame(lo', lo, cls, row)
  {
    assert TargetOf(env, s, cls, row) !in us;
    assert TargetOf(env, s', cls, row) == TargetOf(env, s, cls, row);
    if row < Count(lo, cls) {
      var t := TargetOf(env, lo, cls, row);
      assert t == TargetOf(env, s, cls, row);
      assert t in ts && t !in ws;
      assert row < Count(lo', cls);
      assert TargetOf(env, lo', cls, row) == t;
    }
  }

  /** What the description of cell `a` says about `lo`. */
  ghost predicate SameBefore(p: Property, lo: Store, lo': Store, a: Address, v: Value, d: bool) {
    && (d || v.SameList? ==> OldList(lo', a) == OldList(lo, a))
    && (d ==> OldLink(lo', a) == OldLink(lo, a))
    && (d && p.ptype.nullable ==> OldScalar(lo', a) == OldScalar(lo, a))
  }

  lemma {:induction false} ReflectsKept(env: Env, lo: Store, s: Store, ts: seq<Target>, ws: seq<Target>,
                                        us: seq<Target>,
                                        lo': Store, s': Store, ts': seq<Target>,
                                        cls: nat, row: nat, v: Value, d: bool)
    requires HasClass(env, cls) && Carries(env, lo, s, ts, ws, us, lo', s', ts')
    requires Reflects(env, lo, s, cls, row, v, d, ts)
    ensures Reflects(env, lo', s', cls, row, v, d, ts')
    decreases Weight(v), 3
  {
    OwnedRowSame(env, lo, s, ts, ws, us, lo', s', ts', cls, row);
    forall i: nat | HasProp(env, cls, i)
      ensures FieldReflects(env, lo', s', At(cls, row, i), v, d, ts')
    {
      FieldKept(env, lo, s, ts, ws, us, lo', s', ts', At(cls, row, i), v, d);
    }
  }

  lemma {:induction false} FieldKept(env: Env, lo: Store, s: Store, ts: seq<Target>, ws: seq<Target>, us: seq<Target>,
                                     lo': Store, s': Store, ts': seq<Target>, a: Address, v: Value, d: bool)
    requires HasProp(env, a.cls, a.col) && Carries(env, lo, s, ts, ws, us, lo', s', ts')
    requires CellAt(s', a) == CellAt(s, a) && (a.row < Count(lo, a.cls) <==> a.row < Count(lo', a.cls))
    requires a.row < Count(lo, a.cls) ==> CellAt(lo', a) == CellAt(lo, a)
    requires FieldReflects(env, lo, s, a, v, d, ts)
    ensures FieldReflects(env, lo', s', a, v, d, ts')
    decreases Weight(v), 2
  {
    var due := Due(env, a.cls, v, a.col, a.row >= Count(lo, a.cls));
    if due.Some? {
      CellKept(env, lo, s, ts, ws, us, lo', s', ts', a, due.value, d);
    }
  }

  lemma {:induction false} CellKept(env: Env, lo: Store, s: Store, ts: seq<Target>, ws: seq<Target>, us: seq<Target>,
                                    lo': Store, s': Store, ts': seq<Target>, a: Address, v: Value, d: bool)
    requires HasProp(env, a.cls, a.col) && Carries(env, lo, s, ts, ws, us, lo', s', ts')
    requires CellAt(s', a) == CellAt(s, a) && CellReflects(env, lo, s, a, v, d, ts)
    requires SameBefore(Prop(env, a.cls, a.col), lo, lo', a, v, d)
    ensures CellReflects(env, lo', s', a, v, d, ts')
    decreases Weight(v), if IsLink(Prop(env, a.cls, a.col)) then 5 else 1
  {
    var p := Prop(env, a.cls, a.col);
    if p.ptype.nullable && v.Null? {
    } else if p.ptype.isArray {
      if v.Arr? {
        var items, sz := ListAt(s, a), |if d then OldList(lo, a) else []|;
        forall k: nat | k < |v.elems|
          ensures ItemReflects(env, lo', s', p, v.elems[k], items[k], k < sz, ts')
        {
          ElemWeight(v.elems, k);
          ItemKept(env, lo, s, ts, ws, us, lo', s', ts', p, v.elems[k], items[k], k < sz);
        }
      }
    } else if p.ptype.base.Object? {
      RowKept(env, lo, s, ts, ws, us, lo', s', ts', p, v, LinkAt(s, a).value, d);
    }
  }

  lemma {:induction false} ItemKept(env: Env, lo: Store, s: Store, ts: seq<Target>, ws: seq<Target>, us: seq<Target>,
                                    lo': Store, s': Store, ts': seq<Target>,
                                    p: Property, v: Value, item: Item, d: bool)
    requires ValidProperty(|env.schema|, p) && Carries(env, lo, s, ts, ws, us, lo', s', ts')
    requires ItemReflects(env, lo, s, p, v, item, d, ts)
    ensures ItemReflects(env, lo', s', p, v, item, d, ts')
    decreases Weight(v), 5
  {
    if p.ptype.base.Object? {
      RowKept(env, lo, s, ts, ws, us, lo', s', ts', p, v, item.r, d);
    }
  }

  lemma {:induction false} RowKept(env: Env, lo: Store, s: Store, ts: seq<Target>, ws: seq<Target>, us: seq<Target>,
                                   lo': Store, s': Store, ts': seq<Target>,
                                   p: Property, v: Value, r: nat, d: bool)
    requires ValidProperty(|env.schema|, p) && p.ptype.base.Object? && Carries(env, lo, s, ts, ws, us, lo', s', ts')
    requires RowReflects(env, lo, s, p, v, r, d, ts)
    ensures RowReflects(env, lo', s', p, v, r, d, ts')
    decreases Weight(v), 4
  {
    if !v.Ref? {
      ReflectsKept(env, lo, s, ts, ws, us, lo', s', ts', p.target, r, v, d);
    }
  }

  // ----- the engine, function by function

  ghost predicate Ready(env: Env, st: State) {
    !env.migrating && Good(env, st.store)
  }

  /** Nothing else in the row of `a` changed. */
  ghost predicate OthersSame(s: Store, s': Store, a: Address) {
    forall c: nat :: c != a.col ==> CellAt(s', At(a.cls, a.row, c)) == CellAt(s, At(a.cls, a.row, c))
  }

  function Own(env: Env, s: Store, a: Address): seq<Target>
    requires HasClass(env, a.cls)
  {
    [TargetOf(env, s, a.cls, a.row)]
  }

  /** The targets of a value that is about to be written to cell `a`. */
  function CellTargets(env: Env, s: Store, a: Address, v: Value, d: bool): seq<Target>
    requires HasProp(env, a.cls, a.col)
  {
    ValueTargets(env, s, Prop(env, a.cls, a.col), v, d, LinkAt(s, a), if d then ListAt(s, a) else [])
  }

  /** A value was written to cell `a`, starting from `s`: nothing but that cell and
      the targets changed, even where the write threw, and on a normal return the
      cell is what the value makes of it. */
  ghost predicate CellWritten(env: Env, s: Store, o: Out<()>, a: Address, v: Value, d: bool, ts: seq<Target>)
    requires HasProp(env, a.cls, a.col)
  {
    && Good(env, o.st.store) && Frame(env, s, o.st.store, Own(env, s, a) + ts) && OthersSame(s, o.st.store, a)
    && (o.res.Ok? ==> CellReflects(env, s, o.st.store, a, v, d, ts))
  }

  /** Writing only other targets leaves the row of `a` as it is. */
  lemma OwnRowSame(env: Env, s: Store, s': Store, a: Address, ts: seq<Target>)
    requires !env.migrating && InStore(env, s, a) && Frame(env, s, s', ts)
    requires Apart(Own(env, s, a), ts)
    ensures RowSame(s, s', a.cls, a.row) && InStore(env, s', a) && Own(env, s', a) == Own(env, s, a)
  {
    assert TargetOf(env, s, a.cls, a.row) in Own(env, s, a);
  }

  /** Other targets first, then one write to `a`. */
  lemma PutAfter(env: Env, s: Store, s1: Store, a: Address, c: Cell, ts: seq<Target>)
    requires !env.migrating && Good(env, s) && Good(env, s1)
    requires InStore(env, s, a) && !IsPrimary(env, a.cls, a.col)
    requires Frame(env, s, s1, ts) && Apart(Own(env, s, a), ts)
    requires Fits(s1, Prop(env, a.cls, a.col), c)
    ensures var s' := PutCell(s1, a, c);
            && Good(env, s') && Frame(env, s, s', Own(env, s, a) + ts) && OthersSame(s, s', a)
            && Steady(env, s1, s', Own(env, s, a))
  {
    OwnRowSame(env, s, s1, a, ts);
    PutKeepsGood(env, s1, a, c);
    FramePut(env, s1, a, c, Own(env, s, a));
    FrameTransitive(env, s, s1, PutCell(s1, a, c), ts, Own(env, s, a), Own(env, s, a) + ts);
  }

  lemma {:induction false} UnboxRowEffect(env: Env, st: State, p: Property, v: Value, tu: bool, d: bool,
                                          cur: Option<nat>)
    requires Ready(env, st) && ValidProperty(|env.schema|, p) && p.ptype.base.Object?
    requires RowOk(st.store, p.target, cur) && NoRepeats(RowTargets(env, st.store, p, v, d, cur))
    ensures var ts := RowTargets(env, st.store, p, v, d, cur);
            var r := UnboxRow(env, st, p, v, tu, d, cur);
            && Good(env, r.st.store) && Frame(env, st.store, r.st.store, ts)
            && (r.res.Ok? ==> r.res.value < Count(r.st.store, p.target))
            && (r.res.Ok? ==> RowReflects(env, st.store, r.st.store, p, v, r.res.value, d, ts))
            && (r.res.Ok? ==> Placed(env, st.store, p, v, r.res.value, if d then cur else None))
    decreases Weight(v), 6, 0
  {
    if !v.Ref? {
      CreateEffect(env, st, p.target, v, tu, d, cur);
    }
  }

  lemma {:induction false} WriteLinkEffect(env: Env, st: State, a: Address, v: Value, tu: bool, d: bool,
                                           isDefault: bool)
    requires Ready(env, st) && InStore(env, st.store, a) && !IsPrimary(env, a.cls, a.col)
    requires IsLink(Prop(env, a.cls, a.col)) && !v.Null?
    requires NoRepeats(Own(env, st.store, a)
                       + RowTargets(env, st.store, Prop(env, a.cls, a.col), v, d, LinkAt(st.store, a)))
    ensures CellWritten(env, st.store, WriteLink(env, st, a, v, tu, d, isDefault), a, v, d,
                        RowTargets(env, st.store, Prop(env, a.cls, a.col), v, d, LinkAt(st.store, a)))
    decreases Weight(v), 7, 0
  {
    var s, p, curr := st.store, Prop(env, a.cls, a.col), LinkAt(st.store, a);
    var own, ts := Own(env, s, a), RowTargets(env, s, p, v, d, curr);
    NoRepeatsSplit(own, ts);
    assert CellOk(env, s, a);
    UnboxRowEffect(env, st, p, v, tu, d, curr);
    var u := UnboxRow(env, st, p, v, tu, d, curr);
    UnboxedOnly(env, s, u.st.store, a, ts);
    if u.res.Ok? && !(d && curr == Some(u.res.value)) {
      PutLink(env, s, u.st.store, a, v, u.res.value, d, ts);
    }
  }

  /** The write of an unboxed row. */
  lemma PutLink(env: Env, s: Store, s1: Store, a: Address, v: Value, r: nat, d: bool, ts: seq<Target>)
    requires !env.migrating && Good(env, s) && Good(env, s1) && InStore(env, s, a) && !IsPrimary(env, a.cls, a.col)
    requires IsLink(Prop(env, a.cls, a.col)) && !v.Null? && r < Count(s1, Prop(env, a.cls, a.col).target)
    requires Frame(env, s, s1, ts) && Apart(Own(env, s, a), ts) && Existing(s, ts)
    requires RowReflects(env, s, s1, Prop(env, a.cls, a.col), v, r, d, ts)
    requires Placed(env, s, Prop(env, a.cls, a.col), v, r, if d then LinkAt(s, a) else None)
    ensures CellWritten(env, s, Out(State(PutCell(s1, a, Link(Some(r))), []), Ok(())), a, v, d, ts)
  {
    var p, own, c := Prop(env, a.cls, a.col), Own(env, s, a), Link(Some(r));
    PutAfter(env, s, s1, a, c, ts);
    FrameRefl(env, s, []);
    RowKept(env, s, s1, ts, [], own, s, PutCell(s1, a, c), ts, p, v, r, d);
  }

  lemma WriteNullEffect(env: Env, st: State, a: Address, d: bool, isDefault: bool)
    requires Ready(env, st) && InStore(env, st.store, a) && !IsPrimary(env, a.cls, a.col)
    requires Prop(env, a.cls, a.col).ptype.nullable
    requires isDefault ==> CellAt(st.store, a) == FreshCell(Prop(env, a.cls, a.col))
    ensures CellWritten(env, st.store, WriteNull(env, st, a, Prop(env, a.cls, a.col), d, isDefault), a, Null, d, [])
  {
    var p := Prop(env, a.cls, a.col);
    assert CellOk(env, st.store, a);
    FrameRefl(env, st.store, []);
    FrameRefl(env, st.store, Own(env, st.store, a) + []);
    if !p.ptype.isArray {
      PutAfter(env, st.store, st.store, a, if p.ptype.base.Object? then Link(None) else One(None), []);
    }
  }

  lemma WriteScalarEffect(env: Env, st: State, a: Address, v: Value, d: bool, isDefault: bool)
    requires Ready(env, st) && InStore(env, st.store, a) && !IsPrimary(env, a.cls, a.col)
    requires var t := Prop(env, a.cls, a.col).ptype; !t.isArray && !t.base.Object? && !(t.nullable && v.Null?)
    ensures CellWritten(env, st.store, WriteScalar(env, st, a, Prop(env, a.cls, a.col), v, d, isDefault), a, v, d, [])
  {
    var p := Prop(env, a.cls, a.col);
    assert CellOk(env, st.store, a);
    FrameRefl(env, st.store, []);
    FrameRefl(env, st.store, Own(env, st.store, a) + []);
    var x := UnboxScalar(p, v);
    if x.Ok? {
      PutAfter(env, st.store, st.store, a, One(x.value), []);
    }
  }

  // ----- lists

  /** The targets of the elements from `k` on. */
  function ListTargets(env: Env, s: Store, p: Property, es: seq<Value>, list: seq<Item>, sz: nat, k: nat): seq<Target>
    requires ValidProperty(|env.schema|, p) && k <= |es|
  {
    if p.ptype.base.Object? then ElemTargets(env, s, p, es, list, sz, k) else []
  }

  function HereTargets(env: Env, s: Store, p: Property, es: seq<Value>, list: seq<Item>, sz: nat, k: nat): seq<Target>
    requires ValidProperty(|env.schema|, p) && k < |es|
  {
    if p.ptype.base.Object? then RowTargets(env, s, p, es[k], k < sz, CurrentAt(list, sz, k)) else []
  }

  /** How long the list is while element `k` is the next: the old tail is still there. */
  function ListLength(k: nat, sz: nat): nat {
    if k < sz then sz else k
  }

  lemma {:induction false} UnboxItemEffect(env: Env, st: State, p: Property, v: Value, tu: bool, d: bool,
                                           cur: Option<nat>)
    requires Ready(env, st) && ValidProperty(|env.schema|, p)
    requires p.ptype.base.Object? ==>
               RowOk(st.store, p.target, cur) && NoRepeats(RowTargets(env, st.store, p, v, d, cur))
    ensures var ts := if p.ptype.base.Object? then RowTargets(env, st.store, p, v, d, cur) else [];
            var r := UnboxItem(env, st, p, v, tu, d, cur);
            && Good(env, r.st.store) && Frame(env, st.store, r.st.store, ts)
            && (r.res.Ok? ==> ItemFits(r.st.store, p, r.res.value))
            && (r.res.Ok? ==> ItemReflects(env, st.store, r.st.store, p, v, r.res.value, d, ts))
            && (r.res.Ok? ==> ItemPlaced(env, st.store, p, v, r.res.value, if d then cur else None))
    decreases Weight(v), 6, 1
  {
    if p.ptype.base.Object? {
      UnboxRowEffect(env, st, p, v, tu, d, cur);
    } else {
      FrameRefl(env, st.store, []);
    }
  }

  /** The list after element `k`: nothing but position `k` is different. */
  ghost predicate OneItem(list: seq<Item>, list': seq<Item>, k: nat, sz: nat) {
    && |list'| == ListLength(k + 1, sz)
    && forall j :: 0 <= j < |list'| && j != k ==> j < |list| && list'[j] == list[j]
  }

  ghost predicate ElementDone(env: Env, st: State, a: Address, es: seq<Value>, k: nat, sz: nat, tu: bool)
    requires HasProp(env, a.cls, a.col) && k < |es|
  {
    var p := Prop(env, a.cls, a.col);
    var here := HereTargets(env, st.store, p, es, ListAt(st.store, a), sz, k);
    var r := Element(env, st, a, es, k, sz, tu);
    && Good(env, r.st.store) && Frame(env, st.store, r.st.store, Own(env, st.store, a) + here)
    && OthersSame(st.store, r.st.store, a)
    && (r.res.Ok? ==> OneItem(ListAt(st.store, a), ListAt(r.st.store, a), k, sz))
    && (r.res.Ok? ==> ItemReflects(env, st.store, r.st.store, p, es[k], ListAt(r.st.store, a)[k], k < sz, here))
    && (r.res.Ok? ==> ItemPlaced(env, st.store, p, es[k], ListAt(r.st.store, a)[k],
                                 CurrentAt(ListAt(st.store, a), sz, k)))
  }

  function WithItem(list: seq<Item>, item: Item, k: nat, sz: nat): seq<Item>
    requires k < sz ==> k < |list|
  {
    if k < sz then list[k := item] else list + [item]
  }

  /** The tables after element `k`, whichever of the three branches was taken. */
  lemma ElementIs(env: Env, st: State, a: Address, es: seq<Value>, k: nat, sz: nat, tu: bool)
    requires HasProp(env, a.cls, a.col) && k < |es| && |ListAt(st.store, a)| == ListLength(k, sz)
    requires var u := UnboxItem(env, st, Prop(env, a.cls, a.col), es[k], tu, k < sz,
                                CurrentAt(ListAt(st.store, a), sz, k));
             && u.res.Ok? && ListAt(u.st.store, a) == ListAt(st.store, a)
             && a in u.st.store.cells && CellAt(u.st.store, a).Many?
    ensures var u := UnboxItem(env, st, Prop(env, a.cls, a.col), es[k], tu, k < sz,
                               CurrentAt(ListAt(st.store, a), sz, k));
            var e := Element(env, st, a, es, k, sz, tu);
            e.res.Ok? && e.st.store == PutCell(u.st.store, a, Many(WithItem(ListAt(st.store, a), u.res.value, k, sz)))
  {
    var list := ListAt(st.store, a);
    var u := UnboxItem(env, st, Prop(env, a.cls, a.col), es[k], tu, k < sz, CurrentAt(list, sz, k));
    if k < sz && list[k] == u.res.value {
      assert list[k := u.res.value] == list;
      assert u.st.store.cells[a := Many(list)] == u.st.store.cells;
    }
  }

  /** The write of an unboxed element, when there is one. */
  lemma PutItem(env: Env, s: Store, s1: Store, a: Address, v: Value, item: Item, k: nat, sz: nat, here: seq<Target>)
    requires !env.migrating && Good(env, s) && Good(env, s1) && InStore(env, s, a) && !IsPrimary(env, a.cls, a.col)
    requires Prop(env, a.cls, a.col).ptype.isArray && |ListAt(s, a)| == ListLength(k, sz)
    requires Frame(env, s, s1, here) && Apart(Own(env, s, a), here) && Existing(s, here)
    requires ItemFits(s1, Prop(env, a.cls, a.col), item)
    requires ItemReflects(env, s, s1, Prop(env, a.cls, a.col), v, item, k < sz, here)
    ensures var before := ListAt(s1, a);
            var s' := PutCell(s1, a, Many(WithItem(before, item, k, sz)));
            && before == ListAt(s, a)
            && Good(env, s') && Frame(env, s, s', Own(env, s, a) + here) && OthersSame(s, s', a)
            && OneItem(before, ListAt(s', a), k, sz) && ListAt(s', a)[k] == item
            && ItemReflects(env, s, s', Prop(env, a.cls, a.col), v, item, k < sz, here)
  {
    var p, own := Prop(env, a.cls, a.col), Own(env, s, a);
    OwnRowSame(env, s, s1, a, here);
    assert CellOk(env, s1, a);
    var before := ListAt(s1, a);
    var c := Many(WithItem(before, item, k, sz));
    PutAfter(env, s, s1, a, c, here);
    FrameRefl(env, s, []);
    ItemKept(env, s, s1, here, [], own, s, PutCell(s1, a, c), here, p, v, item, k < sz);
  }

  lemma {:induction false} ElementEffect(env: Env, st: State, a: Address, es: seq<Value>, k: nat, sz: nat, tu: bool)
    requires Ready(env, st) && InStore(env, st.store, a) && !IsPrimary(env, a.cls, a.col)
    requires Prop(env, a.cls, a.col).ptype.isArray && k < |es|
    requires |ListAt(st.store, a)| == ListLength(k, sz)
    requires NoRepeats(Own(env, st.store, a)
                       + HereTargets(env, st.store, Prop(env, a.cls, a.col), es, ListAt(st.store, a), sz, k))
    ensures ElementDone(env, st, a, es, k, sz, tu)
    decreases Weight(Arr(es)), 0, 0
  {
    ElemWeight(es, k);
    var s, p, before := st.store, Prop(env, a.cls, a.col), ListAt(st.store, a);
    var cur := CurrentAt(before, sz, k);
    assert CellOk(env, s, a);
    NoRepeatsSplit(Own(env, s, a), HereTargets(env, s, p, es, before, sz, k));
    UnboxItemEffect(env, st, p, es[k], tu, k < sz, cur);
    ElementStep(env, st, a, es, k, sz, tu);
  }

  /** From the unboxed element to the list that holds it. */
  lemma {:induction false} ElementStep(env: Env, st: State, a: Address, es: seq<Value>, k: nat, sz: nat, tu: bool)
    requires Ready(env, st) && InStore(env, st.store, a) && !IsPrimary(env, a.cls, a.col)
    requires Prop(env, a.cls, a.col).ptype.isArray && k < |es|
    requires |ListAt(st.store, a)| == ListLength(k, sz)
    requires var p, before := Prop(env, a.cls, a.col), ListAt(st.store, a);
             var here := HereTargets(env, st.store, p, es, before, sz, k);
             var u := UnboxItem(env, st, p, es[k], tu, k < sz, CurrentAt(before, sz, k));
             && Apart(Own(env, st.store, a), here) && Existing(st.store, here)
             && Good(env, u.st.store) && Frame(env, st.store, u.st.store, here)
             && (u.res.Ok? ==> ItemFits(u.st.store, p, u.res.value))
             && (u.res.Ok? ==> ItemReflects(env, st.store, u.st.store, p, es[k], u.res.value, k < sz, here))
             && (u.res.Ok? ==> ItemPlaced(env, st.store, p, es[k], u.res.value, CurrentAt(before, sz, k)))
    ensures ElementDone(env, st, a, es, k, sz, tu)
  {
    var s, p, before := st.store, Prop(env, a.cls, a.col), ListAt(st.store, a);
    var here := HereTargets(env, s, p, es, before, sz, k);
    var u := UnboxItem(env, st, p, es[k], tu, k < sz, CurrentAt(before, sz, k));
    UnboxedOnly(env, s, u.st.store, a, here);
    if u.res.Ok? {
      assert CellOk(env, u.st.store, a);
      ElementIs(env, st, a, es, k, sz, tu);
      PutItem(env, s, u.st.store, a, es[k], u.res.value, k, sz, here);
    }
  }

  /** Where nothing is written to the list, its row is as it was. */
  lemma UnboxedOnly(env: Env, s: Store, s1: Store, a: Address, here: seq<Target>)
    requires !env.migrating && InStore(env, s, a) && Frame(env, s, s1, here) && Apart(Own(env, s, a), here)
    ensures Frame(env, s, s1, Own(env, s, a) + here) && OthersSame(s, s1, a)
    ensures CellAt(s1, a) == CellAt(s, a) && InStore(env, s1, a)
  {
    var own := Own(env, s, a);
    OwnRowSame(env, s, s1, a, here);
    FrameRefl(env, s1, own);
    FrameTransitive(env, s, s1, s1, here, own, own + here);
  }

  lemma {:induction false} TrimEffect(env: Env, st: State, a: Address, k: nat, sz: nat)
    requires Ready(env, st) && InStore(env, st.store, a) && !IsPrimary(env, a.cls, a.col)
    requires Prop(env, a.cls, a.col).ptype.isArray && |ListAt(st.store, a)| == ListLength(k, sz)
    ensures var r := Trim(env, st, a, k, sz);
            && r.res.Ok? && Good(env, r.st.store) && Frame(env, st.store, r.st.store, Own(env, st.store, a))
            && OthersSame(st.store, r.st.store, a)
            && ListAt(r.st.store, a) == ListAt(st.store, a)[..k]
    decreases sz
  {
    var own := Own(env, st.store, a);
    if k < sz {
      var st1 := Emit(env, st, ListRemove(a, k));
      RemoveEffect(env, st, a, k);
      TrimEffect(env, st1, a, k, sz - 1);
      TrimNext(env, st, a, k, sz);
      FrameTransitive(env, st.store, st1.store, Trim(env, st1, a, k, sz - 1).st.store, own, own, own);
    } else {
      FrameRefl(env, st.store, own);
    }
  }

  lemma RemoveEffect(env: Env, st: State, a: Address, k: nat)
    requires Ready(env, st) && InStore(env, st.store, a) && !IsPrimary(env, a.cls, a.col)
    requires Prop(env, a.cls, a.col).ptype.isArray && k < |ListAt(st.store, a)|
    ensures var s1 := Emit(env, st, ListRemove(a, k)).store;
            && Good(env, s1) && Frame(env, st.store, s1, Own(env, st.store, a)) && OthersSame(st.store, s1, a)
            && InStore(env, s1, a) && Own(env, s1, a) == Own(env, st.store, a)
            && ListAt(s1, a) == RemoveAt(ListAt(st.store, a), k) && ListAt(s1, a)[..k] == ListAt(st.store, a)[..k]
  {
    var own := Own(env, st.store, a);
    assert CellOk(env, st.store, a);
    FrameRefl(env, st.store, []);
    PutAfter(env, st.store, st.store, a, Many(RemoveAt(ListAt(st.store, a), k)), []);
    assert own + [] == own;
  }

  ghost predicate AssignFromDone(env: Env, st: State, a: Address, es: seq<Value>, k: nat, sz: nat, tu: bool)
    requires HasProp(env, a.cls, a.col) && k <= |es| && k <= |ListAt(st.store, a)|
  {
    var p, before := Prop(env, a.cls, a.col), ListAt(st.store, a);
    var ts := ListTargets(env, st.store, p, es, before, sz, k);
    var r := AssignFrom(env, st, a, es, k, sz, tu);
    && Good(env, r.st.store) && Frame(env, st.store, r.st.store, Own(env, st.store, a) + ts)
    && OthersSame(st.store, r.st.store, a)
    && (r.res.Ok? ==>
          && |ListAt(r.st.store, a)| == |es| && ListAt(r.st.store, a)[..k] == before[..k]
          && (forall j :: k <= j < |es| ==>
                ItemReflects(env, st.store, r.st.store, p, es[j], ListAt(r.st.store, a)[j], j < sz, ts))
          && ListPlaced(env, st.store, p, es, ListAt(r.st.store, a), before, sz, k))
  }

  lemma {:induction false} AssignFromEffect(env: Env, st: State, a: Address, es: seq<Value>, k: nat, sz: nat, tu: bool)
    requires Ready(env, st) && InStore(env, st.store, a) && !IsPrimary(env, a.cls, a.col)
    requires Prop(env, a.cls, a.col).ptype.isArray && k <= |es|
    requires |ListAt(st.store, a)| == ListLength(k, sz)
    requires NoRepeats(Own(env, st.store, a)
                       + ListTargets(env, st.store, Prop(env, a.cls, a.col), es, ListAt(st.store, a), sz, k))
    ensures AssignFromDone(env, st, a, es, k, sz, tu)
    decreases Weight(Arr(es)), 1, |es| - k
  {
    var s, p, before := st.store, Prop(env, a.cls, a.col), ListAt(st.store, a);
    var own, ts := Own(env, s, a), ListTargets(env, s, p, es, before, sz, k);
    if k == |es| {
      TrimEffect(env, st, a, k, sz);
      assert own + ts == own;
    } else {
      var here, rest := HereTargets(env, s, p, es, before, sz, k), ListTargets(env, s, p, es, before, sz, k + 1);
      assert ts == here + rest;
      SplitThree(own, here, rest);
      ElementEffect(env, st, a, es, k, sz, tu);
      var e := Element(env, st, a, es, k, sz, tu);
      if e.res.Ok? {
        ListTargetsStable(env, s, e.st.store, a, es, k, sz, own + here);
        AssignFromEffect(env, e.st, a, es, k + 1, sz, tu);
        AssignFromStep(env, st, a, es, k, sz, tu);
      } else {
        FrameWiden(env, s, e.st.store, own + here, own + ts);
      }
    }
  }

  lemma FrameWiden(env: Env, s: Store, s1: Store, ts: seq<Target>, us: seq<Target>)
    requires Frame(env, s, s1, ts) && Within(ts, us)
    ensures Frame(env, s, s1, us)
  {
  }

  lemma SplitThree(own: seq<Target>, here: seq<Target>, rest: seq<Target>)
    requires NoRepeats(own + (here + rest))
    ensures NoRepeats(own + here) && NoRepeats(own + rest) && Apart(here, own + rest) && Apart(rest, own + here)
    ensures Apart(own, here) && Apart(own, rest)
  {
    NoRepeatsSplit(own, here + rest);
    NoRepeatsSplit(here, rest);
    assert own + (here + rest) == (own + here) + rest;
    NoRepeatsSplit(own + here, rest);
    assert forall t :: t in here ==> t in here + rest;
    assert forall t :: t in rest ==> t in here + rest;
    NoRepeatsConcat(own, rest);
  }

  lemma NoRepeatsConcat(ts: seq<Target>, us: seq<Target>)
    requires NoRepeats(ts) && NoRepeats(us) && Apart(ts, us)
    ensures NoRepeats(ts + us)
  {
    forall i, j | 0 <= i < j < |ts + us| ensures (ts + us)[i] != (ts + us)[j] {
      if i < |ts| {
        assert ts[i] in ts;
      }
    }
  }

  /** The elements still to come reach the same rows after element `k` was written. */
  lemma ListTargetsStable(env: Env, s: Store, s1: Store, a: Address, es: seq<Value>, k: nat, sz: nat, us: seq<Target>)
    requires Steady(env, s, s1, us) && InStore(env, s, a) && InStore(env, s1, a)
    requires Prop(env, a.cls, a.col).ptype.isArray && k < |es|
    requires |ListAt(s, a)| == ListLength(k, sz) && OneItem(ListAt(s, a), ListAt(s1, a), k, sz)
    requires Apart(ListTargets(env, s, Prop(env, a.cls, a.col), es, ListAt(s, a), sz, k + 1), us)
    ensures ListTargets(env, s1, Prop(env, a.cls, a.col), es, ListAt(s1, a), sz, k + 1)
         == ListTargets(env, s, Prop(env, a.cls, a.col), es, ListAt(s, a), sz, k + 1)
  {
    assert CellOk(env, s, a);
    if Prop(env, a.cls, a.col).ptype.base.Object? {
      ElemTargetsStable(env, s, s1, us, Prop(env, a.cls, a.col), es, ListAt(s, a), ListAt(s1, a), sz, k + 1);
    }
  }

  /** Element `k`, then the rest: the induction step of `AssignFromEffect`. */
  lemma {:induction false} AssignFromStep(env: Env, st: State, a: Address, es: seq<Value>, k: nat, sz: nat, tu: bool)
    requires Ready(env, st) && InStore(env, st.store, a) && Prop(env, a.cls, a.col).ptype.isArray && k < |es|
    requires |ListAt(st.store, a)| == ListLength(k, sz)
    requires var p, before, own := Prop(env, a.cls, a.col), ListAt(st.store, a), Own(env, st.store, a);
             var here := HereTargets(env, st.store, p, es, before, sz, k);
             var rest := ListTargets(env, st.store, p, es, before, sz, k + 1);
             var e := Element(env, st, a, es, k, sz, tu);
             && Apart(here, own + rest) && Apart(rest, own + here)
             && e.res.Ok? && ElementDone(env, st, a, es, k, sz, tu)
             && Own(env, e.st.store, a) == own
             && ListTargets(env, e.st.store, p, es, ListAt(e.st.store, a), sz, k + 1) == rest
             && AssignFromDone(env, e.st, a, es, k + 1, sz, tu)
    ensures AssignFromDone(env, st, a, es, k, sz, tu)
  {
    var s, p, before := st.store, Prop(env, a.cls, a.col), ListAt(st.store, a);
    var own, ts := Own(env, s, a), ListTargets(env, s, p, es, before, sz, k);
    var here, rest := HereTargets(env, s, p, es, before, sz, k), ListTargets(env, s, p, es, before, sz, k + 1);
    assert ts == here + rest;
    var e := Element(env, st, a, es, k, sz, tu);
    var r := AssignFrom(env, e.st, a, es, k + 1, sz, tu);
    var s1, s2 := e.st.store, r.st.store;
    FrameTransitive(env, s, s1, s2, own + here, own + rest, own + ts);
    if r.res.Ok? {
      PrefixKept(before, ListAt(s1, a), ListAt(s2, a), k);
      ItemsKept(env, s, s1, s2, p, es, ListAt(s2, a), k, sz, own, here, rest, ts);
      assert InStore(env, s1, a) && CellOk(env, s1, a);
      PlacesKept(env, s, s1, p, es, ListAt(s2, a), before, ListAt(s1, a), k, sz);
    }
  }

  /** Element `k` is a row that is there when the later ones are added. */
  lemma PlacesKept(env: Env, s: Store, s1: Store, p: Property, es: seq<Value>, items: seq<Item>,
                   was: seq<Item>, was1: seq<Item>, k: nat, sz: nat)
    requires ValidProperty(|env.schema|, p) && Grows(env, s, s1) && k < |es| == |items|
    requires |was| == ListLength(k, sz) && OneItem(was, was1, k, sz)
    requires ItemPlaced(env, s, p, es[k], items[k], CurrentAt(was, sz, k)) && ItemFits(s1, p, items[k])
    requires ListPlaced(env, s1, p, es, items, was1, sz, k + 1)
    ensures ListPlaced(env, s, p, es, items, was, sz, k)
  {
    forall j: nat | k < j < |es| ensures ItemPlaced(env, s, p, es[j], items[j], CurrentAt(was, sz, j)) {
      assert ItemPlaced(env, s1, p, es[j], items[j], CurrentAt(was1, sz, j));
    }
    forall j: nat | k < j < |es| && sz <= k ensures Ascend(env, p, es[k], es[j], items[k], items[j]) {
      assert ItemPlaced(env, s1, p, es[j], items[j], CurrentAt(was1, sz, j));
    }
  }

  lemma PrefixKept<T>(x: seq<T>, y: seq<T>, z: seq<T>, k: nat)
    requires k <= |x| && k < |y| && k < |z| && x[..k] == y[..k] && y[..k + 1] == z[..k + 1]
    ensures x[..k] == z[..k] && y[k] == z[k]
  {
    assert z[..k] == z[..k + 1][..k];
    assert y[..k] == y[..k + 1][..k];
    assert z[k] == z[..k + 1][k];
  }

  lemma ItemsKept(env: Env, s: Store, s1: Store, s2: Store, p: Property, es: seq<Value>, items: seq<Item>, k: nat,
                  sz: nat,
                  own: seq<Target>, here: seq<Target>, rest: seq<Target>, ts: seq<Target>)
    requires !env.migrating && Good(env, s) && Good(env, s1) && Good(env, s2) && ValidProperty(|env.schema|, p)
    requires Frame(env, s, s1, own + here) && Frame(env, s1, s2, own + rest) && ts == here + rest
    requires Apart(here, own + rest) && Apart(rest, own + here)
    requires Existing(s, own + rest) && Existing(s, here) && k < |es| == |items|
    requires ItemReflects(env, s, s1, p, es[k], items[k], k < sz, here)
    requires forall j :: k + 1 <= j < |es| ==> ItemReflects(env, s1, s2, p, es[j], items[j], j < sz, rest)
    ensures forall j :: k <= j < |es| ==> ItemReflects(env, s, s2, p, es[j], items[j], j < sz, ts)
  {
    FrameRefl(env, s, []);
    FrameRefl(env, s2, []);
    ItemKept(env, s, s1, here, [], own + rest, s, s2, ts, p, es[k], items[k], k < sz);
    forall j | k + 1 <= j < |es| ensures ItemReflects(env, s, s2, p, es[j], items[j], j < sz, ts) {
      assert forall t :: t in rest ==> t in own + rest;
      ItemKept(env, s1, s2, rest, own + here, [], s, s2, ts, p, es[j], items[j], j < sz);
    }
  }

  lemma {:induction false} AssignEffect(env: Env, st: State, a: Address, v: Value, tu: bool, d: bool)
    requires Ready(env, st) && InStore(env, st.store, a) && !IsPrimary(env, a.cls, a.col)
    requires Prop(env, a.cls, a.col).ptype.isArray && !(Prop(env, a.cls, a.col).ptype.nullable && v.Null?)
    requires NoRepeats(Own(env, st.store, a) + CellTargets(env, st.store, a, v, d))
    ensures CellWritten(env, st.store, Assign(env, st, a, v, tu, d), a, v, d, CellTargets(env, st.store, a, v, d))
    decreases Weight(v), 2, 0
  {
    var s, p, own := st.store, Prop(env, a.cls, a.col), Own(env, st.store, a);
    var list, ts := if d then ListAt(s, a) else [], CellTargets(env, s, a, v, d);
    if v.Arr? && !p.ptype.base.LinkingObjects? {
      assert ts == ListTargets(env, s, p, v.elems, list, |list|, 0);
      if d {
        AssignFromEffect(env, st, a, v.elems, 0, |list|, tu);
      } else {
        var st1 := Emit(env, st, ListClear(a));
        FrameRefl(env, s, []);
        PutAfter(env, s, s, a, Many([]), []);
        ClearedTargets(env, s, st1.store, own, p, v.elems);
        AssignFromEffect(env, st1, a, v.elems, 0, 0, tu);
        ClearedEffect(env, st, a, v, tu);
      }
    } else {
      NotListed(env, st, a, v, tu, d);
    }
  }

  /** Assigning anything but an array: the same list, null, or an exception. */
  lemma NotListed(env: Env, st: State, a: Address, v: Value, tu: bool, d: bool)
    requires Ready(env, st) && InStore(env, st.store, a) && !IsPrimary(env, a.cls, a.col)
    requires Prop(env, a.cls, a.col).ptype.isArray && !(Prop(env, a.cls, a.col).ptype.nullable && v.Null?)
    requires !v.Arr? || Prop(env, a.cls, a.col).ptype.base.LinkingObjects?
    ensures CellWritten(env, st.store, Assign(env, st, a, v, tu, d), a, v, d, CellTargets(env, st.store, a, v, d))
  {
    var s, own, ts := st.store, Own(env, st.store, a), CellTargets(env, st.store, a, v, d);
    assert ts == [];
    FrameRefl(env, s, own + ts);
    FrameRefl(env, s, []);
    PutAfter(env, s, s, a, Many([]), []);
  }

  lemma ClearedTargets(env: Env, s: Store, s1: Store, own: seq<Target>, p: Property, es: seq<Value>)
    requires ValidProperty(|env.schema|, p) && Steady(env, s, s1, own + [])
    requires NoRepeats(own + ListTargets(env, s, p, es, [], 0, 0))
    ensures ListTargets(env, s1, p, es, [], 0, 0) == ListTargets(env, s, p, es, [], 0, 0)
  {
    NoRepeatsSplit(own, ListTargets(env, s, p, es, [], 0, 0));
    if p.ptype.base.Object? {
      ElemTargetsStable(env, s, s1, own + [], p, es, [], [], 0, 0);
    }
  }

  /** The full form: from the loop on the cleared list to the whole call. */
  lemma ClearedEffect(env: Env, st: State, a: Address, v: Value, tu: bool)
    requires Ready(env, st) && InStore(env, st.store, a) && !IsPrimary(env, a.cls, a.col)
    requires var p := Prop(env, a.cls, a.col); p.ptype.isArray && v.Arr? && !p.ptype.base.LinkingObjects?
    requires var p, st1 := Prop(env, a.cls, a.col), Emit(env, st, ListClear(a));
             var ts := ListTargets(env, st.store, p, v.elems, [], 0, 0);
             && NoRepeats(Own(env, st.store, a) + ts) && ListAt(st1.store, a) == []
             && Good(env, st1.store) && Frame(env, st.store, st1.store, Own(env, st.store, a) + [])
             && OthersSame(st.store, st1.store, a) && Own(env, st1.store, a) == Own(env, st.store, a)
             && ListTargets(env, st1.store, p, v.elems, [], 0, 0) == ts
             && AssignFromDone(env, st1, a, v.elems, 0, 0, tu)
    ensures var p, own := Prop(env, a.cls, a.col), Own(env, st.store, a);
            var ts := ListTargets(env, st.store, p, v.elems, [], 0, 0);
            var r := AssignFrom(env, Emit(env, st, ListClear(a)), a, v.elems, 0, 0, tu);
            && Frame(env, st.store, r.st.store, own + ts) && OthersSame(st.store, r.st.store, a)
            && (r.res.Ok? ==> CellReflects(env, st.store, r.st.store, a, v, false, ts))
  {
    var s, p, own := st.store, Prop(env, a.cls, a.col), Own(env, st.store, a);
    var ts, st1 := ListTargets(env, s, p, v.elems, [], 0, 0), Emit(env, st, ListClear(a));
    var r := AssignFrom(env, st1, a, v.elems, 0, 0, tu);
    NoRepeatsSplit(own, ts);
    FrameTransitive(env, s, st1.store, r.st.store, own + [], own + ts, own + ts);
    FrameRefl(env, s, []);
    FrameRefl(env, r.st.store, []);
    if r.res.Ok? {
      assert ListReflects(env, st1.store, r.st.store, p, v.elems, ListAt(r.st.store, a), [], ts);
      CellKept(env, st1.store, r.st.store, ts, own + [], [], s, r.st.store, ts, a, v, false);
    }
  }

  // ----- one property

  lemma {:induction false} SetPropertyEffect(env: Env, st: State, a: Address, v: Value, tu: bool, d: bool,
                                             isDefault: bool)
    requires Ready(env, st) && InStore(env, st.store, a) && !IsPrimary(env, a.cls, a.col)
    requires isDefault ==> CellAt(st.store, a) == FreshCell(Prop(env, a.cls, a.col))
    requires NoRepeats(Own(env, st.store, a) + CellTargets(env, st.store, a, v, d))
    ensures CellWritten(env, st.store, SetProperty(env, st, a, v, tu, d, isDefault), a, v, d,
                        CellTargets(env, st.store, a, v, d))
    decreases Weight(v), if IsLink(Prop(env, a.cls, a.col)) then 8 else 3, 0
  {
    var p := Prop(env, a.cls, a.col);
    var st1 := Emit(env, st, Will(a));
    if p.ptype.nullable && v.Null? {
      WriteNullEffect(env, st1, a, d, isDefault);
    } else if p.ptype.isArray {
      AssignEffect(env, st1, a, v, tu, d);
    } else if p.ptype.base.Object? {
      WriteLinkEffect(env, st1, a, v, tu, d, isDefault);
    } else {
      WriteScalarEffect(env, st1, a, v, d, isDefault);
    }
  }

  // ----- the populate loop

  /** The cells from column `i` on, the primary key aside, are as in a row just added. */
  ghost predicate FreshFrom(env: Env, s: Store, cls: nat, row: nat, i: nat) {
    forall j: nat :: i <= j && HasProp(env, cls, j) && !IsPrimary(env, cls, j) ==>
      CellAt(s, At(cls, row, j)) == FreshCell(Prop(env, cls, j))
  }

  /** What the loop leaves in cell `a`: untouched where it writes nothing, else the
      given value or the default. */
  ghost predicate FieldDone(env: Env, lo: Store, s: Store, s': Store, a: Address, v: Value,
                            created: bool, d: bool, ts: seq<Target>)
    requires HasProp(env, a.cls, a.col)
  {
    var due := Due(env, a.cls, v, a.col, created);
    && WellGiven(env, a.cls, v, a.col, created)
    && if due.Some? then CellReflects(env, lo, s', a, due.value, d, ts) else CellAt(s', a) == CellAt(s, a)
  }

  /** A default reaches no row, so the loop's targets are those of the given values. */
  lemma ChosenTargets(env: Env, s: Store, a: Address, v: Value, created: bool, d: bool)
    requires HasProp(env, a.cls, a.col)
    requires created ==> CellAt(s, a) == FreshCell(Prop(env, a.cls, a.col))
    requires var c := Choose(env, a.cls, v, a.col, created, true); c.Ok? && c.value.Some?
    ensures var c := Choose(env, a.cls, v, a.col, created, true).value.value;
            CellTargets(env, s, a, c.v, d)
              == FieldTarget(env, s, a.cls, v, LinkSeen(s, a.cls, Some(a.row), a.col),
                             ListSeen(s, a.cls, Some(a.row), d, a.col), d, a.col)
  {
    var c := Choose(env, a.cls, v, a.col, created, true).value.value;
    if c.isDefault {
      DefaultTargets(env, s, Prop(env, a.cls, a.col), c.v, d);
    }
  }

  ghost predicate PopulateDone(env: Env, st: State, cls: nat, v: Value, at: Located, tu: bool, d: bool, i: nat)
    requires HasClass(env, cls)
  {
    var own, ts := [TargetOf(env, st.store, cls, at.row)], FieldTargets(env, st.store, cls, v, Some(at.row), d, i);
    var r := Populate(env, st, cls, v, at, tu, d, i);
    && Good(env, r.st.store) && Frame(env, st.store, r.st.store, own + ts)
    && (forall j: nat :: j < i ==> CellAt(r.st.store, At(cls, at.row, j)) == CellAt(st.store, At(cls, at.row, j)))
    && (r.res.Ok? ==> forall j: nat :: i <= j && HasProp(env, cls, j) ==>
          FieldDone(env, st.store, st.store, r.st.store, At(cls, at.row, j), v, at.created, d, ts))
  }

  /** The targets of property `i` alone. */
  function HereField(env: Env, s: Store, cls: nat, v: Value, row: nat, d: bool, i: nat): seq<Target>
    requires HasProp(env, cls, i)
  {
    FieldTarget(env, s, cls, v, LinkSeen(s, cls, Some(row), i), ListSeen(s, cls, Some(row), d, i), d, i)
  }

  ghost predicate ReadyAt(env: Env, st: State, cls: nat, v: Value, at: Located, d: bool, i: nat)
    requires HasClass(env, cls)
  {
    && Ready(env, st) && at.row < Count(st.store, cls) && at.skipPrimary
    && (at.created ==> FreshFrom(env, st.store, cls, at.row, i))
    && NoRepeats([TargetOf(env, st.store, cls, at.row)] + FieldTargets(env, st.store, cls, v, Some(at.row), d, i))
  }

  lemma {:induction false} PopulateEffect(env: Env, st: State, cls: nat, v: Value, at: Located,
                                          tu: bool, d: bool, i: nat)
    requires HasClass(env, cls) && ReadyAt(env, st, cls, v, at, d, i)
    ensures PopulateDone(env, st, cls, v, at, tu, d, i)
    decreases Weight(v), 4, |env.schema[cls].props| - i, 1
  {
    if i < |env.schema[cls].props| {
      ReadyApart(env, st, cls, v, at, d, i);
      var c := Choose(env, cls, v, i, at.created, true);
      if c.Ok? && c.value.None? {
        PopulateEffect(env, st, cls, v, at, tu, d, i + 1);
        PopulateSkip(env, st, cls, v, at, tu, d, i);
      } else if c.Ok? {
        PopulateWrite(env, st, cls, v, at, tu, d, i);
      } else {
        NothingDone(env, st, cls, v, at, tu, d, i);
      }
    } else {
      NothingDone(env, st, cls, v, at, tu, d, i);
    }
  }

  lemma ReadyApart(env: Env, st: State, cls: nat, v: Value, at: Located, d: bool, i: nat)
    requires HasProp(env, cls, i) && ReadyAt(env, st, cls, v, at, d, i)
    ensures FieldsApart(env, st.store, cls, v, at.row, d, i) && ReadyAt(env, st, cls, v, at, d, i + 1)
  {
    var s, own := st.store, [TargetOf(env, st.store, cls, at.row)];
    var here, rest := HereField(env, s, cls, v, at.row, d, i), FieldTargets(env, s, cls, v, Some(at.row), d, i + 1);
    assert FieldTargets(env, s, cls, v, Some(at.row), d, i) == here + rest;
    SplitThree(own, here, rest);
  }

  /** At the end of the loop, and where it throws before it writes. */
  lemma NothingDone(env: Env, st: State, cls: nat, v: Value, at: Located, tu: bool, d: bool, i: nat)
    requires HasClass(env, cls) && ReadyAt(env, st, cls, v, at, d, i)
    requires HasProp(env, cls, i) ==> Choose(env, cls, v, i, at.created, true).Fail?
    ensures PopulateDone(env, st, cls, v, at, tu, d, i)
  {
    FrameRefl(env, st.store, [TargetOf(env, st.store, cls, at.row)]
                             + FieldTargets(env, st.store, cls, v, Some(at.row), d, i));
  }

  /** Property `i` is passed over. */
  lemma PopulateSkip(env: Env, st: State, cls: nat, v: Value, at: Located, tu: bool, d: bool, i: nat)
    requires HasProp(env, cls, i) && ReadyAt(env, st, cls, v, at, d, i)
    requires var c := Choose(env, cls, v, i, at.created, true); c.Ok? && c.value.None?
    requires PopulateDone(env, st, cls, v, at, tu, d, i + 1)
    ensures PopulateDone(env, st, cls, v, at, tu, d, i)
  {
    ReadyApart(env, st, cls, v, at, d, i);
    FrameRefl(env, st.store, [TargetOf(env, st.store, cls, at.row)] + HereField(env, st.store, cls, v, at.row, d, i));
    PopulateStep(env, st, st, cls, v, at, tu, d, i);
  }

  /** The targets of property `i`, of the row and of the later properties, all apart. */
  ghost predicate FieldsApart(env: Env, s: Store, cls: nat, v: Value, row: nat, d: bool, i: nat)
    requires HasProp(env, cls, i)
  {
    var own, here := [TargetOf(env, s, cls, row)], HereField(env, s, cls, v, row, d, i);
    var rest := FieldTargets(env, s, cls, v, Some(row), d, i + 1);
    && NoRepeats(own + here) && NoRepeats(own + rest) && Apart(here, own + rest) && Apart(rest, own + here)
  }

  /** The loop writes property `i`. */
  ghost predicate FieldChosen(env: Env, st: State, cls: nat, v: Value, at: Located, d: bool, i: nat) {
    && Ready(env, st) && HasProp(env, cls, i) && at.row < Count(st.store, cls) && at.skipPrimary
    && (at.created ==> FreshFrom(env, st.store, cls, at.row, i))
    && (var c := Choose(env, cls, v, i, at.created, true); c.Ok? && c.value.Some?)
    && FieldsApart(env, st.store, cls, v, at.row, d, i)
  }

  function FieldWrite(env: Env, st: State, a: Address, v: Value, created: bool, tu: bool, d: bool): Out<()>
    requires HasProp(env, a.cls, a.col)
    requires var c := Choose(env, a.cls, v, a.col, created, true); c.Ok? && c.value.Some?
  {
    var c := Choose(env, a.cls, v, a.col, created, true).value.value;
    SetProperty(env, st, a, c.v, tu, d, c.isDefault)
  }

  ghost predicate FieldWritten(env: Env, st: State, w: Out<()>, a: Address, v: Value, created: bool, d: bool)
    requires HasProp(env, a.cls, a.col)
  {
    var here := HereField(env, st.store, a.cls, v, a.row, d, a.col);
    && Good(env, w.st.store) && Frame(env, st.store, w.st.store, Own(env, st.store, a) + here)
    && OthersSame(st.store, w.st.store, a)
    && (w.res.Ok? ==> FieldDone(env, st.store, st.store, w.st.store, a, v, created, d, here))
  }

  /** The case of `PopulateEffect` in which property `i` is written. */
  lemma {:induction false} PopulateWrite(env: Env, st: State, cls: nat, v: Value, at: Located,
                                         tu: bool, d: bool, i: nat)
    requires FieldChosen(env, st, cls, v, at, d, i)
    ensures PopulateDone(env, st, cls, v, at, tu, d, i)
    decreases Weight(v), 4, |env.schema[cls].props| - i, 0
  {
    var a := At(cls, at.row, i);
    FieldEffect(env, st, a, v, at.created, tu, d);
    var w := FieldWrite(env, st, a, v, at.created, tu, d);
    if w.res.Ok? {
      ReadyNext(env, st, w, cls, v, at, d, i);
      PopulateEffect(env, w.st, cls, v, at, tu, d, i + 1);
      PopulateJoin(env, st, cls, v, at, tu, d, i);
    } else {
      PopulateStopped(env, st, cls, v, at, tu, d, i);
    }
  }

  /** Property `i` was written, then the rest of the loop ran. */
  lemma {:induction false} PopulateJoin(env: Env, st: State, cls: nat, v: Value, at: Located, tu: bool, d: bool, i: nat)
    requires FieldChosen(env, st, cls, v, at, d, i)
    requires var w := FieldWrite(env, st, At(cls, at.row, i), v, at.created, tu, d);
             && w.res.Ok? && FieldWritten(env, st, w, At(cls, at.row, i), v, at.created, d)
             && PopulateDone(env, w.st, cls, v, at, tu, d, i + 1)
    ensures PopulateDone(env, st, cls, v, at, tu, d, i)
  {
    var w := FieldWrite(env, st, At(cls, at.row, i), v, at.created, tu, d);
    ReadyNext(env, st, w, cls, v, at, d, i);
    PopulateStep(env, st, w.st, cls, v, at, tu, d, i);
  }

  lemma ReadyNext(env: Env, st: State, w: Out<()>, cls: nat, v: Value, at: Located, d: bool, i: nat)
    requires FieldChosen(env, st, cls, v, at, d, i)
    requires FieldWritten(env, st, w, At(cls, at.row, i), v, at.created, d)
    ensures ReadyAt(env, w.st, cls, v, at, d, i + 1)
    ensures TargetOf(env, w.st.store, cls, at.row) == TargetOf(env, st.store, cls, at.row)
    ensures FieldTargets(env, w.st.store, cls, v, Some(at.row), d, i + 1)
         == FieldTargets(env, st.store, cls, v, Some(at.row), d, i + 1)
  {
    PropertyStep(env, st, w.st, cls, v, at, d, i);
  }

  /** The write of the chosen value, in terms of the loop. */
  lemma {:induction false} FieldEffect(env: Env, st: State, a: Address, v: Value, created: bool, tu: bool, d: bool)
    requires Ready(env, st) && InStore(env, st.store, a)
    requires created ==> FreshFrom(env, st.store, a.cls, a.row, a.col)
    requires var c := Choose(env, a.cls, v, a.col, created, true); c.Ok? && c.value.Some?
    requires NoRepeats(Own(env, st.store, a) + HereField(env, st.store, a.cls, v, a.row, d, a.col))
    ensures FieldWritten(env, st, FieldWrite(env, st, a, v, created, tu, d), a, v, created, d)
    decreases Weight(v), 4, 0, 0
  {
    var c := Choose(env, a.cls, v, a.col, created, true).value.value;
    ChosenTargets(env, st.store, a, v, created, d);
    SetPropertyEffect(env, st, a, c.v, tu, d, c.isDefault);
  }

  /** Where property `i` throws, the loop is done. */
  lemma PopulateStopped(env: Env, st: State, cls: nat, v: Value, at: Located, tu: bool, d: bool, i: nat)
    requires FieldChosen(env, st, cls, v, at, d, i)
    requires var w := FieldWrite(env, st, At(cls, at.row, i), v, at.created, tu, d);
             w.res.Fail? && FieldWritten(env, st, w, At(cls, at.row, i), v, at.created, d)
    ensures PopulateDone(env, st, cls, v, at, tu, d, i)
  {
    var s, s1 := st.store, FieldWrite(env, st, At(cls, at.row, i), v, at.created, tu, d).st.store;
    var own, here := [TargetOf(env, s, cls, at.row)], HereField(env, s, cls, v, at.row, d, i);
    var ts := FieldTargets(env, s, cls, v, Some(at.row), d, i);
    assert ts == here + FieldTargets(env, s, cls, v, Some(at.row), d, i + 1);
    FrameRefl(env, s1, own);
    FrameTransitive(env, s, s1, s1, own + here, own, own + ts);
  }

  /** After property `i`, the later properties still reach the rows they reached before. */
  lemma PropertyStep(env: Env, st: State, st1: State, cls: nat, v: Value, at: Located, d: bool, i: nat)
    requires Ready(env, st) && Good(env, st1.store) && HasProp(env, cls, i) && at.row < Count(st.store, cls)
    requires var own := [TargetOf(env, st.store, cls, at.row)];
             var us := own + HereField(env, st.store, cls, v, at.row, d, i);
             && Frame(env, st.store, st1.store, us)
             && Apart(FieldTargets(env, st.store, cls, v, Some(at.row), d, i + 1), us)
    requires OthersSame(st.store, st1.store, At(cls, at.row, i))
    requires at.created ==> FreshFrom(env, st.store, cls, at.row, i)
    ensures at.row < Count(st1.store, cls)
    ensures TargetOf(env, st1.store, cls, at.row) == TargetOf(env, st.store, cls, at.row)
    ensures FieldTargets(env, st1.store, cls, v, Some(at.row), d, i + 1)
         == FieldTargets(env, st.store, cls, v, Some(at.row), d, i + 1)
    ensures at.created ==> FreshFrom(env, st1.store, cls, at.row, i + 1)
  {
    var us := [TargetOf(env, st.store, cls, at.row)] + HereField(env, st.store, cls, v, at.row, d, i);
    FieldTargetsStable(env, st.store, st1.store, us, cls, v, Some(at.row), Some(at.row), d, i + 1);
  }

  /** Property `i`, then the rest: the induction step of `PopulateEffect`. */
  lemma {:induction false} PopulateStep(env: Env, st: State, st1: State, cls: nat, v: Value, at: Located, tu: bool,
                                        d: bool, i: nat)
    requires Ready(env, st) && HasProp(env, cls, i) && at.row < Count(st.store, cls) && at.skipPrimary
    requires var s, s1, own := st.store, st1.store, [TargetOf(env, st.store, cls, at.row)];
             var here := HereField(env, s, cls, v, at.row, d, i);
             var rest := FieldTargets(env, s, cls, v, Some(at.row), d, i + 1);
             && Apart(here, own + rest) && Apart(rest, own + here) && Good(env, s1) && Frame(env, s, s1, own + here)
             && OthersSame(s, s1, At(cls, at.row, i))
             && FieldDone(env, s, s, s1, At(cls, at.row, i), v, at.created, d, here)
             && TargetOf(env, s1, cls, at.row) == TargetOf(env, s, cls, at.row)
             && FieldTargets(env, s1, cls, v, Some(at.row), d, i + 1) == rest
             && PopulateDone(env, st1, cls, v, at, tu, d, i + 1)
             && Populate(env, st, cls, v, at, tu, d, i) == Populate(env, st1, cls, v, at, tu, d, i + 1)
    ensures PopulateDone(env, st, cls, v, at, tu, d, i)
  {
    var s, s1, r := st.store, st1.store, Populate(env, st1, cls, v, at, tu, d, i + 1);
    var s2 := r.st.store;
    var own, ts := [TargetOf(env, s, cls, at.row)], FieldTargets(env, s, cls, v, Some(at.row), d, i);
    var here, rest := HereField(env, s, cls, v, at.row, d, i), FieldTargets(env, s, cls, v, Some(at.row), d, i + 1);
    assert ts == here + rest;
    FrameTransitive(env, s, s1, s2, own + here, own + rest, own + ts);
    if r.res.Ok? {
      FieldsKept(env, s, s1, s2, cls, v, at, d, i, own, here, rest, ts);
    }
  }

  lemma FieldsKept(env: Env, s: Store, s1: Store, s2: Store, cls: nat, v: Value, at: Located, d: bool, i: nat,
                   own: seq<Target>, here: seq<Target>, rest: seq<Target>, ts: seq<Target>)
    requires !env.migrating && Good(env, s) && Good(env, s1) && Good(env, s2) && HasProp(env, cls, i)
    requires Frame(env, s, s1, own + here) && Frame(env, s1, s2, own + rest) && ts == here + rest
    requires Apart(here, own + rest) && Apart(rest, own + here)
    requires Existing(s, own + rest) && Existing(s, here)
    requires OthersSame(s, s1, At(cls, at.row, i))
    requires CellAt(s2, At(cls, at.row, i)) == CellAt(s1, At(cls, at.row, i)) && at.row < Count(s, cls)
    requires FieldDone(env, s, s, s1, At(cls, at.row, i), v, at.created, d, here)
    requires forall j: nat :: i + 1 <= j && HasProp(env, cls, j) ==>
               FieldDone(env, s1, s1, s2, At(cls, at.row, j), v, at.created, d, rest)
    ensures forall j: nat :: i <= j && HasProp(env, cls, j) ==>
              FieldDone(env, s, s, s2, At(cls, at.row, j), v, at.created, d, ts)
  {
    FrameRefl(env, s, []);
    FrameRefl(env, s2, []);
    assert Within(here, ts) && Within(rest, ts);
    assert Carries(env, s, s1, here, [], own + rest, s, s2, ts);
    assert Carries(env, s1, s2, rest, own + here, [], s, s2, ts);
    forall j: nat | i <= j && HasProp(env, cls, j)
      ensures FieldDone(env, s, s, s2, At(cls, at.row, j), v, at.created, d, ts)
    {
      var a := At(cls, at.row, j);
      var due := Due(env, cls, v, j, at.created);
      if j == i {
        if due.Some? {
          CellKept(env, s, s1, here, [], own + rest, s, s2, ts, a, due.value, d);
        }
      } else {
        assert FieldDone(env, s1, s1, s2, a, v, at.created, d, rest);
        if due.Some? {
          CellKept(env, s1, s2, rest, own + here, [], s, s2, ts, a, due.value, d);
        }
      }
    }
  }

  // ----- create

  /** The row was found or added as the key says, and an added row is fresh. */
  ghost predicate LocatedOk(env: Env, s: Store, s1: Store, cls: nat, v: Value, d: bool, cur: Option<nat>, at: Located)
    requires HasClass(env, cls)
  {
    && Good(env, s1) && at.skipPrimary && at.row < Count(s1, cls)
    && at.created == (at.row >= Count(s, cls))
    && (Keyed(env, cls) ==> AsksFor(env, cls, v, KeyAt(env, s1, cls, at.row)))
    && (at.created ==> at.row == Count(s, cls) && FreshFrom(env, s1, cls, at.row, 0))
    && (!at.created ==> s1 == s)
    && (!at.created && !Keyed(env, cls) ==> d && cur == Some(at.row))
    && Frame(env, s, s1, if Keyed(env, cls) then [TargetOf(env, s1, cls, at.row)] else [])
  }

  lemma AppendEffect(env: Env, st: State, cls: nat, key: Option<Key>)
    requires Ready(env, st) && RowPermitted(env, st.store, cls, key)
    ensures var s1 := Append(env, st, cls, key, true).st.store;
            var row := Count(st.store, cls);
            && Good(env, s1) && Count(s1, cls) == row + 1
            && FreshFrom(env, s1, cls, row, 0)
            && (Keyed(env, cls) ==> KeyAt(env, s1, cls, row) == key.value)
            && Frame(env, st.store, s1, if Keyed(env, cls) then [ByKey(cls, key.value)] else [])
  {
    var s := st.store;
    NewRowKeepsGood(env, s, cls, key);
    AddRowWellFormed(env, s, cls);
    AppendFrame(env, s, cls, key);
  }

  lemma AppendFrame(env: Env, s: Store, cls: nat, key: Option<Key>)
    requires !env.migrating && WellFormed(env, s) && RowPermitted(env, s, cls, key)
    requires Grows(env, s, Effect(env, s, NewRow(cls, key)))
    ensures Frame(env, s, Effect(env, s, NewRow(cls, key)), if Keyed(env, cls) then [ByKey(cls, key.value)] else [])
  {
    OldRowsStay(env, s, cls, key);
    AddRowWellFormed(env, s, cls);
  }

  lemma OldRowsStay(env: Env, s: Store, cls: nat, key: Option<Key>)
    requires WellFormed(env, s) && RowPermitted(env, s, cls, key)
    ensures var s' := Effect(env, s, NewRow(cls, key));
            && (forall c: nat :: c != cls ==> Count(s', c) == Count(s, c))
            && forall c: nat, row: nat :: HasClass(env, c) && row < Count(s, c) ==> RowSame(s, s', c, row)
  {
    AddRowWellFormed(env, s, cls);
  }

  lemma LocateEffect(env: Env, st: State, cls: nat, v: Value, tu: bool, d: bool, cur: Option<nat>)
    requires Ready(env, st) && HasClass(env, cls) && RowOk(st.store, cls, cur)
    ensures var l := Locate(env, st, cls, v, tu, d, cur);
            if l.res.Ok? then LocatedOk(env, st.store, l.st.store, cls, v, d, cur, l.res.value)
            else l.st == st
  {
    var s := st.store;
    var l := Locate(env, st, cls, v, tu, d, cur);
    if l.res.Ok? {
      FrameRefl(env, s, []);
      FrameRefl(env, s, [TargetOf(env, s, cls, l.res.value.row)]);
      if l.res.value.created {
        if Keyed(env, cls) {
          KeyFits(env, cls, v);
          AppendEffect(env, st, cls, Some(KeyOf(env, cls, v).value));
        } else {
          AppendEffect(env, st, cls, None);
        }
      }
    }
  }

  /** The targets of the tree, seen from the row that was found or added. */
  lemma LocatedTargets(env: Env, st: State, cls: nat, v: Value, tu: bool, d: bool, cur: Option<nat>)
    requires Ready(env, st) && HasClass(env, cls) && RowOk(st.store, cls, cur)
    requires NoRepeats(ObjectTargets(env, st.store, cls, v, d, cur))
    requires Locate(env, st, cls, v, tu, d, cur).res.Ok?
    ensures var s, l, ts := st.store, Locate(env, st, cls, v, tu, d, cur), ObjectTargets(env, st.store, cls, v, d, cur);
            var at, s1 := l.res.value, l.st.store;
            var own := TargetOf(env, s1, cls, at.row);
            var fields := FieldTargets(env, s1, cls, v, Some(at.row), d, 0);
            && NoRepeats([own] + fields)
            && ts == (if Keyed(env, cls) || !at.created then [own] + fields else fields)
  {
    LocateEffect(env, st, cls, v, tu, d, cur);
    var s, l, ts := st.store, Locate(env, st, cls, v, tu, d, cur), ObjectTargets(env, st.store, cls, v, d, cur);
    var at, s1 := l.res.value, l.st.store;
    var own := TargetOf(env, s1, cls, at.row);
    if at.created {
      var fields := FieldTargets(env, s, cls, v, None, d, 0);
      var us := if Keyed(env, cls) then [own] else [];
      if Keyed(env, cls) {
        NoRepeatsSplit([own], fields);
      }
      FreshSeen(env, s, s1, cls, at.row, d);
      FieldTargetsStable(env, s, s1, us, cls, v, None, Some(at.row), d, 0);
      if !Keyed(env, cls) {
        NoRepeatsJoin(own, fields);
      }
    }
  }

  lemma FreshSeen(env: Env, s: Store, s1: Store, cls: nat, row: nat, d: bool)
    requires HasClass(env, cls) && WellFormed(env, s1) && FreshFrom(env, s1, cls, row, 0) && row < Count(s1, cls)
    ensures SeenSame(env, s, s1, cls, None, Some(row), d, 0)
  {
    forall j: nat | HasProp(env, cls, j)
      ensures LinkSeen(s1, cls, Some(row), j) == None && ListSeen(s1, cls, Some(row), d, j) == []
    {
      assert CellOk(env, s1, At(cls, row, j));
    }
  }

  /** The effect of one call: nothing but the targets changed, even where it threw,
      and on a normal return the row is what the tree makes of it. */
  ghost predicate CreateDone(env: Env, st: State, cls: nat, v: Value, tu: bool, d: bool, cur: Option<nat>)
    requires HasClass(env, cls)
  {
    var s, l, ts := st.store, Locate(env, st, cls, v, tu, d, cur), ObjectTargets(env, st.store, cls, v, d, cur);
    var r := Create(env, st, cls, v, tu, d, cur);
    && Good(env, r.st.store) && Frame(env, s, r.st.store, ts)
    && (r.res.Ok? ==>
          && l.res.Ok? && r.res.value == l.res.value.row && LocatedOk(env, s, l.st.store, cls, v, d, cur, l.res.value)
          && Reflects(env, s, r.st.store, cls, r.res.value, v, d, ts))
  }

  /** From the populate loop's own view to the view of the whole call. */
  lemma CreateStep(env: Env, s: Store, s1: Store, s2: Store, cls: nat, v: Value, d: bool, cur: Option<nat>,
                   at: Located, ok: bool, fields: seq<Target>, ts: seq<Target>)
    requires !env.migrating && HasClass(env, cls) && LocatedOk(env, s, s1, cls, v, d, cur, at) && Good(env, s2)
    requires var own := TargetOf(env, s1, cls, at.row);
             && ts == (if Keyed(env, cls) || !at.created then [own] + fields else fields)
             && NoRepeats([own] + fields) && Existing(s, ts) && Frame(env, s1, s2, [own] + fields)
    requires ok ==> forall i: nat :: HasProp(env, cls, i) ==>
               FieldDone(env, s1, s1, s2, At(cls, at.row, i), v, at.created, d, fields)
    ensures Frame(env, s, s2, ts)
    ensures ok ==> Reflects(env, s, s2, cls, at.row, v, d, ts)
  {
    var own := TargetOf(env, s1, cls, at.row);
    var ws := if Keyed(env, cls) then [own] else [];
    NoRepeatsSplit([own], fields);
    FrameTransitive(env, s, s1, s2, ws, [own] + fields, ts);
    if ok {
      FrameRefl(env, s2, []);
      assert Within(fields, ts);
      assert Carries(env, s1, s2, fields, ws, [], s, s2, ts);
      forall i: nat | HasProp(env, cls, i)
        ensures FieldReflects(env, s, s2, At(cls, at.row, i), v, d, ts)
      {
        FieldLift(env, s, s1, s2, cls, At(cls, at.row, i), v, d, cur, at, fields, ws, ts);
      }
      assert TargetOf(env, s2, cls, at.row) == own;
    }
  }

  lemma FieldLift(env: Env, s: Store, s1: Store, s2: Store, cls: nat, a: Address, v: Value, d: bool, cur: Option<nat>,
                  at: Located, fields: seq<Target>, ws: seq<Target>, ts: seq<Target>)
    requires HasProp(env, a.cls, a.col) && a.cls == cls && a.row == at.row
    requires LocatedOk(env, s, s1, cls, v, d, cur, at)
    requires Carries(env, s1, s2, fields, ws, [], s, s2, ts)
    requires FieldDone(env, s1, s1, s2, a, v, at.created, d, fields)
    ensures FieldReflects(env, s, s2, a, v, d, ts)
  {
    var due := Due(env, a.cls, v, a.col, at.created);
    if due.Some? {
      CellKept(env, s1, s2, fields, ws, [], s, s2, ts, a, due.value, d);
    }
  }

  lemma {:induction false} CreateEffect(env: Env, st: State, cls: nat, v: Value, tu: bool, d: bool,
                                        cur: Option<nat>)
    requires Ready(env, st) && HasClass(env, cls) && RowOk(st.store, cls, cur)
    requires NoRepeats(ObjectTargets(env, st.store, cls, v, d, cur))
    ensures CreateDone(env, st, cls, v, tu, d, cur)
    decreases Weight(v), 5, 0
  {
    LocateEffect(env, st, cls, v, tu, d, cur);
    var l := Locate(env, st, cls, v, tu, d, cur);
    if env.writing && l.res.Ok? {
      LocatedTargets(env, st, cls, v, tu, d, cur);
      PopulateEffect(env, l.st, cls, v, l.res.value, tu, d, 0);
      CreateFinish(env, st, cls, v, tu, d, cur);
    } else {
      FrameRefl(env, st.store, ObjectTargets(env, st.store, cls, v, d, cur));
    }
  }

  /** The row is there and the loop has run: the effect of the whole call. */
  lemma {:induction false} CreateFinish(env: Env, st: State, cls: nat, v: Value, tu: bool, d: bool, cur: Option<nat>)
    requires Ready(env, st) && HasClass(env, cls) && RowOk(st.store, cls, cur) && env.writing
    requires var l := Locate(env, st, cls, v, tu, d, cur);
             && l.res.Ok? && LocatedOk(env, st.store, l.st.store, cls, v, d, cur, l.res.value)
             && PopulateDone(env, l.st, cls, v, l.res.value, tu, d, 0)
    requires var l, ts := Locate(env, st, cls, v, tu, d, cur), ObjectTargets(env, st.store, cls, v, d, cur);
             var own := TargetOf(env, l.st.store, cls, l.res.value.row);
             var fields := FieldTargets(env, l.st.store, cls, v, Some(l.res.value.row), d, 0);
             && NoRepeats([own] + fields)
             && ts == (if Keyed(env, cls) || !l.res.value.created then [own] + fields else fields)
    ensures CreateDone(env, st, cls, v, tu, d, cur)
  {
    var s, l, ts := st.store, Locate(env, st, cls, v, tu, d, cur), ObjectTargets(env, st.store, cls, v, d, cur);
    var at, s1, o := l.res.value, l.st.store, Populate(env, l.st, cls, v, l.res.value, tu, d, 0);
    CreateStep(env, s, s1, o.st.store, cls, v, d, cur, at, o.res.Ok?,
               FieldTargets(env, s1, cls, v, Some(at.row), d, 0), ts);
  }
}

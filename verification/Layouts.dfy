/** Which rows the objects of a tree are: each its own, and together all that were added. */
module Layouts {
  import opened PropertyTypes
  import opened Values
  import opened Schemas
  import opened Stores
  import opened Terms
  import opened Upsert
  import opened Monitor
  import opened Footprints
  import opened Effects

  // ----- the objects of a tree, found by following it through the tables

  /** The rows that the tree `v` leads to in `s` from `row` on, in the order in which
      the writer comes to them: the row itself, then those of its properties. `lo` is
      the store before the call, which tells the rows that were added. */
  function ObjectNodes(env: Env, lo: Store, s: Store, cls: nat, row: nat, v: Value): seq<Target>
    requires HasClass(env, cls)
    decreases Weight(v), 4, 0
  {
    [TargetOf(env, s, cls, row)] + FieldNodes(env, lo, s, cls, row, v, row >= Count(lo, cls), 0)
  }

  function FieldNodes(env: Env, lo: Store, s: Store, cls: nat, row: nat, v: Value, created: bool, i: nat): seq<Target>
    requires HasClass(env, cls)
    decreases Weight(v), 3, |env.schema[cls].props| - i
  {
    if i >= |env.schema[cls].props| then []
    else
      PropNodes(env, lo, s, At(cls, row, i), v, created) + FieldNodes(env, lo, s, cls, row, v, created, i + 1)
  }

  function PropNodes(env: Env, lo: Store, s: Store, a: Address, v: Value, created: bool): seq<Target>
    requires HasProp(env, a.cls, a.col)
    decreases Weight(v), 2, 0
  {
    match Due(env, a.cls, v, a.col, created)
    case Some(x) => CellNodes(env, lo, s, a, x)
    case None => []
  }

  function CellNodes(env: Env, lo: Store, s: Store, a: Address, v: Value): seq<Target>
    requires HasProp(env, a.cls, a.col)
    decreases Weight(v), if IsLink(Prop(env, a.cls, a.col)) then 6 else 1, 0
  {
    var p := Prop(env, a.cls, a.col);
    if p.ptype.isArray then
      if v.Arr? then ItemNodes(env, lo, s, p, v.elems, ListAt(s, a), 0) else []
    else if p.ptype.base.Object? && !v.Null? && LinkAt(s, a).Some? then
      RowNodes(env, lo, s, p, v, LinkAt(s, a).value)
    else []
  }

  function RowNodes(env: Env, lo: Store, s: Store, p: Property, v: Value, r: nat): seq<Target>
    requires ValidProperty(|env.schema|, p) && p.ptype.base.Object?
    decreases Weight(v), 5, 0
  {
    if v.Ref? then [] else ObjectNodes(env, lo, s, p.target, r, v)
  }

  function ItemNodes(env: Env, lo: Store, s: Store, p: Property, es: seq<Value>, items: seq<Item>, k: nat): seq<Target>
    requires ValidProperty(|env.schema|, p) && k <= |es|
    decreases Weight(Arr(es)), 0, |es| - k
  {
    if k == |es| || k >= |items| then []
    else
      ElemWeight(es, k);
      (if p.ptype.base.Object? && items[k].Row? then RowNodes(env, lo, s, p, es[k], items[k].r) else [])
      + ItemNodes(env, lo, s, p, es, items, k + 1)
  }

  // ----- they are targets or new rows, and stay where they are

  ghost predicate AllOwned(lo: Store, s: Store, ts: seq<Target>, nodes: seq<Target>) {
    forall t :: t in nodes ==> t in ts || (t.ByRow? && Count(lo, t.cls) <= t.row < Count(s, t.cls))
  }

  ghost predicate PropDescribed(env: Env, lo: Store, s: Store, a: Address, v: Value, created: bool, d: bool,
                                ts: seq<Target>)
    requires HasProp(env, a.cls, a.col)
  {
    var due := Due(env, a.cls, v, a.col, created);
    due.Some? ==> CellReflects(env, lo, s, a, due.value, d, ts)
  }

  lemma {:induction false} ObjectNodesKept(env: Env, lo: Store, s: Store, ts: seq<Target>, ws: seq<Target>,
                                           us: seq<Target>, lo': Store, s': Store, ts': seq<Target>, cls: nat,
                                           row: nat, v: Value, d: bool)
    requires HasClass(env, cls) && Carries(env, lo, s, ts, ws, us, lo', s', ts')
    requires Reflects(env, lo, s, cls, row, v, d, ts)
    ensures ObjectNodes(env, lo', s', cls, row, v) == ObjectNodes(env, lo, s, cls, row, v)
    ensures AllOwned(lo, s, ts, ObjectNodes(env, lo, s, cls, row, v))
    decreases Weight(v), 4, 0
  {
    OwnedRowSame(env, lo, s, ts, ws, us, lo', s', ts', cls, row);
    forall j: nat | HasProp(env, cls, j)
      ensures PropDescribed(env, lo, s, At(cls, row, j), v, row >= Count(lo, cls), d, ts)
    {
      assert FieldReflects(env, lo, s, At(cls, row, j), v, d, ts);
    }
    FieldNodesKept(env, lo, s, ts, ws, us, lo', s', ts', cls, row, v, row >= Count(lo, cls), d, 0);
  }

  lemma {:induction false} FieldNodesKept(env: Env, lo: Store, s: Store, ts: seq<Target>, ws: seq<Target>,
                                          us: seq<Target>, lo': Store, s': Store, ts': seq<Target>, cls: nat,
                                          row: nat, v: Value, created: bool, d: bool, i: nat)
    requires HasClass(env, cls) && Carries(env, lo, s, ts, ws, us, lo', s', ts')
    requires RowSame(s, s', cls, row)
    requires forall j: nat :: i <= j && HasProp(env, cls, j) ==>
               PropDescribed(env, lo, s, At(cls, row, j), v, created, d, ts)
    ensures FieldNodes(env, lo', s', cls, row, v, created, i) == FieldNodes(env, lo, s, cls, row, v, created, i)
    ensures AllOwned(lo, s, ts, FieldNodes(env, lo, s, cls, row, v, created, i))
    decreases Weight(v), 3, |env.schema[cls].props| - i
  {
    if i < |env.schema[cls].props| {
      assert PropDescribed(env, lo, s, At(cls, row, i), v, created, d, ts);
      PropNodesKept(env, lo, s, ts, ws, us, lo', s', ts', At(cls, row, i), v, created, d);
      FieldNodesKept(env, lo, s, ts, ws, us, lo', s', ts', cls, row, v, created, d, i + 1);
      AllOwnedJoin(lo, s, ts, PropNodes(env, lo, s, At(cls, row, i), v, created),
                   FieldNodes(env, lo, s, cls, row, v, created, i + 1));
    }
  }

  lemma AllOwnedJoin(lo: Store, s: Store, ts: seq<Target>, x: seq<Target>, y: seq<Target>)
    requires AllOwned(lo, s, ts, x) && AllOwned(lo, s, ts, y)
    ensures AllOwned(lo, s, ts, x + y)
  {
  }

  lemma {:induction false} PropNodesKept(env: Env, lo: Store, s: Store, ts: seq<Target>, ws: seq<Target>,
                                         us: seq<Target>, lo': Store, s': Store, ts': seq<Target>, a: Address,
                                         v: Value, created: bool, d: bool)
    requires HasProp(env, a.cls, a.col) && Carries(env, lo, s, ts, ws, us, lo', s', ts')
    requires CellAt(s', a) == CellAt(s, a) && PropDescribed(env, lo, s, a, v, created, d, ts)
    ensures PropNodes(env, lo', s', a, v, created) == PropNodes(env, lo, s, a, v, created)
    ensures AllOwned(lo, s, ts, PropNodes(env, lo, s, a, v, created))
    decreases Weight(v), 2, 0
  {
    var due := Due(env, a.cls, v, a.col, created);
    if due.Some? {
      CellNodesKept(env, lo, s, ts, ws, us, lo', s', ts', a, due.value, d);
    }
  }

  lemma {:induction false} CellNodesKept(env: Env, lo: Store, s: Store, ts: seq<Target>, ws: seq<Target>,
                                         us: seq<Target>, lo': Store, s': Store, ts': seq<Target>, a: Address,
                                         v: Value, d: bool)
    requires HasProp(env, a.cls, a.col) && Carries(env, lo, s, ts, ws, us, lo', s', ts')
    requires CellAt(s', a) == CellAt(s, a) && CellReflects(env, lo, s, a, v, d, ts)
    ensures CellNodes(env, lo', s', a, v) == CellNodes(env, lo, s, a, v)
    ensures AllOwned(lo, s, ts, CellNodes(env, lo, s, a, v))
    decreases Weight(v), if IsLink(Prop(env, a.cls, a.col)) then 6 else 1, 0
  {
    var p := Prop(env, a.cls, a.col);
    if p.ptype.isArray {
      if v.Arr? {
        ItemNodesKept(env, lo, s, ts, ws, us, lo', s', ts', p, v.elems, ListAt(s, a),
                      |if d then OldList(lo, a) else []|, 0);
      }
    } else if p.ptype.base.Object? && !v.Null? {
      RowNodesKept(env, lo, s, ts, ws, us, lo', s', ts', p, v, LinkAt(s, a).value, d);
    }
  }

  lemma {:induction false} RowNodesKept(env: Env, lo: Store, s: Store, ts: seq<Target>, ws: seq<Target>,
                                        us: seq<Target>, lo': Store, s': Store, ts': seq<Target>, p: Property,
                                        v: Value, r: nat, d: bool)
    requires ValidProperty(|env.schema|, p) && p.ptype.base.Object? && Carries(env, lo, s, ts, ws, us, lo', s', ts')
    requires RowReflects(env, lo, s, p, v, r, d, ts)
    ensures RowNodes(env, lo', s', p, v, r) == RowNodes(env, lo, s, p, v, r)
    ensures AllOwned(lo, s, ts, RowNodes(env, lo, s, p, v, r))
    decreases Weight(v), 5, 0
  {
    if !v.Ref? {
      ObjectNodesKept(env, lo, s, ts, ws, us, lo', s', ts', p.target, r, v, d);
    }
  }

  lemma {:induction false} ItemNodesKept(env: Env, lo: Store, s: Store, ts: seq<Target>, ws: seq<Target>,
                                         us: seq<Target>, lo': Store, s': Store, ts': seq<Target>, p: Property,
                                         es: seq<Value>, items: seq<Item>, sz: nat, k: nat)
    requires ValidProperty(|env.schema|, p) && Carries(env, lo, s, ts, ws, us, lo', s', ts')
    requires k <= |es| == |items|
    requires forall j :: k <= j < |es| ==> ItemReflects(env, lo, s, p, es[j], items[j], j < sz, ts)
    ensures ItemNodes(env, lo', s', p, es, items, k) == ItemNodes(env, lo, s, p, es, items, k)
    ensures AllOwned(lo, s, ts, ItemNodes(env, lo, s, p, es, items, k))
    decreases Weight(Arr(es)), 0, |es| - k
  {
    if k < |es| {
      ElemWeight(es, k);
      if p.ptype.base.Object? {
        RowNodesKept(env, lo, s, ts, ws, us, lo', s', ts', p, es[k], items[k].r, k < sz);
      }
      ItemNodesKept(env, lo, s, ts, ws, us, lo', s', ts', p, es, items, sz, k + 1);
    }
  }

  // ----- each its own row

  /** No two of the objects are one row, and every row without a key that was added
      since `lo` is one of them. */
  ghost predicate Laid(env: Env, lo: Store, s: Store, nodes: seq<Target>) {
    && NoRepeats(nodes)
    && (forall c: nat, r: nat :: HasClass(env, c) && !Keyed(env, c) && Count(lo, c) <= r < Count(s, c) ==>
          ByRow(c, r) in nodes)
  }

  lemma NothingLaid(env: Env, lo: Store, s: Store)
    requires s.rows == lo.rows
    ensures Laid(env, lo, s, [])
  {
  }

  /** One part of the tree, then the next: what the first added is older than what the
      second adds, and the targets of the two are apart. */
  lemma LaidJoin(env: Env, s: Store, s1: Store, s2: Store, here: seq<Target>, rest: seq<Target>,
                 x: seq<Target>, y: seq<Target>)
    requires Laid(env, s, s1, x) && AllOwned(s, s1, here, x) && Grows(env, s, s1)
    requires Laid(env, s1, s2, y) && AllOwned(s1, s2, rest, y)
    requires Apart(here, rest) && Existing(s, here) && Existing(s, rest)
    ensures Laid(env, s, s2, x + y)
  {
    forall t | t in x ensures t !in y {
      assert t in here ==> t !in rest;
    }
    NoRepeatsConcat(x, y);
  }

  /** The tables `s'` that the caller wants to speak of hold the same rows. */
  lemma LaidSame(env: Env, lo: Store, s: Store, lo': Store, s': Store, nodes: seq<Target>)
    requires Laid(env, lo, s, nodes) && lo'.rows == lo.rows && s'.rows == s.rows
    ensures Laid(env, lo', s', nodes)
  {
  }

  lemma {:induction false} CreateLaid(env: Env, st: State, cls: nat, v: Value, tu: bool, d: bool, cur: Option<nat>)
    requires Ready(env, st) && HasClass(env, cls) && RowOk(st.store, cls, cur)
    requires NoRepeats(ObjectTargets(env, st.store, cls, v, d, cur))
    requires Create(env, st, cls, v, tu, d, cur).res.Ok?
    ensures var r := Create(env, st, cls, v, tu, d, cur);
            Laid(env, st.store, r.st.store, ObjectNodes(env, st.store, r.st.store, cls, r.res.value, v))
    decreases Weight(v), 5, 0
  {
    LocateEffect(env, st, cls, v, tu, d, cur);
    LocatedTargets(env, st, cls, v, tu, d, cur);
    var l := Locate(env, st, cls, v, tu, d, cur);
    PopulateEffect(env, l.st, cls, v, l.res.value, tu, d, 0);
    PopulateLaid(env, l.st, cls, v, l.res.value, tu, d, 0);
    CreateLaidJoin(env, st, cls, v, tu, d, cur);
  }

  /** The row is there and the loop has run. */
  lemma {:induction false} CreateLaidJoin(env: Env, st: State, cls: nat, v: Value, tu: bool, d: bool, cur: Option<nat>)
    requires Ready(env, st) && HasClass(env, cls) && RowOk(st.store, cls, cur) && env.writing
    requires var l := Locate(env, st, cls, v, tu, d, cur);
             && l.res.Ok? && LocatedOk(env, st.store, l.st.store, cls, v, d, cur, l.res.value)
    requires var l := Locate(env, st, cls, v, tu, d, cur);
             var o := Populate(env, l.st, cls, v, l.res.value, tu, d, 0);
             var fields := FieldTargets(env, l.st.store, cls, v, Some(l.res.value.row), d, 0);
             && o.res.Ok? && PopulateDone(env, l.st, cls, v, l.res.value, tu, d, 0)
             && NoRepeats([TargetOf(env, l.st.store, cls, l.res.value.row)] + fields) && Existing(st.store, fields)
             && Laid(env, l.st.store, o.st.store, FieldNodes(env, l.st.store, o.st.store, cls, l.res.value.row, v,
                                                             l.res.value.created, 0))
    ensures var r := Create(env, st, cls, v, tu, d, cur);
            r.res.Ok? &&
            Laid(env, st.store, r.st.store, ObjectNodes(env, st.store, r.st.store, cls, r.res.value, v))
  {
    var l := Locate(env, st, cls, v, tu, d, cur);
    LocatedRows(env, st, cls, v, tu, d, cur);
    CreateLaidStep(env, st.store, l.st.store, Populate(env, l.st, cls, v, l.res.value, tu, d, 0).st.store, cls, v, d,
                   cur, l.res.value, FieldTargets(env, l.st.store, cls, v, Some(l.res.value.row), d, 0));
  }

  /** No table but that of the class got a row, and it at most one. */
  lemma LocatedRows(env: Env, st: State, cls: nat, v: Value, tu: bool, d: bool, cur: Option<nat>)
    requires HasClass(env, cls) && Locate(env, st, cls, v, tu, d, cur).res.Ok?
    ensures var l := Locate(env, st, cls, v, tu, d, cur);
            forall c: nat :: Count(l.st.store, c) ==
              Count(st.store, c) + if c == cls && c < |st.store.rows| && l.res.value.created then 1 else 0
  {
  }

  lemma {:induction false} CreateLaidStep(env: Env, s: Store, s1: Store, s2: Store, cls: nat, v: Value, d: bool,
                                          cur: Option<nat>, at: Located, fields: seq<Target>)
    requires !env.migrating && HasClass(env, cls) && Good(env, s) && LocatedOk(env, s, s1, cls, v, d, cur, at)
    requires Good(env, s2) && NoRepeats([TargetOf(env, s1, cls, at.row)] + fields) && Existing(s, fields)
    requires Frame(env, s1, s2, [TargetOf(env, s1, cls, at.row)] + fields)
    requires forall c: nat :: Count(s1, c) == Count(s, c) + if c == cls && at.created then 1 else 0
    requires forall i: nat :: HasProp(env, cls, i) ==>
               FieldDone(env, s1, s1, s2, At(cls, at.row, i), v, at.created, d, fields)
    requires Laid(env, s1, s2, FieldNodes(env, s1, s2, cls, at.row, v, at.created, 0))
    ensures Laid(env, s, s2, ObjectNodes(env, s, s2, cls, at.row, v))
  {
    var own := TargetOf(env, s1, cls, at.row);
    var ws := if Keyed(env, cls) then [own] else [];
    NoRepeatsSplit([own], fields);
    FrameRefl(env, s2, []);
    assert Carries(env, s1, s2, fields, ws, [], s, s2, fields);
    forall j: nat | HasProp(env, cls, j)
      ensures PropDescribed(env, s1, s2, At(cls, at.row, j), v, at.created, d, fields)
    {
      assert FieldDone(env, s1, s1, s2, At(cls, at.row, j), v, at.created, d, fields);
    }
    FieldNodesKept(env, s1, s2, fields, ws, [], s, s2, fields, cls, at.row, v, at.created, d, 0);
    var nodes := FieldNodes(env, s1, s2, cls, at.row, v, at.created, 0);
    assert TargetOf(env, s2, cls, at.row) == own && own !in fields;
    NoRepeatsJoin(own, nodes);
  }

  lemma {:induction false} PopulateLaid(env: Env, st: State, cls: nat, v: Value, at: Located, tu: bool, d: bool, i: nat)
    requires HasClass(env, cls) && ReadyAt(env, st, cls, v, at, d, i)
    requires Populate(env, st, cls, v, at, tu, d, i).res.Ok?
    ensures var s' := Populate(env, st, cls, v, at, tu, d, i).st.store;
            Laid(env, st.store, s', FieldNodes(env, st.store, s', cls, at.row, v, at.created, i))
    decreases Weight(v), 4, |env.schema[cls].props| - i, 1
  {
    var s := st.store;
    if i < |env.schema[cls].props| {
      var own := [TargetOf(env, s, cls, at.row)];
      var here, rest := HereField(env, s, cls, v, at.row, d, i), FieldTargets(env, s, cls, v, Some(at.row), d, i + 1);
      assert FieldTargets(env, s, cls, v, Some(at.row), d, i) == here + rest;
      SplitThree(own, here, rest);
      var c := Choose(env, cls, v, i, at.created, true);
      if c.value.None? {
        PopulateLaid(env, st, cls, v, at, tu, d, i + 1);
      } else {
        PopulateWriteLaid(env, st, cls, v, at, tu, d, i);
      }
    }
  }

  lemma {:induction false} PopulateWriteLaid(env: Env, st: State, cls: nat, v: Value, at: Located,
                                             tu: bool, d: bool, i: nat)
    requires FieldChosen(env, st, cls, v, at, d, i)
    requires Populate(env, st, cls, v, at, tu, d, i).res.Ok?
    ensures var s' := Populate(env, st, cls, v, at, tu, d, i).st.store;
            Laid(env, st.store, s', FieldNodes(env, st.store, s', cls, at.row, v, at.created, i))
    decreases Weight(v), 4, |env.schema[cls].props| - i, 0
  {
    var a := At(cls, at.row, i);
    var w := FieldWrite(env, st, a, v, at.created, tu, d);
    FieldEffect(env, st, a, v, at.created, tu, d);
    FieldLaid(env, st, a, v, at.created, tu, d);
    ReadyNext(env, st, w, cls, v, at, d, i);
    PopulateEffect(env, w.st, cls, v, at, tu, d, i + 1);
    TurnDone(env, st, cls, v, at, tu, d, i);
    PopulateLaid(env, w.st, cls, v, at, tu, d, i + 1);
    PopulateLaidJoin(env, st, cls, v, at, tu, d, i);
  }

  lemma TurnDone(env: Env, st: State, cls: nat, v: Value, at: Located, tu: bool, d: bool, i: nat)
    requires FieldChosen(env, st, cls, v, at, d, i)
    requires Populate(env, st, cls, v, at, tu, d, i).res.Ok?
    ensures var w := FieldWrite(env, st, At(cls, at.row, i), v, at.created, tu, d);
            w.res.Ok? && Populate(env, st, cls, v, at, tu, d, i) == Populate(env, w.st, cls, v, at, tu, d, i + 1)
  {
  }

  /** Property `i` was written, then the rest of the loop ran. */
  lemma {:induction false} PopulateLaidJoin(env: Env, st: State, cls: nat, v: Value, at: Located, tu: bool, d: bool,
                                            i: nat)
    requires FieldChosen(env, st, cls, v, at, d, i)
    requires var w := FieldWrite(env, st, At(cls, at.row, i), v, at.created, tu, d);
             var o := Populate(env, w.st, cls, v, at, tu, d, i + 1);
             && w.res.Ok? && FieldWritten(env, st, w, At(cls, at.row, i), v, at.created, d)
             && o.res.Ok? && PopulateDone(env, w.st, cls, v, at, tu, d, i + 1)
             && Laid(env, st.store, w.st.store,
                     PropNodes(env, st.store, w.st.store, At(cls, at.row, i), v, at.created))
             && Laid(env, w.st.store, o.st.store,
                     FieldNodes(env, w.st.store, o.st.store, cls, at.row, v, at.created, i + 1))
    ensures var w := FieldWrite(env, st, At(cls, at.row, i), v, at.created, tu, d);
            var s' := Populate(env, w.st, cls, v, at, tu, d, i + 1).st.store;
            Laid(env, st.store, s', FieldNodes(env, st.store, s', cls, at.row, v, at.created, i))
  {
    var w := FieldWrite(env, st, At(cls, at.row, i), v, at.created, tu, d);
    ReadyNext(env, st, w, cls, v, at, d, i);
    PopulateLaidStep(env, st, w.st.store, Populate(env, w.st, cls, v, at, tu, d, i + 1).st.store, cls, v, at, d, i);
  }

  lemma {:induction false} FieldLaid(env: Env, st: State, a: Address, v: Value, created: bool, tu: bool, d: bool)
    requires Ready(env, st) && InStore(env, st.store, a)
    requires created ==> FreshFrom(env, st.store, a.cls, a.row, a.col)
    requires var c := Choose(env, a.cls, v, a.col, created, true); c.Ok? && c.value.Some?
    requires NoRepeats(Own(env, st.store, a) + HereField(env, st.store, a.cls, v, a.row, d, a.col))
    requires FieldWrite(env, st, a, v, created, tu, d).res.Ok?
    ensures var s' := FieldWrite(env, st, a, v, created, tu, d).st.store;
            Laid(env, st.store, s', PropNodes(env, st.store, s', a, v, created))
    decreases Weight(v), 4, 0, 0
  {
    var c := Choose(env, a.cls, v, a.col, created, true).value.value;
    ChosenTargets(env, st.store, a, v, created, d);
    SetPropertyLaid(env, st, a, c.v, tu, d, c.isDefault);
  }

  lemma {:induction false} PopulateLaidStep(env: Env, st: State, s1: Store, s2: Store, cls: nat, v: Value,
                                            at: Located, d: bool, i: nat)
    requires FieldChosen(env, st, cls, v, at, d, i) && Good(env, s1) && Good(env, s2)
    requires var s, a, own := st.store, At(cls, at.row, i), [TargetOf(env, st.store, cls, at.row)];
             var here := HereField(env, s, cls, v, at.row, d, i);
             var rest := FieldTargets(env, s, cls, v, Some(at.row), d, i + 1);
             && Frame(env, s, s1, own + here) && Frame(env, s1, s2, own + rest)
             && FieldDone(env, s, s, s1, a, v, at.created, d, here)
             && (forall j: nat :: i + 1 <= j && HasProp(env, cls, j) ==>
                   FieldDone(env, s1, s1, s2, At(cls, at.row, j), v, at.created, d, rest))
             && CellAt(s2, a) == CellAt(s1, a)
             && Laid(env, s, s1, PropNodes(env, s, s1, a, v, at.created))
             && Laid(env, s1, s2, FieldNodes(env, s1, s2, cls, at.row, v, at.created, i + 1))
    ensures Laid(env, st.store, s2, FieldNodes(env, st.store, s2, cls, at.row, v, at.created, i))
  {
    var s, a, own := st.store, At(cls, at.row, i), [TargetOf(env, st.store, cls, at.row)];
    var here, rest := HereField(env, s, cls, v, at.row, d, i), FieldTargets(env, s, cls, v, Some(at.row), d, i + 1);
    TwoRounds(env, s, s1, s2, own, here, rest);
    PropNodesKept(env, s, s1, here, [], own + rest, s, s2, here + rest, a, v, at.created, d);
    forall j: nat | i + 1 <= j && HasProp(env, cls, j)
      ensures PropDescribed(env, s1, s2, At(cls, at.row, j), v, at.created, d, rest)
    {
      assert FieldDone(env, s1, s1, s2, At(cls, at.row, j), v, at.created, d, rest);
    }
    FieldNodesKept(env, s1, s2, rest, own + here, [], s, s2, here + rest, cls, at.row, v, at.created, d, i + 1);
    LaidJoin(env, s, s1, s2, here, rest, PropNodes(env, s, s1, a, v, at.created),
             FieldNodes(env, s1, s2, cls, at.row, v, at.created, i + 1));
  }

  /** One part after the other: both descriptions hold over the whole. */
  lemma TwoRounds(env: Env, s: Store, s1: Store, s2: Store, own: seq<Target>, here: seq<Target>, rest: seq<Target>)
    requires !env.migrating && Good(env, s) && Good(env, s1) && Good(env, s2)
    requires Frame(env, s, s1, own + here) && Frame(env, s1, s2, own + rest)
    requires Apart(here, own + rest) && Apart(rest, own + here) && Existing(s, own + rest) && Existing(s, here)
    ensures Carries(env, s, s1, here, [], own + rest, s, s2, here + rest)
    ensures Carries(env, s1, s2, rest, own + here, [], s, s2, here + rest)
    ensures Apart(here, rest) && Existing(s, rest)
  {
    FrameRefl(env, s, []);
    FrameRefl(env, s2, []);
    assert forall t :: t in rest ==> t in own + rest;
  }

  lemma {:induction false} SetPropertyLaid(env: Env, st: State, a: Address, v: Value, tu: bool, d: bool,
                                           isDefault: bool)
    requires Ready(env, st) && InStore(env, st.store, a) && !IsPrimary(env, a.cls, a.col)
    requires isDefault ==> CellAt(st.store, a) == FreshCell(Prop(env, a.cls, a.col))
    requires NoRepeats(Own(env, st.store, a) + CellTargets(env, st.store, a, v, d))
    requires SetProperty(env, st, a, v, tu, d, isDefault).res.Ok?
    ensures var s' := SetProperty(env, st, a, v, tu, d, isDefault).st.store;
            Laid(env, st.store, s', CellNodes(env, st.store, s', a, v))
    decreases Weight(v), if IsLink(Prop(env, a.cls, a.col)) then 8 else 3, 0
  {
    var p := Prop(env, a.cls, a.col);
    var st1 := Emit(env, st, Will(a));
    if p.ptype.nullable && v.Null? {
      NothingLaid(env, st.store, SetProperty(env, st, a, v, tu, d, isDefault).st.store);
    } else if p.ptype.isArray {
      AssignLaid(env, st1, a, v, tu, d);
    } else if p.ptype.base.Object? {
      WriteLinkLaid(env, st1, a, v, tu, d, isDefault);
    } else {
      NothingLaid(env, st.store, SetProperty(env, st, a, v, tu, d, isDefault).st.store);
    }
  }

  lemma {:induction false} WriteLinkLaid(env: Env, st: State, a: Address, v: Value, tu: bool, d: bool,
                                         isDefault: bool)
    requires Ready(env, st) && InStore(env, st.store, a) && !IsPrimary(env, a.cls, a.col)
    requires IsLink(Prop(env, a.cls, a.col)) && !v.Null?
    requires NoRepeats(Own(env, st.store, a) + CellTargets(env, st.store, a, v, d))
    requires WriteLink(env, st, a, v, tu, d, isDefault).res.Ok?
    ensures var s' := WriteLink(env, st, a, v, tu, d, isDefault).st.store;
            Laid(env, st.store, s', CellNodes(env, st.store, s', a, v))
    decreases Weight(v), 7, 0
  {
    var s, p, curr := st.store, Prop(env, a.cls, a.col), LinkAt(st.store, a);
    var own, ts := Own(env, s, a), RowTargets(env, s, p, v, d, curr);
    NoRepeatsSplit(own, ts);
    assert CellOk(env, s, a);
    UnboxRowEffect(env, st, p, v, tu, d, curr);
    UnboxRowLaid(env, st, p, v, tu, d, curr);
    var u := UnboxRow(env, st, p, v, tu, d, curr);
    UnboxedOnly(env, s, u.st.store, a, ts);
    PutLaid(env, s, u.st.store, a, p, v, u.res.value, d, Link(Some(u.res.value)), ts);
  }

  /** Writing the cell that holds the row adds none. */
  lemma PutLaid(env: Env, s: Store, s1: Store, a: Address, p: Property, v: Value, r: nat, d: bool, c: Cell,
                ts: seq<Target>)
    requires !env.migrating && Good(env, s) && Good(env, s1) && InStore(env, s, a) && !IsPrimary(env, a.cls, a.col)
    requires p == Prop(env, a.cls, a.col) && p.ptype.base.Object? && Fits(s1, p, c)
    requires Frame(env, s, s1, ts) && Apart(Own(env, s, a), ts) && Existing(s, ts)
    requires RowReflects(env, s, s1, p, v, r, d, ts) && Laid(env, s, s1, RowNodes(env, s, s1, p, v, r))
    ensures Laid(env, s, PutCell(s1, a, c), RowNodes(env, s, PutCell(s1, a, c), p, v, r))
  {
    var own := Own(env, s, a);
    PutAfter(env, s, s1, a, c, ts);
    FrameRefl(env, s, []);
    RowNodesKept(env, s, s1, ts, [], own, s, PutCell(s1, a, c), ts, p, v, r, d);
    LaidSame(env, s, s1, s, PutCell(s1, a, c), RowNodes(env, s, s1, p, v, r));
  }

  lemma {:induction false} UnboxRowLaid(env: Env, st: State, p: Property, v: Value, tu: bool, d: bool,
                                        cur: Option<nat>)
    requires Ready(env, st) && ValidProperty(|env.schema|, p) && p.ptype.base.Object?
    requires RowOk(st.store, p.target, cur) && NoRepeats(RowTargets(env, st.store, p, v, d, cur))
    requires UnboxRow(env, st, p, v, tu, d, cur).res.Ok?
    ensures var r := UnboxRow(env, st, p, v, tu, d, cur);
            Laid(env, st.store, r.st.store, RowNodes(env, st.store, r.st.store, p, v, r.res.value))
    decreases Weight(v), 6, 0
  {
    if v.Ref? {
      NothingLaid(env, st.store, st.store);
    } else {
      CreateLaid(env, st, p.target, v, tu, d, cur);
    }
  }

  // ----- lists

  lemma {:induction false} TrimRows(env: Env, st: State, a: Address, k: nat, sz: nat)
    ensures Trim(env, st, a, k, sz).st.store.rows == st.store.rows
    decreases sz
  {
    if k < sz && k < |ListAt(st.store, a)| {
      TrimRows(env, Emit(env, st, ListRemove(a, k)), a, k, sz - 1);
    }
  }

  function HereNodes(env: Env, lo: Store, s: Store, p: Property, v: Value, item: Item): seq<Target>
    requires ValidProperty(|env.schema|, p)
  {
    if p.ptype.base.Object? && item.Row? then RowNodes(env, lo, s, p, v, item.r) else []
  }

  lemma {:induction false} ElementLaid(env: Env, st: State, a: Address, es: seq<Value>, k: nat, sz: nat, tu: bool)
    requires Ready(env, st) && InStore(env, st.store, a) && !IsPrimary(env, a.cls, a.col)
    requires Prop(env, a.cls, a.col).ptype.isArray && k < |es|
    requires |ListAt(st.store, a)| == ListLength(k, sz)
    requires NoRepeats(Own(env, st.store, a)
                       + HereTargets(env, st.store, Prop(env, a.cls, a.col), es, ListAt(st.store, a), sz, k))
    requires Element(env, st, a, es, k, sz, tu).res.Ok?
    ensures var s' := Element(env, st, a, es, k, sz, tu).st.store;
            k < |ListAt(s', a)| &&
            Laid(env, st.store, s', HereNodes(env, st.store, s', Prop(env, a.cls, a.col), es[k], ListAt(s', a)[k]))
    decreases Weight(Arr(es)), 0, 0
  {
    ElemWeight(es, k);
    var s, p, before := st.store, Prop(env, a.cls, a.col), ListAt(st.store, a);
    var here, cur := HereTargets(env, s, p, es, before, sz, k), CurrentAt(before, sz, k);
    assert CellOk(env, s, a);
    NoRepeatsSplit(Own(env, s, a), here);
    UnboxItemEffect(env, st, p, es[k], tu, k < sz, cur);
    if p.ptype.base.Object? {
      UnboxRowLaid(env, st, p, es[k], tu, k < sz, cur);
    }
    ElementLaidStep(env, st, a, es, k, sz, tu);
  }

  lemma {:induction false} ElementLaidStep(env: Env, st: State, a: Address, es: seq<Value>, k: nat, sz: nat, tu: bool)
    requires Ready(env, st) && InStore(env, st.store, a) && !IsPrimary(env, a.cls, a.col)
    requires Prop(env, a.cls, a.col).ptype.isArray && k < |es| && |ListAt(st.store, a)| == ListLength(k, sz)
    requires var s, p, before := st.store, Prop(env, a.cls, a.col), ListAt(st.store, a);
             var here := HereTargets(env, s, p, es, before, sz, k);
             var u := UnboxItem(env, st, p, es[k], tu, k < sz, CurrentAt(before, sz, k));
             && u.res.Ok? && Good(env, u.st.store) && Frame(env, s, u.st.store, here)
             && Apart(Own(env, s, a), here) && Existing(s, here) && ItemFits(u.st.store, p, u.res.value)
             && ItemReflects(env, s, u.st.store, p, es[k], u.res.value, k < sz, here)
             && (p.ptype.base.Object? ==>
                   Laid(env, s, u.st.store, RowNodes(env, s, u.st.store, p, es[k], u.res.value.r)))
    ensures var s' := Element(env, st, a, es, k, sz, tu).st.store;
            k < |ListAt(s', a)| &&
            Laid(env, st.store, s', HereNodes(env, st.store, s', Prop(env, a.cls, a.col), es[k], ListAt(s', a)[k]))
  {
    var s, p, before := st.store, Prop(env, a.cls, a.col), ListAt(st.store, a);
    var here := HereTargets(env, s, p, es, before, sz, k);
    var u := UnboxItem(env, st, p, es[k], tu, k < sz, CurrentAt(before, sz, k));
    UnboxedOnly(env, s, u.st.store, a, here);
    assert CellOk(env, u.st.store, a);
    ElementIs(env, st, a, es, k, sz, tu);
    var c := Many(WithItem(before, u.res.value, k, sz));
    FitsWith(u.st.store, p, before, u.res.value, k, sz);
    if p.ptype.base.Object? {
      PutLaid(env, s, u.st.store, a, p, es[k], u.res.value.r, k < sz, c, here);
    } else {
      NothingLaid(env, s, PutCell(u.st.store, a, c));
    }
  }

  lemma FitsWith(s: Store, p: Property, list: seq<Item>, item: Item, k: nat, sz: nat)
    requires p.ptype.isArray && Fits(s, p, Many(list)) && ItemFits(s, p, item) && |list| == ListLength(k, sz)
    ensures Fits(s, p, Many(WithItem(list, item, k, sz))) && k < |WithItem(list, item, k, sz)|
    ensures WithItem(list, item, k, sz)[k] == item
  {
  }

  lemma {:induction false} AssignFromLaid(env: Env, st: State, a: Address, es: seq<Value>, k: nat, sz: nat, tu: bool)
    requires Ready(env, st) && InStore(env, st.store, a) && !IsPrimary(env, a.cls, a.col)
    requires Prop(env, a.cls, a.col).ptype.isArray && k <= |es|
    requires |ListAt(st.store, a)| == ListLength(k, sz)
    requires NoRepeats(Own(env, st.store, a)
                       + ListTargets(env, st.store, Prop(env, a.cls, a.col), es, ListAt(st.store, a), sz, k))
    requires AssignFrom(env, st, a, es, k, sz, tu).res.Ok?
    ensures var s' := AssignFrom(env, st, a, es, k, sz, tu).st.store;
            Laid(env, st.store, s', ItemNodes(env, st.store, s', Prop(env, a.cls, a.col), es, ListAt(s', a), k))
    decreases Weight(Arr(es)), 1, |es| - k
  {
    var s, p, before := st.store, Prop(env, a.cls, a.col), ListAt(st.store, a);
    var own, ts := Own(env, s, a), ListTargets(env, s, p, es, before, sz, k);
    if k == |es| {
      TrimRows(env, st, a, k, sz);
      NothingLaid(env, s, Trim(env, st, a, k, sz).st.store);
    } else {
      var here, rest := HereTargets(env, s, p, es, before, sz, k), ListTargets(env, s, p, es, before, sz, k + 1);
      assert ts == here + rest;
      SplitThree(own, here, rest);
      ElementEffect(env, st, a, es, k, sz, tu);
      ElementLaid(env, st, a, es, k, sz, tu);
      var e := Element(env, st, a, es, k, sz, tu);
      ListTargetsStable(env, s, e.st.store, a, es, k, sz, own + here);
      AssignFromEffect(env, e.st, a, es, k + 1, sz, tu);
      AssignFromLaid(env, e.st, a, es, k + 1, sz, tu);
      AssignFromLaidStep(env, st, a, es, k, sz, tu);
    }
  }

  lemma {:induction false} AssignFromLaidStep(env: Env, st: State, a: Address, es: seq<Value>, k: nat, sz: nat,
                                              tu: bool)
    requires Ready(env, st) && InStore(env, st.store, a) && Prop(env, a.cls, a.col).ptype.isArray && k < |es|
    requires |ListAt(st.store, a)| == ListLength(k, sz)
    requires AssignFrom(env, st, a, es, k, sz, tu).res.Ok?
    requires var p, before, own := Prop(env, a.cls, a.col), ListAt(st.store, a), Own(env, st.store, a);
             var here := HereTargets(env, st.store, p, es, before, sz, k);
             var rest := ListTargets(env, st.store, p, es, before, sz, k + 1);
             var e := Element(env, st, a, es, k, sz, tu);
             && Apart(here, own + rest) && Apart(rest, own + here)
             && e.res.Ok? && ElementDone(env, st, a, es, k, sz, tu)
             && Own(env, e.st.store, a) == own
             && ListTargets(env, e.st.store, p, es, ListAt(e.st.store, a), sz, k + 1) == rest
             && AssignFromDone(env, e.st, a, es, k + 1, sz, tu)
             && Laid(env, st.store, e.st.store,
                     HereNodes(env, st.store, e.st.store, p, es[k], ListAt(e.st.store, a)[k]))
    requires var e := Element(env, st, a, es, k, sz, tu);
             var s' := AssignFrom(env, e.st, a, es, k + 1, sz, tu).st.store;
             Laid(env, e.st.store, s',
                  ItemNodes(env, e.st.store, s', Prop(env, a.cls, a.col), es, ListAt(s', a), k + 1))
    ensures var s' := AssignFrom(env, st, a, es, k, sz, tu).st.store;
            Laid(env, st.store, s', ItemNodes(env, st.store, s', Prop(env, a.cls, a.col), es, ListAt(s', a), k))
  {
    var s, p, before := st.store, Prop(env, a.cls, a.col), ListAt(st.store, a);
    var e := Element(env, st, a, es, k, sz, tu);
    var s1, s2 := e.st.store, AssignFrom(env, e.st, a, es, k + 1, sz, tu).st.store;
    PrefixKept(before, ListAt(s1, a), ListAt(s2, a), k);
    ItemsLaid(env, s, s1, s2, p, es, ListAt(s2, a), k, sz, Own(env, s, a), HereTargets(env, s, p, es, before, sz, k),
              ListTargets(env, s, p, es, before, sz, k + 1));
  }

  lemma {:induction false} ItemsLaid(env: Env, s: Store, s1: Store, s2: Store, p: Property, es: seq<Value>,
                                     items: seq<Item>, k: nat, sz: nat, own: seq<Target>, here: seq<Target>,
                                     rest: seq<Target>)
    requires !env.migrating && Good(env, s) && Good(env, s1) && Good(env, s2) && ValidProperty(|env.schema|, p)
    requires Frame(env, s, s1, own + here) && Frame(env, s1, s2, own + rest)
    requires Apart(here, own + rest) && Apart(rest, own + here)
    requires Existing(s, own + rest) && Existing(s, here) && k < |es| == |items|
    requires ItemReflects(env, s, s1, p, es[k], items[k], k < sz, here)
    requires forall j :: k + 1 <= j < |es| ==> ItemReflects(env, s1, s2, p, es[j], items[j], j < sz, rest)
    requires Laid(env, s, s1, HereNodes(env, s, s1, p, es[k], items[k]))
    requires Laid(env, s1, s2, ItemNodes(env, s1, s2, p, es, items, k + 1))
    ensures Laid(env, s, s2, ItemNodes(env, s, s2, p, es, items, k))
  {
    TwoRounds(env, s, s1, s2, own, here, rest);
    if p.ptype.base.Object? {
      RowNodesKept(env, s, s1, here, [], own + rest, s, s2, here + rest, p, es[k], items[k].r, k < sz);
    }
    ItemNodesKept(env, s1, s2, rest, own + here, [], s, s2, here + rest, p, es, items, sz, k + 1);
    LaidJoin(env, s, s1, s2, here, rest, HereNodes(env, s, s1, p, es[k], items[k]),
             ItemNodes(env, s1, s2, p, es, items, k + 1));
  }

  lemma {:induction false} AssignLaid(env: Env, st: State, a: Address, v: Value, tu: bool, d: bool)
    requires Ready(env, st) && InStore(env, st.store, a) && !IsPrimary(env, a.cls, a.col)
    requires Prop(env, a.cls, a.col).ptype.isArray && !(Prop(env, a.cls, a.col).ptype.nullable && v.Null?)
    requires NoRepeats(Own(env, st.store, a) + CellTargets(env, st.store, a, v, d))
    requires Assign(env, st, a, v, tu, d).res.Ok?
    ensures var s' := Assign(env, st, a, v, tu, d).st.store;
            Laid(env, st.store, s', CellNodes(env, st.store, s', a, v))
    decreases Weight(v), 2, 0
  {
    var s, p, own := st.store, Prop(env, a.cls, a.col), Own(env, st.store, a);
    var list, ts := if d then ListAt(s, a) else [], CellTargets(env, s, a, v, d);
    if v.Arr? {
      assert ts == ListTargets(env, s, p, v.elems, list, |list|, 0);
      if d {
        AssignFromLaid(env, st, a, v.elems, 0, |list|, tu);
      } else {
        var st1 := Emit(env, st, ListClear(a));
        FrameRefl(env, s, []);
        PutAfter(env, s, s, a, Many([]), []);
        ClearedTargets(env, s, st1.store, own, p, v.elems);
        AssignFromEffect(env, st1, a, v.elems, 0, 0, tu);
        AssignFromLaid(env, st1, a, v.elems, 0, 0, tu);
        ClearedLaid(env, s, st1.store, AssignFrom(env, st1, a, v.elems, 0, 0, tu).st.store, p, v.elems,
                    ListAt(AssignFrom(env, st1, a, v.elems, 0, 0, tu).st.store, a), own, ts);
      }
    } else {
      NothingLaid(env, s, Assign(env, st, a, v, tu, d).st.store);
    }
  }

  /** The full form: seen from before the list was cleared. */
  lemma ClearedLaid(env: Env, s: Store, s1: Store, s2: Store, p: Property, es: seq<Value>, items: seq<Item>,
                    own: seq<Target>, ts: seq<Target>)
    requires !env.migrating && Good(env, s2) && ValidProperty(|env.schema|, p) && |es| == |items|
    requires Frame(env, s, s1, own + []) && s1.rows == s.rows && Frame(env, s1, s2, own + ts)
    requires NoRepeats(own + ts) && Existing(s, ts)
    requires forall j :: 0 <= j < |es| ==> ItemReflects(env, s1, s2, p, es[j], items[j], false, ts)
    requires Laid(env, s1, s2, ItemNodes(env, s1, s2, p, es, items, 0))
    ensures Laid(env, s, s2, ItemNodes(env, s, s2, p, es, items, 0))
  {
    NoRepeatsSplit(own, ts);
    FrameRefl(env, s2, []);
    ItemNodesKept(env, s1, s2, ts, own + [], [], s, s2, ts, p, es, items, 0, 0);
    LaidSame(env, s1, s2, s, s2, ItemNodes(env, s, s2, p, es, items, 0));
  }

  // ----- the theorem

  /** After a normal return the objects of the tree, nested ones and list elements
      included, are pairwise different rows, each a target of the tree or added by
      the call; and the rows without a key that the call added are exactly those of
      the tree's objects. The tree repeats no key and reaches no keyless row twice. */
  lemma EachObjectItsOwnRow(env: Env, st: State, cls: nat, v: Value, tu: bool, d: bool, cur: Option<nat>)
    requires Ready(env, st) && HasClass(env, cls) && RowOk(st.store, cls, cur)
    requires NoRepeats(ObjectTargets(env, st.store, cls, v, d, cur))
    requires Create(env, st, cls, v, tu, d, cur).res.Ok?
    ensures var r, ts := Create(env, st, cls, v, tu, d, cur), ObjectTargets(env, st.store, cls, v, d, cur);
            var nodes := ObjectNodes(env, st.store, r.st.store, cls, r.res.value, v);
            && NoRepeats(nodes) && AllOwned(st.store, r.st.store, ts, nodes)
            && forall c: nat, row: nat :: HasClass(env, c) && !Keyed(env, c) && row >= Count(st.store, c) ==>
                 (ByRow(c, row) in nodes <==> row < Count(r.st.store, c))
  {
    CreateEffect(env, st, cls, v, tu, d, cur);
    CreateLaid(env, st, cls, v, tu, d, cur);
    NodesOwned(env, st.store, Create(env, st, cls, v, tu, d, cur).st.store, cls,
               Create(env, st, cls, v, tu, d, cur).res.value, v, d, ObjectTargets(env, st.store, cls, v, d, cur));
  }

  lemma NodesOwned(env: Env, lo: Store, s: Store, cls: nat, row: nat, v: Value, d: bool, ts: seq<Target>)
    requires HasClass(env, cls) && !env.migrating && Good(env, s) && Grows(env, lo, s) && Existing(lo, ts)
    requires Reflects(env, lo, s, cls, row, v, d, ts)
    ensures AllOwned(lo, s, ts, ObjectNodes(env, lo, s, cls, row, v))
  {
    FrameRefl(env, lo, []);
    FrameRefl(env, s, []);
    ObjectNodesKept(env, lo, s, ts, [], [], lo, s, ts, cls, row, v, d);
  }
}

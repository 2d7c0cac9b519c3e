/** Which trees `create` accepts, and what it throws at the others. */
module Acceptance {
  import opened PropertyTypes
  import opened Values
  import opened Schemas
  import opened Stores
  import opened Terms
  import opened Upsert
  import opened Monitor
  import opened Footprints
  import opened Effects

  // ----- the faults of a tree, found before anything is written

  function ScalarFaults(p: Property, v: Value): set<Error> {
    if !IsScalar(p.ptype.base) then {NotSupported}
    else if v.Null? && p.ptype.nullable then {}
    else if v.Leaf? && BaseOf(v.s) == p.ptype.base then {}
    else {BadCast}
  }

  function KeyFaults(env: Env, cls: nat, v: Value): set<Error>
    requires HasClass(env, cls) && Keyed(env, cls)
  {
    var p := Prop(env, cls, KeyCol(env, cls));
    if !IsObject(v) then {BadCast}
    else
      match GivenOrDefault(env, cls, v, KeyCol(env, cls), true)
      case None => if p.ptype.nullable then {} else {MissingValue}
      case Some(x) => if x.Null? && !p.ptype.nullable then {NullPrimaryKey} else ScalarFaults(p, x)
  }

  /** The key that the tree asks for, where it has no fault. */
  function AskedKey(env: Env, cls: nat, v: Value): Key
    requires HasClass(env, cls) && Keyed(env, cls)
  {
    match GivenOrDefault(env, cls, v, KeyCol(env, cls), true)
    case Some(Leaf(s)) => Some(s)
    case _ => None
  }

  /** The key of the object has a fault, or is taken and may not be, or else whatever
      is wrong with the values of its properties. */
  function ObjectFaults(env: Env, s: Store, cls: nat, v: Value, tu: bool, d: bool, cur: Option<nat>): set<Error>
    requires HasClass(env, cls)
    decreases Weight(v), 4, 0
  {
    if Keyed(env, cls) then
      if KeyFaults(env, cls, v) != {} then KeyFaults(env, cls, v)
      else
        var row := FindKey(env, s, cls, AskedKey(env, cls, v));
        if row.Some? && !tu then {DuplicateKey} else FieldFaults(env, s, cls, v, row, tu, d, 0)
    else if d && cur.Some? && cur.value < Count(s, cls) then FieldFaults(env, s, cls, v, cur, tu, d, 0)
    else FieldFaults(env, s, cls, v, None, tu, d, 0)
  }

  /** `row` is the row the tree is written to, if it is there before the call. */
  function FieldFaults(env: Env, s: Store, cls: nat, v: Value, row: Option<nat>, tu: bool, d: bool, i: nat): set<Error>
    requires HasClass(env, cls)
    decreases Weight(v), 3, |env.schema[cls].props| - i
  {
    if i >= |env.schema[cls].props| then {}
    else PropFaults(env, s, cls, v, row, tu, d, i) + FieldFaults(env, s, cls, v, row, tu, d, i + 1)
  }

  function PropFaults(env: Env, s: Store, cls: nat, v: Value, row: Option<nat>, tu: bool, d: bool, i: nat): set<Error>
    requires HasProp(env, cls, i)
    decreases Weight(v), 2, 0
  {
    var p := Prop(env, cls, i);
    if !IsSet(env, cls, i) then {}
    else if !IsObject(v) then {BadCast}
    else
      match GivenOrDefault(env, cls, v, i, row.None?)
      case None => if row.None? && !MayBeMissing(p, v) then {MissingValue} else {}
      case Some(x) =>
        if x.Null? && !MayBeMissing(p, v) then {MissingValue}
        else CellFaults(env, s, p, if row.Some? then Some(At(cls, row.value, i)) else None, x, tu, d,
                        LinkSeen(s, cls, row, i), ListSeen(s, cls, row, d, i))
  }

  /** `at` is the cell that receives `v`, if it is there before the call, and `link` and
      `list` what it holds. */
  function CellFaults(env: Env, s: Store, p: Property, at: Option<Address>, v: Value, tu: bool, d: bool,
                      link: Option<nat>, list: seq<Item>): set<Error>
    requires ValidProperty(|env.schema|, p)
    decreases Weight(v), if IsLink(p) then 6 else 1, 0
  {
    if p.ptype.nullable && v.Null? then (if p.ptype.isArray then {NotNullable} else {})
    else if p.ptype.isArray then
      if p.ptype.base.LinkingObjects? then {ReadOnly}
      else
        match v
        case Null => {}
        case SameList(a) => if at == Some(a) then {} else {BadCast}
        case Arr(es) => ItemFaults(env, s, p, es, list, |list|, tu, 0)
        case _ => {BadCast}
    else if p.ptype.base.Object? then RowFaults(env, s, p, v, tu, d, link)
    else ScalarFaults(p, v)
  }

  function RowFaults(env: Env, s: Store, p: Property, v: Value, tu: bool, d: bool, cur: Option<nat>): set<Error>
    requires ValidProperty(|env.schema|, p) && p.ptype.base.Object?
    decreases Weight(v), 5, 0
  {
    match v
    case Ref(c, r) => if c == p.target && r < Count(s, c) then {} else {BadLink}
    case _ => ObjectFaults(env, s, p.target, v, tu, d, cur)
  }

  function ItemFaults(env: Env, s: Store, p: Property, es: seq<Value>, list: seq<Item>, sz: nat, tu: bool,
                      k: nat): set<Error>
    requires ValidProperty(|env.schema|, p) && k <= |es|
    decreases Weight(Arr(es)), 0, |es| - k
  {
    if k == |es| then {}
    else
      ElemWeight(es, k);
      HereFaults(env, s, p, es[k], tu, k < sz, CurrentAt(list, sz, k))
      + ItemFaults(env, s, p, es, list, sz, tu, k + 1)
  }

  function HereFaults(env: Env, s: Store, p: Property, v: Value, tu: bool, d: bool, cur: Option<nat>): set<Error>
    requires ValidProperty(|env.schema|, p)
    decreases Weight(v), 7, 0
  {
    if p.ptype.base.Object? then RowFaults(env, s, p, v, tu, d, cur) else ScalarFaults(p, v)
  }

  /** The managed objects and lists that a tree holds exist. */
  ghost predicate Managed(s: Store, v: Value)
    decreases v
  {
    match v
    case Ref(c, r) => r < Count(s, c)
    case SameList(a) => a.row < Count(s, a.cls)
    case Arr(es) => forall k :: 0 <= k < |es| ==> Managed(s, es[k])
    case Dict(fs) => forall k :: 0 <= k < |fs| && fs[k].Given? ==> Managed(s, fs[k].v)
    case _ => true
  }

  /** And so do those in the defaults. */
  ghost predicate AllManaged(env: Env, s: Store, v: Value) {
    && Managed(s, v)
    && forall c: nat, i: nat :: HasProp(env, c, i) && Prop(env, c, i).dflt.Some? ==>
         Managed(s, Prop(env, c, i).dflt.value)
  }

  lemma DueManaged(env: Env, lo: Store, cls: nat, v: Value, i: nat, created: bool)
    requires HasProp(env, cls, i) && AllManaged(env, lo, v)
    requires GivenOrDefault(env, cls, v, i, created).Some?
    ensures AllManaged(env, lo, GivenOrDefault(env, cls, v, i, created).value)
  {
  }

  /** The key that `create` looks for is the one asked for. */
  lemma KeyIsAsked(env: Env, cls: nat, v: Value)
    requires HasClass(env, cls) && Keyed(env, cls)
    ensures KeyOf(env, cls, v).Ok? <==> KeyFaults(env, cls, v) == {}
    ensures KeyOf(env, cls, v).Ok? ==> KeyOf(env, cls, v).value == AskedKey(env, cls, v)
    ensures KeyOf(env, cls, v).Fail? ==> KeyOf(env, cls, v).error in KeyFaults(env, cls, v)
    ensures forall key :: AsksFor(env, cls, v, key) <==> KeyFaults(env, cls, v) == {} && key == AskedKey(env, cls, v)
  {
  }

  // ----- writes to other rows add no fault and remove none

  lemma {:induction false} ObjectFaultsStable(env: Env, lo: Store, s: Store, s': Store, ts: seq<Target>, cls: nat,
                                              v: Value, tu: bool, d: bool, cur: Option<nat>)
    requires HasClass(env, cls) && Steady(env, s, s', ts) && RowOk(s, cls, cur)
    requires Grows(env, lo, s) && AllManaged(env, lo, v)
    requires Apart(ObjectTargets(env, s, cls, v, d, cur), ts)
    ensures ObjectFaults(env, s', cls, v, tu, d, cur) == ObjectFaults(env, s, cls, v, tu, d, cur)
    decreases Weight(v), 4, 0
  {
    if Keyed(env, cls) {
      KeyIsAsked(env, cls, v);
      if KeyOf(env, cls, v).Ok? {
        var key := KeyOf(env, cls, v).value;
        var row := FindKey(env, s, cls, key);
        assert ByKey(cls, key) in ObjectTargets(env, s, cls, v, d, cur);
        FindKeyStable(env, s, s', cls, key, ts);
        if row.Some? {
          assert TargetOf(env, s, cls, row.value) == ByKey(cls, key);
          assert RowSame(s, s', cls, row.value);
        }
        FieldFaultsStable(env, lo, s, s', ts, cls, v, row, tu, d, 0);
      }
    } else if d && cur.Some? {
      assert ByRow(cls, cur.value) in ObjectTargets(env, s, cls, v, d, cur);
      assert RowSame(s, s', cls, cur.value);
      FieldFaultsStable(env, lo, s, s', ts, cls, v, cur, tu, d, 0);
    } else {
      FieldFaultsStable(env, lo, s, s', ts, cls, v, None, tu, d, 0);
    }
  }

  lemma {:induction false} FieldFaultsStable(env: Env, lo: Store, s: Store, s': Store, ts: seq<Target>, cls: nat,
                                             v: Value, row: Option<nat>, tu: bool, d: bool, i: nat)
    requires HasClass(env, cls) && Steady(env, s, s', ts) && RowOk(s, cls, row)
    requires Grows(env, lo, s) && AllManaged(env, lo, v) && SeenSame(env, s, s', cls, row, row, d, i)
    requires Apart(FieldTargets(env, s, cls, v, row, d, i), ts)
    ensures FieldFaults(env, s', cls, v, row, tu, d, i) == FieldFaults(env, s, cls, v, row, tu, d, i)
    decreases Weight(v), 3, |env.schema[cls].props| - i
  {
    if i < |env.schema[cls].props| {
      var here := FieldTarget(env, s, cls, v, LinkSeen(s, cls, row, i), ListSeen(s, cls, row, d, i), d, i);
      var rest := FieldTargets(env, s, cls, v, row, d, i + 1);
      assert forall t :: t in here ==> t in here + rest;
      assert forall t :: t in rest ==> t in here + rest;
      PropFaultsStable(env, lo, s, s', ts, cls, v, row, tu, d, i);
      FieldFaultsStable(env, lo, s, s', ts, cls, v, row, tu, d, i + 1);
    }
  }

  lemma {:induction false} PropFaultsStable(env: Env, lo: Store, s: Store, s': Store, ts: seq<Target>, cls: nat,
                                            v: Value, row: Option<nat>, tu: bool, d: bool, i: nat)
    requires HasProp(env, cls, i) && Steady(env, s, s', ts) && RowOk(s, cls, row)
    requires Grows(env, lo, s) && AllManaged(env, lo, v)
    requires LinkSeen(s', cls, row, i) == LinkSeen(s, cls, row, i)
    requires ListSeen(s', cls, row, d, i) == ListSeen(s, cls, row, d, i)
    requires Apart(FieldTarget(env, s, cls, v, LinkSeen(s, cls, row, i), ListSeen(s, cls, row, d, i), d, i), ts)
    ensures PropFaults(env, s', cls, v, row, tu, d, i) == PropFaults(env, s, cls, v, row, tu, d, i)
    decreases Weight(v), 2, 0
  {
    var p, x := Prop(env, cls, i), GivenOrDefault(env, cls, v, i, row.None?);
    var link, list := LinkSeen(s, cls, row, i), ListSeen(s, cls, row, d, i);
    if IsSet(env, cls, i) && x.Some? {
      DueManaged(env, lo, cls, v, i, row.None?);
      if row.Some? {
        assert CellOk(env, s, At(cls, row.value, i));
      }
      if ValueAt(v, i).None? {
        DefaultTargets(env, s, p, x.value, d);
      }
      CellFaultsStable(env, lo, s, s', ts, p, if row.Some? then Some(At(cls, row.value, i)) else None, x.value,
                       tu, d, link, list);
    }
  }

  lemma {:induction false} CellFaultsStable(env: Env, lo: Store, s: Store, s': Store, ts: seq<Target>, p: Property,
                                            at: Option<Address>, v: Value, tu: bool, d: bool, link: Option<nat>,
                                            list: seq<Item>)
    requires ValidProperty(|env.schema|, p) && Steady(env, s, s', ts) && SeenOk(s, p, link, list)
    requires Grows(env, lo, s) && AllManaged(env, lo, v)
    requires Apart(ValueTargets(env, s, p, v, d, link, list), ts)
    ensures CellFaults(env, s', p, at, v, tu, d, link, list) == CellFaults(env, s, p, at, v, tu, d, link, list)
    decreases Weight(v), if IsLink(p) then 6 else 1, 0
  {
    if p.ptype.isArray {
      if v.Arr? {
        ItemFaultsStable(env, lo, s, s', ts, p, v.elems, list, list, |list|, tu, 0);
      }
    } else if p.ptype.base.Object? && !v.Null? {
      RowFaultsStable(env, lo, s, s', ts, p, v, tu, d, link);
    }
  }

  lemma {:induction false} RowFaultsStable(env: Env, lo: Store, s: Store, s': Store, ts: seq<Target>, p: Property,
                                           v: Value, tu: bool, d: bool, cur: Option<nat>)
    requires ValidProperty(|env.schema|, p) && p.ptype.base.Object? && Steady(env, s, s', ts)
    requires RowOk(s, p.target, cur) && Grows(env, lo, s) && AllManaged(env, lo, v)
    requires Apart(RowTargets(env, s, p, v, d, cur), ts)
    ensures RowFaults(env, s', p, v, tu, d, cur) == RowFaults(env, s, p, v, tu, d, cur)
    decreases Weight(v), 5, 0
  {
    if !v.Ref? {
      ObjectFaultsStable(env, lo, s, s', ts, p.target, v, tu, d, cur);
    }
  }

  lemma {:induction false} ItemFaultsStable(env: Env, lo: Store, s: Store, s': Store, ts: seq<Target>, p: Property,
                                            es: seq<Value>, list: seq<Item>, list': seq<Item>, sz: nat, tu: bool,
                                            k: nat)
    requires ValidProperty(|env.schema|, p) && Steady(env, s, s', ts) && k <= |es|
    requires Grows(env, lo, s) && AllManaged(env, lo, Arr(es))
    requires p.ptype.base.Object? ==> forall j :: k <= j < |list| && j < sz ==> ItemFits(s, p, list[j])
    requires forall j: nat :: k <= j < sz ==> CurrentAt(list', sz, j) == CurrentAt(list, sz, j)
    requires Apart(ListTargets(env, s, p, es, list, sz, k), ts)
    ensures ItemFaults(env, s', p, es, list', sz, tu, k) == ItemFaults(env, s, p, es, list, sz, tu, k)
    decreases Weight(Arr(es)), 0, |es| - k
  {
    if k < |es| {
      ElemWeight(es, k);
      assert Managed(lo, es[k]);
      ApartParts(HereTargets(env, s, p, es, list, sz, k), ListTargets(env, s, p, es, list, sz, k + 1), ts);
      HereFaultsStable(env, lo, s, s', ts, p, es, list, sz, tu, k);
      assert CurrentAt(list', sz, k) == CurrentAt(list, sz, k);
      ItemFaultsStable(env, lo, s, s', ts, p, es, list, list', sz, tu, k + 1);
    }
  }

  lemma ApartParts(here: seq<Target>, rest: seq<Target>, ts: seq<Target>)
    requires Apart(here + rest, ts)
    ensures Apart(here, ts) && Apart(rest, ts)
  {
    assert forall t :: t in here ==> t in here + rest;
    assert forall t :: t in rest ==> t in here + rest;
  }

  lemma {:induction false} HereFaultsStable(env: Env, lo: Store, s: Store, s': Store, ts: seq<Target>, p: Property,
                                            es: seq<Value>, list: seq<Item>, sz: nat, tu: bool, k: nat)
    requires ValidProperty(|env.schema|, p) && Steady(env, s, s', ts) && k < |es|
    requires Grows(env, lo, s) && AllManaged(env, lo, es[k])
    requires p.ptype.base.Object? && k < |list| && k < sz ==> ItemFits(s, p, list[k])
    requires Apart(HereTargets(env, s, p, es, list, sz, k), ts)
    ensures HereFaults(env, s', p, es[k], tu, k < sz, CurrentAt(list, sz, k))
         == HereFaults(env, s, p, es[k], tu, k < sz, CurrentAt(list, sz, k))
    decreases Weight(es[k]), 7, 0
  {
    if p.ptype.base.Object? {
      RowFaultsStable(env, lo, s, s', ts, p, es[k], tu, k < sz, CurrentAt(list, sz, k));
    }
  }

  // ----- the faults decide

  /** The call returns exactly when there is no fault, and what it throws is one. */
  ghost predicate Decides<T>(res: Result<T>, faults: set<Error>) {
    (res.Ok? <==> faults == {}) && (res.Fail? ==> res.error in faults)
  }

  lemma {:induction false} CreateDecides(env: Env, lo: Store, st: State, cls: nat, v: Value, tu: bool, d: bool,
                                         cur: Option<nat>)
    requires Ready(env, st) && HasClass(env, cls) && RowOk(st.store, cls, cur) && env.writing
    requires NoRepeats(ObjectTargets(env, st.store, cls, v, d, cur))
    requires Grows(env, lo, st.store) && AllManaged(env, lo, v)
    ensures Decides(Create(env, st, cls, v, tu, d, cur).res, ObjectFaults(env, st.store, cls, v, tu, d, cur))
    decreases Weight(v), 5, 0
  {
    LocateEffect(env, st, cls, v, tu, d, cur);
    var l := Locate(env, st, cls, v, tu, d, cur);
    if Keyed(env, cls) {
      KeyIsAsked(env, cls, v);
    }
    if l.res.Ok? {
      LocatedTargets(env, st, cls, v, tu, d, cur);
      GrowsTransitive(env, lo, st.store, l.st.store);
      PopulateDecides(env, lo, l.st, cls, v, l.res.value, tu, d, 0);
      LocatedFaults(env, lo, st, cls, v, tu, d, cur);
    }
  }

  /** The row that was added does not change the faults of its properties. */
  lemma LocatedFaults(env: Env, lo: Store, st: State, cls: nat, v: Value, tu: bool, d: bool, cur: Option<nat>)
    requires Ready(env, st) && HasClass(env, cls) && RowOk(st.store, cls, cur)
    requires NoRepeats(ObjectTargets(env, st.store, cls, v, d, cur))
    requires Grows(env, lo, st.store) && AllManaged(env, lo, v)
    requires Locate(env, st, cls, v, tu, d, cur).res.Ok?
    ensures var l := Locate(env, st, cls, v, tu, d, cur);
            ObjectFaults(env, st.store, cls, v, tu, d, cur)
              == FieldFaults(env, l.st.store, cls, v, Written(l.res.value), tu, d, 0)
  {
    LocateEffect(env, st, cls, v, tu, d, cur);
    var s, l := st.store, Locate(env, st, cls, v, tu, d, cur);
    var at, s1 := l.res.value, l.st.store;
    if Keyed(env, cls) {
      KeyIsAsked(env, cls, v);
    }
    if at.created {
      var fields := FieldTargets(env, s, cls, v, None, d, 0);
      var us := if Keyed(env, cls) then [TargetOf(env, s1, cls, at.row)] else [];
      if Keyed(env, cls) {
        NoRepeatsSplit(us, fields);
      }
      FieldFaultsStable(env, lo, s, s1, us, cls, v, None, tu, d, 0);
    }
  }

  /** The row of the loop, if it was there before the call. */
  function Written(at: Located): Option<nat> {
    if at.created then None else Some(at.row)
  }

  lemma {:induction false} PopulateDecides(env: Env, lo: Store, st: State, cls: nat, v: Value, at: Located, tu: bool,
                                           d: bool, i: nat)
    requires HasClass(env, cls) && ReadyAt(env, st, cls, v, at, d, i) && env.writing
    requires Grows(env, lo, st.store) && AllManaged(env, lo, v) && (at.created ==> at.row >= Count(lo, cls))
    ensures Decides(Populate(env, st, cls, v, at, tu, d, i).res,
                    FieldFaults(env, st.store, cls, v, Written(at), tu, d, i))
    decreases Weight(v), 4, |env.schema[cls].props| - i, 1
  {
    if i < |env.schema[cls].props| {
      var s, own := st.store, [TargetOf(env, st.store, cls, at.row)];
      var here, rest := HereField(env, s, cls, v, at.row, d, i), FieldTargets(env, s, cls, v, Some(at.row), d, i + 1);
      assert FieldTargets(env, s, cls, v, Some(at.row), d, i) == here + rest;
      SplitThree(own, here, rest);
      var c := Choose(env, cls, v, i, at.created, true);
      ChooseDecides(env, s, cls, v, at, tu, d, i);
      if c.Ok? && c.value.None? {
        PopulateDecides(env, lo, st, cls, v, at, tu, d, i + 1);
      } else if c.Ok? {
        PopulateWriteDecides(env, lo, st, cls, v, at, tu, d, i);
      }
    }
  }

  /** The loop throws at a missing value, and skips only what has no fault. */
  lemma ChooseDecides(env: Env, s: Store, cls: nat, v: Value, at: Located, tu: bool, d: bool, i: nat)
    requires HasProp(env, cls, i)
    ensures var c := Choose(env, cls, v, i, at.created, true);
            && (c.Fail? ==> c.error in PropFaults(env, s, cls, v, Written(at), tu, d, i))
            && (c.Ok? && c.value.None? ==> PropFaults(env, s, cls, v, Written(at), tu, d, i) == {})
  {
  }

  lemma {:induction false} PopulateWriteDecides(env: Env, lo: Store, st: State, cls: nat, v: Value, at: Located,
                                                tu: bool, d: bool, i: nat)
    requires FieldChosen(env, st, cls, v, at, d, i) && env.writing
    requires Grows(env, lo, st.store) && AllManaged(env, lo, v) && (at.created ==> at.row >= Count(lo, cls))
    ensures Decides(Populate(env, st, cls, v, at, tu, d, i).res,
                    FieldFaults(env, st.store, cls, v, Written(at), tu, d, i))
    decreases Weight(v), 4, |env.schema[cls].props| - i, 0
  {
    var a := At(cls, at.row, i);
    var w := FieldWrite(env, st, a, v, at.created, tu, d);
    FieldEffect(env, st, a, v, at.created, tu, d);
    FieldDecides(env, lo, st, a, v, at, tu, d);
    if w.res.Ok? {
      ReadyNext(env, st, w, cls, v, at, d, i);
      GrowsTransitive(env, lo, st.store, w.st.store);
      PopulateDecides(env, lo, w.st, cls, v, at, tu, d, i + 1);
      RestFaults(env, lo, st, w, cls, v, at, tu, d, i);
    }
    TurnDecides(env, st, cls, v, at, tu, d, i);
  }

  /** One turn of the loop, then the rest of it. */
  lemma TurnDecides(env: Env, st: State, cls: nat, v: Value, at: Located, tu: bool, d: bool, i: nat)
    requires FieldChosen(env, st, cls, v, at, d, i)
    requires var w := FieldWrite(env, st, At(cls, at.row, i), v, at.created, tu, d);
             && Decides(w.res, PropFaults(env, st.store, cls, v, Written(at), tu, d, i))
             && (w.res.Ok? ==> Decides(Populate(env, w.st, cls, v, at, tu, d, i + 1).res,
                                       FieldFaults(env, st.store, cls, v, Written(at), tu, d, i + 1)))
    ensures Decides(Populate(env, st, cls, v, at, tu, d, i).res,
                    FieldFaults(env, st.store, cls, v, Written(at), tu, d, i))
  {
  }

  /** The properties to come have the faults they had before property `i` was written. */
  lemma RestFaults(env: Env, lo: Store, st: State, w: Out<()>, cls: nat, v: Value, at: Located, tu: bool, d: bool,
                   i: nat)
    requires FieldChosen(env, st, cls, v, at, d, i)
    requires FieldWritten(env, st, w, At(cls, at.row, i), v, at.created, d)
    requires Grows(env, lo, st.store) && AllManaged(env, lo, v)
    ensures FieldFaults(env, w.st.store, cls, v, Written(at), tu, d, i + 1)
         == FieldFaults(env, st.store, cls, v, Written(at), tu, d, i + 1)
  {
    var s, us := st.store, [TargetOf(env, st.store, cls, at.row)] + HereField(env, st.store, cls, v, at.row, d, i);
    if at.created {
      FreshTargets(env, s, cls, v, at.row, d, i + 1);
    }
    FieldFaultsStable(env, lo, s, w.st.store, us, cls, v, Written(at), tu, d, i + 1);
  }

  /** In a fresh row nothing is there to compare with. */
  lemma {:induction false} FreshTargets(env: Env, s: Store, cls: nat, v: Value, row: nat, d: bool, i: nat)
    requires HasClass(env, cls) && WellFormed(env, s) && row < Count(s, cls) && FreshFrom(env, s, cls, row, i)
    ensures FieldTargets(env, s, cls, v, Some(row), d, i) == FieldTargets(env, s, cls, v, None, d, i)
    decreases |env.schema[cls].props| - i
  {
    if i < |env.schema[cls].props| {
      assert CellOk(env, s, At(cls, row, i));
      FreshTargets(env, s, cls, v, row, d, i + 1);
    }
  }

  /** The faults of the property are those of the value that is written to its cell. */
  lemma ChosenFaults(env: Env, lo: Store, s: Store, a: Address, v: Value, at: Located, tu: bool, d: bool)
    requires InStore(env, s, a) && WellFormed(env, s) && a.row == at.row
    requires at.created ==> FreshFrom(env, s, a.cls, a.row, a.col) && a.row >= Count(lo, a.cls)
    requires var c := Choose(env, a.cls, v, a.col, at.created, true);
             c.Ok? && c.value.Some? && AllManaged(env, lo, c.value.value.v)
    ensures PropFaults(env, s, a.cls, v, Written(at), tu, d, a.col)
         == CellFaults(env, s, Prop(env, a.cls, a.col), Some(a),
                       Choose(env, a.cls, v, a.col, at.created, true).value.value.v, tu, d, LinkAt(s, a),
                       if d then ListAt(s, a) else [])
  {
    assert CellOk(env, s, a);
  }

  lemma {:induction false} FieldDecides(env: Env, lo: Store, st: State, a: Address, v: Value, at: Located, tu: bool,
                                        d: bool)
    requires Ready(env, st) && InStore(env, st.store, a) && a.row == at.row && env.writing
    requires at.created ==> FreshFrom(env, st.store, a.cls, a.row, a.col) && a.row >= Count(lo, a.cls)
    requires var c := Choose(env, a.cls, v, a.col, at.created, true); c.Ok? && c.value.Some?
    requires NoRepeats(Own(env, st.store, a) + HereField(env, st.store, a.cls, v, a.row, d, a.col))
    requires Grows(env, lo, st.store) && AllManaged(env, lo, v)
    ensures Decides(FieldWrite(env, st, a, v, at.created, tu, d).res,
                    PropFaults(env, st.store, a.cls, v, Written(at), tu, d, a.col))
    decreases Weight(v), 4, 0, 0
  {
    var c := Choose(env, a.cls, v, a.col, at.created, true).value.value;
    ChosenTargets(env, st.store, a, v, at.created, d);
    DueManaged(env, lo, a.cls, v, a.col, at.created);
    ChosenFaults(env, lo, st.store, a, v, at, tu, d);
    SetPropertyDecides(env, lo, st, a, c.v, tu, d, c.isDefault);
  }

  lemma {:induction false} SetPropertyDecides(env: Env, lo: Store, st: State, a: Address, v: Value, tu: bool, d: bool,
                                              isDefault: bool)
    requires Ready(env, st) && InStore(env, st.store, a) && !IsPrimary(env, a.cls, a.col) && env.writing
    requires isDefault ==> CellAt(st.store, a) == FreshCell(Prop(env, a.cls, a.col))
    requires NoRepeats(Own(env, st.store, a) + CellTargets(env, st.store, a, v, d))
    requires Grows(env, lo, st.store) && AllManaged(env, lo, v)
    ensures Decides(SetProperty(env, st, a, v, tu, d, isDefault).res,
                    CellFaults(env, st.store, Prop(env, a.cls, a.col), Some(a), v, tu, d, LinkAt(st.store, a),
                               if d then ListAt(st.store, a) else []))
    decreases Weight(v), if IsLink(Prop(env, a.cls, a.col)) then 8 else 3, 0
  {
    var p := Prop(env, a.cls, a.col);
    var st1 := Emit(env, st, Will(a));
    assert CellOk(env, st.store, a);
    if p.ptype.nullable && v.Null? {
    } else if p.ptype.isArray {
      AssignDecides(env, lo, st1, a, v, tu, d);
    } else if p.ptype.base.Object? {
      NoRepeatsSplit(Own(env, st.store, a), CellTargets(env, st.store, a, v, d));
      UnboxRowDecides(env, lo, st1, p, v, tu, d, LinkAt(st.store, a));
    }
  }

  lemma {:induction false} UnboxRowDecides(env: Env, lo: Store, st: State, p: Property, v: Value, tu: bool, d: bool,
                                           cur: Option<nat>)
    requires Ready(env, st) && ValidProperty(|env.schema|, p) && p.ptype.base.Object? && env.writing
    requires RowOk(st.store, p.target, cur) && NoRepeats(RowTargets(env, st.store, p, v, d, cur))
    requires Grows(env, lo, st.store) && AllManaged(env, lo, v)
    ensures Decides(UnboxRow(env, st, p, v, tu, d, cur).res, RowFaults(env, st.store, p, v, tu, d, cur))
    decreases Weight(v), 6, 0
  {
    if !v.Ref? {
      CreateDecides(env, lo, st, p.target, v, tu, d, cur);
    }
  }

  lemma {:induction false} AssignDecides(env: Env, lo: Store, st: State, a: Address, v: Value, tu: bool, d: bool)
    requires Ready(env, st) && InStore(env, st.store, a) && !IsPrimary(env, a.cls, a.col) && env.writing
    requires Prop(env, a.cls, a.col).ptype.isArray && !(Prop(env, a.cls, a.col).ptype.nullable && v.Null?)
    requires NoRepeats(Own(env, st.store, a) + CellTargets(env, st.store, a, v, d))
    requires Grows(env, lo, st.store) && AllManaged(env, lo, v)
    ensures Decides(Assign(env, st, a, v, tu, d).res,
                    CellFaults(env, st.store, Prop(env, a.cls, a.col), Some(a), v, tu, d, LinkAt(st.store, a),
                               if d then ListAt(st.store, a) else []))
    decreases Weight(v), 2, 0
  {
    var s, p, own := st.store, Prop(env, a.cls, a.col), Own(env, st.store, a);
    var list, ts := if d then ListAt(s, a) else [], CellTargets(env, s, a, v, d);
    if v.Arr? && !p.ptype.base.LinkingObjects? {
      assert ts == ListTargets(env, s, p, v.elems, list, |list|, 0);
      if d {
        AssignFromDecides(env, lo, st, a, v.elems, 0, |list|, tu);
      } else {
        var st1 := Emit(env, st, ListClear(a));
        FrameRefl(env, s, []);
        PutAfter(env, s, s, a, Many([]), []);
        GrowsTransitive(env, lo, s, st1.store);
        ClearedTargets(env, s, st1.store, own, p, v.elems);
        AssignFromDecides(env, lo, st1, a, v.elems, 0, 0, tu);
        NoRepeatsSplit(own, ts);
        ItemFaultsStable(env, lo, s, st1.store, own + [], p, v.elems, [], [], 0, tu, 0);
      }
    }
  }

  lemma {:induction false} AssignFromDecides(env: Env, lo: Store, st: State, a: Address, es: seq<Value>, k: nat,
                                             sz: nat, tu: bool)
    requires Ready(env, st) && InStore(env, st.store, a) && !IsPrimary(env, a.cls, a.col) && env.writing
    requires Prop(env, a.cls, a.col).ptype.isArray && k <= |es|
    requires |ListAt(st.store, a)| == ListLength(k, sz)
    requires NoRepeats(Own(env, st.store, a)
                       + ListTargets(env, st.store, Prop(env, a.cls, a.col), es, ListAt(st.store, a), sz, k))
    requires Grows(env, lo, st.store) && AllManaged(env, lo, Arr(es))
    ensures Decides(AssignFrom(env, st, a, es, k, sz, tu).res,
                    ItemFaults(env, st.store, Prop(env, a.cls, a.col), es, ListAt(st.store, a), sz, tu, k))
    decreases Weight(Arr(es)), 1, |es| - k
  {
    var s, p, before := st.store, Prop(env, a.cls, a.col), ListAt(st.store, a);
    var own, ts := Own(env, s, a), ListTargets(env, s, p, es, before, sz, k);
    if k == |es| {
      TrimEffect(env, st, a, k, sz);
    } else {
      var here, rest := HereTargets(env, s, p, es, before, sz, k), ListTargets(env, s, p, es, before, sz, k + 1);
      assert ts == here + rest;
      SplitThree(own, here, rest);
      ElementEffect(env, st, a, es, k, sz, tu);
      ElementDecides(env, lo, st, a, es, k, sz, tu);
      var e := Element(env, st, a, es, k, sz, tu);
      if e.res.Ok? {
        ListTargetsStable(env, s, e.st.store, a, es, k, sz, own + here);
        GrowsTransitive(env, lo, s, e.st.store);
        AssignFromDecides(env, lo, e.st, a, es, k + 1, sz, tu);
        assert CellOk(env, s, a);
        ItemFaultsStable(env, lo, s, e.st.store, own + here, p, es, before, ListAt(e.st.store, a), sz, tu, k + 1);
      }
    }
  }

  lemma {:induction false} ElementDecides(env: Env, lo: Store, st: State, a: Address, es: seq<Value>, k: nat, sz: nat,
                                          tu: bool)
    requires Ready(env, st) && InStore(env, st.store, a) && !IsPrimary(env, a.cls, a.col) && env.writing
    requires Prop(env, a.cls, a.col).ptype.isArray && k < |es|
    requires |ListAt(st.store, a)| == ListLength(k, sz)
    requires NoRepeats(Own(env, st.store, a)
                       + HereTargets(env, st.store, Prop(env, a.cls, a.col), es, ListAt(st.store, a), sz, k))
    requires Grows(env, lo, st.store) && AllManaged(env, lo, Arr(es))
    ensures Decides(Element(env, st, a, es, k, sz, tu).res,
                    HereFaults(env, st.store, Prop(env, a.cls, a.col), es[k], tu, k < sz,
                               CurrentAt(ListAt(st.store, a), sz, k)))
    decreases Weight(Arr(es)), 0, 0
  {
    ElemWeight(es, k);
    var s, p, before := st.store, Prop(env, a.cls, a.col), ListAt(st.store, a);
    var here, cur := HereTargets(env, s, p, es, before, sz, k), CurrentAt(before, sz, k);
    assert CellOk(env, s, a);
    assert Managed(lo, es[k]);
    NoRepeatsSplit(Own(env, s, a), here);
    UnboxItemEffect(env, st, p, es[k], tu, k < sz, cur);
    if p.ptype.base.Object? {
      UnboxRowDecides(env, lo, st, p, es[k], tu, k < sz, cur);
    }
    var u := UnboxItem(env, st, p, es[k], tu, k < sz, cur);
    UnboxedOnly(env, s, u.st.store, a, here);
    if u.res.Ok? {
      assert CellOk(env, u.st.store, a);
      ElementIs(env, st, a, es, k, sz, tu);
    }
  }

  // ----- the theorem

  /** Before anything is written the tree tells whether `create` will return: it does
      exactly when nothing is wrong with the tree, and an exception names something
      that is. The tree repeats no key and reaches no keyless row twice; the managed
      objects and lists in it exist. */
  lemma FaultsDecide(env: Env, st: State, cls: nat, v: Value, tu: bool, d: bool, cur: Option<nat>)
    requires Ready(env, st) && HasClass(env, cls) && RowOk(st.store, cls, cur) && env.writing
    requires NoRepeats(ObjectTargets(env, st.store, cls, v, d, cur)) && AllManaged(env, st.store, v)
    ensures var r, faults := Create(env, st, cls, v, tu, d, cur).res, ObjectFaults(env, st.store, cls, v, tu, d, cur);
            (r.Ok? <==> faults == {}) && (r.Fail? ==> r.error in faults)
  {
    CreateDecides(env, st.store, st, cls, v, tu, d, cur);
  }
}

/** What a call that throws leaves behind: nothing is taken back. */
module Interrupted {
  import opened PropertyTypes
  import opened Values
  import opened Schemas
  import opened Stores
  import opened Terms
  import opened Upsert
  import opened Monitor
  import opened Soundness
  import opened Footprints
  import opened Acceptance
  import opened FlatWrites
  import opened ListDiffs
  import opened FlatLogs
  import opened Results
  import opened BatchAnswers

  // ----- lists

  /** `assign` throws at the first element that it cannot unbox. What came before it
      has been written, what comes after it has not. */
  lemma {:induction false} AssignStops(env: Env, st: State, a: Address, es: seq<Value>, before: seq<Item>, k: nat,
                                       tu: bool) returns (j: nat)
    requires HasProp(env, a.cls, a.col) && k <= |es| && a in st.store.cells
    requires CellAt(st.store, a) == Many(Overlaid(FlatItems(Prop(env, a.cls, a.col), es), before, k))
    requires Prop(env, a.cls, a.col).ptype.base.Object? ==> forall e :: e in es ==> e.Ref?
    requires AssignFrom(env, st, a, es, k, |before|, tu).res.Fail?
    ensures k <= j < |es| && !IsElement(st.store, Prop(env, a.cls, a.col), es[j])
    ensures forall q :: k <= q < j ==> IsElement(st.store, Prop(env, a.cls, a.col), es[q])
    ensures AssignFrom(env, st, a, es, k, |before|, tu).st.store
         == PutCell(st.store, a, Many(Overlaid(FlatItems(Prop(env, a.cls, a.col), es), before, j)))
    decreases |es| - k
  {
    var p := Prop(env, a.cls, a.col);
    if k == |es| {
      FlatTrim(env, st, a, k, |before|);
    } else {
      var e := Element(env, st, a, es, k, |before|, tu);
      ElementUnboxes(env, st, p, es[k], tu, k < |before|,
                     if k < |before| then CurrentRow(ListAt(st.store, a)[k]) else None);
      if e.res.Fail? {
        j := k;
        PutSame(st.store, a);
      } else {
        ElementWritten(env, st, a, es, before, k, tu);
        j := AssignStops(env, e.st, a, es, before, k + 1, tu);
        PutTwice(st.store, a, Many(Overlaid(FlatItems(p, es), before, k + 1)),
                 Many(Overlaid(FlatItems(p, es), before, j)));
      }
    }
  }

  lemma ElementWritten(env: Env, st: State, a: Address, es: seq<Value>, before: seq<Item>, k: nat, tu: bool)
    requires HasProp(env, a.cls, a.col) && k < |es| && a in st.store.cells
    requires CellAt(st.store, a) == Many(Overlaid(FlatItems(Prop(env, a.cls, a.col), es), before, k))
    requires IsElement(st.store, Prop(env, a.cls, a.col), es[k])
    ensures var e := Element(env, st, a, es, k, |before|, tu);
            && e.res.Ok?
            && e.st.store == PutCell(st.store, a, Many(Overlaid(FlatItems(Prop(env, a.cls, a.col), es), before, k + 1)))
  {
    ElementScript(env, st, a, es, k, before, tu);
    FlatElement(env, st, a, es, before, k, tu);
  }

  // ----- one property

  /** What the cell of a property holds when setting it has thrown. The full form has
      cleared the list by then, and both forms have written the elements before the
      one that was refused. */
  function Broken(s: Store, p: Property, was: Cell, v: Value, d: bool): Cell {
    if !p.ptype.isArray || p.ptype.base.LinkingObjects? || v.Null? then was
    else
      var before := if d && was.Many? then was.items else [];
      if v.Arr? then Many(Overlaid(FlatItems(p, v.elems), before, FirstBad(s, p, v.elems, 0)))
      else if d then was
      else Many([])
  }

  /** The first element from `k` on that cannot be unboxed. */
  function FirstBad(s: Store, p: Property, es: seq<Value>, k: nat): (j: nat)
    requires k <= |es|
    ensures k <= j <= |es| && (j < |es| ==> !IsElement(s, p, es[j]))
    ensures forall q :: k <= q < j ==> IsElement(s, p, es[q])
    decreases |es| - k
  {
    if k == |es| || !IsElement(s, p, es[k]) then k else FirstBad(s, p, es, k + 1)
  }

  lemma FirstIs(s: Store, p: Property, es: seq<Value>, j: nat)
    requires j < |es| && !IsElement(s, p, es[j]) && forall q :: 0 <= q < j ==> IsElement(s, p, es[q])
    ensures FirstBad(s, p, es, 0) == j
  {
  }

  lemma SetStops(env: Env, st: State, a: Address, v: Value, tu: bool, d: bool, isDefault: bool)
    requires Good(env, st.store) && InStore(env, st.store, a)
    requires CreatesNothing(Prop(env, a.cls, a.col), v)
    requires SetProperty(env, st, a, v, tu, d, isDefault).res.Fail?
    ensures var p := Prop(env, a.cls, a.col);
            SetProperty(env, st, a, v, tu, d, isDefault).st.store
              == PutCell(st.store, a, Broken(st.store, p, CellAt(st.store, a), v, d))
  {
    var p := Prop(env, a.cls, a.col);
    assert CellOk(env, st.store, a);
    PutSame(st.store, a);
    if p.ptype.isArray && !p.ptype.base.LinkingObjects? && v.Arr? {
      ListStops(env, Emit(env, st, Will(a)), a, v.elems, tu, d);
    } else if IsLink(p) && v.Ref? {
      var st1 := Emit(env, st, Will(a));
      assert UnboxRow(env, st1, p, v, tu, d, LinkAt(st1.store, a)).st == st1;
      assert SetProperty(env, st, a, v, tu, d, isDefault) == Finish(env, WriteLink(env, st1, a, v, tu, d, isDefault));
    }
  }

  lemma ListStops(env: Env, st: State, a: Address, es: seq<Value>, tu: bool, d: bool)
    requires Good(env, st.store) && InStore(env, st.store, a) && Prop(env, a.cls, a.col).ptype.isArray
    requires CreatesNothing(Prop(env, a.cls, a.col), Arr(es)) && !Prop(env, a.cls, a.col).ptype.base.LinkingObjects?
    requires Assign(env, st, a, Arr(es), tu, d).res.Fail?
    ensures Assign(env, st, a, Arr(es), tu, d).st.store
         == PutCell(st.store, a, Broken(st.store, Prop(env, a.cls, a.col), CellAt(st.store, a), Arr(es), d))
  {
    var p := Prop(env, a.cls, a.col);
    assert CellOk(env, st.store, a);
    if d {
      assert Overlaid(FlatItems(p, es), ListAt(st.store, a), 0) == ListAt(st.store, a);
      var j := AssignStops(env, st, a, es, ListAt(st.store, a), 0, tu);
      FirstIs(st.store, p, es, j);
    } else {
      var st1 := Emit(env, st, ListClear(a));
      var j := AssignStops(env, st1, a, es, [], 0, tu);
      FirstIs(st.store, p, es, j);
      PutTwice(st.store, a, Many([]), Many(Overlaid(FlatItems(p, es), [], j)));
    }
  }

  // ----- whole rows

  /** What the cell of the property at which the loop stopped holds. */
  function Halted(env: Env, s: Store, a: Address, v: Value, at: Located, d: bool): Cell
    requires HasProp(env, a.cls, a.col)
  {
    match DueAt(env, a.cls, v, a.col, at)
    case Some(x) => Broken(s, Prop(env, a.cls, a.col), CellAt(s, a), x, d)
    case None => CellAt(s, a)
  }

  lemma TurnStops(env: Env, st: State, a: Address, v: Value, at: Located, tu: bool, d: bool)
    requires Good(env, st.store) && InStore(env, st.store, a) && FlatTree(env, a.cls, v, at, a.col)
    requires Turn(env, st, a, v, at, tu, d).res.Fail?
    ensures Turn(env, st, a, v, at, tu, d).st.store == PutCell(st.store, a, Halted(env, st.store, a, v, at, d))
  {
    var c := Choose(env, a.cls, v, a.col, at.created, at.skipPrimary);
    ChosenIsDue(env, a.cls, v, a.col, at);
    assert CellOk(env, st.store, a);
    PutSame(st.store, a);
    if c.Ok? && c.value.Some? {
      SetStops(env, st, a, c.value.value.v, tu, d, c.value.value.isDefault);
    }
  }

  /** The properties from `i` to `j` are as they would be had nothing been thrown, that
      at `j` holds `halted`, and no other cell has changed. */
  ghost predicate StoppedAt(env: Env, s: Store, s': Store, cls: nat, v: Value, at: Located, d: bool, i: nat, j: nat,
                            halted: Cell)
  {
    && s'.rows == s.rows
    && forall a: Address ::
         CellAt(s', a) == if !IsAhead(env, a, cls, at.row, i) || a.col > j then CellAt(s, a)
                          else if a.col < j then Filled(env, a, CellAt(s, a), v, at, d)
                          else halted
  }

  /** The outcome `o` of the loop over the properties from `i` on: it threw at `j`, the
      first of them that has a fault, and took nothing back. */
  ghost predicate Stops(env: Env, s: Store, o: Out<()>, cls: nat, v: Value, at: Located, tu: bool, d: bool, i: nat,
                        j: nat)
  {
    && HasProp(env, cls, j) && i <= j && o.res.Fail?
    && o.res.error in PropFaults(env, s, cls, v, Written(at), tu, d, j)
    && (forall k :: i <= k < j ==> PropFaults(env, s, cls, v, Written(at), tu, d, k) == {})
    && StoppedAt(env, s, o.st.store, cls, v, at, d, i, j, Halted(env, s, At(cls, at.row, j), v, at, d))
  }

  lemma {:induction false} PopulateStops(env: Env, lo: Store, st: State, cls: nat, v: Value, at: Located, tu: bool,
                                         d: bool, i: nat) returns (j: nat)
    requires Good(env, st.store) && HasClass(env, cls) && at.row < Count(st.store, cls)
    requires (at.skipPrimary || env.migrating) && FlatTree(env, cls, v, at, i) && Unfilled(env, st.store, cls, at, i)
    requires KeySettled(env, cls, v, at) && AllManaged(env, lo, v) && (at.created ==> at.row >= Count(lo, cls))
    requires Populate(env, st, cls, v, at, tu, d, i).res.Fail?
    ensures Stops(env, st.store, Populate(env, st, cls, v, at, tu, d, i), cls, v, at, tu, d, i, j)
    decreases |env.schema[cls].props| - i
  {
    var a := At(cls, at.row, i);
    var t := Turn(env, st, a, v, at, tu, d);
    PopulateTurns(env, st, cls, v, at, tu, d, i);
    FirstTurn(env, lo, st, a, v, at, tu, d);
    if t.res.Fail? {
      j := i;
    } else {
      j := PopulateStops(env, lo, t.st, cls, v, at, tu, d, i + 1);
      StopsLater(env, st.store, t.st.store, Populate(env, t.st, cls, v, at, tu, d, i + 1), cls, v, at, tu, d, i, j);
    }
  }

  lemma FirstTurn(env: Env, lo: Store, st: State, a: Address, v: Value, at: Located, tu: bool, d: bool)
    requires Good(env, st.store) && InStore(env, st.store, a) && a.row == at.row
    requires at.skipPrimary || env.migrating
    requires FlatTree(env, a.cls, v, at, a.col) && Unfilled(env, st.store, a.cls, at, a.col)
    requires KeySettled(env, a.cls, v, at) && AllManaged(env, lo, v) && (at.created ==> at.row >= Count(lo, a.cls))
    ensures var t := Turn(env, st, a, v, at, tu, d);
            if t.res.Fail? then Stops(env, st.store, t, a.cls, v, at, tu, d, a.col, a.col)
            else
              && Good(env, t.st.store) && Unfilled(env, t.st.store, a.cls, at, a.col + 1)
              && t.st.store == PutCell(st.store, a, Filled(env, a, CellAt(st.store, a), v, at, d))
              && PropFaults(env, st.store, a.cls, v, Written(at), tu, d, a.col) == {}
  {
    FlatPropDecides(env, lo, st, a, v, at, tu, d);
    if Turn(env, st, a, v, at, tu, d).res.Fail? {
      TurnStops(env, st, a, v, at, tu, d);
    } else {
      FlatField(env, st, a, v, at, tu, d);
    }
  }

  lemma StopsLater(env: Env, s: Store, s1: Store, o: Out<()>, cls: nat, v: Value, at: Located, tu: bool, d: bool,
                   i: nat, j: nat)
    requires HasProp(env, cls, i) && FlatTree(env, cls, v, at, i)
    requires PropFaults(env, s, cls, v, Written(at), tu, d, i) == {}
    requires var a := At(cls, at.row, i); s1 == PutCell(s, a, Filled(env, a, CellAt(s, a), v, at, d))
    requires Stops(env, s1, o, cls, v, at, tu, d, i + 1, j)
    ensures Stops(env, s, o, cls, v, at, tu, d, i, j)
  {
    HaltedSame(env, s, s1, At(cls, at.row, j), v, at, d);
    StoppedNext(env, s, s1, o.st.store, cls, v, at, d, i, j, Halted(env, s, At(cls, at.row, j), v, at, d));
    forall k | i < k <= j
      ensures PropFaults(env, s1, cls, v, Written(at), tu, d, k) == PropFaults(env, s, cls, v, Written(at), tu, d, k)
    {
      FlatPropSame(env, s, s1, cls, v, at, tu, d, k);
    }
  }

  lemma StoppedNext(env: Env, s: Store, s1: Store, s2: Store, cls: nat, v: Value, at: Located, d: bool, i: nat, j: nat,
                    halted: Cell)
    requires HasProp(env, cls, i) && i < j < |env.schema[cls].props|
    requires var a := At(cls, at.row, i); s1 == PutCell(s, a, Filled(env, a, CellAt(s, a), v, at, d))
    requires StoppedAt(env, s1, s2, cls, v, at, d, i + 1, j, halted)
    ensures StoppedAt(env, s, s2, cls, v, at, d, i, j, halted)
  {
  }

  lemma HaltedSame(env: Env, s: Store, s': Store, a: Address, v: Value, at: Located, d: bool)
    requires HasProp(env, a.cls, a.col) && s'.rows == s.rows && CellAt(s', a) == CellAt(s, a)
    ensures Halted(env, s', a, v, at, d) == Halted(env, s, a, v, at, d)
  {
    var due := DueAt(env, a.cls, v, a.col, at);
    if due.Some? {
      BrokenSame(s, s', Prop(env, a.cls, a.col), CellAt(s, a), due.value, d);
    }
  }

  lemma BrokenSame(s: Store, s': Store, p: Property, was: Cell, v: Value, d: bool)
    requires s'.rows == s.rows
    ensures Broken(s', p, was, v, d) == Broken(s, p, was, v, d)
  {
    if v.Arr? {
      var j, j' := FirstBad(s, p, v.elems, 0), FirstBad(s', p, v.elems, 0);
      assert forall e :: IsElement(s', p, e) == IsElement(s, p, e);
      assert j == j';
    }
  }

  /** A `create` that throws leaves the row it added and the properties it had written. */
  lemma CreateStops(env: Env, st: State, cls: nat, v: Value, tu: bool, d: bool, cur: Option<nat>, st1: State,
                    at: Located) returns (j: nat)
    requires env.writing && Good(env, st.store) && HasClass(env, cls) && RowOk(st.store, cls, cur)
    requires Locate(env, st, cls, v, tu, d, cur) == Out(st1, Ok(at)) && FlatTree(env, cls, v, at, 0)
    requires AllManaged(env, st.store, v)
    requires Create(env, st, cls, v, tu, d, cur).res.Fail?
    ensures var r := Create(env, st, cls, v, tu, d, cur);
            Stops(env, st1.store, Out(r.st, Fail(r.res.error)), cls, v, at, tu, d, 0, j)
  {
    LocatedReady(env, st, cls, v, tu, d, cur);
    j := PopulateStops(env, st.store, st1, cls, v, at, tu, d, 0);
  }

  lemma LocatedReady(env: Env, st: State, cls: nat, v: Value, tu: bool, d: bool, cur: Option<nat>)
    requires Good(env, st.store) && HasClass(env, cls) && RowOk(st.store, cls, cur)
    requires Locate(env, st, cls, v, tu, d, cur).res.Ok?
    ensures var l := Locate(env, st, cls, v, tu, d, cur);
            var at, s1 := l.res.value, l.st.store;
            && Good(env, s1) && at.row < Count(s1, cls) && Unfilled(env, s1, cls, at, 0)
            && (at.skipPrimary || env.migrating) && KeySettled(env, cls, v, at)
            && (at.created ==> at.row >= Count(st.store, cls))
  {
    StartSound(env, st, []);
    LocateSound(env, Origin(Machine(st.store, []), |st.log|), st, [], cls, v, tu, d, cur);
    LocatedUnfilled(env, st, cls, v, tu, d, cur);
    if Keyed(env, cls) {
      KeyIsAsked(env, cls, v);
    }
  }

  // ----- trees of any kind

  /** Whatever the tree and however the call ends, the row that was added is there
      afterwards, with its key. */
  lemma AddedRowStays(env: Env, st: State, cls: nat, v: Value, tu: bool, d: bool, cur: Option<nat>, key: Key)
    requires env.writing && !env.migrating && Good(env, st.store) && HasClass(env, cls) && RowOk(st.store, cls, cur)
    requires Keyed(env, cls) && AsksFor(env, cls, v, key)
    requires forall q :: 0 <= q < Count(st.store, cls) ==> KeyAt(env, st.store, cls, q) != key
    ensures var r, row := Create(env, st, cls, v, tu, d, cur), Count(st.store, cls);
            row < Count(r.st.store, cls) && KeyAt(env, r.st.store, cls, row) == key
  {
    var o, l := Origin(Machine(st.store, []), |st.log|), Locate(env, st, cls, v, tu, d, cur);
    KeyIsAsked(env, cls, v);
    StartSound(env, st, []);
    LocateSound(env, o, st, [], cls, v, tu, d, cur);
    PopulateSound(env, o, l.st, [], cls, v, l.res.value, tu, d, 0);
  }

  /** Nor is anything taken back of what a nested object wrote before it was refused:
      setting the link leaves the tables as creating the object leaves them. */
  lemma NestedStays(env: Env, st: State, a: Address, v: Value, tu: bool, d: bool, isDefault: bool)
    requires HasProp(env, a.cls, a.col) && IsLink(Prop(env, a.cls, a.col)) && !v.Null? && !v.Ref?
    ensures var o, p := SetProperty(env, st, a, v, tu, d, isDefault), Prop(env, a.cls, a.col);
            var nested := Create(env, Emit(env, st, Will(a)), p.target, v, tu, d, LinkAt(st.store, a));
            nested.res.Fail? ==> o == Out(nested.st, Fail(nested.res.error))
  {
    var st1, p := Emit(env, st, Will(a)), Prop(env, a.cls, a.col);
    var u, w := UnboxRow(env, st1, p, v, tu, d, LinkAt(st1.store, a)), WriteLink(env, st1, a, v, tu, d, isDefault);
    assert u == Create(env, st1, p.target, v, tu, d, LinkAt(st.store, a));
    if u.res.Fail? {
      assert w == Out(u.st, Fail(u.res.error));
      assert SetProperty(env, st, a, v, tu, d, isDefault) == Finish(env, w) == w;
    }
  }

  /** The same for an object that is an element of a list. */
  lemma NestedElementStays(env: Env, st: State, a: Address, es: seq<Value>, k: nat, sz: nat, tu: bool)
    requires HasProp(env, a.cls, a.col) && Prop(env, a.cls, a.col).ptype.base.Object? && k < |es| && !es[k].Ref?
    requires k < sz ==> k < |ListAt(st.store, a)|
    ensures var e, p := Element(env, st, a, es, k, sz, tu), Prop(env, a.cls, a.col);
            var cur := if k < sz && ListAt(st.store, a)[k].Row? then Some(ListAt(st.store, a)[k].r) else None;
            var nested := Create(env, st, p.target, es[k], tu, k < sz, cur);
            nested.res.Fail? ==> e == Out(nested.st, Fail(nested.res.error))
  {
    ElemWeight(es, k);
    var p, list := Prop(env, a.cls, a.col), ListAt(st.store, a);
    var cur := if k < sz then CurrentRow(list[k]) else None;
    var nested, u := Create(env, st, p.target, es[k], tu, k < sz, cur), UnboxItem(env, st, p, es[k], tu, k < sz, cur);
    if nested.res.Fail? {
      assert UnboxRow(env, st, p, es[k], tu, k < sz, cur) == nested;
      assert u == Out(nested.st, Fail(nested.res.error));
      assert Element(env, st, a, es, k, sz, tu) == Out(u.st, Fail(u.res.error));
    }
  }

  // ----- batches

  /** A batch of a value that creates no object is refused at the first object, and
      leaves it as the setter would. Only a managed list, which is right for its own
      object, can be refused at a later one. */
  lemma BatchStops(env: Env, st: State, cls: nat, i: nat, live: Live, v: Value)
    requires Good(env, st.store) && HasProp(env, cls, i) && env.writing && (env.migrating || !IsPrimary(env, cls, i))
    requires Undisturbed(live, st.store, cls, i) && CreatesNothing(Prop(env, cls, i), v) && !v.SameList?
    requires forall row :: row in live(st.store) ==> row < Count(st.store, cls)
    requires SetAll(env, st, cls, Some(i), live, v).res.Fail?
    ensures |live(st.store)| > 0
    ensures var a := At(cls, live(st.store)[0], i);
            SetAll(env, st, cls, Some(i), live, v).st.store
              == PutCell(st.store, a, Broken(st.store, Prop(env, cls, i), CellAt(st.store, a), v, false))
  {
    var rows, e := live(st.store), SetAll(env, st, cls, Some(i), live, v).res.error;
    SetAllFlatDecides(env, st, cls, i, live, v);
    var j :| 0 <= j < |rows| && e in BatchFaults(env, st.store, cls, i, rows[j], v);
    assert rows[0] in rows;
    var a := At(cls, rows[0], i);
    OtherObject(env, st.store, cls, i, rows[j], rows[0], v);
    FlatSetDecides(env, st, a, v, true, false, false);
    LinkUnused(env, st.store, Prop(env, cls, i), Some(a), v, None, LinkAt(st.store, a));
    SetStops(env, st, a, v, true, false, false);
    assert SetAllFrom(env, st, cls, i, live, v, 0, |rows|) == SetProperty(env, st, a, v, true, false, false);
  }
}

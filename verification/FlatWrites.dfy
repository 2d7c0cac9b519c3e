/** Values that create no object: what writing one does, exactly. */
module FlatWrites {
  import opened PropertyTypes
  import opened Values
  import opened Schemas
  import opened Stores
  import opened Terms
  import opened Upsert
  import opened Monitor
  import opened Soundness
  import opened Acceptance
  import opened Footprints
  import Effects

  /** What a cell of a column of `p` that held `was` holds once `v`, a flat value or a
      list of flat values, was written to it. */
  function FlatCell(p: Property, was: Cell, v: Value, d: bool): Cell {
    if p.ptype.isArray then
      if v.SameList? then was else Many(if v.Arr? then FlatItems(p, v.elems) else [])
    else if p.ptype.base.Object? then Link(if v.Ref? then Some(v.row) else None)
    else if !v.Leaf? || (d && Effects.Lost(p, if was.One? then was.s else None, v.s)) then One(None)
    else One(Some(v.s))
  }

  function FlatItem(p: Property, v: Value): Item {
    if p.ptype.base.Object? then Row(if v.Ref? then v.row else 0)
    else Val(if v.Leaf? then Some(v.s) else None)
  }

  function FlatItems(p: Property, es: seq<Value>): (items: seq<Item>)
    ensures |items| == |es|
    ensures forall k :: 0 <= k < |es| ==> items[k] == FlatItem(p, es[k])
  {
    seq(|es|, i requires 0 <= i < |es| => FlatItem(p, es[i]))
  }

  /** Nothing in the value is an object to be created. */
  predicate CreatesNothing(p: Property, v: Value) {
    && (DefaultOk(p, v) || (p.ptype.isArray && v.SameList?))
    && (p.ptype.base.Object? ==>
          if p.ptype.isArray then v.Arr? ==> forall e :: e in v.elems ==> e.Ref? else v.Null? || v.Ref?)
  }

  lemma PutSame(s: Store, a: Address)
    requires a in s.cells
    ensures PutCell(s, a, CellAt(s, a)) == s
  {
    assert s.cells[a := s.cells[a]] == s.cells;
  }

  lemma PutTwice(s: Store, a: Address, b: Cell, c: Cell)
    ensures PutCell(PutCell(s, a, b), a, c) == PutCell(s, a, c)
  {
    assert s.cells[a := b][a := c] == s.cells[a := c];
  }

  lemma FlatUnbox(env: Env, st: State, p: Property, v: Value, tu: bool, d: bool, cur: Option<nat>)
    requires ValidProperty(|env.schema|, p) && IsFlat(v) && (p.ptype.base.Object? ==> v.Ref?)
    ensures var u := UnboxItem(env, st, p, v, tu, d, cur);
            u.st == st && (u.res.Ok? ==> u.res.value == FlatItem(p, v))
  {
  }

  lemma {:induction false} FlatTrim(env: Env, st: State, a: Address, k: nat, sz: nat)
    requires a in st.store.cells && CellAt(st.store, a).Many?
    requires |ListAt(st.store, a)| == if k < sz then sz else k
    ensures var r := Trim(env, st, a, k, sz);
            r.res.Ok? && r.st.store == PutCell(st.store, a, Many(ListAt(st.store, a)[..k]))
    decreases sz
  {
    var list := ListAt(st.store, a);
    if k < sz {
      var st1 := Emit(env, st, ListRemove(a, k));
      FlatTrim(env, st1, a, k, sz - 1);
      assert ListAt(st1.store, a)[..k] == list[..k];
      PutTwice(st.store, a, Many(RemoveAt(list, k)), Many(list[..k]));
    } else {
      assert list[..k] == list;
      PutSame(st.store, a);
    }
  }

  /** The new items before position `k`, the old ones from there on. */
  function Overlaid(items: seq<Item>, before: seq<Item>, k: nat): seq<Item>
    requires k <= |items|
  {
    items[..k] + if k < |before| then before[k..] else []
  }

  lemma {:induction false} FlatAssign(env: Env, st: State, a: Address, es: seq<Value>, before: seq<Item>, k: nat,
                                      tu: bool)
    requires HasProp(env, a.cls, a.col) && k <= |es|
    requires a in st.store.cells
    requires CellAt(st.store, a) == Many(Overlaid(FlatItems(Prop(env, a.cls, a.col), es), before, k))
    requires forall e :: e in es ==> IsFlat(e) && (Prop(env, a.cls, a.col).ptype.base.Object? ==> e.Ref?)
    ensures var r := AssignFrom(env, st, a, es, k, |before|, tu);
            r.res.Ok? ==> r.st.store == PutCell(st.store, a, Many(FlatItems(Prop(env, a.cls, a.col), es)))
    decreases |es| - k
  {
    var p := Prop(env, a.cls, a.col);
    var items := FlatItems(p, es);
    if k == |es| {
      FlatTrim(env, st, a, k, |before|);
      assert Overlaid(items, before, k)[..k] == items;
    } else {
      var e := Element(env, st, a, es, k, |before|, tu);
      if e.res.Ok? {
        FlatElement(env, st, a, es, before, k, tu);
        FlatAssign(env, e.st, a, es, before, k + 1, tu);
        PutTwice(st.store, a, Many(Overlaid(items, before, k + 1)), Many(items));
      }
    }
  }

  lemma FlatElement(env: Env, st: State, a: Address, es: seq<Value>, before: seq<Item>, k: nat, tu: bool)
    requires HasProp(env, a.cls, a.col) && k < |es|
    requires a in st.store.cells
    requires CellAt(st.store, a) == Many(Overlaid(FlatItems(Prop(env, a.cls, a.col), es), before, k))
    requires IsFlat(es[k]) && (Prop(env, a.cls, a.col).ptype.base.Object? ==> es[k].Ref?)
    ensures var e := Element(env, st, a, es, k, |before|, tu);
            e.res.Ok? ==>
              e.st.store == PutCell(st.store, a, Many(Overlaid(FlatItems(Prop(env, a.cls, a.col), es), before, k + 1)))
  {
    var p := Prop(env, a.cls, a.col);
    var items, list := FlatItems(p, es), ListAt(st.store, a);
    FlatUnbox(env, st, p, es[k], tu, k < |before|, if k < |before| then CurrentRow(list[k]) else None);
    if k < |before| {
      assert Overlaid(items, before, k + 1) == list[k := items[k]];
      if list[k] == items[k] {
        assert list[k := items[k]] == list;
        PutSame(st.store, a);
      }
    } else {
      assert Overlaid(items, before, k + 1) == list + [items[k]];
    }
  }

  /** Setting such a value, in either form, changes its cell and nothing else in any table. */
  lemma FlatSet(env: Env, st: State, a: Address, v: Value, tu: bool, d: bool, isDefault: bool)
    requires Good(env, st.store) && InStore(env, st.store, a)
    requires CreatesNothing(Prop(env, a.cls, a.col), v)
    requires isDefault ==> CellAt(st.store, a) == FreshCell(Prop(env, a.cls, a.col))
    ensures var r := SetProperty(env, st, a, v, tu, d, isDefault);
            r.res.Ok? ==>
              r.st.store == PutCell(st.store, a, FlatCell(Prop(env, a.cls, a.col), CellAt(st.store, a), v, d))
  {
    var p := Prop(env, a.cls, a.col);
    var st1 := Emit(env, st, Will(a));
    assert CellOk(env, st.store, a);
    PutSame(st.store, a);
    if p.ptype.nullable && v.Null? {
    } else if p.ptype.isArray {
      FlatList(env, st1, a, v, tu, d);
    } else if p.ptype.base.Object? {
      assert UnboxRow(env, st1, p, v, tu, d, LinkAt(st1.store, a)).st == st1;
      assert SetProperty(env, st, a, v, tu, d, isDefault) == Finish(env, WriteLink(env, st1, a, v, tu, d, isDefault));
    }
  }

  /** It returns exactly when nothing is wrong with the value. */
  lemma FlatSetDecides(env: Env, st: State, a: Address, v: Value, tu: bool, d: bool, isDefault: bool)
    requires Good(env, st.store) && InStore(env, st.store, a)
    requires CreatesNothing(Prop(env, a.cls, a.col), v)
    ensures Decides(SetProperty(env, st, a, v, tu, d, isDefault).res,
                    CellFaults(env, st.store, Prop(env, a.cls, a.col), Some(a), v, tu, d, LinkAt(st.store, a),
                               if d then ListAt(st.store, a) else []))
  {
    var p := Prop(env, a.cls, a.col);
    var st1 := Emit(env, st, Will(a));
    assert CellOk(env, st.store, a);
    if p.ptype.nullable && v.Null? {
      assert SetProperty(env, st, a, v, tu, d, isDefault) == Finish(env, WriteNull(env, st1, a, p, d, isDefault));
    } else if p.ptype.isArray {
      assert SetProperty(env, st, a, v, tu, d, isDefault) == Finish(env, Assign(env, st1, a, v, tu, d));
      if v.Arr? && !p.ptype.base.LinkingObjects? {
        FlatListDecides(env, st1, a, v.elems, tu, d);
      }
    } else if p.ptype.base.Object? {
      assert SetProperty(env, st, a, v, tu, d, isDefault) == Finish(env, WriteLink(env, st1, a, v, tu, d, isDefault));
      RefDecides(env, st1, p, v, tu, d, LinkAt(st1.store, a));
    } else {
      assert SetProperty(env, st, a, v, tu, d, isDefault) == Finish(env, WriteScalar(env, st1, a, p, v, d, isDefault));
    }
  }

  lemma RefDecides(env: Env, st: State, p: Property, v: Value, tu: bool, d: bool, cur: Option<nat>)
    requires ValidProperty(|env.schema|, p) && p.ptype.base.Object? && v.Ref?
    ensures Decides(UnboxRow(env, st, p, v, tu, d, cur).res, RowFaults(env, st.store, p, v, tu, d, cur))
    ensures UnboxRow(env, st, p, v, tu, d, cur).st == st
    ensures forall d', cur' ::
              RowFaults(env, st.store, p, v, tu, d', cur') == RowFaults(env, st.store, p, v, tu, d, cur)
  {
  }

  lemma FlatListDecides(env: Env, st: State, a: Address, es: seq<Value>, tu: bool, d: bool)
    requires Good(env, st.store) && InStore(env, st.store, a) && Prop(env, a.cls, a.col).ptype.isArray
    requires CreatesNothing(Prop(env, a.cls, a.col), Arr(es)) && !Prop(env, a.cls, a.col).ptype.base.LinkingObjects?
    ensures Decides(Assign(env, st, a, Arr(es), tu, d).res,
                    ItemFaults(env, st.store, Prop(env, a.cls, a.col), es, if d then ListAt(st.store, a) else [],
                               |if d then ListAt(st.store, a) else []|, tu, 0))
  {
    var p := Prop(env, a.cls, a.col);
    assert CellOk(env, st.store, a);
    var items := FlatItems(p, es);
    if d {
      assert Overlaid(items, ListAt(st.store, a), 0) == ListAt(st.store, a);
      FlatAssignDecides(env, st, a, es, ListAt(st.store, a), 0, tu);
    } else {
      var st1 := Emit(env, st, ListClear(a));
      FlatAssignDecides(env, st1, a, es, [], 0, tu);
      FlatItemFaults(env, st.store, st1.store, p, es, [], [], tu, 0);
    }
  }

  lemma {:induction false} FlatAssignDecides(env: Env, st: State, a: Address, es: seq<Value>, before: seq<Item>,
                                             k: nat, tu: bool)
    requires HasProp(env, a.cls, a.col) && k <= |es|
    requires a in st.store.cells
    requires CellAt(st.store, a) == Many(Overlaid(FlatItems(Prop(env, a.cls, a.col), es), before, k))
    requires forall e :: e in es ==> IsFlat(e) && (Prop(env, a.cls, a.col).ptype.base.Object? ==> e.Ref?)
    ensures Decides(AssignFrom(env, st, a, es, k, |before|, tu).res,
                    ItemFaults(env, st.store, Prop(env, a.cls, a.col), es, before, |before|, tu, k))
    decreases |es| - k
  {
    var p := Prop(env, a.cls, a.col);
    if k == |es| {
      FlatTrim(env, st, a, k, |before|);
    } else {
      assert es[k] in es;
      FlatElementDecides(env, st, a, es, before, k, tu);
      var e := Element(env, st, a, es, k, |before|, tu);
      if e.res.Ok? {
        FlatElement(env, st, a, es, before, k, tu);
        FlatAssignDecides(env, e.st, a, es, before, k + 1, tu);
        FlatItemFaults(env, st.store, e.st.store, p, es, before, before, tu, k + 1);
      }
    }
  }

  lemma FlatElementDecides(env: Env, st: State, a: Address, es: seq<Value>, before: seq<Item>, k: nat, tu: bool)
    requires HasProp(env, a.cls, a.col) && k < |es|
    requires CellAt(st.store, a) == Many(Overlaid(FlatItems(Prop(env, a.cls, a.col), es), before, k))
    requires IsFlat(es[k]) && (Prop(env, a.cls, a.col).ptype.base.Object? ==> es[k].Ref?)
    ensures Decides(Element(env, st, a, es, k, |before|, tu).res,
                    HereFaults(env, st.store, Prop(env, a.cls, a.col), es[k], tu, k < |before|,
                               CurrentAt(before, |before|, k)))
  {
    var p, cur := Prop(env, a.cls, a.col), CurrentAt(ListAt(st.store, a), |before|, k);
    if p.ptype.base.Object? {
      RefDecides(env, st, p, es[k], tu, k < |before|, if k < |before| then cur else None);
    }
  }

  lemma FlatList(env: Env, st: State, a: Address, v: Value, tu: bool, d: bool)
    requires Good(env, st.store) && InStore(env, st.store, a)
    requires CreatesNothing(Prop(env, a.cls, a.col), v) && Prop(env, a.cls, a.col).ptype.isArray
    ensures var r := Assign(env, st, a, v, tu, d);
            r.res.Ok? ==>
              r.st.store == PutCell(st.store, a, FlatCell(Prop(env, a.cls, a.col), CellAt(st.store, a), v, d))
  {
    var p := Prop(env, a.cls, a.col);
    assert CellOk(env, st.store, a);
    PutSame(st.store, a);
    if v.Arr? && !p.ptype.base.LinkingObjects? {
      var items := FlatItems(p, v.elems);
      if d {
        assert Overlaid(items, ListAt(st.store, a), 0) == ListAt(st.store, a);
        FlatAssign(env, st, a, v.elems, ListAt(st.store, a), 0, tu);
      } else {
        FlatAssign(env, Emit(env, st, ListClear(a)), a, v.elems, [], 0, tu);
        PutTwice(st.store, a, Many([]), Many(items));
      }
    }
  }

  // ----- whole rows, in a migration or outside

  /** The value due to property `i` of the row, its key included where the loop sets it. */
  function DueAt(env: Env, cls: nat, v: Value, i: nat, at: Located): Option<Value>
    requires HasProp(env, cls, i)
  {
    if IsPrimary(env, cls, i) && !at.skipPrimary then GivenOrDefault(env, cls, v, i, at.created)
    else Due(env, cls, v, i, at.created)
  }

  /** No value that is due from column `i` on is an object to be created. */
  predicate FlatTree(env: Env, cls: nat, v: Value, at: Located, i: nat)
    requires HasClass(env, cls)
  {
    forall j: nat :: i <= j < |env.schema[cls].props| && DueAt(env, cls, v, j, at).Some? ==>
      CreatesNothing(Prop(env, cls, j), DueAt(env, cls, v, j, at).value)
  }

  /** What the loop makes of cell `a` of its row: the given value, else the default of
      an added row, else what the cell held. */
  function Filled(env: Env, a: Address, was: Cell, v: Value, at: Located, d: bool): Cell
    requires HasProp(env, a.cls, a.col)
  {
    match DueAt(env, a.cls, v, a.col, at)
    case Some(x) => FlatCell(Prop(env, a.cls, a.col), was, x, d)
    case None => was
  }

  /** A cell of the row in a column from `i` on. */
  predicate IsAhead(env: Env, a: Address, cls: nat, row: nat, i: nat) {
    a.cls == cls && a.row == row && i <= a.col && HasProp(env, cls, a.col)
  }

  /** The loop from column `i` on, as a statement about the tables. */
  ghost predicate FilledFrom(env: Env, s: Store, s': Store, cls: nat, v: Value, at: Located, d: bool, i: nat) {
    && s'.rows == s.rows
    && forall a: Address ::
         CellAt(s', a) == if IsAhead(env, a, cls, at.row, i) then Filled(env, a, CellAt(s, a), v, at, d)
                          else CellAt(s, a)
  }

  /** The cells of an added row, from column `i` on, that the loop has yet to fill. */
  ghost predicate Unfilled(env: Env, s: Store, cls: nat, at: Located, i: nat) {
    at.created ==> forall j: nat :: i <= j && HasProp(env, cls, j) && !(at.skipPrimary && IsPrimary(env, cls, j)) ==>
      CellAt(s, At(cls, at.row, j)) == FreshCell(Prop(env, cls, j))
  }

  /** One turn of the loop: the property is passed over, or set, or refused. */
  function Turn(env: Env, st: State, a: Address, v: Value, at: Located, tu: bool, d: bool): Out<()>
    requires HasProp(env, a.cls, a.col)
  {
    match Choose(env, a.cls, v, a.col, at.created, at.skipPrimary)
    case Fail(e) => Out(st, Fail(e))
    case Ok(None) => Out(st, Ok(()))
    case Ok(Some(c)) => SetProperty(env, st, a, c.v, tu, d, c.isDefault)
  }

  lemma PopulateTurns(env: Env, st: State, cls: nat, v: Value, at: Located, tu: bool, d: bool, i: nat)
    requires HasProp(env, cls, i)
    ensures var t := Turn(env, st, At(cls, at.row, i), v, at, tu, d);
            Populate(env, st, cls, v, at, tu, d, i)
              == if t.res.Fail? then t else Populate(env, t.st, cls, v, at, tu, d, i + 1)
  {
  }

  /** Populating a row with such values fills its cells and changes nothing else. */
  lemma {:induction false} FlatPopulate(env: Env, st: State, cls: nat, v: Value, at: Located, tu: bool, d: bool, i: nat)
    requires Good(env, st.store) && HasClass(env, cls) && at.row < Count(st.store, cls)
    requires (at.skipPrimary || env.migrating) && FlatTree(env, cls, v, at, i) && Unfilled(env, st.store, cls, at, i)
    ensures var r := Populate(env, st, cls, v, at, tu, d, i);
            r.res.Ok? ==> FilledFrom(env, st.store, r.st.store, cls, v, at, d, i)
    decreases |env.schema[cls].props| - i
  {
    if i < |env.schema[cls].props| {
      var a := At(cls, at.row, i);
      var t := Turn(env, st, a, v, at, tu, d);
      PopulateTurns(env, st, cls, v, at, tu, d, i);
      if t.res.Ok? {
        FlatField(env, st, a, v, at, tu, d);
        FlatPopulate(env, t.st, cls, v, at, tu, d, i + 1);
        FilledNext(env, st.store, t.st.store, Populate(env, t.st, cls, v, at, tu, d, i + 1), cls, v, at, d, i);
      }
    }
  }

  /** The loop chooses what is due. */
  lemma ChosenIsDue(env: Env, cls: nat, v: Value, i: nat, at: Located)
    requires HasProp(env, cls, i)
    ensures var c, due := Choose(env, cls, v, i, at.created, at.skipPrimary), DueAt(env, cls, v, i, at);
            c.Ok? ==>
              if due.Some? then c.value == Some(Chosen(due.value, ValueAt(v, i).None?)) else c.value.None?
  {
  }

  lemma FlatField(env: Env, st: State, a: Address, v: Value, at: Located, tu: bool, d: bool)
    requires Good(env, st.store) && InStore(env, st.store, a) && a.row == at.row
    requires (at.skipPrimary || env.migrating) && FlatTree(env, a.cls, v, at, a.col)
    requires Unfilled(env, st.store, a.cls, at, a.col)
    ensures var t := Turn(env, st, a, v, at, tu, d);
            t.res.Ok? ==>
              && Good(env, t.st.store) && Unfilled(env, t.st.store, a.cls, at, a.col + 1)
              && t.st.store == PutCell(st.store, a, Filled(env, a, CellAt(st.store, a), v, at, d))
  {
    var c := Choose(env, a.cls, v, a.col, at.created, at.skipPrimary);
    ChosenIsDue(env, a.cls, v, a.col, at);
    assert CellOk(env, st.store, a);
    PutSame(st.store, a);
    if c.Ok? && c.value.Some? {
      var x, isDefault := c.value.value.v, c.value.value.isDefault;
      FlatSet(env, st, a, x, tu, d, isDefault);
      StartSound(env, st, []);
      SetPropertySound(env, Origin(Machine(st.store, []), |st.log|), st, [], a, x, tu, d, isDefault);
    }
  }

  lemma FilledNext(env: Env, s: Store, s1: Store, o: Out<()>, cls: nat, v: Value, at: Located, d: bool, i: nat)
    requires HasProp(env, cls, i)
    requires var a := At(cls, at.row, i); s1 == PutCell(s, a, Filled(env, a, CellAt(s, a), v, at, d))
    ensures o.res.Ok? && FilledFrom(env, s1, o.st.store, cls, v, at, d, i + 1) ==>
              FilledFrom(env, s, o.st.store, cls, v, at, d, i)
  {
  }

  // ----- what the loop refuses

  /** The key of the row is set by the loop only where it has no fault. */
  predicate KeySettled(env: Env, cls: nat, v: Value, at: Located)
    requires HasClass(env, cls)
  {
    at.skipPrimary || (at.created && Keyed(env, cls) && KeyFaults(env, cls, v) == {})
  }

  lemma {:induction false} FlatPopulateDecides(env: Env, lo: Store, st: State, cls: nat, v: Value, at: Located,
                                               tu: bool, d: bool, i: nat)
    requires Good(env, st.store) && HasClass(env, cls) && at.row < Count(st.store, cls)
    requires (at.skipPrimary || env.migrating) && FlatTree(env, cls, v, at, i) && Unfilled(env, st.store, cls, at, i)
    requires KeySettled(env, cls, v, at) && AllManaged(env, lo, v) && (at.created ==> at.row >= Count(lo, cls))
    ensures Decides(Populate(env, st, cls, v, at, tu, d, i).res,
                    FieldFaults(env, st.store, cls, v, Written(at), tu, d, i))
    decreases |env.schema[cls].props| - i
  {
    if i < |env.schema[cls].props| {
      var a := At(cls, at.row, i);
      var t := Turn(env, st, a, v, at, tu, d);
      FlatPropDecides(env, lo, st, a, v, at, tu, d);
      if t.res.Ok? {
        FlatField(env, st, a, v, at, tu, d);
        FlatPopulateDecides(env, lo, t.st, cls, v, at, tu, d, i + 1);
        FlatFieldsSame(env, st.store, t.st.store, cls, v, at, tu, d, i + 1);
      }
      FlatTurnDecides(env, st, cls, v, at, tu, d, i);
    }
  }

  lemma FlatTurnDecides(env: Env, st: State, cls: nat, v: Value, at: Located, tu: bool, d: bool, i: nat)
    requires HasProp(env, cls, i)
    requires var t, faults := Turn(env, st, At(cls, at.row, i), v, at, tu, d),
                              FieldFaults(env, st.store, cls, v, Written(at), tu, d, i + 1);
             && Decides(t.res, PropFaults(env, st.store, cls, v, Written(at), tu, d, i))
             && (t.res.Ok? ==> Decides(Populate(env, t.st, cls, v, at, tu, d, i + 1).res, faults))
    ensures Decides(Populate(env, st, cls, v, at, tu, d, i).res,
                    FieldFaults(env, st.store, cls, v, Written(at), tu, d, i))
  {
    PopulateTurns(env, st, cls, v, at, tu, d, i);
  }

  lemma FlatPropDecides(env: Env, lo: Store, st: State, a: Address, v: Value, at: Located, tu: bool, d: bool)
    requires Good(env, st.store) && InStore(env, st.store, a) && a.row == at.row
    requires FlatTree(env, a.cls, v, at, a.col) && Unfilled(env, st.store, a.cls, at, a.col)
    requires KeySettled(env, a.cls, v, at) && AllManaged(env, lo, v) && (at.created ==> at.row >= Count(lo, a.cls))
    ensures Decides(Turn(env, st, a, v, at, tu, d).res,
                    PropFaults(env, st.store, a.cls, v, Written(at), tu, d, a.col))
  {
    var c := Choose(env, a.cls, v, a.col, at.created, at.skipPrimary);
    FlatChoice(env, lo, st.store, a, v, at, tu, d);
    if c.Ok? && c.value.Some? {
      FlatSetDecides(env, st, a, c.value.value.v, tu, d, c.value.value.isDefault);
    }
  }

  /** The faults of the property are those of the value that is chosen. */
  lemma FlatChoice(env: Env, lo: Store, s: Store, a: Address, v: Value, at: Located, tu: bool, d: bool)
    requires HasProp(env, a.cls, a.col) && a.row == at.row
    requires FlatTree(env, a.cls, v, at, a.col) && KeySettled(env, a.cls, v, at)
    requires AllManaged(env, lo, v) && (at.created ==> at.row >= Count(lo, a.cls))
    ensures var c, faults := Choose(env, a.cls, v, a.col, at.created, at.skipPrimary),
                             PropFaults(env, s, a.cls, v, Written(at), tu, d, a.col);
            match c
            case Fail(e) => e in faults
            case Ok(None) => faults == {}
            case Ok(Some(x)) =>
              && CreatesNothing(Prop(env, a.cls, a.col), x.v)
              && faults == CellFaults(env, s, Prop(env, a.cls, a.col), Some(a), x.v, tu, d, LinkAt(s, a),
                                      if d then ListAt(s, a) else [])
  {
    var c := Choose(env, a.cls, v, a.col, at.created, at.skipPrimary);
    ChosenIsDue(env, a.cls, v, a.col, at);
    if c.Ok? && c.value.Some? {
      DueManaged(env, lo, a.cls, v, a.col, at.created);
      FlatCellFaults(env, s, s, Prop(env, a.cls, a.col), Some(a), if at.created then None else Some(a),
                     c.value.value.v, tu, d, LinkAt(s, a), if d then ListAt(s, a) else [],
                     LinkSeen(s, a.cls, Written(at), a.col), ListSeen(s, a.cls, Written(at), d, a.col));
    }
  }

  /** The faults of such a value do not depend on what the cell holds. */
  lemma FlatCellFaults(env: Env, s: Store, s': Store, p: Property, at: Option<Address>, at': Option<Address>, v: Value,
                       tu: bool, d: bool, link: Option<nat>, list: seq<Item>, link': Option<nat>, list': seq<Item>)
    requires ValidProperty(|env.schema|, p) && CreatesNothing(p, v) && s'.rows == s.rows
    requires v.SameList? ==> (at == Some(v.a) <==> at' == Some(v.a))
    ensures CellFaults(env, s', p, at', v, tu, d, link', list') == CellFaults(env, s, p, at, v, tu, d, link, list)
  {
    if p.ptype.isArray && v.Arr? {
      FlatItemFaults(env, s, s', p, v.elems, list, list', tu, 0);
    }
  }

  lemma {:induction false} FlatItemFaults(env: Env, s: Store, s': Store, p: Property, es: seq<Value>, list: seq<Item>,
                                          list': seq<Item>, tu: bool, k: nat)
    requires ValidProperty(|env.schema|, p) && k <= |es| && s'.rows == s.rows
    requires forall e :: e in es ==> IsFlat(e) && (p.ptype.base.Object? ==> e.Ref?)
    ensures ItemFaults(env, s', p, es, list', |list'|, tu, k) == ItemFaults(env, s, p, es, list, |list|, tu, k)
    decreases |es| - k
  {
    if k < |es| {
      assert es[k] in es;
      ElemWeight(es, k);
      assert HereFaults(env, s', p, es[k], tu, k < |list'|, CurrentAt(list', |list'|, k))
          == HereFaults(env, s, p, es[k], tu, k < |list|, CurrentAt(list, |list|, k));
      FlatItemFaults(env, s, s', p, es, list, list', tu, k + 1);
    }
  }

  lemma {:induction false} FlatFieldsSame(env: Env, s: Store, s': Store, cls: nat, v: Value, at: Located, tu: bool,
                                          d: bool, i: nat)
    requires HasClass(env, cls) && FlatTree(env, cls, v, at, i) && s'.rows == s.rows
    ensures FieldFaults(env, s', cls, v, Written(at), tu, d, i) == FieldFaults(env, s, cls, v, Written(at), tu, d, i)
    decreases |env.schema[cls].props| - i
  {
    if i < |env.schema[cls].props| {
      FlatPropSame(env, s, s', cls, v, at, tu, d, i);
      FlatFieldsSame(env, s, s', cls, v, at, tu, d, i + 1);
    }
  }

  lemma FlatPropSame(env: Env, s: Store, s': Store, cls: nat, v: Value, at: Located, tu: bool, d: bool, i: nat)
    requires HasProp(env, cls, i) && FlatTree(env, cls, v, at, i) && s'.rows == s.rows
    ensures PropFaults(env, s', cls, v, Written(at), tu, d, i) == PropFaults(env, s, cls, v, Written(at), tu, d, i)
  {
    var due, row := Due(env, cls, v, i, at.created), Written(at);
    if due.Some? {
      assert DueAt(env, cls, v, i, at) == due;
      var to := if row.Some? then Some(At(cls, row.value, i)) else None;
      FlatCellFaults(env, s, s', Prop(env, cls, i), to, to, due.value, tu, d, LinkSeen(s, cls, row, i),
                     ListSeen(s, cls, row, d, i), LinkSeen(s', cls, row, i), ListSeen(s', cls, row, d, i));
    }
  }

  /** The key that the loop leaves in an added row: the diff form does not write a zero
      over the null of a fresh optional key. */
  function KeptKey(p: Property, key: Key, d: bool): Key {
    if d && key.Some? && Effects.Lost(p, None, key.value) then None else key
  }

  /** In a migration, `create` without `try_update` for a key that a row already holds
      adds a second row: it holds the given values, the key among them (but for a zero
      that the diff form loses), else the defaults, else what a fresh row holds, and nothing else changes. It throws
      exactly when something is wrong with the values, never at the key. */
  lemma DuplicateIsAdded(env: Env, st: State, cls: nat, v: Value, d: bool, cur: Option<nat>, key: Key, q: nat)
    requires env.migrating && env.writing && Good(env, st.store) && HasClass(env, cls) && Keyed(env, cls)
    requires AsksFor(env, cls, v, key) && q < Count(st.store, cls) && KeyAt(env, st.store, cls, q) == key
    requires FlatTree(env, cls, v, Located(Count(st.store, cls), true, false), 0) && AllManaged(env, st.store, v)
    ensures var r, added := Create(env, st, cls, v, false, d, cur), AddRow(env, st.store, cls);
            var row := Count(st.store, cls);
            && Decides(r.res, FieldFaults(env, added, cls, v, None, false, d, 0))
            && (r.res.Ok? ==>
                  && r.res.value == row
                  && FilledFrom(env, added, r.st.store, cls, v, Located(row, true, false), d, 0)
                  && KeyAt(env, r.st.store, cls, row) == KeptKey(Prop(env, cls, KeyCol(env, cls)), key, d))
  {
    var at := Located(Count(st.store, cls), true, false);
    DuplicateLocated(env, st, cls, v, d, cur, key, q);
    var l := Locate(env, st, cls, v, false, d, cur);
    FlatPopulate(env, l.st, cls, v, at, false, d, 0);
    FlatPopulateDecides(env, st.store, l.st, cls, v, at, false, d, 0);
    if Create(env, st, cls, v, false, d, cur).res.Ok? {
      KeyFilled(env, l.st.store, Populate(env, l.st, cls, v, at, false, d, 0).st.store, cls, v, at, d, key);
    }
  }

  lemma DuplicateLocated(env: Env, st: State, cls: nat, v: Value, d: bool, cur: Option<nat>, key: Key, q: nat)
    requires env.migrating && Good(env, st.store) && HasClass(env, cls) && Keyed(env, cls)
    requires AsksFor(env, cls, v, key) && q < Count(st.store, cls) && KeyAt(env, st.store, cls, q) == key
    ensures var l, at := Locate(env, st, cls, v, false, d, cur), Located(Count(st.store, cls), true, false);
            && l.res == Ok(at) && l.st.store == AddRow(env, st.store, cls) && Good(env, l.st.store)
            && at.row < Count(l.st.store, cls) && Unfilled(env, l.st.store, cls, at, 0) && KeySettled(env, cls, v, at)
  {
    KeyIsAsked(env, cls, v);
    StartSound(env, st, []);
    AppendSound(env, Origin(Machine(st.store, []), |st.log|), st, [], cls, None, false);
  }

  /** The key is one of the properties that are filled. */
  lemma KeyFilled(env: Env, s: Store, s': Store, cls: nat, v: Value, at: Located, d: bool, key: Key)
    requires HasClass(env, cls) && Keyed(env, cls) && AsksFor(env, cls, v, key)
    requires at.created && !at.skipPrimary
    requires Unfilled(env, s, cls, at, 0) && FilledFrom(env, s, s', cls, v, at, d, 0)
    ensures KeyAt(env, s', cls, at.row) == KeptKey(Prop(env, cls, KeyCol(env, cls)), key, d)
  {
    var a := At(cls, at.row, KeyCol(env, cls));
    assert CellAt(s', a) == Filled(env, a, CellAt(s, a), v, at, d);
  }
}

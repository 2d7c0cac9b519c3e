/** The log of a call that creates no nested object, event by event. */
module FlatLogs {
  import opened PropertyTypes
  import opened Values
  import opened Schemas
  import opened Stores
  import opened Terms
  import opened Upsert
  import opened Monitor
  import opened Soundness
  import opened Footprints
  import opened Acceptance
  import opened FlatWrites
  import opened ListDiffs

  /** The writes that setting `v` makes in a cell that holds `was`. A scalar or a link
      is written once, in the diff form only where that changes the cell, and a link
      is not nulled by default. A list is written as its script says. */
  function Writes(p: Property, a: Address, was: Cell, v: Value, d: bool, isDefault: bool): seq<Event> {
    if p.ptype.isArray then
      match v
      case Arr(es) =>
        if d then Script(a, if was.Many? then was.items else [], FlatItems(p, es), 0)
        else [ListClear(a)] + Script(a, [], FlatItems(p, es), 0)
      case SameList(_) => []
      case _ => [ListClear(a)]
    else
      var cell := FlatCell(p, was, v, d);
      if d && cell == was then []
      else if isDefault && cell == Link(None) then []
      else [Put(a, cell, isDefault)]
  }

  /** Setting such a value logs one bracket around exactly these writes. Where it
      throws at a value that is not a list, the bracket is left open and nothing was
      written. */
  lemma FlatSetLog(env: Env, st: State, a: Address, v: Value, tu: bool, d: bool, isDefault: bool)
    requires Good(env, st.store) && InStore(env, st.store, a)
    requires CreatesNothing(Prop(env, a.cls, a.col), v)
    ensures var o, p := SetProperty(env, st, a, v, tu, d, isDefault), Prop(env, a.cls, a.col);
            && (o.res.Ok? ==>
                  o.st.log == st.log + ([Will(a)] + Writes(p, a, CellAt(st.store, a), v, d, isDefault) + [Did]))
            && (o.res.Fail? && !p.ptype.isArray ==> o.st == Emit(env, st, Will(a)))
  {
    var p := Prop(env, a.cls, a.col);
    var st1 := Emit(env, st, Will(a));
    assert CellOk(env, st.store, a);
    if p.ptype.nullable && v.Null? {
      FlatNullLog(env, st1, a, d, isDefault);
    } else if p.ptype.isArray {
      FlatListLog(env, st1, a, v, tu, d);
    } else if p.ptype.base.Object? {
      assert UnboxRow(env, st1, p, v, tu, d, LinkAt(st1.store, a)).st == st1;
      FlatLinkLog(env, st1, a, v, tu, d, isDefault);
    } else {
      FlatScalarLog(env, st1, a, v, d, isDefault);
    }
  }

  lemma FlatNullLog(env: Env, st: State, a: Address, d: bool, isDefault: bool)
    requires HasProp(env, a.cls, a.col) && Prop(env, a.cls, a.col).ptype.nullable
    requires Fits(st.store, Prop(env, a.cls, a.col), CellAt(st.store, a))
    ensures var p := Prop(env, a.cls, a.col);
            var o := WriteNull(env, st, a, p, d, isDefault);
            if o.res.Ok? then o.st.log == st.log + Writes(p, a, CellAt(st.store, a), Null, d, isDefault)
            else o.st == st
  {
  }

  lemma FlatLinkLog(env: Env, st: State, a: Address, v: Value, tu: bool, d: bool, isDefault: bool)
    requires HasProp(env, a.cls, a.col) && IsLink(Prop(env, a.cls, a.col)) && CellAt(st.store, a).Link? && v.Ref?
    ensures var o := WriteLink(env, st, a, v, tu, d, isDefault);
            if o.res.Ok? then
              o.st.log == st.log + Writes(Prop(env, a.cls, a.col), a, CellAt(st.store, a), v, d, isDefault)
            else o.st == st
  {
  }

  lemma FlatScalarLog(env: Env, st: State, a: Address, v: Value, d: bool, isDefault: bool)
    requires HasProp(env, a.cls, a.col) && CellAt(st.store, a).One?
    requires var p := Prop(env, a.cls, a.col);
             && !p.ptype.isArray && !p.ptype.base.Object? && !(p.ptype.nullable && v.Null?)
             && ScalarFits(p, CellAt(st.store, a).s)
    ensures var p := Prop(env, a.cls, a.col);
            var o := WriteScalar(env, st, a, p, v, d, isDefault);
            if o.res.Ok? then o.st.log == st.log + Writes(p, a, CellAt(st.store, a), v, d, isDefault)
            else o.st == st
  {
  }

  lemma FlatListLog(env: Env, st: State, a: Address, v: Value, tu: bool, d: bool)
    requires Good(env, st.store) && InStore(env, st.store, a) && Prop(env, a.cls, a.col).ptype.isArray
    requires CreatesNothing(Prop(env, a.cls, a.col), v)
    ensures var o := Assign(env, st, a, v, tu, d);
            o.res.Ok? ==>
              o.st.log == st.log + Writes(Prop(env, a.cls, a.col), a, CellAt(st.store, a), v, d, false)
  {
    var p := Prop(env, a.cls, a.col);
    assert CellOk(env, st.store, a);
    if v.Arr? && !p.ptype.base.LinkingObjects? && Assign(env, st, a, v, tu, d).res.Ok? {
      FlatListDecides(env, st, a, v.elems, tu, d);
      NoFaultsAreElements(env, st.store, p, v.elems, if d then ListAt(st.store, a) else [], tu, 0);
      if d {
        DiffAssignIsExact(env, st, a, v.elems, tu);
      } else {
        FullAssignReplaces(env, st, a, v.elems, tu);
        AddsOnly(a, FlatItems(p, v.elems), 0);
      }
    }
  }

  lemma {:induction false} NoFaultsAreElements(env: Env, s: Store, p: Property, es: seq<Value>, list: seq<Item>,
                                               tu: bool, k: nat)
    requires ValidProperty(|env.schema|, p) && k <= |es|
    requires forall e :: e in es ==> IsFlat(e) && (p.ptype.base.Object? ==> e.Ref?)
    requires ItemFaults(env, s, p, es, list, |list|, tu, k) == {}
    ensures forall j :: k <= j < |es| ==> IsElement(s, p, es[j])
    decreases |es| - k
  {
    if k < |es| {
      assert es[k] in es;
      ElemWeight(es, k);
      var here := HereFaults(env, s, p, es[k], tu, k < |list|, CurrentAt(list, |list|, k));
      assert here + ItemFaults(env, s, p, es, list, |list|, tu, k + 1) == {};
      assert here == {};
      ElementHasNoFault(env, s, p, es[k], tu, k < |list|, CurrentAt(list, |list|, k));
      NoFaultsAreElements(env, s, p, es, list, tu, k + 1);
    }
  }

  lemma ElementHasNoFault(env: Env, s: Store, p: Property, e: Value, tu: bool, d: bool, cur: Option<nat>)
    requires ValidProperty(|env.schema|, p) && IsFlat(e) && (p.ptype.base.Object? ==> e.Ref?)
    ensures HereFaults(env, s, p, e, tu, d, cur) == {} <==> IsElement(s, p, e)
  {
  }

  // ----- whole rows

  /** `log` followed by the brackets of the properties from `i` on that have a value
      due, in the order of the columns. */
  function RowLog(log: seq<Event>, env: Env, s: Store, cls: nat, v: Value, at: Located, d: bool, i: nat): seq<Event>
    requires HasClass(env, cls)
    decreases |env.schema[cls].props| - i
  {
    if i >= |env.schema[cls].props| then log
    else RowLog(log + Bracket(env, s, At(cls, at.row, i), v, at, d), env, s, cls, v, at, d, i + 1)
  }

  function Bracket(env: Env, s: Store, a: Address, v: Value, at: Located, d: bool): seq<Event>
    requires HasProp(env, a.cls, a.col)
  {
    match DueAt(env, a.cls, v, a.col, at)
    case None => []
    case Some(x) =>
      [Will(a)] + Writes(Prop(env, a.cls, a.col), a, CellAt(s, a), x, d, ValueAt(v, a.col).None?) + [Did]
  }

  lemma TurnLog(env: Env, st: State, a: Address, v: Value, at: Located, tu: bool, d: bool)
    requires Good(env, st.store) && InStore(env, st.store, a) && FlatTree(env, a.cls, v, at, a.col)
    ensures var t := Turn(env, st, a, v, at, tu, d);
            t.res.Ok? ==> t.st.log == st.log + Bracket(env, st.store, a, v, at, d)
  {
    var c := Choose(env, a.cls, v, a.col, at.created, at.skipPrimary);
    ChosenIsDue(env, a.cls, v, a.col, at);
    if c.Ok? && c.value.Some? {
      FlatSetLog(env, st, a, c.value.value.v, tu, d, c.value.value.isDefault);
    }
  }

  /** The cells ahead hold what they held. */
  lemma {:induction false} RowLogSame(log: seq<Event>, env: Env, s: Store, s': Store, cls: nat, v: Value, at: Located,
                                      d: bool, i: nat)
    requires HasClass(env, cls)
    requires forall a: Address :: a.cls == cls && a.row == at.row && a.col >= i ==> CellAt(s', a) == CellAt(s, a)
    ensures RowLog(log, env, s', cls, v, at, d, i) == RowLog(log, env, s, cls, v, at, d, i)
    decreases |env.schema[cls].props| - i
  {
    if i < |env.schema[cls].props| {
      var a := At(cls, at.row, i);
      assert CellAt(s', a) == CellAt(s, a);
      RowLogSame(log + Bracket(env, s, a, v, at, d), env, s, s', cls, v, at, d, i + 1);
    }
  }

  ghost predicate ReadyFrom(env: Env, s: Store, cls: nat, v: Value, at: Located, i: nat)
    requires HasClass(env, cls)
  {
    && Good(env, s) && at.row < Count(s, cls) && (at.skipPrimary || env.migrating)
    && FlatTree(env, cls, v, at, i) && Unfilled(env, s, cls, at, i)
  }

  lemma TurnLogged(env: Env, st: State, a: Address, v: Value, at: Located, tu: bool, d: bool)
    requires HasProp(env, a.cls, a.col) && a.row == at.row && ReadyFrom(env, st.store, a.cls, v, at, a.col)
    requires Turn(env, st, a, v, at, tu, d).res.Ok?
    ensures var st1 := Turn(env, st, a, v, at, tu, d).st;
            && ReadyFrom(env, st1.store, a.cls, v, at, a.col + 1)
            && RowLog(st1.log, env, st1.store, a.cls, v, at, d, a.col + 1)
                 == RowLog(st.log, env, st.store, a.cls, v, at, d, a.col)
  {
    var st1 := Turn(env, st, a, v, at, tu, d).st;
    FlatField(env, st, a, v, at, tu, d);
    TurnLog(env, st, a, v, at, tu, d);
    RowLogSame(st1.log, env, st.store, st1.store, a.cls, v, at, d, a.col + 1);
  }

  lemma {:induction false} FlatPopulateLog(env: Env, st: State, cls: nat, v: Value, at: Located, tu: bool, d: bool,
                                           i: nat)
    requires HasClass(env, cls) && ReadyFrom(env, st.store, cls, v, at, i)
    ensures var r := Populate(env, st, cls, v, at, tu, d, i);
            r.res.Ok? ==> r.st.log == RowLog(st.log, env, st.store, cls, v, at, d, i)
    decreases |env.schema[cls].props| - i
  {
    if i < |env.schema[cls].props| {
      var a := At(cls, at.row, i);
      var t := Turn(env, st, a, v, at, tu, d);
      PopulateTurns(env, st, cls, v, at, tu, d, i);
      if t.res.Ok? {
        TurnLogged(env, st, a, v, at, tu, d);
        FlatPopulateLog(env, t.st, cls, v, at, tu, d, i + 1);
      }
    }
  }

  /** A `create` of such a tree, in a migration or not, from the row it is written to:
      the tables and the log it leaves, exactly. */
  lemma FlatCreate(env: Env, st: State, cls: nat, v: Value, tu: bool, d: bool, cur: Option<nat>, st1: State,
                   at: Located)
    requires env.writing && Good(env, st.store) && HasClass(env, cls) && RowOk(st.store, cls, cur)
    requires Locate(env, st, cls, v, tu, d, cur) == Out(st1, Ok(at)) && FlatTree(env, cls, v, at, 0)
    ensures var r := Create(env, st, cls, v, tu, d, cur);
            r.res.Ok? ==>
              && r.res.value == at.row && FilledFrom(env, st1.store, r.st.store, cls, v, at, d, 0)
              && r.st.log == RowLog(st1.log, env, st1.store, cls, v, at, d, 0)
  {
    StartSound(env, st, []);
    LocateSound(env, Origin(Machine(st.store, []), |st.log|), st, [], cls, v, tu, d, cur);
    LocatedUnfilled(env, st, cls, v, tu, d, cur);
    FlatPopulate(env, st1, cls, v, at, tu, d, 0);
    FlatPopulateLog(env, st1, cls, v, at, tu, d, 0);
  }

  lemma LocatedUnfilled(env: Env, st: State, cls: nat, v: Value, tu: bool, d: bool, cur: Option<nat>)
    requires Good(env, st.store) && HasClass(env, cls) && Locate(env, st, cls, v, tu, d, cur).res.Ok?
    ensures var l := Locate(env, st, cls, v, tu, d, cur);
            Unfilled(env, l.st.store, cls, l.res.value, 0) && (l.res.value.skipPrimary || env.migrating)
  {
  }
}

/** An independent judge of the log.

    The monitor replays a log event by event and stops at the first one that is
    not permitted: a write outside the change bracket of its own cell, a write to
    a primary key, a second row with the same key, a value of the wrong type, a
    link to a row that does not exist, a `did_change` without `will_change`. The
    engine is sound when its log is accepted and leads to the tables it left. */
module Monitor {
  import opened PropertyTypes
  import opened Values
  import opened Schemas
  import opened Stores
  import opened Upsert

  /** `open` holds the cells whose change bracket is open, innermost last. */
  datatype Machine = Machine(store: Store, open: seq<Address>)

  predicate Writable(env: Env, m: Machine, a: Address) {
    && InStore(env, m.store, a)
    && m.open != [] && m.open[|m.open| - 1] == a
    && (env.migrating || !IsPrimary(env, a.cls, a.col))
  }

  predicate ListWritable(env: Env, m: Machine, a: Address) {
    Writable(env, m, a) && Prop(env, a.cls, a.col).ptype.isArray
  }

  predicate RowPermitted(env: Env, s: Store, cls: nat, key: Option<Key>) {
    && HasClass(env, cls)
    && if Keyed(env, cls) then
         if key.None? then env.migrating
         else ScalarFits(Prop(env, cls, KeyCol(env, cls)), key.value) && FindKey(env, s, cls, key.value).None?
       else key.None?
  }

  predicate Permitted(env: Env, m: Machine, e: Event) {
    match e
    case Will(a) => InStore(env, m.store, a)
    case Did => m.open != []
    case NewRow(cls, key) => RowPermitted(env, m.store, cls, key)
    case Put(a, cell, _) =>
      Writable(env, m, a) && !cell.Many? && Fits(m.store, Prop(env, a.cls, a.col), cell)
    case ListSet(a, k, item) =>
      ListWritable(env, m, a) && k < |ListAt(m.store, a)| && ItemFits(m.store, Prop(env, a.cls, a.col), item)
    case ListAdd(a, item) => ListWritable(env, m, a) && ItemFits(m.store, Prop(env, a.cls, a.col), item)
    case ListRemove(a, k) => ListWritable(env, m, a) && k < |ListAt(m.store, a)|
    case ListClear(a) => ListWritable(env, m, a)
  }

  function OpenAfter(open: seq<Address>, e: Event): seq<Address> {
    match e
    case Will(a) => open + [a]
    case Did => if open == [] then [] else open[..|open| - 1]
    case _ => open
  }

  function Replay(env: Env, m: Machine, log: seq<Event>): Option<Machine> {
    if log == [] then Some(m)
    else
      var last := |log| - 1;
      match Replay(env, m, log[..last])
      case None => None
      case Some(n) =>
        if Permitted(env, n, log[last]) then
          Some(Machine(Effect(env, n.store, log[last]), OpenAfter(n.open, log[last])))
        else None
  }

  // ----- what every permitted event keeps

  /** Rows are only added, and outside a migration no row changes its key. */
  ghost predicate Grows(env: Env, s: Store, s': Store) {
    && |s.rows| == |s'.rows|
    && (forall c :: 0 <= c < |s.rows| ==> s.rows[c] <= s'.rows[c])
    && (!env.migrating ==>
          forall cls: nat, r: nat :: HasClass(env, cls) && Keyed(env, cls) && r < Count(s, cls) ==>
            KeyAt(env, s', cls, r) == KeyAt(env, s, cls, r))
  }

  lemma GrowsTransitive(env: Env, s: Store, s': Store, s'': Store)
    requires Grows(env, s, s') && Grows(env, s', s'')
    ensures Grows(env, s, s'')
  {
    forall cls: nat, r: nat | !env.migrating && HasClass(env, cls) && Keyed(env, cls) && r < Count(s, cls)
      ensures KeyAt(env, s'', cls, r) == KeyAt(env, s, cls, r)
    {
      assert r < Count(s', cls);
      assert KeyAt(env, s', cls, r) == KeyAt(env, s, cls, r);
    }
  }

  lemma PutKeepsGood(env: Env, s: Store, a: Address, c: Cell)
    requires Good(env, s) && InStore(env, s, a) && Fits(s, Prop(env, a.cls, a.col), c)
    requires env.migrating || !IsPrimary(env, a.cls, a.col)
    ensures Good(env, PutCell(s, a, c)) && Grows(env, s, PutCell(s, a, c))
  {
    var s' := PutCell(s, a, c);
    forall b | InStore(env, s', b) ensures CellOk(env, s', b) {
      assert InStore(env, s, b) && CellOk(env, s, b);
    }
    if !env.migrating {
      forall cls: nat, r: nat | HasClass(env, cls) && Keyed(env, cls)
        ensures KeyAt(env, s', cls, r) == KeyAt(env, s, cls, r)
      {
        assert At(cls, r, KeyCol(env, cls)) != a;
      }
    }
  }

  lemma FreshCellFits(env: Env, s: Store, cls: nat, c: nat)
    requires HasProp(env, cls, c)
    ensures Fits(s, Prop(env, cls, c), FreshCell(Prop(env, cls, c)))
  {
  }

  lemma AddRowWellFormed(env: Env, s: Store, cls: nat)
    requires WellFormed(env, s) && HasClass(env, cls)
    ensures WellFormed(env, AddRow(env, s, cls))
    ensures Count(AddRow(env, s, cls), cls) == Count(s, cls) + 1
    ensures forall a: Address :: a.cls != cls || a.row < Count(s, cls) ==>
              CellAt(AddRow(env, s, cls), a) == CellAt(s, a)
  {
    var s' := AddRow(env, s, cls);
    forall b | InStore(env, s', b) ensures CellOk(env, s', b) {
      if InStore(env, s, b) {
        assert CellOk(env, s, b);
      } else {
        assert b == At(cls, Count(s, cls), b.col);
        FreshCellFits(env, s', cls, b.col);
      }
    }
  }

  lemma NewRowWellFormed(env: Env, s: Store, cls: nat, key: Option<Key>)
    requires WellFormed(env, s) && RowPermitted(env, s, cls, key)
    ensures WellFormed(env, Effect(env, s, NewRow(cls, key)))
  {
    AddRowWellFormed(env, s, cls);
    var s1 := AddRow(env, s, cls);
    var s' := Effect(env, s, NewRow(cls, key));
    forall b | InStore(env, s', b) ensures CellOk(env, s', b) {
      assert InStore(env, s1, b) && CellOk(env, s1, b);
    }
  }

  lemma NewRowKeys(env: Env, s: Store, cls: nat, key: Option<Key>, c: nat, r: nat)
    requires WellFormed(env, s) && RowPermitted(env, s, cls, key)
    requires HasClass(env, c) && Keyed(env, c) && r < Count(s, c)
    ensures KeyAt(env, Effect(env, s, NewRow(cls, key)), c, r) == KeyAt(env, s, c, r)
  {
    AddRowWellFormed(env, s, cls);
  }

  lemma NewRowKeepsGood(env: Env, s: Store, cls: nat, key: Option<Key>)
    requires Good(env, s) && RowPermitted(env, s, cls, key)
    ensures Good(env, Effect(env, s, NewRow(cls, key))) && Grows(env, s, Effect(env, s, NewRow(cls, key)))
  {
    var s' := Effect(env, s, NewRow(cls, key));
    NewRowWellFormed(env, s, cls, key);
    AddRowWellFormed(env, s, cls);
    forall c: nat, r: nat | HasClass(env, c) && Keyed(env, c) && r < Count(s, c)
      ensures KeyAt(env, s', c, r) == KeyAt(env, s, c, r)
    {
      NewRowKeys(env, s, cls, key, c, r);
    }
    if !env.migrating {
      forall c: nat, q: nat, r: nat | HasClass(env, c) && Keyed(env, c) && q < r < Count(s', c)
        ensures KeyAt(env, s', c, q) != KeyAt(env, s', c, r)
      {
        if r < Count(s, c) {
          assert KeyAt(env, s, c, q) != KeyAt(env, s, c, r);
        } else {
          assert KeyAt(env, s', c, r) == key.value;
        }
      }
    }
  }

  lemma EventKeepsGood(env: Env, m: Machine, e: Event)
    requires Good(env, m.store) && Permitted(env, m, e)
    ensures Good(env, Effect(env, m.store, e)) && Grows(env, m.store, Effect(env, m.store, e))
  {
    var s := m.store;
    match e
    case Will(_) =>
    case Did =>
    case NewRow(cls, key) => NewRowKeepsGood(env, s, cls, key);
    case Put(a, cell, _) => PutKeepsGood(env, s, a, cell);
    case ListSet(a, k, item) =>
      assert CellOk(env, s, a);
      PutKeepsGood(env, s, a, Many(ListAt(s, a)[k := item]));
    case ListAdd(a, item) =>
      assert CellOk(env, s, a);
      PutKeepsGood(env, s, a, Many(ListAt(s, a) + [item]));
    case ListRemove(a, k) =>
      assert CellOk(env, s, a);
      PutKeepsGood(env, s, a, Many(RemoveAt(ListAt(s, a), k)));
    case ListClear(a) => PutKeepsGood(env, s, a, Many([]));
  }

  /** Safety of the monitor itself: whatever log it accepts, the tables it ends in
      are well formed, their keys are distinct, and no key of an old row changed. */
  lemma {:induction false} AcceptedLogsAreSafe(env: Env, m: Machine, log: seq<Event>)
    requires Good(env, m.store) && Replay(env, m, log).Some?
    ensures Good(env, Replay(env, m, log).value.store)
    ensures Grows(env, m.store, Replay(env, m, log).value.store)
  {
    if log != [] {
      var last := |log| - 1;
      AcceptedLogsAreSafe(env, m, log[..last]);
      var n := Replay(env, m, log[..last]).value;
      EventKeepsGood(env, n, log[last]);
      GrowsTransitive(env, m.store, n.store, Effect(env, n.store, log[last]));
    }
  }

  // ----- what the engine is called with

  /** A caller's `current_row`, where there is one, is a row of the table. */
  predicate RowOk(s: Store, cls: nat, cur: Option<nat>) {
    cur.Some? ==> cur.value < Count(s, cls)
  }

  lemma KeyFits(env: Env, cls: nat, v: Value)
    requires HasClass(env, cls) && Keyed(env, cls)
    ensures KeyOf(env, cls, v).Ok? ==> ScalarFits(Prop(env, cls, KeyCol(env, cls)), KeyOf(env, cls, v).value)
  {
  }

  lemma TrimNext(env: Env, st: State, a: Address, k: nat, sz: nat)
    requires k < sz && k < |ListAt(st.store, a)|
    ensures Trim(env, st, a, k, sz) == Trim(env, Emit(env, st, ListRemove(a, k)), a, k, sz - 1)
  {
  }
}

/** `Results::set_property_value`: one value written to every object of a collection. */
module Results {
  import opened PropertyTypes
  import opened Values
  import opened Schemas
  import opened Stores
  import opened Upsert
  import opened Monitor
  import opened Soundness
  import opened FlatWrites

  /** A live collection of one class: the rows it contains, given the tables. */
  type Live = Store -> seq<nat>

  function SetAllFrom(env: Env, st: State, cls: nat, i: nat, live: Live, v: Value, k: nat, size: nat): Out<()>
    requires HasProp(env, cls, i) && k <= size
    decreases size - k
  {
    if k == size then Out(st, Ok(()))
    else
      var rows := live(st.store);
      if k >= |rows| then Out(st, Fail(OutOfBounds))
      else if rows[k] >= Count(st.store, cls) then Out(st, Fail(Detached))
      else
        var o := SetProperty(env, st, At(cls, rows[k], i), v, true, false, false);
        if o.res.Fail? then o else SetAllFrom(env, o.st, cls, i, live, v, k + 1, size)
  }

  /** `i` is the position of the named property, if there is one. */
  function SetAll(env: Env, st: State, cls: nat, i: Option<nat>, live: Live, v: Value): Out<()>
    requires HasClass(env, cls)
  {
    if !env.writing then Out(st, Fail(NotInWrite))
    else if i.None? || i.value >= |env.schema[cls].props| then Out(st, Fail(InvalidProperty))
    else if IsPrimary(env, cls, i.value) && !env.migrating then Out(st, Fail(ModifyPrimaryKey))
    else SetAllFrom(env, st, cls, i.value, live, v, 0, |live(st.store)|)
  }

  /** Equal but for column `i` of table `cls`. */
  ghost predicate SameButColumn(s: Store, s': Store, cls: nat, i: nat) {
    && s'.rows == s.rows
    && forall a: Address :: a.cls != cls || a.col != i ==> CellAt(s', a) == CellAt(s, a)
  }

  /** Writing the column takes no object out of the collection and moves none. */
  ghost predicate Undisturbed(live: Live, s: Store, cls: nat, i: nat) {
    forall s' :: SameButColumn(s, s', cls, i) ==> live(s) <= live(s')
  }

  lemma OneFlat(env: Env, st: State, a: Address, v: Value)
    requires Good(env, st.store) && InStore(env, st.store, a)
    requires env.migrating || !IsPrimary(env, a.cls, a.col)
    requires CreatesNothing(Prop(env, a.cls, a.col), v)
    ensures var o := SetProperty(env, st, a, v, true, false, false);
            o.res.Ok? ==>
              && Good(env, o.st.store) && SameButColumn(st.store, o.st.store, a.cls, a.col)
              && o.st.store == PutCell(st.store, a, FlatCell(Prop(env, a.cls, a.col), CellAt(st.store, a), v, false))
  {
    FlatSet(env, st, a, v, true, false, false);
    StartSound(env, st, []);
    SetPropertySound(env, Origin(Machine(st.store, []), |st.log|), st, [], a, v, true, false, false);
  }

  lemma {:induction false} SetAllFromFlat(env: Env, s: Store, st: State, cls: nat, i: nat, live: Live, v: Value, k: nat)
    requires Good(env, st.store) && HasProp(env, cls, i) && k <= |live(s)|
    requires env.migrating || !IsPrimary(env, cls, i)
    requires Undisturbed(live, s, cls, i) && CreatesNothing(Prop(env, cls, i), v) && SameButColumn(s, st.store, cls, i)
    ensures var r := SetAllFrom(env, st, cls, i, live, v, k, |live(s)|);
            r.res.Ok? ==>
              && SameButColumn(s, r.st.store, cls, i)
              && forall row: nat :: CellAt(r.st.store, At(cls, row, i)) ==
                   (var was := CellAt(st.store, At(cls, row, i));
                    if row in live(s)[k..] then FlatCell(Prop(env, cls, i), was, v, false) else was)
    decreases |live(s)| - k
  {
    var rows := live(s);
    if k < |rows| && rows[k] < Count(st.store, cls) {
      assert live(st.store)[k] == rows[k];
      var a := At(cls, rows[k], i);
      OneFlat(env, st, a, v);
      var o := SetProperty(env, st, a, v, true, false, false);
      if o.res.Ok? {
        SetAllFromFlat(env, s, o.st, cls, i, live, v, k + 1);
        assert rows[k..] == [rows[k]] + rows[k + 1..];
      }
    }
  }

  /** A batch of a value that creates no object reaches every object that was in the
      collection at the call, and no other cell of any table changes. */
  lemma SetAllFlat(env: Env, st: State, cls: nat, i: nat, live: Live, v: Value)
    requires Good(env, st.store) && HasProp(env, cls, i)
    requires Undisturbed(live, st.store, cls, i) && CreatesNothing(Prop(env, cls, i), v)
    requires SetAll(env, st, cls, Some(i), live, v).res.Ok?
    ensures var s' := SetAll(env, st, cls, Some(i), live, v).st.store;
            && SameButColumn(st.store, s', cls, i)
            && forall row: nat :: CellAt(s', At(cls, row, i)) ==
                 (var was := CellAt(st.store, At(cls, row, i));
                  if row in live(st.store) then FlatCell(Prop(env, cls, i), was, v, false) else was)
  {
    SetAllFromFlat(env, st.store, st, cls, i, live, v, 0);
    assert live(st.store)[0..] == live(st.store);
  }

  lemma {:induction false} SetAllSound(env: Env, o: Origin, st: State, open: seq<Address>, cls: nat, i: nat, live: Live,
                                       v: Value, k: nat, size: nat)
    requires Sound(env, o, st, open) && HasProp(env, cls, i) && k <= size
    requires env.migrating || !IsPrimary(env, cls, i)
    ensures EndsFrom(env, o, st.store, SetAllFrom(env, st, cls, i, live, v, k, size), open)
    decreases size - k
  {
    if k < size && k < |live(st.store)| && live(st.store)[k] < Count(st.store, cls) {
      var a := At(cls, live(st.store)[k], i);
      SetPropertySound(env, o, st, open, a, v, true, false, false);
      var w := SetProperty(env, st, a, v, true, false, false);
      if w.res.Ok? {
        SetAllSound(env, o, w.st, open, cls, i, live, v, k + 1, size);
        GrowsTransitive(env, st.store, w.st.store, SetAllFrom(env, w.st, cls, i, live, v, k + 1, size).st.store);
      }
    }
  }
}

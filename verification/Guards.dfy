/** What the public calls refuse, and which row or cell they act on when they do not. */
module Guards {
  import opened PropertyTypes
  import opened Values
  import opened Schemas
  import opened Stores
  import opened Terms
  import opened Upsert
  import opened Monitor
  import opened Footprints
  import opened Effects
  import opened Acceptance
  import opened FlatWrites
  import opened Results

  // ----- Object::set_property_value

  predicate Named(env: Env, cls: nat, i: Option<nat>)
    requires HasClass(env, cls)
  {
    i.Some? && i.value < |env.schema[cls].props|
  }

  /** The setter refuses, in this order, a row that is not there, a write outside a
      transaction, a name that no property has, and a primary key outside a
      migration; and it has written nothing then. */
  lemma SetterGuards(env: Env, st: State, cls: nat, row: nat, i: Option<nat>, v: Value, tu: bool)
    requires HasClass(env, cls)
    ensures var o := SetPropertyValue(env, st, cls, row, i, v, tu);
            && (row >= Count(st.store, cls) ==> o == Out(st, Fail(Detached)))
            && (row < Count(st.store, cls) ==>
                  && (!env.writing ==> o == Out(st, Fail(NotInWrite)))
                  && (env.writing && !Named(env, cls, i) ==> o == Out(st, Fail(InvalidProperty)))
                  && (env.writing && Named(env, cls, i) && IsPrimary(env, cls, i.value) && !env.migrating ==>
                        o == Out(st, Fail(ModifyPrimaryKey))))
  {
  }

  /** Where it does not refuse, it writes the cell of the row and property it was asked
      for, and it returns exactly when the value has no fault. */
  lemma SetterWrites(env: Env, st: State, cls: nat, row: nat, i: nat, v: Value, tu: bool)
    requires Ready(env, st) && env.writing && HasProp(env, cls, i) && !IsPrimary(env, cls, i)
    requires row < Count(st.store, cls)
    requires var a := At(cls, row, i); NoRepeats(Own(env, st.store, a) + CellTargets(env, st.store, a, v, false))
    ensures var a, o := At(cls, row, i), SetPropertyValue(env, st, cls, row, Some(i), v, tu);
            && CellWritten(env, st.store, o, a, v, false, CellTargets(env, st.store, a, v, false))
            && (AllManaged(env, st.store, v) ==>
                  Decides(o.res, CellFaults(env, st.store, Prop(env, cls, i), Some(a), v, tu, false,
                                            LinkAt(st.store, a), [])))
  {
    var a := At(cls, row, i);
    SetPropertyEffect(env, st, a, v, tu, false, false);
    if AllManaged(env, st.store, v) {
      SetPropertyDecides(env, st.store, st, a, v, tu, false, false);
    }
  }

  /** The same for a value that creates no object, in migrations and for primary keys
      too: the one cell changes and no other. */
  lemma SetterWritesFlat(env: Env, st: State, cls: nat, row: nat, i: nat, v: Value, tu: bool)
    requires Good(env, st.store) && env.writing && HasProp(env, cls, i) && row < Count(st.store, cls)
    requires env.migrating || !IsPrimary(env, cls, i)
    requires CreatesNothing(Prop(env, cls, i), v)
    ensures var a, o := At(cls, row, i), SetPropertyValue(env, st, cls, row, Some(i), v, tu);
            && Decides(o.res, CellFaults(env, st.store, Prop(env, cls, i), Some(a), v, tu, false,
                                         LinkAt(st.store, a), []))
            && (o.res.Ok? ==>
                  && o.st.store.rows == st.store.rows
                  && CellAt(o.st.store, a) == FlatCell(Prop(env, cls, i), CellAt(st.store, a), v, false)
                  && forall b: Address :: b != a ==> CellAt(o.st.store, b) == CellAt(st.store, b))
  {
    FlatSet(env, st, At(cls, row, i), v, tu, false, false);
    FlatSetDecides(env, st, At(cls, row, i), v, tu, false, false);
  }

  /** All of this as one statement about the outcome of a call. */
  ghost predicate SetterDoes(env: Env, st: State, cls: nat, row: nat, i: Option<nat>, v: Value, tu: bool, o: Out<()>)
    requires HasClass(env, cls)
  {
    if row >= Count(st.store, cls) then o == Out(st, Fail(Detached))
    else if !env.writing then o == Out(st, Fail(NotInWrite))
    else if !Named(env, cls, i) then o == Out(st, Fail(InvalidProperty))
    else if IsPrimary(env, cls, i.value) && !env.migrating then o == Out(st, Fail(ModifyPrimaryKey))
    else
      var a, p := At(cls, row, i.value), Prop(env, cls, i.value);
      var ts := CellTargets(env, st.store, a, v, false);
      && (CreatesNothing(p, v) && Good(env, st.store) && o.res.Ok? ==>
            && o.st.store.rows == st.store.rows
            && CellAt(o.st.store, a) == FlatCell(p, CellAt(st.store, a), v, false)
            && forall b: Address :: b != a ==> CellAt(o.st.store, b) == CellAt(st.store, b))
      && (Ready(env, st) && NoRepeats(Own(env, st.store, a) + ts) ==>
            && CellWritten(env, st.store, o, a, v, false, ts)
            && (AllManaged(env, st.store, v) ==>
                  Decides(o.res, CellFaults(env, st.store, p, Some(a), v, tu, false, LinkAt(st.store, a), []))))
  }

  lemma SetterDoesThis(env: Env, st: State, cls: nat, row: nat, i: Option<nat>, v: Value, tu: bool)
    requires HasClass(env, cls)
    ensures SetterDoes(env, st, cls, row, i, v, tu, SetPropertyValue(env, st, cls, row, i, v, tu))
  {
    SetterGuards(env, st, cls, row, i, v, tu);
    if row < Count(st.store, cls) && env.writing && Named(env, cls, i)
       && (env.migrating || !IsPrimary(env, cls, i.value)) {
      var a := At(cls, row, i.value);
      if CreatesNothing(Prop(env, cls, i.value), v) && Good(env, st.store) {
        SetterWritesFlat(env, st, cls, row, i.value, v, tu);
      }
      if Ready(env, st) && NoRepeats(Own(env, st.store, a) + CellTargets(env, st.store, a, v, false)) {
        SetterWrites(env, st, cls, row, i.value, v, tu);
      }
    }
  }

  // ----- Object::create

  /** A key that a row holds. Without `try_update` the call is refused outside a
      migration, and nothing is written. With it that row, the first one where a
      migration let keys repeat, is the one that is updated and answered. */
  lemma TakenKey(env: Env, st: State, cls: nat, v: Value, tu: bool, d: bool, cur: Option<nat>, key: Key, q: nat)
    requires env.writing && HasClass(env, cls) && Keyed(env, cls) && AsksFor(env, cls, v, key)
    requires q < Count(st.store, cls) && KeyAt(env, st.store, cls, q) == key
    requires NotBefore(env, st.store, cls, key, q) || Ready(env, st)
    ensures !tu && !env.migrating ==> Create(env, st, cls, v, tu, d, cur) == Out(st, Fail(DuplicateKey))
    ensures tu ==> Locate(env, st, cls, v, tu, d, cur) == Out(st, Ok(Located(q, false, true)))
    ensures tu ==> (var r := Create(env, st, cls, v, tu, d, cur); r.res.Ok? ==> r.res.value == q)
  {
    KeyIsAsked(env, cls, v);
    if Ready(env, st) {
      FindKeyIs(env, st.store, cls, key, q);
    }
  }

  /** A key that no row holds: the row is added, whatever `try_update` says. */
  lemma FreeKey(env: Env, st: State, cls: nat, v: Value, tu: bool, d: bool, cur: Option<nat>, key: Key)
    requires env.writing && HasClass(env, cls) && Keyed(env, cls) && AsksFor(env, cls, v, key)
    requires WellFormed(env, st.store)
    requires forall q :: 0 <= q < Count(st.store, cls) ==> KeyAt(env, st.store, cls, q) != key
    ensures var l, row := Locate(env, st, cls, v, tu, d, cur), Count(st.store, cls);
            && l == Out(Emit(env, st, NewRow(cls, Some(key))), Ok(Located(row, true, true)))
            && Count(l.st.store, cls) == row + 1
            && KeyAt(env, l.st.store, cls, row) == key
    ensures var r := Create(env, st, cls, v, tu, d, cur); r.res.Ok? ==> r.res.value == Count(st.store, cls)
  {
    KeyIsAsked(env, cls, v);
    AddRowWellFormed(env, st.store, cls);
  }

  /** Without a key the current row is reused in the diff form only. */
  lemma NoKey(env: Env, st: State, cls: nat, v: Value, tu: bool, d: bool, cur: Option<nat>)
    requires env.writing && HasClass(env, cls) && !Keyed(env, cls)
    ensures var l := Locate(env, st, cls, v, tu, d, cur);
            if d && cur.Some? then l == Out(st, Ok(Located(cur.value, false, true)))
            else l == Out(Emit(env, st, NewRow(cls, None)), Ok(Located(Count(st.store, cls), true, true)))
    ensures var r := Create(env, st, cls, v, tu, d, cur);
            r.res.Ok? ==> r.res.value == if d && cur.Some? then cur.value else Count(st.store, cls)
  {
  }

  /** A tree that gives the key no value, or one of the wrong type, is refused before
      anything is written. */
  lemma BadKey(env: Env, st: State, cls: nat, v: Value, tu: bool, d: bool, cur: Option<nat>)
    requires env.writing && HasClass(env, cls) && Keyed(env, cls)
    requires forall key :: !AsksFor(env, cls, v, key)
    ensures var r := Create(env, st, cls, v, tu, d, cur);
            r.st == st && r.res.Fail? && r.res.error in KeyFaults(env, cls, v)
  {
    KeyIsAsked(env, cls, v);
    assert !AsksFor(env, cls, v, AskedKey(env, cls, v));
  }

  /** All of this as one statement about the outcome of a call. */
  ghost predicate CreateDoes(env: Env, st: State, cls: nat, v: Value, tu: bool, d: bool, cur: Option<nat>, o: Out<nat>)
    requires HasClass(env, cls)
  {
    if !env.writing then o == Out(st, Fail(NotInWrite))
    else if Keyed(env, cls) then
      && (forall key, q: nat :: AsksFor(env, cls, v, key) && Holds(env, st.store, cls, key, q) && Ready(env, st) ==>
            if tu then o.res.Ok? ==> o.res.value == q else o == Out(st, Fail(DuplicateKey)))
      && (forall key :: AsksFor(env, cls, v, key) && WellFormed(env, st.store)
                        && (forall q: nat :: !Holds(env, st.store, cls, key, q)) ==>
            o.res.Ok? ==> o.res.value == Count(st.store, cls))
      && ((forall key :: !AsksFor(env, cls, v, key)) ==>
            o.st == st && o.res.Fail? && o.res.error in KeyFaults(env, cls, v))
    else o.res.Ok? ==> o.res.value == if d && cur.Some? then cur.value else Count(st.store, cls)
  }

  predicate Holds(env: Env, s: Store, cls: nat, key: Key, q: nat)
    requires HasClass(env, cls) && Keyed(env, cls)
  {
    q < Count(s, cls) && KeyAt(env, s, cls, q) == key
  }

  lemma CreateDoesThis(env: Env, st: State, cls: nat, v: Value, tu: bool, d: bool, cur: Option<nat>)
    requires HasClass(env, cls)
    ensures CreateDoes(env, st, cls, v, tu, d, cur, Create(env, st, cls, v, tu, d, cur))
  {
    if env.writing && Keyed(env, cls) {
      forall key, q: nat | AsksFor(env, cls, v, key) && Holds(env, st.store, cls, key, q) && Ready(env, st)
        ensures var o := Create(env, st, cls, v, tu, d, cur);
                if tu then o.res.Ok? ==> o.res.value == q else o == Out(st, Fail(DuplicateKey))
      {
        TakenKey(env, st, cls, v, tu, d, cur, key, q);
      }
      forall key | AsksFor(env, cls, v, key) && WellFormed(env, st.store)
                   && forall q: nat :: !Holds(env, st.store, cls, key, q)
        ensures var o := Create(env, st, cls, v, tu, d, cur); o.res.Ok? ==> o.res.value == Count(st.store, cls)
      {
        forall q: nat | q < Count(st.store, cls)
          ensures KeyAt(env, st.store, cls, q) != key
        {
          assert !Holds(env, st.store, cls, key, q);
        }
        FreeKey(env, st, cls, v, tu, d, cur, key);
      }
      if forall key :: !AsksFor(env, cls, v, key) {
        BadKey(env, st, cls, v, tu, d, cur);
      }
    } else if env.writing {
      NoKey(env, st, cls, v, tu, d, cur);
    }
  }

  // ----- Results::set_property_value

  /** The batch refuses what the setter refuses, before it looks at the collection. */
  lemma BatchGuards(env: Env, st: State, cls: nat, i: Option<nat>, live: Live, v: Value)
    requires HasClass(env, cls)
    ensures var o := SetAll(env, st, cls, i, live, v);
            && (!env.writing ==> o == Out(st, Fail(NotInWrite)))
            && (env.writing && !Named(env, cls, i) ==> o == Out(st, Fail(InvalidProperty)))
            && (env.writing && Named(env, cls, i) && IsPrimary(env, cls, i.value) && !env.migrating ==>
                  o == Out(st, Fail(ModifyPrimaryKey)))
  {
  }
}

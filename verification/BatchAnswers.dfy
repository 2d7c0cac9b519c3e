/** When a batch returns, and what it throws when it does not. */
module BatchAnswers {
  import opened PropertyTypes
  import opened Values
  import opened Schemas
  import opened Stores
  import opened Terms
  import opened Upsert
  import opened Monitor
  import opened Soundness
  import opened Footprints
  import opened Effects
  import opened Acceptance
  import opened FlatWrites
  import opened FlatLogs
  import opened Results
  import opened Batches

  // ----- what was written once has no more faults when it is written again

  /** Rows and keys since `s` were only added. */
  ghost predicate Later(env: Env, s: Store, s': Store) {
    !env.migrating && Good(env, s) && Good(env, s') && Grows(env, s, s')
  }

  lemma {:induction false} ObjectShrinks(env: Env, s: Store, s': Store, cls: nat, v: Value, cur: Option<nat>,
                                         cur': Option<nat>)
    requires HasClass(env, cls) && Later(env, s, s') && AllManaged(env, s, v)
    ensures ObjectFaults(env, s', cls, v, true, false, cur') <= ObjectFaults(env, s, cls, v, true, false, cur)
    decreases Weight(v), 4, 0
  {
    if Keyed(env, cls) && KeyFaults(env, cls, v) == {} {
      var key := AskedKey(env, cls, v);
      var row := FindKey(env, s, cls, key);
      if row.Some? {
        FindKeyIs(env, s', cls, key, row.value);
      }
      FieldsShrink(env, s, s', cls, v, row, FindKey(env, s', cls, key), 0);
    } else if !Keyed(env, cls) {
      FieldsShrink(env, s, s', cls, v, None, None, 0);
    }
  }

  lemma {:induction false} FieldsShrink(env: Env, s: Store, s': Store, cls: nat, v: Value, row: Option<nat>,
                                        row': Option<nat>, i: nat)
    requires HasClass(env, cls) && Later(env, s, s') && AllManaged(env, s, v) && (row.Some? ==> row' == row)
    ensures FieldFaults(env, s', cls, v, row', true, false, i) <= FieldFaults(env, s, cls, v, row, true, false, i)
    decreases Weight(v), 3, |env.schema[cls].props| - i
  {
    if i < |env.schema[cls].props| {
      PropShrinks(env, s, s', cls, v, row, row', i);
      FieldsShrink(env, s, s', cls, v, row, row', i + 1);
    }
  }

  lemma {:induction false} PropShrinks(env: Env, s: Store, s': Store, cls: nat, v: Value, row: Option<nat>,
                                       row': Option<nat>, i: nat)
    requires HasProp(env, cls, i) && Later(env, s, s') && AllManaged(env, s, v) && (row.Some? ==> row' == row)
    ensures PropFaults(env, s', cls, v, row', true, false, i) <= PropFaults(env, s, cls, v, row, true, false, i)
    decreases Weight(v), 2, 0
  {
    var x := GivenOrDefault(env, cls, v, i, row'.None?);
    if IsSet(env, cls, i) && x.Some? {
      assert x == GivenOrDefault(env, cls, v, i, row.None?);
      DueManaged(env, s, cls, v, i, row.None?);
      CellShrinks(env, s, s', Prop(env, cls, i), if row.Some? then Some(At(cls, row.value, i)) else None,
                  if row'.Some? then Some(At(cls, row'.value, i)) else None, x.value, LinkSeen(s, cls, row, i),
                  LinkSeen(s', cls, row', i));
    }
  }

  lemma {:induction false} CellShrinks(env: Env, s: Store, s': Store, p: Property, at: Option<Address>,
                                       at': Option<Address>, v: Value, link: Option<nat>, link': Option<nat>)
    requires ValidProperty(|env.schema|, p) && Later(env, s, s') && AllManaged(env, s, v) && (at.Some? ==> at' == at)
    ensures CellFaults(env, s', p, at', v, true, false, link', [])
         <= CellFaults(env, s, p, at, v, true, false, link, [])
    decreases Weight(v), if IsLink(p) then 6 else 1, 0
  {
    if p.ptype.isArray {
      if v.Arr? {
        ItemsShrink(env, s, s', p, v.elems, 0);
      }
    } else if p.ptype.base.Object? && !v.Null? {
      RowShrinks(env, s, s', p, v, link, link');
    }
  }

  lemma {:induction false} RowShrinks(env: Env, s: Store, s': Store, p: Property, v: Value, cur: Option<nat>,
                                      cur': Option<nat>)
    requires ValidProperty(|env.schema|, p) && p.ptype.base.Object? && Later(env, s, s') && AllManaged(env, s, v)
    ensures RowFaults(env, s', p, v, true, false, cur') <= RowFaults(env, s, p, v, true, false, cur)
    decreases Weight(v), 5, 0
  {
    if !v.Ref? {
      ObjectShrinks(env, s, s', p.target, v, cur, cur');
    }
  }

  lemma {:induction false} ItemsShrink(env: Env, s: Store, s': Store, p: Property, es: seq<Value>, k: nat)
    requires ValidProperty(|env.schema|, p) && k <= |es| && Later(env, s, s') && AllManaged(env, s, Arr(es))
    ensures ItemFaults(env, s', p, es, [], 0, true, k) <= ItemFaults(env, s, p, es, [], 0, true, k)
    decreases Weight(Arr(es)), 0, |es| - k
  {
    if k < |es| {
      ElemWeight(es, k);
      assert Managed(s, es[k]);
      if p.ptype.base.Object? {
        RowShrinks(env, s, s', p, es[k], CurrentAt([], 0, k), CurrentAt([], 0, k));
      }
      ItemsShrink(env, s, s', p, es, k + 1);
    }
  }

  // ----- the batch

  /** What is wrong with the value for the property of this object. */
  function BatchFaults(env: Env, s: Store, cls: nat, i: nat, row: nat, v: Value): set<Error>
    requires HasProp(env, cls, i)
  {
    CellFaults(env, s, Prop(env, cls, i), Some(At(cls, row, i)), v, true, false, None, [])
  }

  /** Normal exactly when nothing is wrong for any of these objects; an exception names
      something that is wrong for one of them. */
  predicate BatchDecides(env: Env, s: Store, cls: nat, i: nat, rows: seq<nat>, v: Value, res: Result<()>)
    requires HasProp(env, cls, i)
  {
    && (res.Ok? <==> forall j :: 0 <= j < |rows| ==> BatchFaults(env, s, cls, i, rows[j], v) == {})
    && (res.Fail? ==> exists j :: 0 <= j < |rows| && res.error in BatchFaults(env, s, cls, i, rows[j], v))
  }

  lemma LinkUnused(env: Env, s: Store, p: Property, at: Option<Address>, v: Value, link: Option<nat>,
                   link': Option<nat>)
    requires ValidProperty(|env.schema|, p)
    ensures CellFaults(env, s, p, at, v, true, false, link', []) == CellFaults(env, s, p, at, v, true, false, link, [])
  {
    if IsLink(p) && !v.Null? && !v.Ref? {
      assert ObjectFaults(env, s, p.target, v, true, false, link')
          == ObjectFaults(env, s, p.target, v, true, false, link);
    }
  }

  /** Only a managed list is right for one object and wrong for another. */
  lemma OtherObject(env: Env, s: Store, cls: nat, i: nat, row: nat, other: nat, v: Value)
    requires HasProp(env, cls, i) && !v.SameList?
    ensures BatchFaults(env, s, cls, i, row, v) == BatchFaults(env, s, cls, i, other, v)
  {
  }

  /** One write of the batch: it is refused exactly where the tables of the call would
      have it refused, since the value was right for the first object. */
  lemma WriteDecides(env: Env, s: Store, st: State, rows: seq<nat>, cls: nat, i: nat, v: Value, ts: seq<Target>, k: nat)
    requires Batch(env, s, rows, cls, i, v, ts) && k < |rows| && env.writing && AllManaged(env, s, v)
    requires Good(env, st.store) && Grows(env, s, st.store) && (k == 0 ==> st.store == s)
    requires k > 0 ==> BatchFaults(env, s, cls, i, rows[0], v) == {}
    ensures Decides(SetProperty(env, st, At(cls, rows[k], i), v, true, false, false).res,
                    BatchFaults(env, s, cls, i, rows[k], v))
  {
    var a, p, own := At(cls, rows[k], i), Prop(env, cls, i), [TargetOf(env, s, cls, rows[k])];
    SameValues(env, s, st.store, p, v, false, false, None, LinkAt(st.store, a), [], []);
    assert Own(env, st.store, a) == own && CellTargets(env, st.store, a, v, false) == ts;
    NoRepeatsJoin(own[0], ts);
    SetPropertyDecides(env, s, st, a, v, true, false, false);
    CellShrinks(env, s, st.store, p, Some(a), Some(a), v, None, LinkAt(st.store, a));
    if k == 0 {
      LinkUnused(env, s, p, Some(a), v, None, LinkAt(s, a));
    } else if !v.SameList? {
      OtherObject(env, s, cls, i, rows[0], rows[k], v);
    }
  }

  lemma {:induction false} SetAllFromDecides(env: Env, s: Store, st: State, cls: nat, i: nat, live: Live, v: Value,
                                             ts: seq<Target>, k: nat)
    requires Batch(env, s, live(s), cls, i, v, ts) && Independent(env, live, s, cls, i, ts) && k <= |live(s)|
    requires Reached(env, s, st.store, live(s), cls, i, v, ts, k) && (k == 0 ==> st.store == s)
    requires env.writing && AllManaged(env, s, v)
    requires 0 < k < |live(s)| ==> BatchFaults(env, s, cls, i, live(s)[0], v) == {}
    ensures BatchDecides(env, s, cls, i, live(s)[k..], v, SetAllFrom(env, st, cls, i, live, v, k, |live(s)|).res)
    decreases |live(s)| - k
  {
    var rows := live(s);
    if k < |rows| {
      var o := SetProperty(env, st, At(cls, rows[k], i), v, true, false, false);
      OneTurn(env, s, st, cls, i, live, v, ts, k);
      if o.res.Ok? {
        SetAllFromDecides(env, s, o.st, cls, i, live, v, ts, k + 1);
      }
      DecidesNext(env, s, cls, i, rows, v, k, o.res, SetAllFrom(env, st, cls, i, live, v, k, |rows|).res);
    }
  }

  lemma OneTurn(env: Env, s: Store, st: State, cls: nat, i: nat, live: Live, v: Value, ts: seq<Target>, k: nat)
    requires Batch(env, s, live(s), cls, i, v, ts) && Independent(env, live, s, cls, i, ts) && k < |live(s)|
    requires Reached(env, s, st.store, live(s), cls, i, v, ts, k) && (k == 0 ==> st.store == s)
    requires env.writing && AllManaged(env, s, v) && (k > 0 ==> BatchFaults(env, s, cls, i, live(s)[0], v) == {})
    ensures var o := SetProperty(env, st, At(cls, live(s)[k], i), v, true, false, false);
            && Decides(o.res, BatchFaults(env, s, cls, i, live(s)[k], v))
            && (o.res.Ok? ==> Reached(env, s, o.st.store, live(s), cls, i, v, ts, k + 1))
            && SetAllFrom(env, st, cls, i, live, v, k, |live(s)|)
                 == if o.res.Fail? then o else SetAllFrom(env, o.st, cls, i, live, v, k + 1, |live(s)|)
  {
    StillThere(env, live, s, st.store, cls, i, ts, k);
    WriteDecides(env, s, st, live(s), cls, i, v, ts, k);
    if SetProperty(env, st, At(cls, live(s)[k], i), v, true, false, false).res.Ok? {
      NextReached(env, s, st, live(s), cls, i, v, ts, k);
    }
  }

  lemma DecidesNext(env: Env, s: Store, cls: nat, i: nat, rows: seq<nat>, v: Value, k: nat, first: Result<()>,
                    res: Result<()>)
    requires HasProp(env, cls, i) && k < |rows| && Decides(first, BatchFaults(env, s, cls, i, rows[k], v))
    requires if first.Ok? then BatchDecides(env, s, cls, i, rows[k + 1..], v, res) else res == first
    ensures BatchDecides(env, s, cls, i, rows[k..], v, res)
  {
    assert rows[k..][0] == rows[k];
    forall j | 0 < j < |rows| - k
      ensures rows[k..][j] == rows[k + 1..][j - 1]
    {
    }
    if first.Ok? && res.Fail? {
      var j :| 0 <= j < |rows[k + 1..]| && res.error in BatchFaults(env, s, cls, i, rows[k + 1..][j], v);
      assert rows[k..][j + 1] == rows[k + 1..][j];
    }
  }

  /** A batch of any value returns exactly when nothing is wrong with the value for any
      object of the collection, judged by the tables at the call: what the writes to
      the first objects add makes no later one fail, a key that the first write
      created among it. */
  lemma SetAllDecides(env: Env, st: State, cls: nat, i: nat, live: Live, v: Value)
    requires Ready(env, st) && HasProp(env, cls, i) && !IsPrimary(env, cls, i) && env.writing
    requires AllManaged(env, st.store, v)
    requires var ts := BatchTargets(env, st.store, cls, i, v);
             && NoRepeats(ts) && Clear(env, st.store, live(st.store), cls, ts)
             && Independent(env, live, st.store, cls, i, ts)
    ensures BatchDecides(env, st.store, cls, i, live(st.store), v, SetAll(env, st, cls, Some(i), live, v).res)
  {
    var s, ts := st.store, BatchTargets(env, st.store, cls, i, v);
    SameValues(env, s, s, Prop(env, cls, i), v, false, false, None, None, [], []);
    SetAllFromDecides(env, s, st, cls, i, live, v, ts, 0);
    assert live(s)[0..] == live(s);
  }

  // ----- values that create no object, in a migration or not

  lemma {:induction false} SetAllFromFlatDecides(env: Env, s: Store, st: State, cls: nat, i: nat, live: Live, v: Value,
                                                 k: nat)
    requires Good(env, st.store) && HasProp(env, cls, i) && k <= |live(s)| && SameButColumn(s, st.store, cls, i)
    requires env.migrating || !IsPrimary(env, cls, i)
    requires Undisturbed(live, s, cls, i) && CreatesNothing(Prop(env, cls, i), v)
    requires forall row :: row in live(s) ==> row < Count(s, cls)
    ensures BatchDecides(env, s, cls, i, live(s)[k..], v, SetAllFrom(env, st, cls, i, live, v, k, |live(s)|).res)
    decreases |live(s)| - k
  {
    var rows := live(s);
    if k < |rows| {
      assert live(st.store)[k] == rows[k] && rows[k] in rows;
      var a, p := At(cls, rows[k], i), Prop(env, cls, i);
      FlatSetDecides(env, st, a, v, true, false, false);
      FlatCellFaults(env, s, st.store, p, Some(a), Some(a), v, true, false, None, [], LinkAt(st.store, a), []);
      var o := SetProperty(env, st, a, v, true, false, false);
      if o.res.Ok? {
        OneFlat(env, st, a, v);
        SetAllFromFlatDecides(env, s, o.st, cls, i, live, v, k + 1);
      }
      DecidesNext(env, s, cls, i, rows, v, k, o.res, SetAllFrom(env, st, cls, i, live, v, k, |rows|).res);
    }
  }

  lemma SetAllFlatDecides(env: Env, st: State, cls: nat, i: nat, live: Live, v: Value)
    requires Good(env, st.store) && HasProp(env, cls, i) && env.writing && (env.migrating || !IsPrimary(env, cls, i))
    requires Undisturbed(live, st.store, cls, i) && CreatesNothing(Prop(env, cls, i), v)
    requires forall row :: row in live(st.store) ==> row < Count(st.store, cls)
    ensures BatchDecides(env, st.store, cls, i, live(st.store), v, SetAll(env, st, cls, Some(i), live, v).res)
  {
    SetAllFromFlatDecides(env, st.store, st, cls, i, live, v, 0);
    assert live(st.store)[0..] == live(st.store);
  }

  /** `log` followed by one bracket for each object, in the order of the collection. */
  function BatchLog(log: seq<Event>, env: Env, cls: nat, i: nat, rows: seq<nat>, v: Value): seq<Event>
    requires HasProp(env, cls, i)
    decreases |rows|
  {
    if rows == [] then log
    else
      var a := At(cls, rows[0], i);
      BatchLog(log + ([Will(a)] + Writes(Prop(env, cls, i), a, One(None), v, false, false) + [Did]),
               env, cls, i, rows[1..], v)
  }

  /** The full form does not look at what the cell held. */
  lemma WritesInFull(p: Property, a: Address, was: Cell, v: Value)
    ensures Writes(p, a, was, v, false, false) == Writes(p, a, One(None), v, false, false)
  {
  }

  lemma {:induction false} SetAllFromLog(env: Env, s: Store, st: State, cls: nat, i: nat, live: Live, v: Value, k: nat)
    requires Good(env, st.store) && HasProp(env, cls, i) && k <= |live(s)| && SameButColumn(s, st.store, cls, i)
    requires env.migrating || !IsPrimary(env, cls, i)
    requires Undisturbed(live, s, cls, i) && CreatesNothing(Prop(env, cls, i), v)
    ensures var o := SetAllFrom(env, st, cls, i, live, v, k, |live(s)|);
            o.res.Ok? ==> o.st.log == BatchLog(st.log, env, cls, i, live(s)[k..], v)
    decreases |live(s)| - k
  {
    var rows := live(s);
    if k < |rows| && rows[k] < Count(st.store, cls) {
      assert live(st.store)[k] == rows[k];
      var a := At(cls, rows[k], i);
      FlatSetLog(env, st, a, v, true, false, false);
      WritesInFull(Prop(env, cls, i), a, CellAt(st.store, a), v);
      var o := SetProperty(env, st, a, v, true, false, false);
      if o.res.Ok? {
        OneFlat(env, st, a, v);
        SetAllFromLog(env, s, o.st, cls, i, live, v, k + 1);
        assert rows[k..][1..] == rows[k + 1..];
      }
    }
  }

  /** A batch writes the objects in the order of the collection, each of them once for
      every time it is there. */
  lemma SetAllFlatLog(env: Env, st: State, cls: nat, i: nat, live: Live, v: Value)
    requires Good(env, st.store) && HasProp(env, cls, i)
    requires Undisturbed(live, st.store, cls, i) && CreatesNothing(Prop(env, cls, i), v)
    ensures var o := SetAll(env, st, cls, Some(i), live, v);
            o.res.Ok? ==> o.st.log == BatchLog(st.log, env, cls, i, live(st.store), v)
  {
    if SetAll(env, st, cls, Some(i), live, v).res.Ok? {
      SetAllFromLog(env, st.store, st, cls, i, live, v, 0);
      assert live(st.store)[0..] == live(st.store);
    }
  }

  // ----- a collection that the batch disturbs

  /** The rows of class 0 whose integer is 1. */
  function Ones(s: Store): seq<nat> {
    OnesBelow(s, Count(s, 0))
  }

  function OnesBelow(s: Store, n: nat): seq<nat> {
    if n == 0 then []
    else OnesBelow(s, n - 1) + if ScalarAt(s, At(0, n - 1, 0)) == Some(IntV(1)) then [n - 1] else []
  }

  const INT_CLASS := RawEnv([ObjectSchema([Property(PropType(Int, false, false), 0, None)], None)], false, true)
  const TWO_ONES := Store([2], map[At(0, 0, 0) := One(Some(IntV(1))), At(0, 1, 0) := One(Some(IntV(1)))])

  lemma TwoOnes()
    ensures ValidEnv(INT_CLASS) && Good(INT_CLASS, TWO_ONES) && Ones(TWO_ONES) == [0, 1]
  {
    assert OnesBelow(TWO_ONES, 0) == [] && OnesBelow(TWO_ONES, 1) == [0];
  }

  /** After the first write at most one object is left. */
  lemma Disturbed(env: Env, st: State, cls: nat, i: nat, live: Live, v: Value, o: Out<()>)
    requires HasProp(env, cls, i) && env.writing && (env.migrating || !IsPrimary(env, cls, i))
    requires |live(st.store)| > 1 && live(st.store)[0] < Count(st.store, cls)
    requires o == SetProperty(env, st, At(cls, live(st.store)[0], i), v, true, false, false)
    requires o.res.Ok? && |live(o.st.store)| <= 1
    ensures SetAll(env, st, cls, Some(i), live, v) == Out(o.st, Fail(OutOfBounds))
  {
    var size := |live(st.store)|;
    assert SetAllFrom(env, st, cls, i, live, v, 0, size) == SetAllFrom(env, o.st, cls, i, live, v, 1, size);
  }

  lemma OneIsGone()
    ensures ValidEnv(INT_CLASS)
    ensures var o := SetProperty(INT_CLASS, State(TWO_ONES, []), At(0, 0, 0), Leaf(IntV(2)), true, false, false);
            && o.res.Ok? && Ones(o.st.store) == [1] && Count(o.st.store, 0) == 2
            && CellAt(o.st.store, At(0, 0, 0)) == One(Some(IntV(2)))
            && CellAt(o.st.store, At(0, 1, 0)) == One(Some(IntV(1)))
  {
    var env: Env := INT_CLASS;
    var o := SetProperty(env, State(TWO_ONES, []), At(0, 0, 0), Leaf(IntV(2)), true, false, false);
    assert OnesBelow(o.st.store, 0) == [] && OnesBelow(o.st.store, 1) == [];
  }

  /** The size is taken once, at the call, and the collection is live: where the write
      takes an object out of it, the batch passes over the object that moved up and
      ends by asking for one that is no longer there. */
  lemma ShrinkingBatch()
    ensures ValidEnv(INT_CLASS) && Good(INT_CLASS, TWO_ONES) && Ones(TWO_ONES) == [0, 1]
    ensures var o := SetAll(INT_CLASS, State(TWO_ONES, []), 0, Some(0), Ones, Leaf(IntV(2)));
            && o.res == Fail(OutOfBounds)
            && CellAt(o.st.store, At(0, 0, 0)) == One(Some(IntV(2)))
            && CellAt(o.st.store, At(0, 1, 0)) == One(Some(IntV(1)))
  {
    var env: Env := INT_CLASS;
    var st := State(TWO_ONES, []);
    TwoOnes();
    OneIsGone();
    var o := SetProperty(env, st, At(0, 0, 0), Leaf(IntV(2)), true, false, false);
    Disturbed(env, st, 0, 0, Ones, Leaf(IntV(2)), o);
  }
}

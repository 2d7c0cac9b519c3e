/** A diff upsert over tables that already reflect the tree writes nothing. */
module Idempotence {
  import opened PropertyTypes
  import opened Values
  import opened Schemas
  import opened Stores
  import opened Upsert
  import opened Monitor
  import opened Footprints
  import opened Effects

  /** Notifications, and clearing a list that is empty already. */
  predicate QuietEvent(s: Store, e: Event) {
    e.Will? || e.Did? || (e.ListClear? && ListAt(s, e.a) == [])
  }

  ghost predicate Quiet(st: State, st': State) {
    && st'.store == st.store
    && |st.log| <= |st'.log| && st'.log[..|st.log|] == st.log
    && forall i :: |st.log| <= i < |st'.log| ==> QuietEvent(st.store, st'.log[i])
  }

  lemma QuietTransitive(st: State, st': State, st'': State)
    requires Quiet(st, st') && Quiet(st', st'')
    ensures Quiet(st, st'')
  {
    assert st''.log[..|st.log|] == st''.log[..|st'.log|][..|st.log|];
    forall i | |st.log| <= i < |st''.log| ensures QuietEvent(st.store, st''.log[i]) {
      if i < |st'.log| {
        assert st''.log[i] == st''.log[..|st'.log|][i];
      }
    }
  }

  lemma QuietEmit(env: Env, st: State, e: Event)
    requires e.Will? || e.Did?
    ensures Quiet(st, Emit(env, st, e))
  {
  }

  lemma QuietClear(env: Env, st: State, a: Address)
    requires Good(env, st.store) && InStore(env, st.store, a) && Prop(env, a.cls, a.col).ptype.isArray
    requires ListAt(st.store, a) == []
    ensures Quiet(st, Emit(env, st, ListClear(a)))
  {
    assert CellOk(env, st.store, a);
    assert st.store.cells[a := Many([])] == st.store.cells;
  }

  lemma {:induction false} CreateQuiet(env: Env, lo: Store, st: State, cls: nat, row: nat, v: Value,
                                       cur: Option<nat>, d: bool, ts: seq<Target>)
    requires Ready(env, st) && env.writing && HasClass(env, cls)
    requires Reflects(env, lo, st.store, cls, row, v, d, ts)
    requires Keyed(env, cls) || cur == Some(row)
    ensures var r := Create(env, st, cls, v, true, true, cur);
            r.res == Ok(row) && Quiet(st, r.st)
    decreases Weight(v), 5, 0
  {
    if Keyed(env, cls) {
      FindKeyIs(env, st.store, cls, KeyAt(env, st.store, cls, row), row);
    }
    PopulateQuiet(env, lo, st, cls, row, v, d, ts, 0);
  }

  lemma {:induction false} PopulateQuiet(env: Env, lo: Store, st: State, cls: nat, row: nat, v: Value,
                                         d: bool, ts: seq<Target>, i: nat)
    requires Ready(env, st) && env.writing && HasClass(env, cls) && row < Count(st.store, cls)
    requires forall j: nat :: HasProp(env, cls, j) ==> FieldReflects(env, lo, st.store, At(cls, row, j), v, d, ts)
    ensures var r := Populate(env, st, cls, v, Located(row, false, true), true, true, i);
            r.res.Ok? && Quiet(st, r.st)
    decreases Weight(v), 4, |env.schema[cls].props| - i
  {
    if i < |env.schema[cls].props| {
      var a := At(cls, row, i);
      assert FieldReflects(env, lo, st.store, a, v, d, ts);
      var c := Choose(env, cls, v, i, false, true);
      if c == Ok(None) {
        PopulateQuiet(env, lo, st, cls, row, v, d, ts, i + 1);
      } else {
        var x := Lookup(v, i).value.value;
        assert CellReflects(env, lo, st.store, a, x, d, ts);
        assert x.Null? ==> Prop(env, cls, i).ptype.nullable || Prop(env, cls, i).ptype.isArray;
        assert c == Ok(Some(Chosen(x, false)));
        SetPropertyQuiet(env, lo, st, a, x, d, ts);
        var w := SetProperty(env, st, a, x, true, true, false);
        PopulateQuiet(env, lo, w.st, cls, row, v, d, ts, i + 1);
        QuietTransitive(st, w.st, Populate(env, w.st, cls, v, Located(row, false, true), true, true, i + 1).st);
      }
    }
  }

  lemma {:induction false} SetPropertyQuiet(env: Env, lo: Store, st: State, a: Address, v: Value, d: bool,
                                            ts: seq<Target>)
    requires Ready(env, st) && env.writing && InStore(env, st.store, a)
    requires CellReflects(env, lo, st.store, a, v, d, ts)
    ensures var r := SetProperty(env, st, a, v, true, true, false);
            r.res.Ok? && Quiet(st, r.st)
    decreases Weight(v), if IsLink(Prop(env, a.cls, a.col)) then 8 else 3, 0
  {
    var p := Prop(env, a.cls, a.col);
    var st1 := Emit(env, st, Will(a));
    QuietEmit(env, st, Will(a));
    var body;
    if p.ptype.nullable && v.Null? {
      body := WriteNull(env, st1, a, p, true, false);
    } else if p.ptype.isArray {
      body := Assign(env, st1, a, v, true, true);
      AssignQuiet(env, lo, st1, a, v, d, ts);
    } else if p.ptype.base.Object? {
      body := WriteLink(env, st1, a, v, true, true, false);
      RowQuiet(env, lo, st1, p, v, LinkAt(st1.store, a).value, d, ts);
    } else {
      body := WriteScalar(env, st1, a, p, v, true, false);
    }
    assert body.res.Ok? && Quiet(st1, body.st);
    QuietEmit(env, body.st, Did);
    QuietTransitive(st, st1, body.st);
    QuietTransitive(st, body.st, Emit(env, body.st, Did));
  }

  lemma {:induction false} RowQuiet(env: Env, lo: Store, st: State, p: Property, v: Value, r: nat, d: bool,
                                    ts: seq<Target>)
    requires Ready(env, st) && env.writing && ValidProperty(|env.schema|, p) && p.ptype.base.Object?
    requires RowReflects(env, lo, st.store, p, v, r, d, ts)
    ensures var u := UnboxRow(env, st, p, v, true, true, Some(r));
            u.res == Ok(r) && Quiet(st, u.st)
    decreases Weight(v), 6, 0
  {
    if !v.Ref? {
      CreateQuiet(env, lo, st, p.target, r, v, Some(r), d, ts);
    }
  }

  lemma {:induction false} AssignQuiet(env: Env, lo: Store, st: State, a: Address, v: Value, d: bool, ts: seq<Target>)
    requires Ready(env, st) && env.writing && InStore(env, st.store, a)
    requires Prop(env, a.cls, a.col).ptype.isArray && !(Prop(env, a.cls, a.col).ptype.nullable && v.Null?)
    requires CellReflects(env, lo, st.store, a, v, d, ts)
    ensures var r := Assign(env, st, a, v, true, true);
            r.res.Ok? && Quiet(st, r.st)
    decreases Weight(v), 2, 0
  {
    if v.Null? {
      QuietClear(env, st, a);
    } else if v.Arr? {
      AssignFromQuiet(env, lo, st, a, v.elems, 0, if d then OldList(lo, a) else [], ts);
    }
  }

  lemma {:induction false} AssignFromQuiet(env: Env, lo: Store, st: State, a: Address, es: seq<Value>, k: nat,
                                           was: seq<Item>, ts: seq<Target>)
    requires Ready(env, st) && env.writing && InStore(env, st.store, a) && k <= |es|
    requires ListReflects(env, lo, st.store, Prop(env, a.cls, a.col), es, ListAt(st.store, a), was, ts)
    ensures var r := AssignFrom(env, st, a, es, k, |es|, true);
            r.res.Ok? && Quiet(st, r.st)
    decreases Weight(Arr(es)), 1, |es| - k
  {
    if k < |es| {
      ElemWeight(es, k);
      var p, item := Prop(env, a.cls, a.col), ListAt(st.store, a)[k];
      assert ItemReflects(env, lo, st.store, p, es[k], item, k < |was|, ts);
      if p.ptype.base.Object? {
        RowQuiet(env, lo, st, p, es[k], item.r, k < |was|, ts);
      }
      var u := UnboxItem(env, st, p, es[k], true, true, CurrentRow(item));
      assert u.res == Ok(item) && Quiet(st, u.st);
      var e := Element(env, st, a, es, k, |es|, true);
      assert e == Out(u.st, Ok(()));
      AssignFromQuiet(env, lo, e.st, a, es, k + 1, was, ts);
      QuietTransitive(st, e.st, AssignFrom(env, e.st, a, es, k + 1, |es|, true).st);
    }
  }

  /** Upserting a tree twice: after a first call, full or diff, that returned
      normally, a second diff call answers the same row, leaves the tables as they
      are and logs nothing but notifications and the clearing of empty lists. The
      tree repeats no primary key and reaches no keyless row twice. */
  lemma SecondUpsertIsQuiet(env: Env, st: State, cls: nat, v: Value, tu: bool, d: bool, cur: Option<nat>,
                            cur2: Option<nat>)
    requires Ready(env, st) && HasClass(env, cls) && RowOk(st.store, cls, cur)
    requires NoRepeats(ObjectTargets(env, st.store, cls, v, d, cur))
    requires Create(env, st, cls, v, tu, d, cur).res.Ok?
    requires Keyed(env, cls) || cur2 == Some(Create(env, st, cls, v, tu, d, cur).res.value)
    ensures var first := Create(env, st, cls, v, tu, d, cur);
            var second := Create(env, first.st, cls, v, true, true, cur2);
            second.res == first.res && Quiet(first.st, second.st)
  {
    CreateEffect(env, st, cls, v, tu, d, cur);
    var first := Create(env, st, cls, v, tu, d, cur);
    var ts := ObjectTargets(env, st.store, cls, v, d, cur);
    CreateQuiet(env, st.store, first.st, cls, first.res.value, v, cur2, d, ts);
  }
}

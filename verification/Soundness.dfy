/** The engine against the monitor: every call, however it ends, logs only what the
    monitor permits and leaves the tables that the log leads to. */
module Soundness {
  import opened PropertyTypes
  import opened Values
  import opened Schemas
  import opened Stores
  import opened Upsert
  import opened Monitor

  /** Where the replay starts: a machine and the length of the log at that point. */
  datatype Origin = Origin(m: Machine, from: nat)

  /** The log since the origin is accepted, ends in these tables, and leaves `open` open. */
  ghost predicate Sound(env: Env, o: Origin, st: State, open: seq<Address>) {
    && o.from <= |st.log|
    && Replay(env, o.m, st.log[o.from..]) == Some(Machine(st.store, open))
    && Good(env, st.store)
  }

  /** As `Sound`, where the run was cut short by an exception and left brackets open. */
  ghost predicate Stopped(env: Env, o: Origin, st: State) {
    && o.from <= |st.log|
    && Good(env, st.store)
    && (var m := Replay(env, o.m, st.log[o.from..]); m.Some? && m.value.store == st.store)
  }

  ghost predicate Ends<T>(env: Env, o: Origin, out: Out<T>, open: seq<Address>) {
    if out.res.Ok? then Sound(env, o, out.st, open) else Stopped(env, o, out.st)
  }

  /** As `Ends`, and since `s` tables only grew. */
  ghost predicate EndsFrom<T>(env: Env, o: Origin, s: Store, out: Out<T>, open: seq<Address>) {
    Ends(env, o, out, open) && Grows(env, s, out.st.store)
  }

  lemma EndsLater(env: Env, o: Origin, s: Store, s1: Store, r: Out<()>, open: seq<Address>)
    requires Grows(env, s, s1) && EndsFrom(env, o, s1, r, open)
    ensures EndsFrom(env, o, s, r, open)
  {
    GrowsTransitive(env, s, s1, r.st.store);
  }

  lemma StartSound(env: Env, st: State, open: seq<Address>)
    requires Good(env, st.store)
    ensures Sound(env, Origin(Machine(st.store, open), |st.log|), st, open)
  {
    assert st.log[|st.log|..] == [];
  }

  lemma EmitSound(env: Env, o: Origin, st: State, open: seq<Address>, e: Event)
    requires Sound(env, o, st, open) && Permitted(env, Machine(st.store, open), e)
    ensures Sound(env, o, Emit(env, st, e), OpenAfter(open, e))
    ensures Grows(env, st.store, Emit(env, st, e).store)
  {
    EventKeepsGood(env, Machine(st.store, open), e);
    var log := Emit(env, st, e).log[o.from..];
    assert log[..|log| - 1] == st.log[o.from..];
  }

  /** The bracket that is open while cell `a` is written. */
  predicate Inside(env: Env, s: Store, open: seq<Address>, a: Address) {
    Writable(env, Machine(s, open), a)
  }

  lemma AppendSound(env: Env, o: Origin, st: State, open: seq<Address>, cls: nat, key: Option<Key>, skip: bool)
    requires Sound(env, o, st, open) && RowPermitted(env, st.store, cls, key)
    ensures var r := Append(env, st, cls, key, skip);
            Sound(env, o, r.st, open) && Grows(env, st.store, r.st.store) && r.res.value.row < Count(r.st.store, cls)
  {
    EmitSound(env, o, st, open, NewRow(cls, key));
    AddRowWellFormed(env, st.store, cls);
  }

  lemma LocateSound(env: Env, o: Origin, st: State, open: seq<Address>,
                    cls: nat, v: Value, tu: bool, d: bool, cur: Option<nat>)
    requires HasClass(env, cls) && Sound(env, o, st, open) && RowOk(st.store, cls, cur)
    ensures var r := Locate(env, st, cls, v, tu, d, cur);
            && Sound(env, o, r.st, open) && Grows(env, st.store, r.st.store)
            && (r.res.Ok? ==> r.res.value.row < Count(r.st.store, cls))
            && (r.res.Ok? ==> r.res.value.skipPrimary || env.migrating)
  {
    if Keyed(env, cls) {
      KeyFits(env, cls, v);
      if KeyOf(env, cls, v).Ok? {
        var key := KeyOf(env, cls, v).value;
        if FindKey(env, st.store, cls, key).None? {
          AppendSound(env, o, st, open, cls, Some(key), true);
        } else if !tu && env.migrating {
          AppendSound(env, o, st, open, cls, None, false);
        }
      }
    } else if !(d && cur.Some?) {
      AppendSound(env, o, st, open, cls, None, true);
    }
  }

  lemma {:induction false} CreateSound(env: Env, o: Origin, st: State, open: seq<Address>,
                                       cls: nat, v: Value, tu: bool, d: bool, cur: Option<nat>)
    requires HasClass(env, cls) && Sound(env, o, st, open) && RowOk(st.store, cls, cur)
    ensures var r := Create(env, st, cls, v, tu, d, cur);
            && EndsFrom(env, o, st.store, r, open)
            && (r.res.Ok? ==> r.res.value < Count(r.st.store, cls))
    decreases Weight(v), 5, 0
  {
    if env.writing {
      LocateSound(env, o, st, open, cls, v, tu, d, cur);
      var l := Locate(env, st, cls, v, tu, d, cur);
      if l.res.Ok? {
        PopulateSound(env, o, l.st, open, cls, v, l.res.value, tu, d, 0);
        GrowsTransitive(env, st.store, l.st.store, Populate(env, l.st, cls, v, l.res.value, tu, d, 0).st.store);
      }
    }
  }

  lemma {:induction false} PopulateSound(env: Env, o: Origin, st: State, open: seq<Address>,
                                         cls: nat, v: Value, at: Located, tu: bool, d: bool, i: nat)
    requires HasClass(env, cls) && Sound(env, o, st, open)
    requires at.row < Count(st.store, cls) && (at.skipPrimary || env.migrating)
    ensures EndsFrom(env, o, st.store, Populate(env, st, cls, v, at, tu, d, i), open)
    decreases Weight(v), 4, |env.schema[cls].props| - i
  {
    if i < |env.schema[cls].props| {
      var c := Choose(env, cls, v, i, at.created, at.skipPrimary);
      if c.Ok? && c.value.None? {
        PopulateSound(env, o, st, open, cls, v, at, tu, d, i + 1);
      } else if c.Ok? {
        var a := At(cls, at.row, i);
        SetPropertySound(env, o, st, open, a, c.value.value.v, tu, d, c.value.value.isDefault);
        var w := SetProperty(env, st, a, c.value.value.v, tu, d, c.value.value.isDefault);
        if w.res.Ok? {
          PopulateSound(env, o, w.st, open, cls, v, at, tu, d, i + 1);
          GrowsTransitive(env, st.store, w.st.store, Populate(env, w.st, cls, v, at, tu, d, i + 1).st.store);
        }
      }
    }
  }

  lemma {:induction false} SetPropertySound(env: Env, o: Origin, st: State, open: seq<Address>,
                                            a: Address, v: Value, tu: bool, d: bool, isDefault: bool)
    requires Sound(env, o, st, open) && InStore(env, st.store, a)
    requires env.migrating || !IsPrimary(env, a.cls, a.col)
    ensures EndsFrom(env, o, st.store, SetProperty(env, st, a, v, tu, d, isDefault), open)
    decreases Weight(v), if IsLink(Prop(env, a.cls, a.col)) then 8 else 3, 0
  {
    var p := Prop(env, a.cls, a.col);
    var st1 := Emit(env, st, Will(a));
    var open1 := open + [a];
    EmitSound(env, o, st, open, Will(a));
    var body;
    if p.ptype.nullable && v.Null? {
      body := WriteNull(env, st1, a, p, d, isDefault);
      WriteNullSound(env, o, st1, open1, a, d, isDefault);
    } else if p.ptype.isArray {
      body := Assign(env, st1, a, v, tu, d);
      AssignSound(env, o, st1, open1, a, v, tu, d);
    } else if p.ptype.base.Object? {
      body := WriteLink(env, st1, a, v, tu, d, isDefault);
      WriteLinkSound(env, o, st1, open1, a, v, tu, d, isDefault);
    } else {
      body := WriteScalar(env, st1, a, p, v, d, isDefault);
      WriteScalarSound(env, o, st1, open1, a, v, d, isDefault);
    }
    FinishSound(env, o, body, open, a);
  }

  /** A bracket closes where its body returned, and stays open where it threw. */
  lemma FinishSound(env: Env, o: Origin, body: Out<()>, open: seq<Address>, a: Address)
    requires Ends(env, o, body, open + [a])
    ensures Ends(env, o, Finish(env, body), open) && Finish(env, body).st.store == body.st.store
  {
    if body.res.Ok? {
      EmitSound(env, o, body.st, open + [a], Did);
      assert OpenAfter(open + [a], Did) == open;
    }
  }

  lemma WriteNullSound(env: Env, o: Origin, st: State, open: seq<Address>, a: Address, d: bool, isDefault: bool)
    requires Sound(env, o, st, open) && Inside(env, st.store, open, a)
    requires Prop(env, a.cls, a.col).ptype.nullable
    ensures EndsFrom(env, o, st.store, WriteNull(env, st, a, Prop(env, a.cls, a.col), d, isDefault), open)
  {
    var p := Prop(env, a.cls, a.col);
    var r := WriteNull(env, st, a, p, d, isDefault);
    if r.st != st {
      EmitSound(env, o, st, open,
                if p.ptype.base.Object? then Put(a, Link(None), false) else Put(a, One(None), isDefault));
    }
  }

  lemma WriteScalarSound(env: Env, o: Origin, st: State, open: seq<Address>,
                         a: Address, v: Value, d: bool, isDefault: bool)
    requires Sound(env, o, st, open) && Inside(env, st.store, open, a)
    requires var t := Prop(env, a.cls, a.col).ptype; !t.isArray && !t.base.Object?
    ensures EndsFrom(env, o, st.store, WriteScalar(env, st, a, Prop(env, a.cls, a.col), v, d, isDefault), open)
  {
    var p := Prop(env, a.cls, a.col);
    var r := WriteScalar(env, st, a, p, v, d, isDefault);
    if r.st != st {
      EmitSound(env, o, st, open, Put(a, One(UnboxScalar(p, v).value), isDefault));
    }
  }

  lemma {:induction false} WriteLinkSound(env: Env, o: Origin, st: State, open: seq<Address>,
                                          a: Address, v: Value, tu: bool, d: bool, isDefault: bool)
    requires Sound(env, o, st, open) && Inside(env, st.store, open, a)
    requires IsLink(Prop(env, a.cls, a.col))
    ensures EndsFrom(env, o, st.store, WriteLink(env, st, a, v, tu, d, isDefault), open)
    decreases Weight(v), 7, 0
  {
    var p := Prop(env, a.cls, a.col);
    var curr := LinkAt(st.store, a);
    assert CellOk(env, st.store, a);
    UnboxRowSound(env, o, st, open, p, v, tu, d, curr);
    var u := UnboxRow(env, st, p, v, tu, d, curr);
    if u.res.Ok? && !(d && curr == Some(u.res.value)) {
      var e := Put(a, Link(Some(u.res.value)), isDefault);
      EmitSound(env, o, u.st, open, e);
      GrowsTransitive(env, st.store, u.st.store, Emit(env, u.st, e).store);
    }
  }

  lemma {:induction false} UnboxRowSound(env: Env, o: Origin, st: State, open: seq<Address>,
                                         p: Property, v: Value, tu: bool, d: bool, cur: Option<nat>)
    requires ValidProperty(|env.schema|, p) && p.ptype.base.Object?
    requires Sound(env, o, st, open) && RowOk(st.store, p.target, cur)
    ensures var r := UnboxRow(env, st, p, v, tu, d, cur);
            && EndsFrom(env, o, st.store, r, open)
            && (r.res.Ok? ==> r.res.value < Count(r.st.store, p.target))
    decreases Weight(v), 6, 0
  {
    if !v.Ref? {
      CreateSound(env, o, st, open, p.target, v, tu, d, cur);
    }
  }

  lemma {:induction false} UnboxItemSound(env: Env, o: Origin, st: State, open: seq<Address>,
                                          p: Property, v: Value, tu: bool, d: bool, cur: Option<nat>)
    requires ValidProperty(|env.schema|, p)
    requires Sound(env, o, st, open) && RowOk(st.store, p.target, cur)
    ensures var r := UnboxItem(env, st, p, v, tu, d, cur);
            && EndsFrom(env, o, st.store, r, open)
            && (r.res.Ok? ==> ItemFits(r.st.store, p, r.res.value))
    decreases Weight(v), 6, 1
  {
    if p.ptype.base.Object? {
      UnboxRowSound(env, o, st, open, p, v, tu, d, cur);
    }
  }

  lemma {:induction false} AssignSound(env: Env, o: Origin, st: State, open: seq<Address>,
                                       a: Address, v: Value, tu: bool, d: bool)
    requires Sound(env, o, st, open) && Inside(env, st.store, open, a)
    requires Prop(env, a.cls, a.col).ptype.isArray
    ensures EndsFrom(env, o, st.store, Assign(env, st, a, v, tu, d), open)
    decreases Weight(v), 2, 0
  {
    EmitSound(env, o, st, open, ListClear(a));
    if v.Arr? {
      if d {
        AssignFromSound(env, o, st, open, a, v.elems, 0, |ListAt(st.store, a)|, tu);
      } else {
        var st1 := Emit(env, st, ListClear(a));
        AssignFromSound(env, o, st1, open, a, v.elems, 0, 0, tu);
        GrowsTransitive(env, st.store, st1.store, AssignFrom(env, st1, a, v.elems, 0, 0, tu).st.store);
      }
    }
  }

  lemma {:induction false} AssignFromSound(env: Env, o: Origin, st: State, open: seq<Address>,
                                           a: Address, es: seq<Value>, k: nat, sz: nat, tu: bool)
    requires Sound(env, o, st, open) && Inside(env, st.store, open, a)
    requires Prop(env, a.cls, a.col).ptype.isArray && k <= |es|
    ensures EndsFrom(env, o, st.store, AssignFrom(env, st, a, es, k, sz, tu), open)
    decreases Weight(Arr(es)), 1, |es| - k
  {
    if k == |es| {
      TrimSound(env, o, st, open, a, k, sz);
    } else {
      ElementSound(env, o, st, open, a, es, k, sz, tu);
      var e := Element(env, st, a, es, k, sz, tu);
      if e.res.Ok? {
        AssignFromSound(env, o, e.st, open, a, es, k + 1, sz, tu);
        GrowsTransitive(env, st.store, e.st.store, AssignFrom(env, e.st, a, es, k + 1, sz, tu).st.store);
      }
    }
  }

  lemma {:induction false} ElementSound(env: Env, o: Origin, st: State, open: seq<Address>,
                                        a: Address, es: seq<Value>, k: nat, sz: nat, tu: bool)
    requires Sound(env, o, st, open) && Inside(env, st.store, open, a)
    requires Prop(env, a.cls, a.col).ptype.isArray && k < |es|
    ensures EndsFrom(env, o, st.store, Element(env, st, a, es, k, sz, tu), open)
    decreases Weight(Arr(es)), 0, 0
  {
    ElemWeight(es, k);
    var p := Prop(env, a.cls, a.col);
    var before := ListAt(st.store, a);
    assert CellOk(env, st.store, a);
    if k >= sz || k < |before| {
      var cur := if k < sz then CurrentRow(before[k]) else None;
      UnboxItemSound(env, o, st, open, p, es[k], tu, k < sz, cur);
      var u := UnboxItem(env, st, p, es[k], tu, k < sz, cur);
      if u.res.Ok? && Element(env, st, a, es, k, sz, tu).st != u.st {
        var e := if k < sz then ListSet(a, k, u.res.value) else ListAdd(a, u.res.value);
        EmitSound(env, o, u.st, open, e);
        GrowsTransitive(env, st.store, u.st.store, Emit(env, u.st, e).store);
      }
    }
  }

  lemma TrimEnds(env: Env, o: Origin, st: State, open: seq<Address>, a: Address, k: nat, sz: nat)
    requires Sound(env, o, st, open) && (k >= sz || k >= |ListAt(st.store, a)|)
    ensures EndsFrom(env, o, st.store, Trim(env, st, a, k, sz), open)
  {
  }

  lemma RemoveSound(env: Env, o: Origin, st: State, open: seq<Address>, a: Address, k: nat)
    requires Sound(env, o, st, open) && Inside(env, st.store, open, a)
    requires Prop(env, a.cls, a.col).ptype.isArray && k < |ListAt(st.store, a)|
    ensures var st1 := Emit(env, st, ListRemove(a, k));
            Sound(env, o, st1, open) && Inside(env, st1.store, open, a) && Grows(env, st.store, st1.store)
  {
    EmitSound(env, o, st, open, ListRemove(a, k));
  }

  lemma {:induction false} TrimSound(env: Env, o: Origin, st: State, open: seq<Address>, a: Address, k: nat, sz: nat)
    requires Sound(env, o, st, open) && Inside(env, st.store, open, a)
    requires Prop(env, a.cls, a.col).ptype.isArray
    ensures EndsFrom(env, o, st.store, Trim(env, st, a, k, sz), open)
    decreases sz
  {
    if k < sz && k < |ListAt(st.store, a)| {
      var st1 := Emit(env, st, ListRemove(a, k));
      RemoveSound(env, o, st, open, a, k);
      TrimSound(env, o, st1, open, a, k, sz - 1);
      EndsLater(env, o, st.store, st1.store, Trim(env, st1, a, k, sz - 1), open);
      TrimNext(env, st, a, k, sz);
    } else {
      TrimEnds(env, o, st, open, a, k, sz);
    }
  }
}

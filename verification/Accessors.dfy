/** The engine as it runs: an object whose tables the accessors update in place.

    Every method is proved to do exactly what its function in `Upsert` or `Results`
    says, exceptions and the log of writes included; what those functions keep and
    achieve is proved in the other modules. */
module Accessors {
  import opened PropertyTypes
  import opened Values
  import opened Schemas
  import opened Stores
  import G = Guards
  import M = Monitor
  import N = Runs
  import R = Results
  import U = Upsert

  class Realm {
    const env: Env
    var rows: seq<nat>
    var cells: map<Address, Cell>
    var log: seq<Event>

    function Tables(): Store
      reads this
    {
      Store(rows, cells)
    }

    /** The tables and the log as one value. */
    function Contents(): State
      reads this
    {
      State(Tables(), log)
    }

    /** One table per class. That the tables are well formed besides, with distinct
        keys, is `Good`: true at first and after every public call, though not at every
        point within one. */
    ghost predicate Valid()
      reads this
    {
      |rows| == |env.schema|
    }

    constructor (env: Env)
      ensures this.env == env && Valid()
      ensures Contents() == State(Store(seq(|env.schema|, _ => 0), map[]), []) && Good(env, Tables())
    {
      this.env := env;
      rows := seq(|env.schema|, _ => 0);
      cells := map[];
      log := [];
      new;
      N.EmptyTablesAreGood(env);
    }

    // ----- the tables

    method AddEmptyRow(cls: nat) returns (row: nat)
      requires Valid() && HasClass(env, cls)
      modifies this`rows, this`cells
      ensures Valid() && row == Count(old(Tables()), cls)
      ensures Tables() == AddRow(env, old(Tables()), cls)
      ensures forall q: nat, c: nat :: q < row ==>
                CellAt(Tables(), At(cls, q, c)) == CellAt(old(Tables()), At(cls, q, c))
    {
      row := rows[cls];
      cells := cells + FreshRow(env, cls, row);
      rows := rows[cls := row + 1];
    }

    /** `set_unique` and `set_null_unique`: the caller has checked that no row holds the key. */
    method SetUnique(cls: nat, row: nat, key: Key)
      requires Valid() && HasClass(env, cls) && Keyed(env, cls) && row < Count(Tables(), cls)
      requires forall q: nat :: q < Count(Tables(), cls) && q != row ==> KeyAt(env, Tables(), cls, q) != key
      modifies this`cells
      ensures Valid() && Tables() == PutCell(old(Tables()), At(cls, row, KeyCol(env, cls)), One(key))
      ensures forall q: nat :: q < Count(Tables(), cls) ==> (KeyAt(env, Tables(), cls, q) == key <==> q == row)
    {
      cells := cells[At(cls, row, KeyCol(env, cls)) := One(key)];
      assert forall q: nat :: q != row ==> KeyAt(env, Tables(), cls, q) == old(KeyAt(env, Tables(), cls, q));
    }

    /** The first row whose cell in column `col` holds `key`. */
    method FindFirst(cls: nat, col: nat, key: Key) returns (f: Option<nat>)
      requires Valid() && HasClass(env, cls)
      ensures f == Stores.FindFirst(Tables(), cls, col, key)
    {
      var r := 0;
      while r < rows[cls]
        invariant r <= rows[cls]
        invariant Stores.FindFirst(Tables(), cls, col, key) == FindFrom(Tables(), cls, col, key, r)
      {
        if ScalarAt(Tables(), At(cls, r, col)) == key {
          return Some(r);
        }
        r := r + 1;
      }
      f := None;
    }

    method Record(e: Event)
      modifies this`log
      ensures log == old(log) + [e]
    {
      log := log + [e];
    }

    /** A notification, or a write to one cell, and its entry in the log. */
    method Write(e: Event)
      requires Valid() && !e.NewRow?
      modifies this
      ensures Valid() && Contents() == Emit(env, old(Contents()), e)
    {
      var list := if e.Did? then [] else ListAt(Tables(), e.a);
      match e {
        case Will(_) =>
        case Did =>
        case Put(a, cell, _) => cells := cells[a := cell];
        case ListSet(a, k, item) => cells := cells[a := Many(if k < |list| then list[k := item] else list)];
        case ListAdd(a, item) => cells := cells[a := Many(list + [item])];
        case ListRemove(a, k) => cells := cells[a := Many(RemoveAt(list, k))];
        case ListClear(a) => cells := cells[a := Many([])];
      }
      Record(e);
    }

    // ----- Object::get_for_primary_key

    method GetForPrimaryKey(cls: nat, v: Value) returns (r: Result<Option<nat>>)
      requires Valid() && HasClass(env, cls)
      ensures r == U.GetForPrimaryKey(env, Tables(), cls, v) && N.LookupAnswers(env, Tables(), cls, v, r)
    {
      N.LookupIsExact(env, Tables(), cls, v);
      if !Keyed(env, cls) {
        return Fail(MissingPrimaryKey);
      }
      var key := U.UnboxKey(Prop(env, cls, KeyCol(env, cls)), v);
      if key.Fail? {
        return Fail(key.error);
      }
      var f := FindFirst(cls, KeyCol(env, cls), key.value);
      r := Ok(f);
    }

    // ----- Object::create

    /** The head of `create`: find the row by its key, reuse the current row, or add one. */
    method Locate(cls: nat, v: Value, tu: bool, d: bool, cur: Option<nat>) returns (r: Result<U.Located>)
      requires Valid() && HasClass(env, cls)
      modifies this
      ensures Valid() && Out(Contents(), r) == U.Locate(env, old(Contents()), cls, v, tu, d, cur)
    {
      var created, row, skipPrimary := false, 0, true;
      if Keyed(env, cls) {
        var key := U.KeyOf(env, cls, v);
        if key.Fail? {
          return Fail(key.error);
        }
        var f := FindFirst(cls, KeyCol(env, cls), key.value);
        assert f == U.FindKey(env, Tables(), cls, key.value);
        if f.None? {
          created := true;
          row := AddEmptyRow(cls);
          SetUnique(cls, row, key.value);
          Record(NewRow(cls, Some(key.value)));
        } else if tu {
          row := f.value;
        } else if env.migrating {
          row := AddEmptyRow(cls);
          Record(NewRow(cls, None));
          created, skipPrimary := true, false;
        } else {
          return Fail(DuplicateKey);
        }
      } else if d && cur.Some? {
        row := cur.value;
      } else {
        row := AddEmptyRow(cls);
        Record(NewRow(cls, None));
        created := true;
      }
      r := Ok(U.Located(row, created, skipPrimary));
    }

    method Create(cls: nat, v: Value, tu: bool, d: bool, cur: Option<nat>) returns (r: Result<nat>)
      requires Valid() && HasClass(env, cls)
      modifies this
      ensures Valid() && Out(Contents(), r) == U.Create(env, old(Contents()), cls, v, tu, d, cur)
      ensures M.RowOk(old(Tables()), cls, cur) ==> N.StaysGood(env, old(Tables()), Tables())
      ensures G.CreateDoes(env, old(Contents()), cls, v, tu, d, cur, Out(Contents(), r))
      decreases Weight(v), 5, 0
    {
      G.CreateDoesThis(env, Contents(), cls, v, tu, d, cur);
      if M.RowOk(Tables(), cls, cur) {
        N.PerformStaysGood(env, Contents(), N.CreateCall(cls, v, tu, d, cur));
      }
      if !env.writing {
        return Fail(NotInWrite);
      }
      var l := Locate(cls, v, tu, d, cur);
      if l.Fail? {
        return Fail(l.error);
      }
      var o := Populate(cls, v, l.value, tu, d);
      r := if o.Ok? then Ok(l.value.row) else Fail(o.error);
    }

    /** The loop of `create` over the persisted properties. */
    method Populate(cls: nat, v: Value, at: U.Located, tu: bool, d: bool) returns (r: Result<()>)
      requires Valid() && HasClass(env, cls)
      modifies this
      ensures Valid() && Out(Contents(), r) == U.Populate(env, old(Contents()), cls, v, at, tu, d, 0)
      decreases Weight(v), 4, 0
    {
      var i := 0;
      while i < |env.schema[cls].props|
        invariant Valid() && i <= |env.schema[cls].props|
        invariant U.Populate(env, old(Contents()), cls, v, at, tu, d, 0)
               == U.Populate(env, Contents(), cls, v, at, tu, d, i)
      {
        var c := U.Choose(env, cls, v, i, at.created, at.skipPrimary);
        if c.Fail? {
          return Fail(c.error);
        }
        if c.value.Some? {
          r := SetPropertyImpl(At(cls, at.row, i), c.value.value.v, tu, d, c.value.value.isDefault);
          if r.Fail? {
            return;
          }
        }
        i := i + 1;
      }
      r := Ok(());
    }

    // ----- Object::set_property_value

    method SetPropertyValue(cls: nat, row: nat, i: Option<nat>, v: Value, tu: bool) returns (r: Result<()>)
      requires Valid() && HasClass(env, cls)
      modifies this
      ensures Valid() && Out(Contents(), r) == U.SetPropertyValue(env, old(Contents()), cls, row, i, v, tu)
      ensures N.StaysGood(env, old(Tables()), Tables())
      ensures G.SetterDoes(env, old(Contents()), cls, row, i, v, tu, Out(Contents(), r))
    {
      G.SetterDoesThis(env, Contents(), cls, row, i, v, tu);
      N.PerformStaysGood(env, Contents(), N.SetCall(cls, row, i, v, tu));
      if row >= rows[cls] {
        return Fail(Detached);
      } else if !env.writing {
        return Fail(NotInWrite);
      } else if i.None? || i.value >= |env.schema[cls].props| {
        return Fail(InvalidProperty);
      } else if IsPrimary(env, cls, i.value) && !env.migrating {
        return Fail(ModifyPrimaryKey);
      }
      r := SetPropertyImpl(At(cls, row, i.value), v, tu, false, false);
    }

    method SetPropertyImpl(a: Address, v: Value, tu: bool, d: bool, isDefault: bool) returns (r: Result<()>)
      requires Valid() && HasProp(env, a.cls, a.col)
      modifies this
      ensures Valid() && Out(Contents(), r) == U.SetProperty(env, old(Contents()), a, v, tu, d, isDefault)
      decreases Weight(v), if IsLink(Prop(env, a.cls, a.col)) then 8 else 3, 0
    {
      var p := Prop(env, a.cls, a.col);
      Write(Will(a));
      if p.ptype.nullable && v.Null? {
        if p.ptype.isArray {
          return Fail(NotNullable);
        }
        if !d || (if p.ptype.base.Object? then LinkAt(Tables(), a).Some? else ScalarAt(Tables(), a).Some?) {
          if p.ptype.base.Object? {
            if !isDefault {
              Write(Put(a, Link(None), false));
            }
          } else {
            Write(Put(a, One(None), isDefault));
          }
        }
        Write(Did);
        return Ok(());
      }
      if p.ptype.isArray {
        var w := Assign(a, v, tu, d);
        if w.Fail? {
          return w;
        }
        Write(Did);
        return Ok(());
      }
      if p.ptype.base.Object? {
        var curr := LinkAt(Tables(), a);
        var link := UnboxRow(p, v, tu, d, curr);
        if link.Fail? {
          return Fail(link.error);
        }
        if !d || curr != Some(link.value) {
          Write(Put(a, Link(Some(link.value)), isDefault));
        }
      } else {
        var x := U.UnboxScalar(p, v);
        if x.Fail? {
          return Fail(x.error);
        }
        if !d || x.value.None? || !ReadsAs(p.ptype.base, ScalarAt(Tables(), a), x.value.value) {
          Write(Put(a, One(x.value), isDefault));
        }
      }
      Write(Did);
      r := Ok(());
    }

    // ----- unbox

    method UnboxRow(p: Property, v: Value, tu: bool, d: bool, cur: Option<nat>) returns (r: Result<nat>)
      requires Valid() && ValidProperty(|env.schema|, p) && p.ptype.base.Object?
      modifies this
      ensures Valid() && Out(Contents(), r) == U.UnboxRow(env, old(Contents()), p, v, tu, d, cur)
      decreases Weight(v), 6, 0
    {
      if v.Ref? {
        return if v.cls == p.target && v.row < Count(Tables(), v.cls) then Ok(v.row) else Fail(BadLink);
      }
      r := Create(p.target, v, tu, d, cur);
    }

    method UnboxItem(p: Property, v: Value, tu: bool, d: bool, cur: Option<nat>) returns (r: Result<Item>)
      requires Valid() && ValidProperty(|env.schema|, p)
      modifies this
      ensures Valid() && Out(Contents(), r) == U.UnboxItem(env, old(Contents()), p, v, tu, d, cur)
      decreases Weight(v), 6, 1
    {
      if p.ptype.base.Object? {
        var row := UnboxRow(p, v, tu, d, cur);
        return if row.Ok? then Ok(Row(row.value)) else Fail(row.error);
      }
      var x := U.UnboxScalar(p, v);
      r := if x.Ok? then Ok(Val(x.value)) else Fail(x.error);
    }

    // ----- List

    method Assign(a: Address, v: Value, tu: bool, d: bool) returns (r: Result<()>)
      requires Valid() && HasProp(env, a.cls, a.col) && Prop(env, a.cls, a.col).ptype.isArray
      modifies this
      ensures Valid() && Out(Contents(), r) == U.Assign(env, old(Contents()), a, v, tu, d)
      decreases Weight(v), 2, 0
    {
      if Prop(env, a.cls, a.col).ptype.base.LinkingObjects? {
        return Fail(ReadOnly);
      }
      if v == SameList(a) {
        return Ok(());
      }
      if v.Null? {
        Write(ListClear(a));
        return Ok(());
      }
      if d {
        r := AssignDiff(a, v, tu);
      } else {
        r := AssignFull(a, v, tu);
      }
    }

    /** Compare and set the shared positions, add the rest, remove what is left. */
    method AssignDiff(a: Address, v: Value, tu: bool) returns (r: Result<()>)
      requires Valid() && HasProp(env, a.cls, a.col)
      modifies this
      ensures Valid()
      ensures Out(Contents(), r) == if v.Arr? then
                U.AssignFrom(env, old(Contents()), a, v.elems, 0, |ListAt(old(Tables()), a)|, tu)
              else Out(old(Contents()), Fail(BadCast))
      decreases Weight(v), 1, 0
    {
      if !v.Arr? {
        return Fail(BadCast);
      }
      var es, index := v.elems, 0;
      var sz: nat := |ListAt(Tables(), a)|;
      while index < |es|
        invariant Valid() && index <= |es|
        invariant U.AssignFrom(env, old(Contents()), a, es, 0, sz, tu)
               == U.AssignFrom(env, Contents(), a, es, index, sz, tu)
      {
        var w: Result<()>;
        if index < sz {
          w := SetIfDifferent(a, es, index, sz, tu);
        } else {
          w := Add(a, es, index, sz, tu);
        }
        if w.Fail? {
          return w;
        }
        index := index + 1;
      }
      r := Trim(a, index, sz);
    }

    /** The trimming loop of `assign`. */
    method Trim(a: Address, index: nat, size: nat) returns (r: Result<()>)
      requires Valid()
      modifies this
      ensures Valid() && Out(Contents(), r) == U.Trim(env, old(Contents()), a, index, size)
    {
      var sz := size;
      while index < sz
        invariant Valid()
        invariant U.Trim(env, old(Contents()), a, index, size) == U.Trim(env, Contents(), a, index, sz)
        decreases sz
      {
        if index >= |ListAt(Tables(), a)| {
          return Fail(OutOfBounds);
        }
        Write(ListRemove(a, index));
        sz := sz - 1;
      }
      r := Ok(());
    }

    /** Clear the list and add every element. */
    method AssignFull(a: Address, v: Value, tu: bool) returns (r: Result<()>)
      requires Valid() && HasProp(env, a.cls, a.col)
      modifies this
      ensures Valid()
      ensures var cleared := Emit(env, old(Contents()), ListClear(a));
              Out(Contents(), r) == if v.Arr? then U.AssignFrom(env, cleared, a, v.elems, 0, 0, tu)
                                    else Out(cleared, Fail(BadCast))
      decreases Weight(v), 1, 0
    {
      Write(ListClear(a));
      if !v.Arr? {
        return Fail(BadCast);
      }
      ghost var cleared := Contents();
      var es, index := v.elems, 0;
      while index < |es|
        invariant Valid() && index <= |es|
        invariant U.AssignFrom(env, cleared, a, es, 0, 0, tu) == U.AssignFrom(env, Contents(), a, es, index, 0, tu)
      {
        var w := Add(a, es, index, 0, tu);
        if w.Fail? {
          return w;
        }
        index := index + 1;
      }
      r := Ok(());
    }

    /** `set_if_different` on element `k`, which has an old counterpart. */
    method SetIfDifferent(a: Address, es: seq<Value>, k: nat, sz: nat, tu: bool) returns (r: Result<()>)
      requires Valid() && HasProp(env, a.cls, a.col) && k < |es| && k < sz
      modifies this
      ensures Valid() && Out(Contents(), r) == U.Element(env, old(Contents()), a, es, k, sz, tu)
      decreases Weight(Arr(es)), 0, 0
    {
      ElemWeight(es, k);
      var list := ListAt(Tables(), a);
      if k >= |list| {
        return Fail(OutOfBounds);
      }
      var item := UnboxItem(Prop(env, a.cls, a.col), es[k], tu, true, U.CurrentRow(list[k]));
      if item.Fail? {
        return Fail(item.error);
      }
      if list[k] != item.value {
        if k >= |ListAt(Tables(), a)| {
          return Fail(OutOfBounds);
        }
        Write(ListSet(a, k, item.value));
      }
      r := Ok(());
    }

    /** `add` of element `k`, in the full form whatever the form of the call. */
    method Add(a: Address, es: seq<Value>, k: nat, ghost sz: nat, tu: bool) returns (r: Result<()>)
      requires Valid() && HasProp(env, a.cls, a.col) && k < |es| && k >= sz
      modifies this
      ensures Valid() && Out(Contents(), r) == U.Element(env, old(Contents()), a, es, k, sz, tu)
      decreases Weight(Arr(es)), 0, 0
    {
      ElemWeight(es, k);
      var item := UnboxItem(Prop(env, a.cls, a.col), es[k], tu, false, None);
      if item.Fail? {
        return Fail(item.error);
      }
      Write(ListAdd(a, item.value));
      r := Ok(());
    }

    // ----- Results::set_property_value

    method SetAll(cls: nat, i: Option<nat>, live: R.Live, v: Value) returns (r: Result<()>)
      requires Valid() && HasClass(env, cls)
      modifies this
      ensures Valid() && Out(Contents(), r) == R.SetAll(env, old(Contents()), cls, i, live, v)
      ensures !env.writing ==> r == Fail(NotInWrite) && Contents() == old(Contents())
      ensures N.StaysGood(env, old(Tables()), Tables())
    {
      N.PerformStaysGood(env, Contents(), N.SetAllCall(cls, i, live, v));
      if !env.writing {
        return Fail(NotInWrite);
      } else if i.None? || i.value >= |env.schema[cls].props| {
        return Fail(InvalidProperty);
      } else if IsPrimary(env, cls, i.value) && !env.migrating {
        return Fail(ModifyPrimaryKey);
      }
      var size, k := |live(Tables())|, 0;
      while k < size
        invariant Valid() && k <= size
        invariant R.SetAllFrom(env, old(Contents()), cls, i.value, live, v, 0, size)
               == R.SetAllFrom(env, Contents(), cls, i.value, live, v, k, size)
      {
        var found := live(Tables());
        if k >= |found| {
          return Fail(OutOfBounds);
        }
        if found[k] >= rows[cls] {
          return Fail(Detached);
        }
        var w := SetPropertyImpl(At(cls, found[k], i.value), v, true, false, false);
        if w.Fail? {
          return w;
        }
        k := k + 1;
      }
      r := Ok(());
    }
  }
}

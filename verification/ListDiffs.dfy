/** Which writes the two forms of `assign` make on a list of values that create no object. */
module ListDiffs {
  import opened PropertyTypes
  import opened Values
  import opened Schemas
  import opened Stores
  import opened Terms
  import opened Upsert
  import opened FlatWrites

  /** A managed object of the class that the list links to, or a scalar of its type. */
  predicate IsElement(s: Store, p: Property, e: Value) {
    if p.ptype.base.Object? then e.Ref? && e.cls == p.target && e.row < Count(s, e.cls)
    else IsScalarFor(p, e, if e.Leaf? then Some(e.s) else None)
  }

  predicate AreElements(s: Store, p: Property, es: seq<Value>) {
    forall k :: 0 <= k < |es| ==> IsElement(s, p, es[k])
  }

  /** These are the elements that `unbox` accepts, and it creates nothing for them. */
  lemma ElementUnboxes(env: Env, st: State, p: Property, e: Value, tu: bool, d: bool, cur: Option<nat>)
    requires ValidProperty(|env.schema|, p) && (p.ptype.base.Object? ==> e.Ref?)
    ensures var u := UnboxItem(env, st, p, e, tu, d, cur);
            u.st == st && if IsElement(st.store, p, e) then u.res == Ok(FlatItem(p, e)) else u.res.Fail?
  {
  }

  /** The writes that turn `before` into `items` from position `k` on: sets where the
      two differ, then additions, then removals at the end of `items`. */
  function Script(a: Address, before: seq<Item>, items: seq<Item>, k: nat): seq<Event>
    requires k <= |items|
    decreases |items| - k
  {
    if k == |items| then Removals(a, k, Excess(|before|, k))
    else Then(a, before, items, k, Script(a, before, items, k + 1))
  }

  /** The write at position `k`, where there is one, and the rest of the script. */
  function Then(a: Address, before: seq<Item>, items: seq<Item>, k: nat, rest: seq<Event>): seq<Event>
    requires k < |items|
  {
    if k >= |before| then [ListAdd(a, items[k])] + rest
    else if before[k] != items[k] then [ListSet(a, k, items[k])] + rest
    else rest
  }

  function Removals(a: Address, k: nat, n: nat): seq<Event> {
    seq(n, _ => ListRemove(a, k))
  }

  datatype Kind = Setting | Adding | Removing | Other

  function KindOf(e: Event): Kind {
    match e
    case ListSet(_, _, _) => Setting
    case ListAdd(_, _) => Adding
    case ListRemove(_, _) => Removing
    case _ => Other
  }

  /** How many events of a kind a log holds. */
  function Tally(log: seq<Event>, kind: Kind): nat {
    if log == [] then 0 else (if KindOf(log[0]) == kind then 1 else 0) + Tally(log[1..], kind)
  }

  /** Shared positions from `k` on that hold different items. */
  function Differing(before: seq<Item>, items: seq<Item>, k: nat): nat
    requires k <= |items|
    decreases |items| - k
  {
    if k == |items| || k >= |before| then 0
    else (if before[k] != items[k] then 1 else 0) + Differing(before, items, k + 1)
  }

  function Excess(n: nat, m: nat): nat {
    if n > m then n - m else 0
  }

  lemma TallyFirst(e: Event, log: seq<Event>, kind: Kind)
    ensures Tally([e] + log, kind) == (if KindOf(e) == kind then 1 else 0) + Tally(log, kind)
  {
    assert ([e] + log)[1..] == log;
  }

  lemma {:induction false} RemovalsTally(w: seq<Event>, kind: Kind)
    requires forall e :: e in w ==> e.ListRemove?
    ensures Tally(w, kind) == if kind == Removing then |w| else 0
    decreases |w|
  {
    if w != [] {
      assert w[0] in w;
      RemovalsTally(w[1..], kind);
    }
  }

  /** What a script from position `k` on comes to: one set per differing shared
      position, one addition per missing and one removal per surplus element. */
  function Expected(before: seq<Item>, items: seq<Item>, k: nat, kind: Kind): nat
    requires k <= |items|
  {
    match kind
    case Setting => Differing(before, items, k)
    case Adding => Excess(|items|, if k < |before| then |before| else k)
    case Removing => Excess(|before|, |items|)
    case Other => 0
  }

  lemma {:induction false} ScriptTally(a: Address, before: seq<Item>, items: seq<Item>, k: nat, kind: Kind)
    requires k <= |items|
    ensures Tally(Script(a, before, items, k), kind) == Expected(before, items, k, kind)
    decreases |items| - k
  {
    if k == |items| {
      RemovalsTally(Removals(a, k, Excess(|before|, k)), kind);
    } else {
      var rest := Script(a, before, items, k + 1);
      ScriptTally(a, before, items, k + 1, kind);
      if k >= |before| {
        TallyFirst(ListAdd(a, items[k]), rest, kind);
      } else if before[k] != items[k] {
        TallyFirst(ListSet(a, k, items[k]), rest, kind);
      }
    }
  }

  lemma {:induction false} TrimScript(env: Env, st: State, a: Address, k: nat, sz: nat)
    requires k <= sz && |ListAt(st.store, a)| == sz
    ensures var r := Trim(env, st, a, k, sz);
            && r.res == Ok(()) && r.st.log == st.log + Removals(a, k, sz - k)
            && ListAt(r.st.store, a) == ListAt(st.store, a)[..k]
    decreases sz
  {
    if k < sz {
      var st1 := Emit(env, st, ListRemove(a, k));
      TrimScript(env, st1, a, k, sz - 1);
      assert ListAt(st1.store, a)[..k] == ListAt(st.store, a)[..k];
      assert st1.log + Removals(a, k, sz - 1 - k) == st.log + Removals(a, k, sz - k);
    }
  }

  lemma OverlaidNext(before: seq<Item>, items: seq<Item>, k: nat)
    requires k < |items|
    ensures var list := Overlaid(items, before, k);
            && (if k < |before| then |list| == |before| && list[k] == before[k] else |list| == k)
            && Overlaid(items, before, k + 1) == (if k < |before| then list[k := items[k]] else list + [items[k]])
  {
  }

  lemma {:induction false} AssignScript(env: Env, st: State, a: Address, es: seq<Value>, k: nat,
                                        before: seq<Item>, tu: bool)
    requires HasProp(env, a.cls, a.col) && k <= |es| && AreElements(st.store, Prop(env, a.cls, a.col), es)
    requires ListAt(st.store, a) == Overlaid(FlatItems(Prop(env, a.cls, a.col), es), before, k)
    ensures var r, items := AssignFrom(env, st, a, es, k, |before|, tu), FlatItems(Prop(env, a.cls, a.col), es);
            && r.res == Ok(()) && ListAt(r.st.store, a) == items
            && r.st.log == st.log + Script(a, before, items, k)
    decreases |es| - k
  {
    var items := FlatItems(Prop(env, a.cls, a.col), es);
    if k == |es| {
      LastScript(env, st, a, before, items);
    } else {
      OverlaidNext(before, items, k);
      ElementScript(env, st, a, es, k, before, tu);
      var e := Element(env, st, a, es, k, |before|, tu);
      AssignScript(env, e.st, a, es, k + 1, before, tu);
      ScriptNext(st.log, a, before, items, k);
    }
  }

  lemma ScriptNext(log: seq<Event>, a: Address, before: seq<Item>, items: seq<Item>, k: nat)
    requires k < |items|
    ensures var here := if k >= |before| then [ListAdd(a, items[k])]
                        else if before[k] != items[k] then [ListSet(a, k, items[k])] else [];
            (log + here) + Script(a, before, items, k + 1) == log + Script(a, before, items, k)
  {
  }

  lemma LastScript(env: Env, st: State, a: Address, before: seq<Item>, items: seq<Item>)
    requires ListAt(st.store, a) == Overlaid(items, before, |items|)
    ensures var r := Trim(env, st, a, |items|, |before|);
            && r.res == Ok(()) && ListAt(r.st.store, a) == items
            && r.st.log == st.log + Removals(a, |items|, Excess(|before|, |items|))
  {
    if |items| < |before| {
      TrimScript(env, st, a, |items|, |before|);
    }
    assert Overlaid(items, before, |items|)[..|items|] == items;
    assert st.log + [] == st.log;
  }

  /** One element: what it does to the list and what it logs. */
  lemma ElementScript(env: Env, st: State, a: Address, es: seq<Value>, k: nat, before: seq<Item>, tu: bool)
    requires HasProp(env, a.cls, a.col) && k < |es| && IsElement(st.store, Prop(env, a.cls, a.col), es[k])
    requires var list := ListAt(st.store, a);
             if k < |before| then |list| == |before| && list[k] == before[k] else |list| == k
    ensures var e, list := Element(env, st, a, es, k, |before|, tu), ListAt(st.store, a);
            var item := FlatItem(Prop(env, a.cls, a.col), es[k]);
            && e.res == Ok(()) && e.st.store.rows == st.store.rows
            && ListAt(e.st.store, a) == (if k < |before| then list[k := item] else list + [item])
            && e.st.log == st.log + if k >= |before| then [ListAdd(a, item)]
                                    else if before[k] != item then [ListSet(a, k, item)] else []
  {
    var list := ListAt(st.store, a);
    ElementUnboxes(env, st, Prop(env, a.cls, a.col), es[k], tu, k < |before|,
                   if k < |before| then CurrentRow(list[k]) else None);
  }

  /** Where no element is an object to be created, the diff form of `assign` leaves
      exactly the given elements, and its writes are the script: one `set` at each
      differing shared position, `max(0, n - old)` additions, `max(0, old - n)`
      removals, and no other write. */
  lemma DiffAssignIsExact(env: Env, st: State, a: Address, es: seq<Value>, tu: bool)
    requires HasProp(env, a.cls, a.col) && Prop(env, a.cls, a.col).ptype.isArray
    requires !Prop(env, a.cls, a.col).ptype.base.LinkingObjects? && AreElements(st.store, Prop(env, a.cls, a.col), es)
    ensures var items, before := FlatItems(Prop(env, a.cls, a.col), es), ListAt(st.store, a);
            var r, script := Assign(env, st, a, Arr(es), tu, true), Script(a, before, items, 0);
            && r.res == Ok(()) && ListAt(r.st.store, a) == items
            && r.st.log == st.log + script
            && Tally(script, Setting) == Differing(before, items, 0)
            && Tally(script, Adding) == Excess(|es|, |before|)
            && Tally(script, Removing) == Excess(|before|, |es|)
            && Tally(script, Other) == 0
  {
    var items, before := FlatItems(Prop(env, a.cls, a.col), es), ListAt(st.store, a);
    assert Overlaid(items, before, 0) == before;
    AssignScript(env, st, a, es, 0, before, tu);
    ScriptTally(a, before, items, 0, Setting);
    ScriptTally(a, before, items, 0, Adding);
    ScriptTally(a, before, items, 0, Removing);
    ScriptTally(a, before, items, 0, Other);
  }

  /** The script compares by position and is not the shortest one: dropping the first
      of two elements takes a set and a removal, where one removal would do. */
  lemma ShiftingCostsMore(a: Address, x: Item, y: Item)
    requires x != y
    ensures Script(a, [x, y], [y], 0) == [ListSet(a, 0, y), ListRemove(a, 1)]
    ensures RemoveAt([x, y], 0) == [y]
  {
    assert Script(a, [x, y], [y], 1) == [ListRemove(a, 1)];
  }

  /** The full form on the same list: everything is cleared and added again. */
  lemma FullAssignReplaces(env: Env, st: State, a: Address, es: seq<Value>, tu: bool)
    requires HasProp(env, a.cls, a.col) && Prop(env, a.cls, a.col).ptype.isArray
    requires !Prop(env, a.cls, a.col).ptype.base.LinkingObjects? && AreElements(st.store, Prop(env, a.cls, a.col), es)
    ensures var r, items := Assign(env, st, a, Arr(es), tu, false), FlatItems(Prop(env, a.cls, a.col), es);
            && r.res == Ok(()) && ListAt(r.st.store, a) == items
            && r.st.log == st.log + [ListClear(a)] + seq(|items|, k requires 0 <= k < |items| => ListAdd(a, items[k]))
  {
    var items := FlatItems(Prop(env, a.cls, a.col), es);
    AssignScript(env, Emit(env, st, ListClear(a)), a, es, 0, [], tu);
    AddsOnly(a, items, 0);
  }

  lemma {:induction false} AddsOnly(a: Address, items: seq<Item>, k: nat)
    requires k <= |items|
    ensures Script(a, [], items, k) == seq(|items|, j requires 0 <= j < |items| => ListAdd(a, items[j]))[k..]
    decreases |items| - k
  {
    if k < |items| {
      AddsOnly(a, items, k + 1);
    }
  }
}

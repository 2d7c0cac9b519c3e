/** Tables, the reads and writes the engine makes on them, and the log of those writes. */
module Stores {
  import opened PropertyTypes
  import opened Values
  import opened Schemas

  type Key = Option<Scalar>

  datatype Item = Val(s: Option<Scalar>) | Row(r: nat)

  datatype Cell = One(s: Option<Scalar>) | Link(to: Option<nat>) | Many(items: seq<Item>)

  /** `rows[c]` is the number of rows of table `c`; rows are only ever added. */
  datatype Store = Store(rows: seq<nat>, cells: map<Address, Cell>)

  datatype Event =
    | Will(a: Address)
    | Did
    | NewRow(cls: nat, key: Option<Key>)
    | Put(a: Address, cell: Cell, isDefault: bool)
    | ListSet(a: Address, k: nat, item: Item)
    | ListAdd(a: Address, item: Item)
    | ListRemove(a: Address, k: nat)
    | ListClear(a: Address)

  datatype State = State(store: Store, log: seq<Event>)

  datatype Out<+T> = Out(st: State, res: Result<T>)

  // ----- reads

  function Count(s: Store, cls: nat): nat {
    if cls < |s.rows| then s.rows[cls] else 0
  }

  function CellAt(s: Store, a: Address): Cell {
    if a in s.cells then s.cells[a] else One(None)
  }

  function ScalarAt(s: Store, a: Address): Option<Scalar> {
    var c := CellAt(s, a);
    if c.One? then c.s else None
  }

  function LinkAt(s: Store, a: Address): Option<nat> {
    var c := CellAt(s, a);
    if c.Link? then c.to else None
  }

  function ListAt(s: Store, a: Address): seq<Item> {
    var c := CellAt(s, a);
    if c.Many? then c.items else []
  }

  /** `table.get<T>(col, row)` as `do_update_value` compares it: does it equal `x`? */
  predicate ReadsAs(b: Base, o: Option<Scalar>, x: Scalar) {
    if o.Some? then o.value == x else NullReadsAs(b) == Some(x)
  }

  function FindFrom(s: Store, cls: nat, col: nat, key: Key, r: nat): (f: Option<nat>)
    ensures f.Some? ==> r <= f.value < Count(s, cls) && ScalarAt(s, At(cls, f.value, col)) == key
    ensures f.Some? ==> forall q :: r <= q < f.value ==> ScalarAt(s, At(cls, q, col)) != key
    ensures f.None? ==> forall q :: r <= q < Count(s, cls) ==> ScalarAt(s, At(cls, q, col)) != key
    decreases Count(s, cls) - r
  {
    if r >= Count(s, cls) then None
    else if ScalarAt(s, At(cls, r, col)) == key then Some(r)
    else FindFrom(s, cls, col, key, r + 1)
  }

  function FindFirst(s: Store, cls: nat, col: nat, key: Key): Option<nat> {
    FindFrom(s, cls, col, key, 0)
  }

  // ----- writes

  function FreshCell(p: Property): Cell {
    if p.ptype.isArray then Many([])
    else if p.ptype.base.Object? then Link(None)
    else if p.ptype.nullable || !IsScalar(p.ptype.base) then One(None)
    else One(Some(Zero(p.ptype.base)))
  }

  function FreshRow(env: Env, cls: nat, row: nat): map<Address, Cell>
    requires HasClass(env, cls)
  {
    map c: nat | c < |env.schema[cls].props| :: At(cls, row, c) := FreshCell(Prop(env, cls, c))
  }

  function AddRow(env: Env, s: Store, cls: nat): Store
    requires HasClass(env, cls)
  {
    if cls < |s.rows| then
      Store(s.rows[cls := s.rows[cls] + 1], s.cells + FreshRow(env, cls, s.rows[cls]))
    else s
  }

  function PutCell(s: Store, a: Address, c: Cell): Store {
    s.(cells := s.cells[a := c])
  }

  function RemoveAt(items: seq<Item>, k: nat): seq<Item> {
    if k < |items| then items[..k] + items[k + 1..] else items
  }

  /** What one logged write does to the tables. */
  function Effect(env: Env, s: Store, e: Event): Store {
    match e
    case Will(_) => s
    case Did => s
    case NewRow(cls, key) =>
      if !HasClass(env, cls) then s
      else if key.Some? && Keyed(env, cls) then
        PutCell(AddRow(env, s, cls), At(cls, Count(s, cls), KeyCol(env, cls)), One(key.value))
      else AddRow(env, s, cls)
    case Put(a, cell, _) => PutCell(s, a, cell)
    case ListSet(a, k, item) =>
      var l := ListAt(s, a);
      PutCell(s, a, Many(if k < |l| then l[k := item] else l))
    case ListAdd(a, item) => PutCell(s, a, Many(ListAt(s, a) + [item]))
    case ListRemove(a, k) => PutCell(s, a, Many(RemoveAt(ListAt(s, a), k)))
    case ListClear(a) => PutCell(s, a, Many([]))
  }

  function Emit(env: Env, st: State, e: Event): State {
    State(Effect(env, st.store, e), st.log + [e])
  }

  // ----- well-formed tables

  predicate InStore(env: Env, s: Store, a: Address) {
    HasProp(env, a.cls, a.col) && a.row < Count(s, a.cls)
  }

  predicate ScalarFits(p: Property, o: Option<Scalar>) {
    if o.Some? then BaseOf(o.value) == p.ptype.base else p.ptype.nullable || !IsScalar(p.ptype.base)
  }

  predicate ItemFits(s: Store, p: Property, item: Item) {
    if p.ptype.base.Object? then item.Row? && item.r < Count(s, p.target)
    else item.Val? && ScalarFits(p, item.s)
  }

  predicate Fits(s: Store, p: Property, c: Cell) {
    if p.ptype.isArray then c.Many? && forall k :: 0 <= k < |c.items| ==> ItemFits(s, p, c.items[k])
    else if p.ptype.base.Object? then c.Link? && (c.to.Some? ==> c.to.value < Count(s, p.target))
    else c.One? && ScalarFits(p, c.s)
  }

  predicate CellOk(env: Env, s: Store, a: Address)
    requires InStore(env, s, a)
  {
    a in s.cells && Fits(s, Prop(env, a.cls, a.col), s.cells[a])
  }

  ghost predicate WellFormed(env: Env, s: Store) {
    && |s.rows| == |env.schema|
    && forall a :: InStore(env, s, a) ==> CellOk(env, s, a)
  }

  function KeyAt(env: Env, s: Store, cls: nat, r: nat): Key
    requires HasClass(env, cls) && Keyed(env, cls)
  {
    ScalarAt(s, At(cls, r, KeyCol(env, cls)))
  }

  /** No row before `r` holds the key. */
  predicate NotBefore(env: Env, s: Store, cls: nat, key: Key, r: nat)
    requires HasClass(env, cls) && Keyed(env, cls)
  {
    forall q :: 0 <= q < r ==> KeyAt(env, s, cls, q) != key
  }

  ghost predicate DistinctKeys(env: Env, s: Store) {
    forall cls: nat, q: nat, r: nat ::
      HasClass(env, cls) && Keyed(env, cls) && q < r < Count(s, cls) ==>
        KeyAt(env, s, cls, q) != KeyAt(env, s, cls, r)
  }

  /** What every run of the engine keeps. */
  ghost predicate Good(env: Env, s: Store) {
    WellFormed(env, s) && (env.migrating || DistinctKeys(env, s))
  }
}

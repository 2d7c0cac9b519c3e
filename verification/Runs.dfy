/** Whole runs: any sequence of calls, each ending normally or by an exception. */
module Runs {
  import opened PropertyTypes
  import opened Values
  import opened Schemas
  import opened Stores
  import opened Terms
  import opened Upsert
  import opened Monitor
  import opened Soundness
  import opened Results
  import Acceptance
  import Footprints
  import Effects

  datatype Call =
    | CreateCall(cls: nat, v: Value, tu: bool, d: bool, cur: Option<nat>)
    | SetCall(cls: nat, row: nat, i: Option<nat>, v: Value, tu: bool)
    | SetAllCall(cls: nat, i: Option<nat>, live: Live, v: Value)

  predicate Callable(env: Env, s: Store, c: Call) {
    HasClass(env, c.cls) && (c.CreateCall? ==> RowOk(s, c.cls, c.cur))
  }

  function Perform(env: Env, st: State, c: Call): Out<()>
    requires Callable(env, st.store, c)
  {
    match c
    case CreateCall(cls, v, tu, d, cur) =>
      var o := Create(env, st, cls, v, tu, d, cur);
      Out(o.st, if o.res.Ok? then Ok(()) else Fail(o.res.error))
    case SetCall(cls, row, i, v, tu) => SetPropertyValue(env, st, cls, row, i, v, tu)
    case SetAllCall(cls, i, live, v) => SetAll(env, st, cls, i, live, v)
  }

  predicate Runnable(env: Env, st: State, calls: seq<Call>)
    decreases |calls|
  {
    calls == [] || (Callable(env, st.store, calls[0]) && Runnable(env, Perform(env, st, calls[0]).st, calls[1..]))
  }

  /** The state after all the calls; an exception ends its call and not the run. */
  function Run(env: Env, st: State, calls: seq<Call>): State
    requires Runnable(env, st, calls)
    decreases |calls|
  {
    if calls == [] then st else Run(env, Perform(env, st, calls[0]).st, calls[1..])
  }

  predicate AllNormal(env: Env, st: State, calls: seq<Call>)
    requires Runnable(env, st, calls)
    decreases |calls|
  {
    calls == [] || (Perform(env, st, calls[0]).res.Ok? && AllNormal(env, Perform(env, st, calls[0]).st, calls[1..]))
  }

  lemma PerformSound(env: Env, o: Origin, st: State, open: seq<Address>, c: Call)
    requires Sound(env, o, st, open) && Callable(env, st.store, c)
    ensures EndsFrom(env, o, st.store, Perform(env, st, c), open)
  {
    match c
    case CreateCall(cls, v, tu, d, cur) => CreateSound(env, o, st, open, cls, v, tu, d, cur);
    case SetCall(cls, row, i, v, tu) =>
      if row < Count(st.store, cls) && env.writing && i.Some? && i.value < |env.schema[cls].props|
         && (env.migrating || !IsPrimary(env, cls, i.value)) {
        SetPropertySound(env, o, st, open, At(cls, row, i.value), v, tu, false, false);
      }
    case SetAllCall(cls, i, live, v) =>
      if env.writing && i.Some? && i.value < |env.schema[cls].props|
         && (env.migrating || !IsPrimary(env, cls, i.value)) {
        SetAllSound(env, o, st, open, cls, i.value, live, v, 0, |live(st.store)|);
      }
  }

  ghost predicate StaysGood(env: Env, s: Store, s': Store) {
    Good(env, s) ==> Good(env, s') && Grows(env, s, s')
  }

  /** One call, whichever way it ends. */
  lemma PerformStaysGood(env: Env, st: State, c: Call)
    requires Callable(env, st.store, c)
    ensures StaysGood(env, st.store, Perform(env, st, c).st.store)
  {
    if Good(env, st.store) {
      StartSound(env, st, []);
      PerformSound(env, Origin(Machine(st.store, []), |st.log|), st, [], c);
    }
  }

  lemma {:induction false} RunSound(env: Env, o: Origin, st: State, open: seq<Address>, calls: seq<Call>)
    requires Sound(env, o, st, open) && Runnable(env, st, calls)
    ensures Stopped(env, o, Run(env, st, calls)) && Grows(env, st.store, Run(env, st, calls).store)
    ensures AllNormal(env, st, calls) ==> Sound(env, o, Run(env, st, calls), open)
    decreases |calls|
  {
    if calls != [] {
      var p := Perform(env, st, calls[0]);
      PerformSound(env, o, st, open, calls[0]);
      var open1 := if p.res.Ok? then open else Replay(env, o.m, p.st.log[o.from..]).value.open;
      RunSound(env, o, p.st, open1, calls[1..]);
      GrowsTransitive(env, st.store, p.st.store, Run(env, p.st, calls[1..]).store);
    }
  }

  /** Key safety: outside a migration, after any run of calls, nested creates,
      exceptions and all, the tables are well formed, no two rows of a table share a
      primary key, no row that was there has another key, and none is gone. */
  lemma KeysAreSafe(env: Env, st: State, calls: seq<Call>)
    requires !env.migrating && Good(env, st.store) && Runnable(env, st, calls)
    ensures WellFormed(env, Run(env, st, calls).store) && DistinctKeys(env, Run(env, st, calls).store)
    ensures Grows(env, st.store, Run(env, st, calls).store)
  {
    StartSound(env, st, []);
    RunSound(env, Origin(Machine(st.store, []), |st.log|), st, [], calls);
  }

  /** Outside a transaction no call answers and nothing is ever written, whatever is
      called and however often. */
  lemma {:induction false} NoTransaction(env: Env, st: State, calls: seq<Call>)
    requires !env.writing && Runnable(env, st, calls)
    ensures Run(env, st, calls) == st
    ensures forall c: Call :: Callable(env, st.store, c) ==>
              Perform(env, st, c).res.Fail? && Perform(env, st, c).st == st
    ensures forall c: Call :: Callable(env, st.store, c) && !c.SetCall? ==>
              Perform(env, st, c).res == Fail(NotInWrite)
    decreases |calls|
  {
    if calls != [] {
      assert Perform(env, st, calls[0]).st == st;
      NoTransaction(env, st, calls[1..]);
    }
  }

  /** Tables without rows are well formed, so a run may start from them. */
  lemma EmptyTablesAreGood(env: Env)
    ensures Good(env, Store(seq(|env.schema|, _ => 0), map[]))
  {
  }

  // ----- lookups

  /** What a lookup of `v` answers. For a value that a key can be, the null of a
      nullable key included, it is the first row that holds it, which outside a
      migration is the only one, and a detached object when, and only when, no row
      does. At any other value, and where the class has no key, it throws. */
  ghost predicate LookupAnswers(env: Env, s: Store, cls: nat, v: Value, f: Result<Option<nat>>)
    requires HasClass(env, cls)
  {
    var key := if v.Leaf? then Some(v.s) else None;
    if !Keyed(env, cls) then f == Fail(MissingPrimaryKey)
    else if IsScalarFor(Prop(env, cls, KeyCol(env, cls)), v, key) then
      && f.Ok? && (f.value.Some? ==> f.value.value < Count(s, cls))
      && (f == Ok(None) <==> forall r: nat :: r < Count(s, cls) ==> KeyAt(env, s, cls, r) != key)
      && (forall r: nat :: r < Count(s, cls) ==>
            (f == Ok(Some(r)) <==> KeyAt(env, s, cls, r) == key && NotBefore(env, s, cls, key, r)))
      && (!env.migrating && Good(env, s) ==>
            forall r: nat :: r < Count(s, cls) ==> (f == Ok(Some(r)) <==> KeyAt(env, s, cls, r) == key))
    else f == Fail(if v.Null? then NullPrimaryKey else BadCast)
  }

  /** The lookup is exact. */
  lemma LookupIsExact(env: Env, s: Store, cls: nat, v: Value)
    requires HasClass(env, cls)
    ensures LookupAnswers(env, s, cls, v, GetForPrimaryKey(env, s, cls, v))
  {
    if Keyed(env, cls) && !env.migrating && Good(env, s) {
      var key := if v.Leaf? then Some(v.s) else None;
      forall r: nat | r < Count(s, cls) && KeyAt(env, s, cls, r) == key
        ensures FindKey(env, s, cls, key) == Some(r)
      {
        Footprints.FindKeyIs(env, s, cls, key, r);
      }
    }
  }

  /** Lookup agrees with creation: the row that a `create` answered is the row its
      key leads to, right after the call and after any later run. */
  lemma CreatedIsFound(env: Env, st: State, cls: nat, v: Value, tu: bool, d: bool, cur: Option<nat>, calls: seq<Call>)
    requires !env.migrating && Good(env, st.store) && HasClass(env, cls) && Keyed(env, cls) && RowOk(st.store, cls, cur)
    requires Create(env, st, cls, v, tu, d, cur).res.Ok?
    requires Runnable(env, Create(env, st, cls, v, tu, d, cur).st, calls)
    ensures PrimaryValue(env, cls, v).Ok?
    ensures var r := Create(env, st, cls, v, tu, d, cur);
            GetForPrimaryKey(env, Run(env, r.st, calls).store, cls, PrimaryValue(env, cls, v).value)
              == Ok(Some(r.res.value))
    ensures var r := Create(env, st, cls, v, tu, d, cur);
            var s' := Run(env, r.st, calls).store;
            forall key :: AsksFor(env, cls, v, key) ==>
              GetForPrimaryKey(env, s', cls, if key.Some? then Leaf(key.value) else Null) == Ok(Some(r.res.value))
  {
    Acceptance.KeyIsAsked(env, cls, v);
    var r := Create(env, st, cls, v, tu, d, cur);
    var l := Locate(env, st, cls, v, tu, d, cur);
    var o := Origin(Machine(st.store, []), |st.log|);
    StartSound(env, st, []);
    Effects.LocateEffect(env, st, cls, v, tu, d, cur);
    LocateSound(env, o, st, [], cls, v, tu, d, cur);
    PopulateSound(env, o, l.st, [], cls, v, l.res.value, tu, d, 0);
    RunSound(env, o, r.st, [], calls);
    var s' := Run(env, r.st, calls).store;
    GrowsTransitive(env, l.st.store, r.st.store, s');
    Footprints.FindKeyIs(env, s', cls, KeyOf(env, cls, v).value, r.res.value);
  }

  // ----- change notifications

  /** The number of brackets a word leaves open, `None` if it closes one it did not open. */
  function Unclosed(w: seq<Event>): Option<nat> {
    if w == [] then Some(0) else After(Unclosed(w[..|w| - 1]), w[|w| - 1])
  }

  function After(unclosed: Option<nat>, e: Event): Option<nat> {
    match unclosed
    case None => None
    case Some(n) =>
      if e.Will? then Some(n + 1)
      else if e.Did? then (if n == 0 then None else Some(n - 1))
      else Some(n)
  }

  predicate IsWrite(e: Event) {
    e.Put? || e.ListSet? || e.ListAdd? || e.ListRemove? || e.ListClear?
  }

  /** The cells whose bracket a word leaves open, innermost last. */
  function Brackets(w: seq<Event>): Option<seq<Address>> {
    if w == [] then Some([])
    else
      var e := w[|w| - 1];
      match Brackets(w[..|w| - 1])
      case None => None
      case Some(open) => if e.Did? && open == [] then None else Some(OpenAfter(open, e))
  }

  lemma {:induction false} ReplayBrackets(env: Env, s: Store, log: seq<Event>)
    requires Replay(env, Machine(s, []), log).Some?
    ensures Brackets(log) == Some(Replay(env, Machine(s, []), log).value.open)
    decreases |log|
  {
    if log != [] {
      ReplayBrackets(env, s, log[..|log| - 1]);
    }
  }

  /** An open bracket was opened by a `will_change` of that very cell, and since then
      only the brackets inside it were left open. */
  lemma {:induction false} OpenedBy(w: seq<Event>, p: nat) returns (j: nat)
    requires Brackets(w).Some? && p < |Brackets(w).value|
    ensures j < |w| && w[j] == Will(Brackets(w).value[p])
    ensures Unclosed(w[j + 1..]) == Some(|Brackets(w).value| - 1 - p)
    decreases |w|
  {
    var n := |w| - 1;
    var open := Brackets(w[..n]).value;
    if p < |open| {
      j := OpenedBy(w[..n], p);
      UnclosedNext(w, j + 1);
      InsideOpen(open, w[n], p);
    } else {
      j := n;
      assert w[j + 1..] == [];
    }
  }

  /** The last event of a word is the last event of each of its ends. */
  lemma UnclosedNext(w: seq<Event>, j: nat)
    requires j < |w|
    ensures Unclosed(w[j..]) == After(Unclosed(w[..|w| - 1][j..]), w[|w| - 1])
  {
    assert w[j..][..|w[j..]| - 1] == w[..|w| - 1][j..];
  }

  /** While bracket `p` stays open the count of those inside it follows the stack. */
  lemma InsideOpen(open: seq<Address>, e: Event, p: nat)
    requires p < |open| && p < |OpenAfter(open, e)|
    ensures OpenAfter(open, e)[p] == open[p]
    ensures After(Some(|open| - 1 - p), e) == Some(|OpenAfter(open, e)| - 1 - p)
  {
  }

  lemma {:induction false} OpenIsUnclosed(w: seq<Event>)
    requires Brackets(w).Some?
    ensures Unclosed(w) == Some(|Brackets(w).value|)
    decreases |w|
  {
    if w != [] {
      OpenIsUnclosed(w[..|w| - 1]);
    }
  }

  lemma {:induction false} ReplayPrefix(env: Env, m: Machine, log: seq<Event>, n: nat)
    requires n <= |log| && Replay(env, m, log).Some?
    ensures Replay(env, m, log[..n]).Some?
    decreases |log|
  {
    if n < |log| {
      ReplayPrefix(env, m, log[..|log| - 1], n);
      assert log[..|log| - 1][..n] == log[..n];
    } else {
      assert log[..n] == log;
    }
  }

  /** Change notifications are well bracketed. In the log of any run, every write to
      a cell or a list comes after a `will_change` of that cell, with nothing but
      complete brackets in between; and a run of normal returns leaves none open. */
  lemma WritesAreBracketed(env: Env, st: State, calls: seq<Call>)
    requires Good(env, st.store) && Runnable(env, st, calls)
    ensures |st.log| <= |Run(env, st, calls).log|
    ensures var log := Run(env, st, calls).log[|st.log|..];
            forall i: nat :: i < |log| && IsWrite(log[i]) ==>
              exists j: nat :: j < i && log[j] == Will(log[i].a) && Unclosed(log[j + 1..i]) == Some(0)
    ensures AllNormal(env, st, calls) ==> Unclosed(Run(env, st, calls).log[|st.log|..]) == Some(0)
  {
    var o := Origin(Machine(st.store, []), |st.log|);
    StartSound(env, st, []);
    RunSound(env, o, st, [], calls);
    var log := Run(env, st, calls).log[|st.log|..];
    ReplayBrackets(env, st.store, log);
    OpenIsUnclosed(log);
    forall i: nat | i < |log| && IsWrite(log[i])
      ensures exists j: nat :: j < i && log[j] == Will(log[i].a) && Unclosed(log[j + 1..i]) == Some(0)
    {
      var j := WriteIsBracketed(env, st.store, log, i);
    }
  }

  lemma WriteIsBracketed(env: Env, s: Store, log: seq<Event>, i: nat) returns (j: nat)
    requires Replay(env, Machine(s, []), log).Some? && i < |log| && IsWrite(log[i])
    ensures j < i && log[j] == Will(log[i].a) && Unclosed(log[j + 1..i]) == Some(0)
  {
    ReplayAt(env, Machine(s, []), log, i);
    ReplayBrackets(env, s, log[..i]);
    j := OpenedBy(log[..i], |Brackets(log[..i]).value| - 1);
    assert log[..i][j + 1..] == log[j + 1..i];
  }

  /** Each event of an accepted log was permitted when it was replayed. */
  lemma ReplayAt(env: Env, m: Machine, log: seq<Event>, i: nat)
    requires Replay(env, m, log).Some? && i < |log|
    ensures Replay(env, m, log[..i]).Some? && Permitted(env, Replay(env, m, log[..i]).value, log[i])
  {
    ReplayPrefix(env, m, log, i + 1);
    assert log[..i + 1][..i] == log[..i];
  }
}

/** The iterators of `IndexSet`: a walk over ranges kept in chunks, and on top of it a
    walk over the single indices. */
module IndexSets {
  import opened Values

  /** The indices from `first` up to, not including, `second`. */
  datatype Range = Range(first: nat, second: nat)

  type Chunks = seq<seq<Range>>

  /** An iterator's place: the chunk and, unless it is the end, the range in it. */
  datatype Place = Place(outer: nat, inner: Option<nat>)

  ghost predicate WellFormed(chunks: Chunks) {
    && (forall c :: 0 <= c < |chunks| ==> chunks[c] != [])
    && Ascending(Flat(chunks))
  }

  /** Non-empty ranges, in order and disjoint. */
  ghost predicate Ascending(rs: seq<Range>) {
    && (forall i :: 0 <= i < |rs| ==> rs[i].first < rs[i].second)
    && (forall i, j :: 0 <= i < j < |rs| ==> rs[i].second <= rs[j].first)
  }

  /** All ranges as one sequence. */
  function Flat(chunks: Chunks): seq<Range> {
    if chunks == [] then [] else chunks[0] + Flat(chunks[1..])
  }

  predicate ValidPlace(chunks: Chunks, p: Place) {
    if p.inner.Some? then p.outer < |chunks| && p.inner.value < |chunks[p.outer]| else p.outer == |chunks|
  }

  /** The place as a position in the one sequence. */
  function Position(chunks: Chunks, p: Place): nat
    requires ValidPlace(chunks, p)
  {
    |Flat(chunks[..p.outer])| + if p.inner.Some? then p.inner.value else 0
  }

  // ----- chunking is invisible

  lemma {:induction false} FlatJoin(x: Chunks, y: Chunks)
    ensures Flat(x + y) == Flat(x) + Flat(y)
    decreases |x|
  {
    if x == [] {
      assert x + y == y;
    } else {
      FlatJoin(x[1..], y);
      assert (x + y)[1..] == x[1..] + y;
    }
  }

  /** One chunk further is as many ranges further as the chunk holds. */
  lemma NextFlat(chunks: Chunks, c: nat)
    requires c < |chunks|
    ensures Flat(chunks[..c + 1]) == Flat(chunks[..c]) + chunks[c]
  {
    assert chunks[..c + 1] == chunks[..c] + [chunks[c]];
    FlatJoin(chunks[..c], [chunks[c]]);
    assert [chunks[c]][1..] == [];
    assert Flat([chunks[c]]) == chunks[c] + [];
  }

  lemma FlatAt(chunks: Chunks, p: Place)
    requires ValidPlace(chunks, p)
    ensures Position(chunks, p) <= |Flat(chunks)|
    ensures p.inner.Some? ==> Position(chunks, p) < |Flat(chunks)|
                              && Flat(chunks)[Position(chunks, p)] == chunks[p.outer][p.inner.value]
    ensures p.inner.None? ==> Position(chunks, p) == |Flat(chunks)|
  {
    assert chunks == chunks[..p.outer] + chunks[p.outer..];
    FlatJoin(chunks[..p.outer], chunks[p.outer..]);
  }

  lemma {:induction false} FlatGrows(chunks: Chunks, c: nat, e: nat)
    requires c <= e <= |chunks|
    ensures |Flat(chunks[..c])| <= |Flat(chunks[..e])|
    decreases e - c
  {
    if c < e {
      NextFlat(chunks, e - 1);
      FlatGrows(chunks, c, e - 1);
    }
  }

  /** Two places are the same exactly when they are the same position. */
  lemma SamePlace(chunks: Chunks, p: Place, q: Place)
    requires forall c :: 0 <= c < |chunks| ==> chunks[c] != []
    requires ValidPlace(chunks, p) && ValidPlace(chunks, q)
    ensures p == q <==> Position(chunks, p) == Position(chunks, q)
  {
    if p.outer != q.outer {
      var (lo, hi) := if p.outer < q.outer then (p, q) else (q, p);
      NextFlat(chunks, lo.outer);
      FlatGrows(chunks, lo.outer + 1, hi.outer);
      assert lo.inner.Some?;
    }
  }

  class RangeIterator {
    const chunks: Chunks
    var outer: nat
    var inner: Option<nat>

    ghost predicate Valid()
      reads this
    {
      WellFormed(chunks) && ValidPlace(chunks, Here())
    }

    function Here(): Place
      reads this
    {
      Place(outer, inner)
    }

    ghost function Pos(): nat
      requires Valid()
      reads this
    {
      Position(chunks, Here())
    }

    /** `begin()`. */
    constructor Begin(chunks: Chunks)
      requires WellFormed(chunks)
      ensures Valid() && this.chunks == chunks && Pos() == 0
    {
      this.chunks := chunks;
      this.outer := 0;
      this.inner := if chunks == [] then None else Some(0);
      new;
      assert chunks[..0] == [];
    }

    /** `end()`. */
    constructor AtEnd(chunks: Chunks)
      requires WellFormed(chunks)
      ensures Valid() && this.chunks == chunks && Pos() == |Flat(chunks)|
    {
      this.chunks := chunks;
      this.outer := |chunks|;
      this.inner := None;
      new;
      assert chunks[..|chunks|] == chunks;
    }

    method Get() returns (r: Range)
      requires Valid() && Pos() < |Flat(chunks)|
      ensures r == Flat(chunks)[Pos()]
    {
      FlatAt(chunks, Here());
      r := chunks[outer][inner.value];
    }

    /** The pointer comparison of `==`. */
    method Equals(other: RangeIterator) returns (b: bool)
      requires Valid() && other.Valid() && other.chunks == chunks
      ensures b <==> Pos() == other.Pos()
    {
      SamePlace(chunks, Here(), other.Here());
      b := outer == other.outer && inner == other.inner;
    }

    method NextChunk()
      requires Valid() && Pos() < |Flat(chunks)|
      modifies this
      ensures Valid() && outer == old(outer) + 1 && Pos() == |Flat(chunks[..outer])|
    {
      FlatAt(chunks, Here());
      outer := outer + 1;
      inner := if outer != |chunks| then Some(0) else None;
    }

    method Increment()
      requires Valid() && Pos() < |Flat(chunks)|
      modifies this
      ensures Valid() && Pos() == old(Pos()) + 1
    {
      FlatAt(chunks, Here());
      if inner.value + 1 == |chunks[outer]| {
        NextFlat(chunks, outer);
        NextChunk();
      } else {
        inner := Some(inner.value + 1);
      }
    }

    method Decrement()
      requires Valid() && Pos() > 0
      modifies this
      ensures Valid() && Pos() == old(Pos()) - 1
    {
      if inner.None? || inner.value == 0 {
        NextFlat(chunks, outer - 1);
        outer := outer - 1;
        inner := Some(|chunks[outer]| - 1);
      } else {
        inner := Some(inner.value - 1);
      }
    }

    /** `++` and `--` undo each other, across chunk boundaries and from the end. */
    method ThereAndBack()
      requires Valid() && Pos() < |Flat(chunks)|
      modifies this
      ensures Here() == old(Here())
    {
      Increment();
      Decrement();
      SamePlace(chunks, Here(), old(Here()));
    }

    method BackAndThere()
      requires Valid() && Pos() > 0
      modifies this
      ensures Here() == old(Here())
    {
      ghost var n := Pos();
      FlatAt(chunks, Here());
      Decrement();
      Increment();
      SamePlace(chunks, Here(), old(Here()));
    }
  }

  // ----- the single indices

  function Indices(r: Range): (s: seq<nat>)
    ensures |s| == if r.first < r.second then r.second - r.first else 0
  {
    if r.first < r.second then seq(r.second - r.first, i requires 0 <= i => r.first + i) else []
  }

  /** Every index of the set, range by range. */
  function Members(rs: seq<Range>): seq<nat> {
    if rs == [] then [] else Indices(rs[0]) + Members(rs[1..])
  }

  function TotalLength(rs: seq<Range>): nat {
    if rs == [] then 0
    else (if rs[0].first < rs[0].second then rs[0].second - rs[0].first else 0) + TotalLength(rs[1..])
  }

  lemma {:induction false} MembersBound(rs: seq<Range>, i: nat)
    requires Ascending(rs) && i < |Members(rs)|
    ensures rs[0].first <= Members(rs)[i]
    decreases |rs|
  {
    if i >= |Indices(rs[0])| {
      MembersBound(rs[1..], i - |Indices(rs[0])|);
    }
  }

  /** Each member once, in strictly ascending order. */
  lemma {:induction false} MembersAscend(rs: seq<Range>, i: nat, j: nat)
    requires Ascending(rs) && i < j < |Members(rs)|
    ensures Members(rs)[i] < Members(rs)[j]
    decreases |rs|
  {
    var n := |Indices(rs[0])|;
    if i >= n {
      MembersAscend(rs[1..], i - n, j - n);
    } else if j >= n {
      MembersBound(rs[1..], j - n);
    }
  }

  /** A number is a member exactly when some range contains it. */
  lemma {:induction false} MembersAreContained(rs: seq<Range>, x: nat)
    ensures x in Members(rs) <==> exists k :: 0 <= k < |rs| && rs[k].first <= x < rs[k].second
    decreases |rs|
  {
    if rs != [] {
      MembersAreContained(rs[1..], x);
      var here := Indices(rs[0]);
      if rs[0].first <= x < rs[0].second {
        assert here[x - rs[0].first] == x;
      }
      assert x in here <==> rs[0].first <= x < rs[0].second;
      if k :| 0 <= k < |rs| && rs[k].first <= x < rs[k].second {
        assert k > 0 ==> rs[1..][k - 1] == rs[k];
      }
      if j :| 0 <= j < |rs[1..]| && rs[1..][j].first <= x < rs[1..][j].second {
        assert rs[j + 1] == rs[1..][j];
      }
    }
  }

  lemma {:induction false} MembersCount(rs: seq<Range>)
    ensures |Members(rs)| == TotalLength(rs)
    decreases |rs|
  {
    if rs != [] {
      MembersCount(rs[1..]);
    }
  }

  /** How many members come before range `k`. */
  function RankOf(rs: seq<Range>, k: nat): nat
    requires k <= |rs|
  {
    if k == 0 then 0 else |Indices(rs[0])| + RankOf(rs[1..], k - 1)
  }

  lemma {:induction false} NextRank(rs: seq<Range>, k: nat)
    requires k < |rs|
    ensures RankOf(rs, k + 1) == RankOf(rs, k) + |Indices(rs[k])|
    decreases k
  {
    if k > 0 {
      NextRank(rs[1..], k - 1);
    }
  }

  /** No range is empty, so the next range, if there is one, has a first index. */
  lemma NotEmpty(rs: seq<Range>, k: nat)
    requires Ascending(rs) && k < |rs|
    ensures |Indices(rs[k])| == rs[k].second - rs[k].first
    ensures k + 1 < |rs| ==> |Indices(rs[k + 1])| > 0
  {
  }

  lemma {:induction false} LastRank(rs: seq<Range>)
    ensures RankOf(rs, |rs|) == |Members(rs)|
    decreases |rs|
  {
    if rs != [] {
      LastRank(rs[1..]);
    }
  }

  lemma {:induction false} MemberAt(rs: seq<Range>, k: nat, offset: nat)
    requires k < |rs| && offset < |Indices(rs[k])|
    ensures RankOf(rs, k) + offset < |Members(rs)|
    ensures Members(rs)[RankOf(rs, k) + offset] == rs[k].first + offset
    decreases k
  {
    if k > 0 {
      MemberAt(rs[1..], k - 1, offset);
    }
  }

  class IndexIterator {
    const ranges: RangeIterator
    var offset: nat

    ghost predicate Valid()
      reads this, ranges
    {
      && ranges.Valid()
      && (if ranges.Pos() == |Flat(ranges.chunks)| then offset == 0
          else ranges.Pos() < |Flat(ranges.chunks)|
               && offset < |Indices(Flat(ranges.chunks)[ranges.Pos()])|)
    }

    /** How many members were passed. */
    ghost function Rank(): nat
      requires Valid()
      reads this, ranges
    {
      RankOf(Flat(ranges.chunks), ranges.Pos()) + offset
    }

    constructor Begin(chunks: Chunks)
      requires WellFormed(chunks)
      ensures Valid() && fresh(ranges) && ranges.chunks == chunks && Rank() == 0
    {
      var it := new RangeIterator.Begin(chunks);
      ranges := it;
      offset := 0;
      new;
    }

    method Get() returns (x: nat)
      requires Valid() && ranges.Pos() < |Flat(ranges.chunks)|
      ensures Rank() < |Members(Flat(ranges.chunks))| && x == Members(Flat(ranges.chunks))[Rank()]
    {
      MemberAt(Flat(ranges.chunks), ranges.Pos(), offset);
      var r := ranges.Get();
      x := r.first + offset;
    }

    method Increment()
      requires Valid() && ranges.Pos() < |Flat(ranges.chunks)|
      modifies this, ranges
      ensures Valid() && Rank() == old(Rank()) + 1
    {
      ghost var rs, k := Flat(ranges.chunks), ranges.Pos();
      NextRank(rs, k);
      NotEmpty(rs, k);
      offset := offset + 1;
      var r := ranges.Get();
      if r.first + offset == r.second {
        ranges.Increment();
        offset := 0;
      }
    }

    /** The iterator has passed `n` members of the set. */
    ghost predicate Passed(chunks: Chunks, n: nat)
      reads this, ranges
    {
      && Valid() && ranges.chunks == chunks && Rank() == n
      && (if ranges.Pos() == |Flat(chunks)| then n == |Members(Flat(chunks))| else n < |Members(Flat(chunks))|)
    }

    lemma AlwaysPassed()
      requires Valid()
      ensures Passed(ranges.chunks, Rank())
    {
      var rs := Flat(ranges.chunks);
      LastRank(rs);
      if ranges.Pos() < |rs| {
        RankOrders(rs, ranges.Pos(), offset, |rs|, 0);
      }
    }

    /** `it == end()`. */
    method IsEnd(ghost n: nat) returns (b: bool)
      requires Passed(ranges.chunks, n)
      ensures b <==> n == |Members(Flat(ranges.chunks))|
    {
      var end := new RangeIterator.AtEnd(ranges.chunks);
      b := ranges.Equals(end);
    }

    /** `*it++`: the member under the iterator, which moves on. */
    method Next(ghost n: nat) returns (x: nat)
      requires Passed(ranges.chunks, n) && n < |Members(Flat(ranges.chunks))|
      modifies this, ranges
      ensures Passed(ranges.chunks, n + 1)
      ensures x == Members(Flat(ranges.chunks))[n]
    {
      x := Get();
      Increment();
      AlwaysPassed();
    }

    /** `==` looks at the ranges only. */
    method Equals(other: IndexIterator) returns (b: bool)
      requires Valid() && other.Valid() && other.ranges.chunks == ranges.chunks
      ensures b <==> ranges.Pos() == other.ranges.Pos()
      ensures b && offset == other.offset <==> Rank() == other.Rank()
    {
      b := ranges.Equals(other.ranges);
      RankOrders(Flat(ranges.chunks), ranges.Pos(), offset, other.ranges.Pos(), other.offset);
      RankOrders(Flat(ranges.chunks), other.ranges.Pos(), other.offset, ranges.Pos(), offset);
    }
  }

  lemma OneRange(chunks: Chunks)
    requires chunks == [[Range(0, 2)]]
    ensures WellFormed(chunks) && Flat(chunks) == [Range(0, 2)] && Members(Flat(chunks)) == [0, 1]
    ensures RankOf(Flat(chunks), 0) == 0 && RankOf(Flat(chunks), 1) == 2
  {
    var rs := [Range(0, 2)];
    assert chunks[1..] == [] && Flat(chunks) == rs;
    assert rs[1..] == [] && Indices(rs[0]) == [0, 1];
    assert Members(rs) == [0, 1] + [];
  }

  /** Two iterators over one range of two indices, one of them incremented: `==` takes
      them for equal, though they stand on different members. */
  method EqualButApart() returns (equal: bool, first: nat, second: nat)
    ensures equal && first == 0 && second == 1
  {
    var chunks := [[Range(0, 2)]];
    OneRange(chunks);
    var it := new IndexIterator.Begin(chunks);
    var next := new IndexIterator.Begin(chunks);
    next.Increment();
    first := it.Get();
    second := next.Get();
    equal := it.Equals(next);
  }

  /** A later range is a greater rank, whatever the offsets within the two ranges. */
  lemma {:induction false} RankOrders(rs: seq<Range>, k: nat, offset: nat, m: nat, offset2: nat)
    requires k <= |rs| && m <= |rs|
    requires k < |rs| ==> offset < |Indices(rs[k])|
    ensures k < m ==> RankOf(rs, k) + offset < RankOf(rs, m) + offset2
    decreases m
  {
    if k < m {
      NextRank(rs, m - 1);
      if k < m - 1 {
        RankOrders(rs, k, offset, m - 1, 0);
      }
    }
  }

  lemma PrefixGrows<T>(s: seq<T>, t: seq<T>)
    requires s <= t && |s| < |t|
    ensures s + [t[|s|]] <= t
  {
  }

  /** `for (auto i : set.as_indexes())`: from `begin` to `end` the loop sees every
      member once, in ascending order, and makes one step a member. */
  method Visit(chunks: Chunks) returns (seen: seq<nat>)
    requires WellFormed(chunks)
    ensures seen == Members(Flat(chunks))
  {
    var it := new IndexIterator.Begin(chunks);
    it.AlwaysPassed();
    seen := [];
    var atEnd := it.IsEnd(0);
    while !atEnd
      invariant it.Passed(chunks, |seen|) && fresh(it) && fresh(it.ranges)
      invariant seen <= Members(Flat(chunks))
      invariant atEnd <==> |seen| == |Members(Flat(chunks))|
      decreases |Members(Flat(chunks))| - |seen|
    {
      var x := it.Next(|seen|);
      PrefixGrows(seen, Members(Flat(chunks)));
      seen := seen + [x];
      atEnd := it.IsEnd(|seen|);
    }
  }
}

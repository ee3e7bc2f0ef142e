/** Sets of addresses as sorted lists of disjoint ranges. */
module RangeLists {
  const OFFSETS: nat := 0x1_0000_0000_0000_0000

  type Offset = x: nat | x < 0x1_0000_0000_0000_0000

  /** An address space is known by its index. */
  datatype Range = Range(spc: nat, first: Offset, last: Offset)

  datatype Address = Invalid | Address(space: nat, offset: Offset)

  /** Range's operator<: by space, then by first offset. */
  predicate Less(s: nat, f: nat, r: Range) {
    s < r.spc || (s == r.spc && f < r.first)
  }

  /** r ends before q starts. */
  predicate Before(r: Range, q: Range) {
    r.spc < q.spc || (r.spc == q.spc && r.last < q.first)
  }

  ghost predicate Sorted(t: seq<Range>) {
    && (forall i :: 0 <= i < |t| ==> t[i].first <= t[i].last)
    && (forall i, j :: 0 <= i < j < |t| ==> Before(t[i], t[j]))
  }

  predicate Has(r: Range, s: nat, a: nat) {
    r.spc == s && r.first <= a <= r.last
  }

  /** Address a of space s is in the set. */
  ghost predicate Contains(t: seq<Range>, s: nat, a: nat) {
    exists i :: 0 <= i < |t| && Has(t[i], s, a)
  }

  /** t' is t with [first, last] of space spc added. */
  ghost predicate Added(t: seq<Range>, t': seq<Range>, spc: nat, first: nat, last: nat) {
    forall s: nat, a: nat :: Contains(t', s, a) <==> Contains(t, s, a) || (s == spc && first <= a <= last)
  }

  /** t' is t without [first, last] of space spc. */
  ghost predicate Removed(t: seq<Range>, t': seq<Range>, spc: nat, first: nat, last: nat) {
    forall s: nat, a: nat :: Contains(t', s, a) <==> Contains(t, s, a) && !(s == spc && first <= a <= last)
  }

  /** std::set's upper_bound: the position of the first range after (s, f). */
  function UpperBound(t: seq<Range>, s: nat, f: nat): (k: nat)
    ensures k <= |t|
    ensures forall i :: 0 <= i < k ==> !Less(s, f, t[i])
    ensures k < |t| ==> Less(s, f, t[k])
  {
    if t == [] || Less(s, f, t[0]) then 0 else 1 + UpperBound(t[1..], s, f)
  }

  /** std::set's insert: a range that starts where another one does is dropped. */
  function SetInsert(t: seq<Range>, r: Range): seq<Range> {
    var k := UpperBound(t, r.spc, r.first);
    if k > 0 && t[k - 1].spc == r.spc && t[k - 1].first == r.first then t else t[..k] + [r] + t[k..]
  }

  lemma SetInsertBetween(a: seq<Range>, b: seq<Range>, r: Range)
    requires forall i :: 0 <= i < |a| ==> Less(a[i].spc, a[i].first, r)
    requires forall i :: 0 <= i < |b| ==> Less(r.spc, r.first, b[i])
    ensures SetInsert(a + b, r) == a + [r] + b
  {
    var t := a + b;
    var k := UpperBound(t, r.spc, r.first);
    assert forall i :: 0 <= i < |a| ==> t[i] == a[i];
    assert forall i :: |a| <= i < |t| ==> t[i] == b[i - |a|];
    if |b| > 0 { assert t[|a|] == b[0]; }
    assert k == |a|;
    if k > 0 { assert t[k - 1] == a[k - 1]; }
  }

  /** The ranges from lo up to hi are the ones that meet [first, last] of space spc. */
  ghost predicate Meeting(t: seq<Range>, spc: nat, first: nat, last: nat, lo: nat, hi: nat) {
    && lo <= hi <= |t|
    && (forall i :: 0 <= i < lo ==> t[i].spc < spc || (t[i].spc == spc && t[i].last < first))
    && (forall i :: lo <= i < hi ==> t[i].spc == spc && t[i].first <= last && first <= t[i].last)
    && (forall i :: hi <= i < |t| ==> Less(spc, last, t[i]))
  }

  /** The two iterators with which insertRange and removeRange start. */
  method FindMeeting(t: seq<Range>, spc: nat, first: Offset, last: Offset) returns (lo: nat, hi: nat)
    requires Sorted(t) && first <= last
    ensures Meeting(t, spc, first, last, lo, hi)
  {
    lo := UpperBound(t, spc, first);
    if lo != 0 {
      lo := lo - 1;
      if t[lo].spc != spc || t[lo].last < first { lo := lo + 1; }
    }
    hi := UpperBound(t, spc, last);
    BelowMeeting(t, spc, first, lo);
    AboveMeeting(t, spc, last, hi);
    FoundMeeting(t, spc, first, last, lo, hi);
  }

  lemma BelowMeeting(t: seq<Range>, spc: nat, first: Offset, lo: nat)
    requires Sorted(t)
    requires var k := UpperBound(t, spc, first);
      lo == if k != 0 && t[k - 1].spc == spc && first <= t[k - 1].last then k - 1 else k
    ensures forall i :: 0 <= i < lo ==> t[i].spc < spc || (t[i].spc == spc && t[i].last < first)
    ensures forall i :: lo <= i < |t| ==> spc < t[i].spc || (spc == t[i].spc && first <= t[i].last)
  {
    var k := UpperBound(t, spc, first);
    forall i | 0 <= i < lo ensures t[i].spc < spc || (t[i].spc == spc && t[i].last < first) {
      if i < k - 1 { assert Before(t[i], t[k - 1]); }
    }
    forall i | k < i < |t| ensures Less(spc, first, t[i]) { assert Before(t[k], t[i]); }
  }

  lemma AboveMeeting(t: seq<Range>, spc: nat, last: Offset, hi: nat)
    requires Sorted(t) && hi == UpperBound(t, spc, last)
    ensures forall i :: hi <= i < |t| ==> Less(spc, last, t[i])
  {
    forall i | hi < i < |t| ensures Less(spc, last, t[i]) { assert Before(t[hi], t[i]); }
  }

  lemma FoundMeeting(t: seq<Range>, spc: nat, first: Offset, last: Offset, lo: nat, hi: nat)
    requires lo <= |t| && hi <= |t| && first <= last
    requires forall i :: 0 <= i < lo ==> t[i].spc < spc || (t[i].spc == spc && t[i].last < first)
    requires forall i :: lo <= i < |t| ==> spc < t[i].spc || (spc == t[i].spc && first <= t[i].last)
    requires forall i :: 0 <= i < hi ==> !Less(spc, last, t[i])
    requires forall i :: hi <= i < |t| ==> Less(spc, last, t[i]) && t[i].first <= t[i].last
    ensures Meeting(t, spc, first, last, lo, hi)
  {
    assert hi < lo ==> Less(spc, last, t[hi]);
  }

  class RangeList {
    var tree: seq<Range>

    constructor ()
      ensures tree == []
    {
      tree := [];
    }

    /** Take out the ranges from lo up to hi and widen [first, last] to cover them. */
    method Absorb(spc: nat, first: Offset, last: Offset, lo: nat, hi: nat) returns (f: Offset, l: Offset)
      requires Sorted(tree) && first <= last && Meeting(tree, spc, first, last, lo, hi)
      modifies this
      ensures tree == old(tree)[..lo] + old(tree)[hi..]
      ensures lo == hi ==> f == first && l == last
      ensures lo < hi ==> f == Min(first, old(tree)[lo].first) && l == Max(last, old(tree)[hi - 1].last)
    {
      ghost var t, k := tree, lo;
      f, l := first, last;
      var iter2 := hi;
      while lo != iter2
        invariant lo <= k <= hi && iter2 == lo + (hi - k)
        invariant tree == t[..lo] + t[k..]
        invariant k == lo ==> f == first && l == last
        invariant k > lo ==> f == Min(first, t[lo].first) && l == Max(last, t[k - 1].last)
      {
        EraseAt(t, tree, lo, k);
        if k > lo { assert Before(t[lo], t[k]) && Before(t[k - 1], t[k]); }
        if tree[lo].first < f { f := tree[lo].first; }
        if tree[lo].last > l { l := tree[lo].last; }
        tree := tree[..lo] + tree[lo + 1..];
        iter2 := iter2 - 1;
        k := k + 1;
      }
    }

    /** Insert [first, last]: exactly these addresses are added. */
    method InsertRange(spc: nat, first: Offset, last: Offset)
      requires Sorted(tree) && first <= last
      modifies this
      ensures Sorted(tree)
      ensures Added(old(tree), tree, spc, first, last) && Inserted(old(tree), tree, spc, first, last)
    {
      ghost var t := tree;
      var lo, hi := FindMeeting(tree, spc, first, last);
      var f, l := Absorb(spc, first, last, lo, hi);
      Merged(t, spc, first, last, lo, hi, f, l);
      SetInsertBetween(t[..lo], t[hi..], Range(spc, f, l));
      tree := SetInsert(tree, Range(spc, f, l));
    }

    /** Erase the range at position lo and put back what lies outside of [first, last];
        the number of ranges put back is how far the iterators move. */
    method CutOne(spc: nat, first: Offset, last: Offset, lo: nat, ghost t: seq<Range>, ghost start: nat, ghost k: nat,
        ghost end: nat)
      returns (moved: nat)
      requires Sorted(t) && first <= last && Meeting(t, spc, first, last, start, end) && k < end
      requires Cutting(t, tree, start, k, end, lo, first, last)
      modifies this
      ensures Cutting(t, tree, start, k + 1, end, lo + moved, first, last)
    {
      Erase(t, tree, spc, first, last, start, k, end, lo);
      CutRight(t, spc, first, last, start, k, end);
      moved := 0;
      var a, b := tree[lo].first, tree[lo].last;
      tree := tree[..lo] + tree[lo + 1..];
      if a < first {
        tree := SetInsert(tree, Range(spc, a, first - 1));
        moved := moved + 1;
      }
      if b > last {
        tree := SetInsert(tree, Range(spc, last + 1, b));
        moved := moved + 1;
      }
    }

    /** Cut each of the ranges from start up to end. */
    method CutAll(spc: nat, first: Offset, last: Offset, start: nat, end: nat)
      requires Sorted(tree) && first <= last && Meeting(tree, spc, first, last, start, end)
      modifies this
      ensures tree == var t := old(tree);
          t[..start] + LeftPart(t, start, end, first) + RightPart(t, start, end, end, last) + t[end..]
    {
      ghost var t, k := tree, start;
      var lo, hi := start, end;
      assert tree == t[..start] + LeftPart(t, start, k, first) + RightPart(t, start, k, end, last) + t[k..];
      while lo != hi
        invariant start <= k <= end && 0 <= lo <= hi && hi - lo == end - k
        invariant Cutting(t, tree, start, k, end, lo, first, last)
      {
        var moved := CutOne(spc, first, last, lo, t, start, k, end);
        lo, hi := lo + moved, hi - 1 + moved;
        k := k + 1;
      }
    }

    /** Remove [first, last]: exactly these addresses are taken away. */
    method RemoveRange(spc: nat, first: Offset, last: Offset)
      requires Sorted(tree) && first <= last
      modifies this
      ensures Sorted(tree)
      ensures Removed(old(tree), tree, spc, first, last)
    {
      if tree == [] { return; }
      ghost var t := tree;
      var lo, hi := FindMeeting(tree, spc, first, last);
      CutAll(spc, first, last, lo, hi);
      Cut(t, spc, first, last, lo, hi);
    }

    /** The length of the contiguous run of addresses from addr, or a part of it that reaches
        maxsize, exactly when the run is not the whole space, or is cut off before its last range.
        The length of the whole space wraps to 0. */
    method LongestFit(addr: Address, maxsize: Offset) returns (size: Offset)
      requires Sorted(tree)
      ensures addr.Invalid? ==> size == 0
      ensures addr.Address? ==> Measures(tree, addr.space, addr.offset, maxsize, size)
      ensures addr.Address? ==>
        (Promised(tree, addr.space, addr.offset, maxsize, size) <==>
         !Wraps(tree, addr.space, addr.offset, maxsize))
      ensures addr.Address? ==> CutAtEnd(tree, addr.space, addr.offset, maxsize, size)
    {
      if addr.Invalid? { return 0; }
      if tree == [] {
        RunIs(tree, addr.space, addr.offset, 0);
        assert CutAt(tree, addr.space, addr.offset, maxsize, 0, 0);
        return 0;
      }
      var s, offset := addr.space, addr.offset;
      var iter: nat := UpperBound(tree, s, offset);
      AboveMeeting(tree, s, offset, iter);
      if iter == 0 {
        RunIs(tree, s, offset, 0);
        assert CutAt(tree, s, offset, maxsize, 0, 0);
        return 0;
      }
      iter := iter - 1;
      StartOfRun(tree, s, offset, iter);
      if tree[iter].last < offset {
        RunIs(tree, s, offset, 0);
        assert CutAt(tree, s, offset, maxsize, 0, 0);
        return 0;
      }
      size := FollowChain(s, offset, maxsize, iter);
    }

    /** longestFit's loop, from the range at position start. */
    method FollowChain(s: nat, addr: Offset, maxsize: Offset, start: nat) returns (size: Offset)
      requires Sorted(tree) && Chained(tree, s, addr, 0, start)
      ensures Measures(tree, s, addr, maxsize, size)
      ensures Promised(tree, s, addr, maxsize, size) <==> !Wraps(tree, s, addr, maxsize)
      ensures CutAtEnd(tree, s, addr, maxsize, size)
    {
      ghost var n: nat := 0;
      var iter: nat, offset: Offset := start, addr;
      size := 0;
      while iter < |tree|
        invariant Following(tree, s, addr, n, iter, offset, maxsize, size)
        decreases |tree| - iter
      {
        if tree[iter].spc != s { break; }
        if tree[iter].first > offset { break; }
        n := FollowStep(tree, s, addr, n, iter, offset, maxsize, size);
        size := (size + (tree[iter].last + 1 - offset)) % OFFSETS;
        offset := (tree[iter].last + 1) % OFFSETS;
        if size >= maxsize { return; }
        iter := iter + 1;
      }
      ChainMeasures(tree, s, addr, n, iter, offset, maxsize, size);
    }
  }

  /** Before range k of the loop, n addresses of the run are counted. */
  ghost predicate Following(t: seq<Range>, s: nat, off: Offset, n: nat, k: nat, offset: Offset, maxsize: Offset,
      size: Offset) {
    && Chained(t, s, off, n, k) && size == n % OFFSETS && offset == (off + n) % OFFSETS
    && (n > 0 ==> size < maxsize) && (n == OFFSETS ==> StartsBelow(t, s, maxsize))
    && (n > 0 ==> EndsAfter(t, s, off, n)) && NoneReaches(t, s, off, n, maxsize)
  }

  /** What the loop returns when it stops early. */
  ghost predicate StopsEarly(t: seq<Range>, s: nat, off: Offset, maxsize: Offset, size: Offset) {
    && Measures(t, s, off, maxsize, size) && Promised(t, s, off, maxsize, size)
    && !Wraps(t, s, off, maxsize) && CutAtEnd(t, s, off, maxsize, size)
  }

  lemma CutHere(t: seq<Range>, s: nat, off: Offset, n: nat, k: nat, maxsize: Offset, size: Offset)
    requires Chained(t, s, off, n, k) && size == n % OFFSETS && size >= maxsize
    requires EndsAfter(t, s, off, n) && NoneReaches(t, s, off, n, maxsize)
    ensures StopsEarly(t, s, off, maxsize, size)
  {
    PartMeasures(t, s, off, n, k, maxsize, size);
    RunAtLeast(t, s, off, n);
    assert CutAt(t, s, off, maxsize, size, n);
  }

  /** One more range: the loop goes on, or returns what it promises. */
  lemma FollowStep(t: seq<Range>, s: nat, off: Offset, n: nat, k: nat, offset: Offset, maxsize: Offset, size: Offset)
      returns (next: nat)
    requires Sorted(t) && Following(t, s, off, n, k, offset, maxsize, size)
    requires k < |t| && t[k].spc == s && t[k].first <= offset
    ensures t[k].last + 1 >= offset
    ensures var more := (size + (t[k].last + 1 - offset)) % OFFSETS;
      if more < maxsize then Following(t, s, off, next, k + 1, (t[k].last + 1) % OFFSETS, maxsize, more)
      else StopsEarly(t, s, off, maxsize, more)
  {
    next := ChainSizes(t, s, off, n, k, offset, size);
    SmallerThanAll(off, n, offset, t[k].last, size, maxsize);
    StepOn(t, s, off, n, k, next, (t[k].last + 1) % OFFSETS, maxsize, (size + (t[k].last + 1 - offset)) % OFFSETS);
  }

  /** There is more of the run behind n addresses. */
  lemma SmallerThanAll(off: Offset, n: nat, offset: Offset, last: Offset, size: Offset, maxsize: Offset)
    requires off + n <= OFFSETS && offset == (off + n) % OFFSETS && size == n % OFFSETS && last + 1 >= off + n
    requires off + n <= last && (n > 0 ==> size < maxsize)
    ensures offset == off + n && size == n && (n > 0 ==> n < maxsize)
  {
  }

  lemma StepOn(t: seq<Range>, s: nat, off: Offset, n: nat, k: nat, next: nat, offset: Offset, maxsize: Offset,
      more: Offset)
    requires Sorted(t) && Chained(t, s, off, n, k) && k < |t| && t[k].spc == s && t[k].first <= off + n < OFFSETS
    requires NoneReaches(t, s, off, n, maxsize) && (n > 0 ==> n < maxsize)
    requires Chained(t, s, off, next, k + 1) && off + next == t[k].last + 1
    requires more == next % OFFSETS && offset == (off + next) % OFFSETS
    ensures if more < maxsize then Following(t, s, off, next, k + 1, offset, maxsize, more)
            else StopsEarly(t, s, off, maxsize, more)
  {
    NextEnd(t, s, off, n, k, next, maxsize);
    if more >= maxsize {
      CutHere(t, s, off, next, k + 1, maxsize, more);
    } else {
      GoesOn(t, s, off, n, k, next, offset, maxsize, more);
    }
  }

  lemma GoesOn(t: seq<Range>, s: nat, off: Offset, n: nat, k: nat, next: nat, offset: Offset, maxsize: Offset,
      size: Offset)
    requires k < |t| && t[k].spc == s && Chained(t, s, off, next, k + 1) && off + next == t[k].last + 1
    requires t[k].first <= off + n && (n > 0 ==> n < maxsize)
    requires size == next % OFFSETS && size < maxsize && offset == (off + next) % OFFSETS
    requires EndsAfter(t, s, off, next) && NoneReaches(t, s, off, next, maxsize)
    ensures Following(t, s, off, next, k + 1, offset, maxsize, size)
  {
    if next == OFFSETS { LastOfAll(t, s, n, k, maxsize); }
  }

  /** size is the length of the run from off, or a part of it that reaches maxsize. */
  ghost predicate Measures(t: seq<Range>, s: nat, off: Offset, maxsize: Offset, size: Offset) {
    var n := RunLength(t, s, off);
    size == n % OFFSETS || maxsize <= size <= n
  }

  /** size is the length of the run from off itself, or a part of it that reaches maxsize. */
  ghost predicate Promised(t: seq<Range>, s: nat, off: Offset, maxsize: Offset, size: Offset) {
    var n := RunLength(t, s, off);
    size == n || maxsize <= size <= n
  }

  /** Some range ends n addresses behind off. */
  ghost predicate EndsAfter(t: seq<Range>, s: nat, off: Offset, n: nat) {
    exists i :: 0 <= i < |t| && t[i].spc == s && t[i].last + 1 == off + n
  }

  /** No shorter length up to the end of a range reaches maxsize. */
  ghost predicate NoneReaches(t: seq<Range>, s: nat, off: Offset, n: nat, maxsize: Offset) {
    forall m: nat {:trigger EndsAfter(t, s, off, m)} :: 0 < m < n && EndsAfter(t, s, off, m) ==> m < maxsize
  }

  /** size, modulo 2^64, is the length up to the end of the first range of the run that makes it
      reach maxsize, or the length of the run when none does. */
  ghost predicate CutAtEnd(t: seq<Range>, s: nat, off: Offset, maxsize: Offset, size: Offset) {
    exists m: nat {:trigger CutAt(t, s, off, maxsize, size, m)} :: CutAt(t, s, off, maxsize, size, m)
  }

  ghost predicate CutAt(t: seq<Range>, s: nat, off: Offset, maxsize: Offset, size: Offset, m: nat) {
    var n := RunLength(t, s, off);
    && size == m % OFFSETS && m <= n && (m < n ==> size >= maxsize)
    && (m > 0 ==> EndsAfter(t, s, off, m)) && NoneReaches(t, s, off, m, maxsize)
  }

  /** Range k ends the next length, and no other range ends in between. */
  lemma NextEnd(t: seq<Range>, s: nat, off: Offset, n: nat, k: nat, next: nat, maxsize: Offset)
    requires Sorted(t) && Chained(t, s, off, n, k) && k < |t| && t[k].spc == s && off + next == t[k].last + 1
    requires NoneReaches(t, s, off, n, maxsize) && (n > 0 && n < OFFSETS ==> n < maxsize) && n < OFFSETS
    ensures EndsAfter(t, s, off, next) && NoneReaches(t, s, off, next, maxsize)
  {
    forall m: nat | 0 < m < next && EndsAfter(t, s, off, m) ensures m < maxsize {
      var i :| 0 <= i < |t| && t[i].spc == s && t[i].last + 1 == off + m;
    }
  }

  /** The run is the whole space, and maxsize is not reached before its last range. */
  ghost predicate Wraps(t: seq<Range>, s: nat, off: Offset, maxsize: Offset) {
    RunLength(t, s, off) == OFFSETS && StartsBelow(t, s, maxsize)
  }

  /** The range of the last address starts below maxsize. */
  ghost predicate StartsBelow(t: seq<Range>, s: nat, maxsize: Offset) {
    exists i :: 0 <= i < |t| && Has(t[i], s, OFFSETS - 1) && t[i].first < maxsize
  }

  lemma LastOfAll(t: seq<Range>, s: nat, n: nat, k: nat, maxsize: Offset)
    requires k < |t| && t[k].spc == s && t[k].first <= n && t[k].last == OFFSETS - 1
    requires maxsize > 0 && (n > 0 ==> n < maxsize)
    ensures StartsBelow(t, s, maxsize)
  {
    assert Has(t[k], s, OFFSETS - 1);
  }

  /** The one range over a whole space: its length is given as 0. */
  method WholeSpaceWraps(s: nat, maxsize: Offset) returns (r: RangeList, size: Offset)
    requires maxsize > 0
    ensures r.tree == [Range(s, 0, OFFSETS - 1)] && RunLength(r.tree, s, 0) == OFFSETS && size == 0
  {
    r := new RangeList();
    r.tree := [Range(s, 0, OFFSETS - 1)];
    forall a: nat | a < OFFSETS ensures Contains(r.tree, s, a) { assert Has(r.tree[0], s, a); }
    RunIs(r.tree, s, 0, OFFSETS);
    LastOfAll(r.tree, s, 0, 0, maxsize);
    size := r.LongestFit(Address.Address(s, 0), maxsize);
  }

  /** The length of the run of addresses from off: there is exactly one. */
  ghost function RunLength(t: seq<Range>, s: nat, off: Offset): (n: nat)
    ensures IsRun(t, s, off, n)
  {
    RunExists(t, s, off, 0);
    var n: nat :| IsRun(t, s, off, n);
    n
  }

  // ----- contiguous runs

  ghost predicate AllIn(t: seq<Range>, s: nat, off: nat, n: nat) {
    forall a: nat :: off <= a < off + n ==> Contains(t, s, a)
  }

  /** The run of addresses from off has length n. */
  ghost predicate IsRun(t: seq<Range>, s: nat, off: Offset, n: nat) {
    off + n <= OFFSETS && AllIn(t, s, off, n) && (off + n < OFFSETS ==> !Contains(t, s, off + n))
  }

  lemma RunIs(t: seq<Range>, s: nat, off: Offset, n: nat)
    requires IsRun(t, s, off, n)
    ensures n == RunLength(t, s, off)
  {
    var m := RunLength(t, s, off);
    assert Contains(t, s, off + n) <==> n < m;
    assert m < n ==> Contains(t, s, off + m);
  }

  lemma {:induction false} RunExists(t: seq<Range>, s: nat, off: Offset, n: nat)
    requires off + n <= OFFSETS && AllIn(t, s, off, n)
    ensures exists m: nat :: n <= m && IsRun(t, s, off, m)
    decreases OFFSETS - n
  {
    if off + n < OFFSETS && Contains(t, s, off + n) {
      RunExists(t, s, off, n + 1);
    } else {
      assert IsRun(t, s, off, n);
    }
  }

  lemma RunAtLeast(t: seq<Range>, s: nat, off: Offset, n: nat)
    requires off + n <= OFFSETS && AllIn(t, s, off, n)
    ensures n <= RunLength(t, s, off)
  {
    RunExists(t, s, off, n);
    var m: nat :| n <= m && IsRun(t, s, off, m);
    RunIs(t, s, off, m);
  }

  /** n addresses from off are in the set, and the next one, if it is, is in range k. */
  ghost predicate Chained(t: seq<Range>, s: nat, off: Offset, n: nat, k: nat) {
    && off + n <= OFFSETS && k <= |t|
    && AllIn(t, s, off, n)
    && (forall i :: 0 <= i < k ==> t[i].spc < s || (t[i].spc == s && t[i].last < off + n))
    && (forall i :: k < i < |t| ==> Less(s, off + n, t[i]))
    && (k < |t| && t[k].spc == s ==> off + n <= t[k].last)
    && (k < |t| ==> t[k].spc <= s || n > 0)
    && (k < |t| && n > 0 ==> Less(s, off + n - 1, t[k]))
    && (k < |t| && n == 0 ==> !Less(s, off, t[k]))
  }

  lemma StartOfRun(t: seq<Range>, s: nat, off: Offset, k: nat)
    requires Sorted(t) && k + 1 == UpperBound(t, s, off)
    ensures t[k].last >= off ==> Chained(t, s, off, 0, k)
    ensures t[k].last < off ==> IsRun(t, s, off, 0)
  {
    AboveMeeting(t, s, off, k + 1);
    forall i | 0 <= i < k ensures t[i].spc < s || (t[i].spc == s && t[i].last < off) {
      assert Before(t[i], t[k]);
    }
  }

  lemma ChainStep(t: seq<Range>, s: nat, off: Offset, n: nat, k: nat, next: nat)
    requires Sorted(t) && Chained(t, s, off, n, k) && k < |t|
    requires next == (off + n) % OFFSETS && t[k].spc == s && t[k].first <= next
    ensures next == off + n
    ensures Chained(t, s, off, t[k].last + 1 - off, k + 1)
    ensures n <= t[k].last + 1 - off
  {
    var m := t[k].last + 1 - off;
    forall a: nat | off + n <= a < off + m ensures Contains(t, s, a) {
      assert Has(t[k], s, a);
    }
    forall i | k < i < |t| ensures Less(s, off + m - 1, t[i]) { assert Before(t[k], t[i]); }
    forall i | k + 1 < i < |t| ensures Less(s, off + m, t[i]) { assert Before(t[k + 1], t[i]) &&
        Before(t[k], t[k + 1]); }
  }

  /** Lengths and offsets add up modulo 2^64. */
  lemma SizesAdd(addr: nat, n: nat, next: nat, offset: nat, size: nat, end: nat)
    requires offset == addr + n && end == addr + next && n <= next && size == n % OFFSETS
    ensures (size + (end - offset)) % OFFSETS == next % OFFSETS && end % OFFSETS == (addr + next) % OFFSETS
  {
  }

  /** One more range of the chain, with the length and the offset behind it. */
  lemma ChainSizes(t: seq<Range>, s: nat, off: Offset, n: nat, k: nat, offset: Offset, size: Offset) returns (next: nat)
    requires Sorted(t) && Chained(t, s, off, n, k) && k < |t| && t[k].spc == s && t[k].first <= offset
    requires size == n % OFFSETS && offset == (off + n) % OFFSETS
    ensures t[k].last + 1 >= offset && Chained(t, s, off, next, k + 1)
    ensures (size + (t[k].last + 1 - offset)) % OFFSETS == next % OFFSETS &&
        (t[k].last + 1) % OFFSETS == (off + next) % OFFSETS
  {
    ChainStep(t, s, off, n, k, offset);
    next := t[k].last + 1 - off;
    SizesAdd(off, n, next, offset, size, t[k].last + 1);
  }

  lemma PartMeasures(t: seq<Range>, s: nat, off: Offset, n: nat, k: nat, maxsize: Offset, size: Offset)
    requires Chained(t, s, off, n, k) && size == n % OFFSETS && size >= maxsize
    ensures Measures(t, s, off, maxsize, size)
    ensures Promised(t, s, off, maxsize, size) && !Wraps(t, s, off, maxsize)
  {
    RunAtLeast(t, s, off, n);
  }

  lemma ChainMeasures(t: seq<Range>, s: nat, off: Offset, n: nat, k: nat, offset: Offset, maxsize: Offset, size: Offset)
    requires Sorted(t) && Chained(t, s, off, n, k) && size == n % OFFSETS && offset == (off + n) % OFFSETS
    requires k < |t| && t[k].spc == s ==> t[k].first > offset
    requires (n > 0 ==> size < maxsize) && (n == OFFSETS ==> StartsBelow(t, s, maxsize))
    ensures Measures(t, s, off, maxsize, size)
    requires (n > 0 ==> EndsAfter(t, s, off, n)) && NoneReaches(t, s, off, n, maxsize)
    ensures Promised(t, s, off, maxsize, size) <==> !Wraps(t, s, off, maxsize)
    ensures CutAtEnd(t, s, off, maxsize, size)
  {
    ChainEnd(t, s, off, n, k);
    RunIs(t, s, off, n);
    assert CutAt(t, s, off, maxsize, size, n);
  }

  lemma ChainEnd(t: seq<Range>, s: nat, off: Offset, n: nat, k: nat)
    requires Sorted(t) && Chained(t, s, off, n, k)
    requires k < |t| && t[k].spc == s ==> t[k].first > (off + n) % OFFSETS
    ensures IsRun(t, s, off, n)
  {
  }

  /** removeRange with the ranges up to k cut; the iterator is at position lo. */
  ghost predicate Cutting(t: seq<Range>, tree: seq<Range>, start: nat, k: nat, end: nat, lo: nat, first: Offset,
      last: Offset) {
    && start <= k <= end <= |t|
    && lo == |t[..start] + LeftPart(t, start, k, first) + RightPart(t, start, k, end, last)|
    && tree == t[..start] + LeftPart(t, start, k, first) + RightPart(t, start, k, end, last) + t[k..]
  }

  /** Erasing the range at the iterator and putting back what lies left of first. */
  lemma Erase(t: seq<Range>, tree: seq<Range>, spc: nat, first: Offset, last: Offset, start: nat, k: nat, end: nat,
      lo: nat)
    requires Sorted(t) && first <= last && Meeting(t, spc, first, last, start, end) && k < end
    requires Cutting(t, tree, start, k, end, lo, first, last)
    ensures lo < |tree| && tree[lo] == t[k] && lo == start + |LeftPart(t, start, k, first)|
    ensures var rest := tree[..lo] + tree[lo + 1..];
      if t[k].first < first then
        && lo == start
        && SetInsert(rest, Range(spc, t[k].first, first - 1))
            == t[..start] + LeftPart(t, start, k + 1, first) + t[k + 1..]
        && |LeftPart(t, start, k + 1, first)| == 1
      else
        && rest == t[..start] + LeftPart(t, start, k + 1, first) + t[k + 1..]
        && LeftPart(t, start, k + 1, first) == LeftPart(t, start, k, first)
  {
    var left := LeftPart(t, start, k, first);
    assert tree == (t[..start] + left) + t[k..];
    assert tree[..lo] == t[..start] + left && tree[lo + 1..] == t[k + 1..];
    if k > start { assert Before(t[start], t[k]); }
    if t[k].first < first {
      assert tree[..lo] == t[..start];
      CutLeft(t, spc, first, last, start, end);
      SetInsertBetween(t[..start], t[k + 1..], Range(spc, t[k].first, first - 1));
    }
  }

  function Min(a: nat, b: nat): nat { if a < b then a else b }
  function Max(a: nat, b: nat): nat { if a > b then a else b }

  /** What is left of the first and of the last meeting range, once ranges up to k are processed. */
  ghost function LeftPart(t: seq<Range>, lo: nat, k: nat, first: Offset): seq<Range>
    requires lo <= k <= |t|
  {
    if lo < k && t[lo].first < first then [Range(t[lo].spc, t[lo].first, first - 1)] else []
  }

  ghost function RightPart(t: seq<Range>, lo: nat, k: nat, hi: nat, last: Offset): seq<Range>
    requires k <= hi <= |t|
  {
    if lo < k == hi && t[hi - 1].last > last then [Range(t[hi - 1].spc, last + 1, t[hi - 1].last)] else []
  }

  /** The ranges that meet [first, last] were replaced by one that covers them and it. */
  ghost predicate Inserted(t: seq<Range>, t': seq<Range>, spc: nat, first: Offset, last: Offset) {
    exists lo: nat, hi: nat ::
      Meeting(t, spc, first, last, lo, hi) && t' == t[..lo] + [Covering(t, spc, first, last, lo, hi)] + t[hi..]
  }

  function Covering(t: seq<Range>, spc: nat, first: Offset, last: Offset, lo: nat, hi: nat): Range
    requires lo <= hi <= |t|
  {
    if lo == hi then Range(spc, first, last) else Range(spc, Min(first, t[lo].first), Max(last, t[hi - 1].last))
  }

  /** Neighbouring ranges are not merged: a range that ends right before first, or begins right
      after last, is still there after the insertion.  The class comment says otherwise. */
  lemma NeighboursStayApart(t: seq<Range>, t': seq<Range>, spc: nat, first: Offset, last: Offset, i: nat)
    requires Sorted(t) && first <= last && Inserted(t, t', spc, first, last)
    requires i < |t| && t[i].spc == spc && (t[i].last + 1 == first || last + 1 == t[i].first)
    ensures t[i] in t' && Contains(t', spc, first) && !Has(t[i], spc, first) && !Has(t[i], spc, last)
  {
    var lo: nat, hi: nat :| Meeting(t, spc, first, last, lo, hi) &&
        t' == t[..lo] + [Covering(t, spc, first, last, lo, hi)] + t[hi..];
    var r := Covering(t, spc, first, last, lo, hi);
    KeptBeside(t, lo, hi, r, i);
    assert Has(r, spc, first);
    HasElement(t', spc, first, r);
  }

  /** What lies beside a replaced part of a sequence is still there. */
  lemma KeptBeside(t: seq<Range>, lo: nat, hi: nat, r: Range, i: nat)
    requires lo <= hi <= |t| && i < |t| && (i < lo || hi <= i)
    ensures var t' := t[..lo] + [r] + t[hi..]; t[i] in t' && r in t'
  {
    var t' := t[..lo] + [r] + t[hi..];
    assert t'[lo] == r;
    assert t'[if i < lo then i else lo + 1 + (i - hi)] == t[i];
  }

  lemma HasElement(t: seq<Range>, s: nat, a: nat, r: Range)
    requires r in t && Has(r, s, a)
    ensures Contains(t, s, a)
  {
    var i :| 0 <= i < |t| && t[i] == r;
  }

  // ----- concatenations of range lists

  lemma ContainsAppend(a: seq<Range>, b: seq<Range>, s: nat, x: nat)
    ensures Contains(a + b, s, x) <==> Contains(a, s, x) || Contains(b, s, x)
  {
    if Contains(a, s, x) {
      var i :| 0 <= i < |a| && Has(a[i], s, x);
      assert (a + b)[i] == a[i];
    }
    if Contains(b, s, x) {
      var i :| 0 <= i < |b| && Has(b[i], s, x);
      assert (a + b)[|a| + i] == b[i];
    }
  }

  lemma ContainsOne(r: Range, s: nat, x: nat)
    ensures Contains([r], s, x) <==> Has(r, s, x)
  {
    if Has(r, s, x) { assert Has([r][0], s, x); }
  }

  ghost predicate AllBefore(a: seq<Range>, b: seq<Range>) {
    forall i, j :: 0 <= i < |a| && 0 <= j < |b| ==> Before(a[i], b[j])
  }

  lemma SortedAppend(a: seq<Range>, b: seq<Range>)
    requires Sorted(a) && Sorted(b) && AllBefore(a, b)
    ensures Sorted(a + b)
  {
  }

  /** Replacing the meeting ranges by others changes the set only there. */
  lemma Replaced(t: seq<Range>, m: seq<Range>, lo: nat, hi: nat, s: nat, x: nat)
    requires lo <= hi <= |t|
    ensures Contains(t[..lo] + m + t[hi..], s, x) <==>
        Contains(t[..lo], s, x) || Contains(m, s, x) || Contains(t[hi..], s, x)
    ensures Contains(t, s, x) <==> Contains(t[..lo], s, x) || Contains(t[lo..hi], s, x) || Contains(t[hi..], s, x)
  {
    ContainsAppend(t[..lo] + m, t[hi..], s, x);
    ContainsAppend(t[..lo], m, s, x);
    assert t == t[..lo] + t[lo..hi] + t[hi..];
    ContainsAppend(t[..lo] + t[lo..hi], t[hi..], s, x);
    ContainsAppend(t[..lo], t[lo..hi], s, x);
  }

  /** The other ranges have no address of [first, last]. */
  lemma Others(t: seq<Range>, spc: nat, first: Offset, last: Offset, lo: nat, hi: nat, x: nat)
    requires Sorted(t) && Meeting(t, spc, first, last, lo, hi) && first <= x <= last
    ensures !Contains(t[..lo], spc, x) && !Contains(t[hi..], spc, x)
  {
    assert forall i :: 0 <= i < |t| - hi ==> t[hi..][i] == t[hi + i];
  }

  lemma Merged(t: seq<Range>, spc: nat, first: Offset, last: Offset, lo: nat, hi: nat, f: Offset, l: Offset)
    requires Sorted(t) && first <= last && Meeting(t, spc, first, last, lo, hi)
    requires lo == hi ==> f == first && l == last
    requires lo < hi ==> f == Min(first, t[lo].first) && l == Max(last, t[hi - 1].last)
    ensures var t' := t[..lo] + [Range(spc, f, l)] + t[hi..];
      Sorted(t') && Added(t, t', spc, first, last)
    ensures forall i :: 0 <= i < lo ==> Less(t[i].spc, t[i].first, Range(spc, f, l))
    ensures forall i :: hi <= i < |t| ==> Less(spc, f, t[i])
  {
    var r := Range(spc, f, l);
    forall s: nat, a: nat ensures Contains(t[..lo] + [r] + t[hi..], s, a) <==>
        Contains(t, s, a) || (s == spc && first <= a <= last) {
      Replaced(t, [r], lo, hi, s, a);
      ContainsOne(r, s, a);
      MergedHas(t, spc, first, last, lo, hi, r, s, a);
      if s == spc && first <= a <= last { Others(t, spc, first, last, lo, hi, a); }
    }
    assert AllBefore(t[..lo], [r]) by {
      forall i | 0 <= i < lo ensures Before(t[i], r) {
        if lo < hi { assert Before(t[i], t[lo]); }
      }
    }
    SortedAppend(t[..lo], [r]);
    assert AllBefore(t[..lo] + [r], t[hi..]) by {
      forall j | hi <= j < |t| ensures Before(r, t[j]) {
        if lo < hi { assert Before(t[hi - 1], t[j]); }
      }
    }
    SortedAppend(t[..lo] + [r], t[hi..]);
  }

  lemma EraseAt(t: seq<Range>, tree: seq<Range>, lo: nat, k: nat)
    requires lo <= k < |t| && tree == t[..lo] + t[k..]
    ensures tree[lo] == t[k] && tree[..lo] + tree[lo + 1..] == t[..lo] + t[k + 1..]
  {
  }

  lemma MergedHas(t: seq<Range>, spc: nat, first: Offset, last: Offset, lo: nat, hi: nat, r: Range, s: nat, a: nat)
    requires Sorted(t) && first <= last && Meeting(t, spc, first, last, lo, hi) && r.spc == spc
    requires lo == hi ==> r.first == first && r.last == last
    requires lo < hi ==> r.first == Min(first, t[lo].first) && r.last == Max(last, t[hi - 1].last)
    ensures Has(r, s, a) <==> Contains(t[lo..hi], s, a) || (s == spc && first <= a <= last)
  {
    if Contains(t[lo..hi], s, a) {
      var i :| 0 <= i < hi - lo && Has(t[lo..hi][i], s, a);
      if i > 0 { assert Before(t[lo], t[lo + i]); }
      if lo + i < hi - 1 { assert Before(t[lo + i], t[hi - 1]); }
    }
    if Has(r, s, a) && a < first { assert Has(t[lo..hi][0], s, a); }
    if Has(r, s, a) && a > last { assert Has(t[lo..hi][hi - lo - 1], s, a); }
  }

  // ----- what removeRange leaves

  lemma CutLeft(t: seq<Range>, spc: nat, first: Offset, last: Offset, lo: nat, hi: nat)
    requires Sorted(t) && first <= last && Meeting(t, spc, first, last, lo, hi) && lo < hi && t[lo].first < first
    ensures forall i :: 0 <= i < lo ==>
        Less(t[i].spc, t[i].first, Range(spc, t[lo].first, first - 1)) &&
        Before(t[i], Range(spc, t[lo].first, first - 1))
    ensures forall i :: lo < i < |t| ==> Less(spc, t[lo].first, t[i])
  {
    forall i | 0 <= i < lo ensures Before(t[i], t[lo]) {}
    forall i | lo < i < |t| ensures Before(t[lo], t[i]) {}
  }

  /** Putting back what lies right of last. */
  lemma CutRight(t: seq<Range>, spc: nat, first: Offset, last: Offset, lo: nat, k: nat, hi: nat)
    requires Sorted(t) && first <= last && Meeting(t, spc, first, last, lo, hi) && lo <= k < hi
    ensures var a, right := t[..lo] + LeftPart(t, lo, k + 1, first), RightPart(t, lo, k + 1, hi, last);
      if t[k].last > last then
        right == [Range(spc, last + 1, t[k].last)] && SetInsert(a + t[k + 1..], right[0]) == a + right + t[k + 1..]
      else right == []
  {
    if t[k].last > last {
      assert k + 1 < hi ==> Before(t[k], t[k + 1]);
      RightBetween(t, spc, first, last, lo, hi);
      SetInsertBetween(t[..lo] + LeftPart(t, lo, hi, first), t[hi..], Range(spc, last + 1, t[k].last));
    }
  }

  lemma RightBetween(t: seq<Range>, spc: nat, first: Offset, last: Offset, lo: nat, hi: nat)
    requires Sorted(t) && first <= last && Meeting(t, spc, first, last, lo, hi) && lo < hi && t[hi - 1].last > last
    ensures var r := Range(spc, last + 1, t[hi - 1].last); var a := t[..lo] + LeftPart(t, lo, hi, first);
      && (forall i :: 0 <= i < |a| ==> Less(a[i].spc, a[i].first, r) && Before(a[i], r))
      && (forall i :: 0 <= i < |t[hi..]| ==> Less(spc, r.first, t[hi..][i]) && Before(r, t[hi..][i]))
  {
    var r := Range(spc, last + 1, t[hi - 1].last);
    forall i | 0 <= i < lo ensures Before(t[i], r) && Less(t[i].spc, t[i].first, r) {
      assert Before(t[i], t[lo]);
    }
    forall i | hi <= i < |t| ensures Before(r, t[i]) && Less(spc, r.first, t[i]) {
      assert Before(t[hi - 1], t[i]);
    }
  }

  /** With every meeting range cut, exactly [first, last] is gone. */
  lemma Cut(t: seq<Range>, spc: nat, first: Offset, last: Offset, lo: nat, hi: nat)
    requires Sorted(t) && first <= last && Meeting(t, spc, first, last, lo, hi)
    ensures var t' := t[..lo] + LeftPart(t, lo, hi, first) + RightPart(t, lo, hi, hi, last) + t[hi..];
      Sorted(t') && Removed(t, t', spc, first, last)
  {
    var left, right := LeftPart(t, lo, hi, first), RightPart(t, lo, hi, hi, last);
    var m := left + right;
    assert t[..lo] + left + right + t[hi..] == t[..lo] + m + t[hi..];
    forall s: nat, a: nat ensures Contains(t[..lo] + m + t[hi..], s, a) <==>
        Contains(t, s, a) && !(s == spc && first <= a <= last) {
      Replaced(t, m, lo, hi, s, a);
      ContainsAppend(left, right, s, a);
      CutHas(t, spc, first, last, lo, hi, s, a);
      if s == spc && first <= a <= last { Others(t, spc, first, last, lo, hi, a); }
    }
    CutSorted(t, spc, first, last, lo, hi);
  }

  lemma CutHas(t: seq<Range>, spc: nat, first: Offset, last: Offset, lo: nat, hi: nat, s: nat, a: nat)
    requires Sorted(t) && first <= last && Meeting(t, spc, first, last, lo, hi)
    ensures Contains(LeftPart(t, lo, hi, first), s, a) || Contains(RightPart(t, lo, hi, hi, last), s, a)
            <==> Contains(t[lo..hi], s, a) && !(s == spc && first <= a <= last)
  {
    var left, right := LeftPart(t, lo, hi, first), RightPart(t, lo, hi, hi, last);
    if Contains(left, s, a) { assert Has(t[lo..hi][0], s, a); }
    if Contains(right, s, a) { assert Has(t[lo..hi][hi - lo - 1], s, a); }
    if Contains(t[lo..hi], s, a) && !(s == spc && first <= a <= last) {
      var i :| 0 <= i < hi - lo && Has(t[lo..hi][i], s, a);
      if a < first {
        if i > 0 { assert Before(t[lo], t[lo + i]); }
        assert Has(left[0], s, a);
      } else {
        if lo + i < hi - 1 { assert Before(t[lo + i], t[hi - 1]); }
        assert Has(right[0], s, a);
      }
    }
  }

  lemma CutSorted(t: seq<Range>, spc: nat, first: Offset, last: Offset, lo: nat, hi: nat)
    requires Sorted(t) && first <= last && Meeting(t, spc, first, last, lo, hi)
    ensures Sorted(t[..lo] + LeftPart(t, lo, hi, first) + RightPart(t, lo, hi, hi, last) + t[hi..])
  {
    var left, right := LeftPart(t, lo, hi, first), RightPart(t, lo, hi, hi, last);
    if left != [] { CutLeft(t, spc, first, last, lo, hi); }
    SortedAppend(t[..lo], left);
    if right != [] { RightBetween(t, spc, first, last, lo, hi); }
    SortedAppend(t[..lo] + left, right);
    assert AllBefore(t[..lo] + left + right, t[hi..]) by {
      forall i, j | 0 <= i < |left + right| && hi <= j < |t| ensures Before((left + right)[i], t[j]) {
        assert Before(t[lo], t[j]) && Before(t[hi - 1], t[j]);
      }
      assert forall i, j :: 0 <= i < lo && hi <= j < |t| ==> Before(t[i], t[j]);
    }
    SortedAppend(t[..lo] + left + right, t[hi..]);
  }
}

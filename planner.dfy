/**
 * The optimized V2 memory planner: given the size and the validity
 * interval of every memory request, give each request an offset in one
 * arena so that requests alive at the same time never share a byte.
 *
 * Memory is given in the order of the start of validity; among equal
 * starts the request that ends later goes first. Assigned regions are
 * cached and, once their validity has ended, freed into a free list
 * (ordered by offset, adjacent pieces merged) from which later requests
 * are served first-fit; the arena grows only when no free piece fits.
 */
module OptimizedV2Planner {
  import opened Errors

  /** `memory_validity[i]`: request `i` is alive on the ticks `[start, end)`. */
  datatype Validity = Validity(start: nat, end: nat)

  /** The arena bytes `[offset, offset + size)`. */
  datatype Range = Range(offset: nat, size: nat)

  /** Two requests are alive at a common tick. */
  predicate Overlaps(a: Validity, b: Validity)
  {
    a.start < b.end && b.start < a.end
  }

  /** Two ranges share no byte. */
  predicate Disjoint(x: Range, y: Range)
  {
    x.size == 0 || y.size == 0 || x.offset + x.size <= y.offset || y.offset + y.size <= x.offset
  }

  /** `x` lies inside `y`. */
  predicate Within(x: Range, y: Range)
  {
    y.offset <= x.offset && x.offset + x.size <= y.offset + y.size
  }

  /** Processing order: earlier start first; on equal starts, the higher end first. */
  predicate ComesBefore(a: Validity, b: Validity)
  {
    a.start < b.start || (a.start == b.start && a.end >= b.end)
  }

  /** The region given to request `j`. */
  function Block(offsets: seq<nat>, sizes: seq<nat>, j: nat): Range
    requires j < |offsets| && j < |sizes|
  {
    Range(offsets[j], sizes[j])
  }

  /** `order` lists request indices below `n`, each at most once. */
  ghost predicate DistinctIndices(order: seq<nat>, n: nat)
  {
    && (forall t :: 0 <= t < |order| ==> order[t] < n)
    && (forall a, b :: 0 <= a < b < |order| ==> order[a] != order[b])
  }

  /** `order` visits the requests in processing order. */
  ghost predicate SortedByValidity(validity: seq<Validity>, order: seq<nat>)
    requires forall t :: 0 <= t < |order| ==> order[t] < |validity|
  {
    forall a, b :: 0 <= a < b < |order| ==> ComesBefore(validity[order[a]], validity[order[b]])
  }

  /** Among equal intervals, `order` keeps the input order. */
  ghost predicate StableOrder(validity: seq<Validity>, order: seq<nat>)
    requires forall t :: 0 <= t < |order| ==> order[t] < |validity|
  {
    forall a, b :: 0 <= a < b < |order| && validity[order[a]] == validity[order[b]] ==> order[a] < order[b]
  }

  /** Where request `i` goes in `order` when the search starts at `p`: before the first request that does not come before it. */
  function InsertPos(validity: seq<Validity>, order: seq<nat>, i: nat, p: nat): (q: nat)
    requires i < |validity| && p <= |order|
    requires forall t :: 0 <= t < |order| ==> order[t] < |validity|
    ensures p <= q <= |order|
    ensures forall t :: p <= t < q ==> ComesBefore(validity[order[t]], validity[i])
    ensures q < |order| ==> !ComesBefore(validity[order[q]], validity[i])
    decreases |order| - p
  {
    if p < |order| && ComesBefore(validity[order[p]], validity[i]) then InsertPos(validity, order, i, p + 1) else p
  }

  /**
   * The processing order of the first `n` requests, built by inserting
   * each request after every one that comes no later than it.
   */
  function OrderOf(validity: seq<Validity>, n: nat): (order: seq<nat>)
    requires n <= |validity|
    ensures |order| == n
    ensures forall t :: 0 <= t < n ==> order[t] < n
  {
    if n == 0 then []
    else
      var last: nat := n - 1;
      var prev := OrderOf(validity, last);
      var p := InsertPos(validity, prev, last, 0);
      assert forall t :: 0 <= t < n ==> (prev[..p] + [last] + prev[p..])[t] == if t < p then prev[t] else if t == p then last else prev[t - 1];
      prev[..p] + [last] + prev[p..]
  }

  /**
   * The order in which requests are given memory: every request exactly
   * once, by ascending start, and by descending end among equal starts.
   * Requests with equal intervals keep their input order, a choice of this
   * model that the planner's documentation leaves open.
   */
  method ProcessingOrder(validity: seq<Validity>) returns (order: seq<nat>)
    ensures order == OrderOf(validity, |validity|)
    ensures |order| == |validity|
    ensures DistinctIndices(order, |validity|)
    ensures forall r :: 0 <= r < |validity| ==> r in order
    ensures SortedByValidity(validity, order)
    ensures StableOrder(validity, order)
  {
    order := [];
    var i := 0;
    while i < |validity|
      invariant 0 <= i <= |validity|
      invariant order == OrderOf(validity, i)
    {
      // insert request i after every request that comes no later than it
      var p := 0;
      while p < i && ComesBefore(validity[order[p]], validity[i])
        invariant 0 <= p <= i
        invariant InsertPos(validity, order, i, p) == InsertPos(validity, order, i, 0)
      {
        p := p + 1;
      }
      OrderOfStep(validity, order, p, i);
      order := order[..p] + [i] + order[p..];
      i := i + 1;
    }
    OrderOfSorted(validity, |validity|);
  }

  /** The order of the first `n` requests holds each of them once, sorted and stable. */
  lemma {:induction false} OrderOfSorted(validity: seq<Validity>, n: nat)
    requires n <= |validity|
    ensures DistinctIndices(OrderOf(validity, n), n)
    ensures forall r :: 0 <= r < n ==> r in OrderOf(validity, n)
    ensures SortedByValidity(validity, OrderOf(validity, n))
    ensures StableOrder(validity, OrderOf(validity, n))
  {
    if n > 0 {
      OrderOfSorted(validity, n - 1);
      var prev := OrderOf(validity, n - 1);
      var p := InsertPos(validity, prev, n - 1, 0);
      InsertInOrder(validity, prev, p, n - 1);
    }
  }

  /** The order of `i + 1` requests puts request `i` where `InsertPos` says, among the order of the first `i`. */
  lemma OrderOfStep(validity: seq<Validity>, order: seq<nat>, p: nat, i: nat)
    requires i < |validity| && order == OrderOf(validity, i)
    requires p == InsertPos(validity, order, i, 0)
    ensures OrderOf(validity, i + 1) == order[..p] + [i] + order[p..]
  {
  }

  /** Putting request `i` at position `p` of a sorted, stable order of `0..i-1` keeps it sorted and stable. */
  lemma InsertInOrder(validity: seq<Validity>, order: seq<nat>, p: nat, i: nat)
    requires i < |validity| && |order| == i && p <= i
    requires DistinctIndices(order, i)
    requires forall r :: 0 <= r < i ==> r in order
    requires SortedByValidity(validity, order) && StableOrder(validity, order)
    requires forall t :: 0 <= t < p ==> ComesBefore(validity[order[t]], validity[i])
    requires p < i ==> !ComesBefore(validity[order[p]], validity[i])
    ensures DistinctIndices(order[..p] + [i] + order[p..], i + 1)
    ensures forall r :: 0 <= r < i + 1 ==> r in order[..p] + [i] + order[p..]
    ensures SortedByValidity(validity, order[..p] + [i] + order[p..])
    ensures StableOrder(validity, order[..p] + [i] + order[p..])
  {
    InsertKeepsAll(order, p, i);
    assert forall t :: p <= t < i ==> ComesBefore(validity[i], validity[order[t]]) && validity[i] != validity[order[t]] by {
      if p < i {
        assert forall t :: p <= t < i ==> ComesBefore(validity[order[p]], validity[order[t]]);
      }
    }
    InsertPairs(validity, order, p, i);
  }

  /** The pairwise facts about the sequence with `i` inserted at `p`. */
  lemma InsertPairs(validity: seq<Validity>, order: seq<nat>, p: nat, i: nat)
    requires i < |validity| && |order| == i && p <= i
    requires DistinctIndices(order, i)
    requires SortedByValidity(validity, order) && StableOrder(validity, order)
    requires forall t :: 0 <= t < p ==> ComesBefore(validity[order[t]], validity[i])
    requires forall t :: p <= t < i ==> ComesBefore(validity[i], validity[order[t]]) && validity[i] != validity[order[t]]
    ensures DistinctIndices(order[..p] + [i] + order[p..], i + 1)
    ensures SortedByValidity(validity, order[..p] + [i] + order[p..])
    ensures StableOrder(validity, order[..p] + [i] + order[p..])
  {
    var next := order[..p] + [i] + order[p..];
    assert forall t :: 0 <= t < |next| ==> next[t] == if t < p then order[t] else if t == p then i else order[t - 1];
    forall a, b | 0 <= a < b < |next|
      ensures next[a] != next[b]
      ensures ComesBefore(validity[next[a]], validity[next[b]])
      ensures validity[next[a]] == validity[next[b]] ==> next[a] < next[b]
    {
      if b < p {
        assert next[a] == order[a] && next[b] == order[b];
      } else if b == p {
        assert next[a] == order[a] && next[b] == i;
      } else if a < p {
        assert next[a] == order[a] && next[b] == order[b - 1];
      } else if a == p {
        assert next[a] == i && next[b] == order[b - 1];
      } else {
        assert next[a] == order[a - 1] && next[b] == order[b - 1];
      }
    }
  }

  /** Inserting `i` into a sequence holding `0..i-1` gives one holding `0..i`. */
  lemma InsertKeepsAll(order: seq<nat>, p: nat, i: nat)
    requires p <= |order|
    requires forall r :: 0 <= r < i ==> r in order
    ensures forall r :: 0 <= r < i + 1 ==> r in order[..p] + [i] + order[p..]
  {
    var next := order[..p] + [i] + order[p..];
    forall r | 0 <= r < i + 1
      ensures r in next
    {
      if r < i {
        assert r in order;
        var t :| 0 <= t < |order| && order[t] == r;
        if t < p {
          assert next[t] == r;
        } else {
          assert next[t + 1] == r;
        }
      } else {
        assert next[p] == r;
      }
    }
  }

  /** The free list: pieces in ascending, non-touching order, none empty, all inside the arena. */
  ghost predicate FreeList(free: seq<Range>, total: nat)
  {
    && (forall a :: 0 <= a < |free| ==> free[a].size > 0 && free[a].offset + free[a].size <= total)
    && Ascending(free)
  }

  /** Each piece ends strictly before the next one starts. */
  ghost predicate Ascending(free: seq<Range>)
  {
    forall a, b :: 0 <= a < b < |free| ==> free[a].offset + free[a].size < free[b].offset
  }

  /** No free piece shares a byte with `x`. */
  ghost predicate AvoidsAll(free: seq<Range>, x: Range)
  {
    forall a :: 0 <= a < |free| ==> Disjoint(free[a], x)
  }

  /**
   * Return `r` to the free list, merging it with a piece that ends where
   * it starts and with one that starts where it ends.
   */
  function InsertFree(free: seq<Range>, r: Range): (res: seq<Range>)
    decreases |free|
  {
    if free == [] then [r]
    else if r.offset + r.size < free[0].offset then [r] + free
    else if r.offset + r.size == free[0].offset then [Range(r.offset, r.size + free[0].size)] + free[1..]
    else if free[0].offset + free[0].size == r.offset then
      InsertFree(free[1..], Range(free[0].offset, free[0].size + r.size))
    else [free[0]] + InsertFree(free[1..], r)
  }

  /** A piece that ends before the first one of an ascending list can be put in front. */
  lemma PrependAscending(x: Range, rest: seq<Range>)
    requires Ascending(rest)
    requires rest != [] ==> x.offset + x.size < rest[0].offset
    ensures Ascending([x] + rest)
  {
    var res := [x] + rest;
    forall a, b | 0 <= a < b < |res|
      ensures res[a].offset + res[a].size < res[b].offset
    {
      assert res[b] == rest[b - 1];
      if a > 0 {
        assert res[a] == rest[a - 1];
      } else if b > 1 {
        assert rest[0].offset + rest[0].size < rest[b - 1].offset;
      }
    }
  }

  /** Dropping the first piece keeps the free list well formed and the pieces clear of `x`. */
  lemma TailOfFreeList(free: seq<Range>, total: nat, x: Range)
    requires free != [] && FreeList(free, total) && AvoidsAll(free, x)
    ensures FreeList(free[1..], total) && AvoidsAll(free[1..], x)
  {
    forall a | 0 <= a < |free[1..]|
      ensures Disjoint(free[1..][a], x)
    {
      assert free[1..][a] == free[a + 1];
    }
  }

  /** The non-recursive cases of `InsertFree`: the piece goes in front, merged with the first piece when they touch. */
  lemma InsertFreeInFront(free: seq<Range>, r: Range, total: nat)
    requires FreeList(free, total)
    requires r.size > 0 && r.offset + r.size <= total
    requires AvoidsAll(free, r)
    requires free == [] || r.offset + r.size <= free[0].offset
    ensures FreeList(InsertFree(free, r), total)
    ensures InsertFree(free, r)[0].offset == r.offset
  {
    if free == [] {
    } else if r.offset + r.size < free[0].offset {
      PrependAscending(r, free);
    } else {
      TailOfFreeList(free, total, r);
      PrependAscending(Range(r.offset, r.size + free[0].size), free[1..]);
    }
  }

  /** Inserting a piece that overlaps no free piece keeps the free list well formed, starting at the lower of the two. */
  lemma {:induction false} InsertFreeKeepsFreeList(free: seq<Range>, r: Range, total: nat)
    requires FreeList(free, total)
    requires r.size > 0 && r.offset + r.size <= total
    requires AvoidsAll(free, r)
    ensures FreeList(InsertFree(free, r), total)
    ensures |InsertFree(free, r)| > 0
    ensures InsertFree(free, r)[0].offset == if free == [] || r.offset < free[0].offset then r.offset else free[0].offset
    decreases |free|, 1
  {
    if free == [] || r.offset + r.size <= free[0].offset {
      InsertFreeInFront(free, r, total);
    } else {
      assert Disjoint(free[0], r);
      if free[0].offset + free[0].size == r.offset {
        InsertFreeMergeBehind(free, r, total);
      } else {
        InsertFreeSkipFirst(free, r, total);
      }
    }
  }

  /** A piece that starts where the first piece ends is merged into it, and the merged piece is inserted into the rest. */
  lemma {:induction false} InsertFreeMergeBehind(free: seq<Range>, r: Range, total: nat)
    requires FreeList(free, total)
    requires r.size > 0 && r.offset + r.size <= total
    requires AvoidsAll(free, r)
    requires free != [] && free[0].offset + free[0].size == r.offset
    ensures FreeList(InsertFree(free, r), total)
    ensures |InsertFree(free, r)| > 0 && InsertFree(free, r)[0].offset == free[0].offset
    decreases |free|, 0
  {
    TailOfFreeList(free, total, r);
    var m := Range(free[0].offset, free[0].size + r.size);
    MergedAvoidsRest(free, r);
    assert InsertFree(free, r) == InsertFree(free[1..], m);
    InsertFreeKeepsFreeList(free[1..], m, total);
  }

  /** The first piece merged with the piece after it touches none of the other pieces. */
  lemma MergedAvoidsRest(free: seq<Range>, r: Range)
    requires Ascending(free) && AvoidsAll(free, r)
    requires free != [] && free[0].offset + free[0].size == r.offset
    ensures AvoidsAll(free[1..], Range(free[0].offset, free[0].size + r.size))
  {
    forall a | 0 <= a < |free[1..]|
      ensures Disjoint(free[1..][a], Range(free[0].offset, free[0].size + r.size))
    {
      assert free[1..][a] == free[a + 1];
      assert Disjoint(free[a + 1], r) && free[0].offset + free[0].size < free[a + 1].offset;
    }
  }

  /** A piece lying past the first piece, not touching it, is inserted into the rest. */
  lemma {:induction false} InsertFreeSkipFirst(free: seq<Range>, r: Range, total: nat)
    requires FreeList(free, total)
    requires r.size > 0 && r.offset + r.size <= total
    requires AvoidsAll(free, r)
    requires free != [] && free[0].offset + free[0].size < r.offset
    ensures FreeList(InsertFree(free, r), total)
    ensures |InsertFree(free, r)| > 0 && InsertFree(free, r)[0].offset == free[0].offset
    decreases |free|, 0
  {
    TailOfFreeList(free, total, r);
    assert InsertFree(free, r) == [free[0]] + InsertFree(free[1..], r);
    InsertFreeKeepsFreeList(free[1..], r, total);
    PrependAscending(free[0], InsertFree(free[1..], r));
  }

  /** Inserting a piece keeps every free piece clear of a range that neither the list nor the piece touches. */
  lemma {:induction false} InsertFreeAvoids(free: seq<Range>, r: Range, x: Range)
    requires Ascending(free)
    requires AvoidsAll(free, r) && AvoidsAll(free, x) && Disjoint(r, x)
    ensures AvoidsAll(InsertFree(free, r), x)
    decreases |free|
  {
    if free == [] || r.offset + r.size <= free[0].offset {
      InsertFreeAvoidsInFront(free, r, x);
    } else {
      assert Disjoint(free[0], x);
      TailAvoids(free, r);
      TailAvoids(free, x);
      if free[0].offset + free[0].size == r.offset {
        var m := Range(free[0].offset, free[0].size + r.size);
        MergedAvoidsRest(free, r);
        assert InsertFree(free, r) == InsertFree(free[1..], m);
        InsertFreeAvoids(free[1..], m, x);
      } else {
        assert InsertFree(free, r) == [free[0]] + InsertFree(free[1..], r);
        InsertFreeAvoids(free[1..], r, x);
      }
    }
  }

  /** The non-recursive cases of `InsertFreeAvoids`. */
  lemma InsertFreeAvoidsInFront(free: seq<Range>, r: Range, x: Range)
    requires AvoidsAll(free, r) && AvoidsAll(free, x) && Disjoint(r, x)
    requires free == [] || r.offset + r.size <= free[0].offset
    ensures AvoidsAll(InsertFree(free, r), x)
  {
    if free == [] {
    } else if r.offset + r.size < free[0].offset {
      assert InsertFree(free, r) == [r] + free;
    } else {
      var res := InsertFree(free, r);
      assert res == [Range(r.offset, r.size + free[0].size)] + free[1..];
      assert Disjoint(free[0], x);
      assert forall a :: 1 <= a < |res| ==> res[a] == free[a];
    }
  }

  /** Dropping the first piece keeps the list ascending and clear of `x`. */
  lemma TailAvoids(free: seq<Range>, x: Range)
    requires free != [] && Ascending(free) && AvoidsAll(free, x)
    ensures Ascending(free[1..]) && AvoidsAll(free[1..], x)
  {
    assert forall a :: 0 <= a < |free[1..]| ==> free[1..][a] == free[a + 1];
  }

  /** Every byte of `x` lies in `y`, and `y` avoids `z`: then `x` avoids `z`. */
  lemma WithinDisjoint(x: Range, y: Range, z: Range)
    requires Within(x, y) && Disjoint(y, z) && x.size > 0 && y.size > 0
    ensures Disjoint(x, z)
  {
  }

  /** `f` is the first free piece that can hold `size` bytes. */
  ghost predicate FirstFit(free: seq<Range>, size: nat, f: int)
  {
    0 <= f < |free| && free[f].size >= size && forall g :: 0 <= g < f ==> free[g].size < size
  }

  /** What is left of free piece `f` after its leading `size` bytes are taken. */
  function TakeFront(free: seq<Range>, f: nat, size: nat): (res: seq<Range>)
    requires f < |free| && size <= free[f].size
    ensures |res| == if free[f].size == size then |free| - 1 else |free|
  {
    if free[f].size == size then free[..f] + free[f + 1..]
    else free[..f] + [Range(free[f].offset + size, free[f].size - size)] + free[f + 1..]
  }

  /** Taking the front of a piece keeps the list well formed. */
  lemma TakeFrontKeepsFreeList(free: seq<Range>, f: nat, size: nat, total: nat)
    requires FreeList(free, total) && f < |free| && size <= free[f].size
    ensures FreeList(TakeFront(free, f, size), total)
  {
    var res := TakeFront(free, f, size);
    if free[f].size == size {
      assert forall a :: 0 <= a < |res| ==> res[a] == if a < f then free[a] else free[a + 1];
    } else {
      assert forall a :: 0 <= a < |res| ==> res[a] == if a != f then free[a] else Range(free[f].offset + size, free[f].size - size);
    }
  }

  /** Taking the front of piece `f` leaves every range clear of the old pieces clear of the new ones. */
  lemma TakeFrontAvoids(free: seq<Range>, f: nat, size: nat, x: Range)
    requires f < |free| && 0 < size <= free[f].size
    requires AvoidsAll(free, x)
    ensures AvoidsAll(TakeFront(free, f, size), x)
  {
    var res := TakeFront(free, f, size);
    if free[f].size == size {
      assert forall a :: 0 <= a < |res| ==> res[a] == if a < f then free[a] else free[a + 1];
    } else {
      assert forall a :: 0 <= a < |res| ==> res[a] == if a != f then free[a] else Range(free[f].offset + size, free[f].size - size);
    }
  }

  /** The bytes taken from the front of piece `f` are no longer free. */
  lemma TakeFrontRemoves(free: seq<Range>, f: nat, size: nat)
    requires Ascending(free) && f < |free| && 0 < size <= free[f].size
    ensures AvoidsAll(TakeFront(free, f, size), Range(free[f].offset, size))
  {
    var res := TakeFront(free, f, size);
    if free[f].size == size {
      assert forall a :: 0 <= a < |res| ==> res[a] == if a < f then free[a] else free[a + 1];
    } else {
      assert forall a :: 0 <= a < |res| ==> res[a] == if a != f then free[a] else Range(free[f].offset + size, free[f].size - size);
    }
  }

  /** Serving `size` bytes from piece `f`: the block is clear of anything in use, and the rest of the list stays clear of it. */
  lemma TakeFrontIsFree(free: seq<Range>, f: nat, size: nat, total: nat)
    requires FreeList(free, total) && f < |free| && 0 < size <= free[f].size
    ensures FreeList(TakeFront(free, f, size), total)
    ensures AvoidsAll(TakeFront(free, f, size), Range(free[f].offset, size))
    ensures forall x: Range :: AvoidsAll(free, x) ==> AvoidsAll(TakeFront(free, f, size), x) && Disjoint(Range(free[f].offset, size), x)
  {
    TakeFrontKeepsFreeList(free, f, size, total);
    TakeFrontRemoves(free, f, size);
    forall x: Range | AvoidsAll(free, x)
      ensures AvoidsAll(TakeFront(free, f, size), x) && Disjoint(Range(free[f].offset, size), x)
    {
      TakeFrontAvoids(free, f, size, x);
      WithinDisjoint(Range(free[f].offset, size), free[f], x);
    }
  }

  /** The first free piece from `f` on that can hold `size` bytes, or `|free|` when none can. */
  function FitFrom(free: seq<Range>, size: nat, f: nat): (g: nat)
    requires f <= |free|
    ensures f <= g <= |free|
    ensures g < |free| ==> free[g].size >= size
    ensures forall h :: f <= h < g ==> free[h].size < size
    decreases |free| - f
  {
    if f == |free| || free[f].size >= size then f else FitFrom(free, size, f + 1)
  }

  /** The first free piece that can hold `size` bytes, or `|free|` when none can. */
  function FitIndex(free: seq<Range>, size: nat): (f: nat)
    ensures f <= |free|
    ensures f < |free| ==> FirstFit(free, size, f)
    ensures f == |free| ==> forall g :: 0 <= g < |free| ==> free[g].size < size
  {
    FitFrom(free, size, 0)
  }

  /** Where `Place` puts `size` bytes: the offset, the free list after, and the arena size after. */
  datatype Placement = Placement(offset: nat, free: seq<Range>, total: nat)

  /**
   * The placement rule: the leading bytes of the first free piece that
   * fits, with the arena unchanged; when no piece fits, the arena end,
   * the arena growing by `size`.
   */
  function Placed(free: seq<Range>, total: nat, size: nat): (r: Placement)
    ensures || (exists f :: FirstFit(free, size, f) && r.offset == free[f].offset && r.total == total)
            || ((forall g :: 0 <= g < |free| ==> free[g].size < size) && r.offset == total && r.total == total + size && r.free == free)
  {
    var f := FitIndex(free, size);
    if f < |free| then Placement(free[f].offset, TakeFront(free, f, size), total)
    else Placement(total, free, total + size)
  }

  /**
   * Find room for `size` bytes: the leading bytes of the first free piece
   * large enough (first fit by address), or else the end of the arena,
   * which then grows by `size`.
   */
  method Place(free: seq<Range>, total: nat, size: nat) returns (offset: nat, free': seq<Range>, total': nat)
    requires FreeList(free, total) && size > 0
    ensures Placement(offset, free', total') == Placed(free, total, size)
    ensures FreeList(free', total')
    ensures offset + size <= total'
    ensures || (exists f :: FirstFit(free, size, f) && offset == free[f].offset && free' == TakeFront(free, f, size) && total' == total)
            || ((forall f :: 0 <= f < |free| ==> free[f].size < size) && offset == total && free' == free && total' == total + size)
    ensures forall x: Range :: x.offset + x.size <= total && AvoidsAll(free, x) ==> AvoidsAll(free', x) && Disjoint(Range(offset, size), x)
    ensures AvoidsAll(free', Range(offset, size))
  {
    var f := 0;
    while f < |free| && free[f].size < size
      invariant 0 <= f <= |free|
      invariant forall g :: 0 <= g < f ==> free[g].size < size
      invariant FitFrom(free, size, f) == FitIndex(free, size)
    {
      f := f + 1;
    }
    if f < |free| {
      offset := free[f].offset;
      free' := TakeFront(free, f, size);
      total' := total;
      assert FirstFit(free, size, f);
      TakeFrontIsFree(free, f, size, total);
    } else {
      offset := total;
      free' := free;
      total' := total + size;
    }
  }

  /**
   * The regions held by the requests in `live`: distinct requests, each
   * with a non-empty block inside the arena that no free piece touches,
   * no two of them sharing a byte.
   */
  ghost predicate Holds(live: seq<nat>, free: seq<Range>, total: nat, offsets: seq<nat>, sizes: seq<nat>)
    requires |offsets| == |sizes|
  {
    && DistinctIndices(live, |sizes|)
    && FreeList(free, total)
    && (forall u :: 0 <= u < |live| ==>
          sizes[live[u]] > 0 && offsets[live[u]] + sizes[live[u]] <= total && AvoidsAll(free, Block(offsets, sizes, live[u])))
    && (forall u, v :: 0 <= u < v < |live| ==> Disjoint(Block(offsets, sizes, live[u]), Block(offsets, sizes, live[v])))
  }

  /** The live requests and the free list after reclaiming: what `Reclaim` returns. */
  datatype Reclaimed = Reclaimed(kept: seq<nat>, free: seq<Range>)

  /**
   * The reclaiming rule, from position `t` of `live` on, with `kept` and
   * `free` so far: a request alive after `tick` is kept, the block of
   * any other goes back to the free list.
   */
  function ReclaimFrom(live: seq<nat>, t: nat, kept: seq<nat>, free: seq<Range>,
                       offsets: seq<nat>, sizes: seq<nat>, validity: seq<Validity>, tick: nat): (r: Reclaimed)
    requires t <= |live| && |offsets| == |sizes| == |validity|
    requires forall u :: 0 <= u < |live| ==> live[u] < |sizes|
    ensures forall u :: 0 <= u < |r.kept| ==> r.kept[u] in kept || (r.kept[u] in live[t..] && validity[r.kept[u]].end > tick)
    decreases |live| - t
  {
    if t == |live| then Reclaimed(kept, free)
    else if validity[live[t]].end > tick then ReclaimFrom(live, t + 1, kept + [live[t]], free, offsets, sizes, validity, tick)
    else ReclaimFrom(live, t + 1, kept, InsertFree(free, Block(offsets, sizes, live[t])), offsets, sizes, validity, tick)
  }

  /**
   * Free the regions whose validity has finished by `tick`: the requests
   * still alive are kept (in their order), the others' blocks go back to
   * the free list.
   */
  method Reclaim(live: seq<nat>, free: seq<Range>, total: nat, offsets: seq<nat>, sizes: seq<nat>, validity: seq<Validity>, tick: nat)
    returns (kept: seq<nat>, free': seq<Range>)
    requires |offsets| == |sizes| == |validity|
    requires Holds(live, free, total, offsets, sizes)
    ensures Reclaimed(kept, free') == ReclaimFrom(live, 0, [], free, offsets, sizes, validity, tick)
    ensures Holds(kept, free', total, offsets, sizes)
    ensures forall u :: 0 <= u < |kept| ==> kept[u] in live && validity[kept[u]].end > tick
    ensures forall u :: 0 <= u < |live| && validity[live[u]].end > tick ==> live[u] in kept
  {
    kept := [];
    free' := free;
    var t := 0;
    while t < |live|
      invariant 0 <= t <= |live|
      invariant Reclaiming(live, t, kept, free', total, offsets, sizes, validity, tick)
      invariant ReclaimFrom(live, t, kept, free', offsets, sizes, validity, tick) == ReclaimFrom(live, 0, [], free, offsets, sizes, validity, tick)
    {
      if validity[live[t]].end > tick {
        ReclaimKeep(live, free, t, kept, free', total, offsets, sizes, validity, tick);
        kept := kept + [live[t]];
      } else {
        ReclaimFree(live, free, t, kept, free', total, offsets, sizes, validity, tick);
        free' := InsertFree(free', Block(offsets, sizes, live[t]));
      }
      t := t + 1;
    }
    assert live[..t] == live;
  }

  /**
   * Halfway through `Reclaim`: of the first `t` live requests, exactly
   * those alive after `tick` are kept; the kept ones hold their regions,
   * and the free list stays clear of the ones still to visit.
   */
  ghost predicate Reclaiming(live: seq<nat>, t: nat, kept: seq<nat>, free: seq<Range>, total: nat,
                             offsets: seq<nat>, sizes: seq<nat>, validity: seq<Validity>, tick: nat)
    requires |offsets| == |sizes| == |validity| && t <= |live| && DistinctIndices(live, |sizes|)
  {
    && Holds(kept, free, total, offsets, sizes)
    && (forall u :: 0 <= u < |kept| ==> kept[u] in live[..t] && validity[kept[u]].end > tick)
    && (forall u :: 0 <= u < t && validity[live[u]].end > tick ==> live[u] in kept)
    && (forall u :: t <= u < |live| ==> live[u] < |sizes| && AvoidsAll(free, Block(offsets, sizes, live[u])))
  }

  /** `live[t]` is still alive after `tick`: it is kept. */
  lemma ReclaimKeep(live: seq<nat>, free0: seq<Range>, t: nat, kept: seq<nat>, free: seq<Range>, total: nat,
                    offsets: seq<nat>, sizes: seq<nat>, validity: seq<Validity>, tick: nat)
    requires |offsets| == |sizes| == |validity| && t < |live|
    requires Holds(live, free0, total, offsets, sizes)
    requires Reclaiming(live, t, kept, free, total, offsets, sizes, validity, tick)
    requires validity[live[t]].end > tick
    ensures Reclaiming(live, t + 1, kept + [live[t]], free, total, offsets, sizes, validity, tick)
  {
    ReclaimStep(live, kept, total, offsets, sizes, t);
    KeepLive(kept, free, total, offsets, sizes, live[t]);
    assert live[..t + 1] == live[..t] + [live[t]];
  }

  /** `live[t]` has finished by `tick`: its block goes back to the free list. */
  lemma ReclaimFree(live: seq<nat>, free0: seq<Range>, t: nat, kept: seq<nat>, free: seq<Range>, total: nat,
                    offsets: seq<nat>, sizes: seq<nat>, validity: seq<Validity>, tick: nat)
    requires |offsets| == |sizes| == |validity| && t < |live|
    requires Holds(live, free0, total, offsets, sizes)
    requires Reclaiming(live, t, kept, free, total, offsets, sizes, validity, tick)
    requires validity[live[t]].end <= tick
    ensures Reclaiming(live, t + 1, kept, InsertFree(free, Block(offsets, sizes, live[t])), total, offsets, sizes, validity, tick)
  {
    ReclaimStep(live, kept, total, offsets, sizes, t);
    FreeBlock(kept, free, total, offsets, sizes, live, t);
    assert live[..t + 1] == live[..t] + [live[t]];
  }

  /** Facts about `live[t]` against the requests kept so far and the ones still to visit. */
  lemma ReclaimStep(live: seq<nat>, kept: seq<nat>, total: nat, offsets: seq<nat>, sizes: seq<nat>, t: nat)
    requires |offsets| == |sizes| && t < |live|
    requires DistinctIndices(live, |sizes|)
    requires forall u, v :: 0 <= u < v < |live| ==> Disjoint(Block(offsets, sizes, live[u]), Block(offsets, sizes, live[v]))
    requires forall u :: 0 <= u < |live| ==> sizes[live[u]] > 0 && offsets[live[u]] + sizes[live[u]] <= total
    requires forall u :: 0 <= u < |kept| ==> kept[u] in live[..t]
    ensures live[t] !in kept
    ensures forall u :: 0 <= u < |kept| ==> kept[u] < |sizes| && Disjoint(Block(offsets, sizes, kept[u]), Block(offsets, sizes, live[t]))
    ensures forall u :: t < u < |live| ==> Disjoint(Block(offsets, sizes, live[t]), Block(offsets, sizes, live[u]))
  {
    forall u | 0 <= u < |kept|
      ensures kept[u] != live[t] && kept[u] < |sizes|
      ensures Disjoint(Block(offsets, sizes, kept[u]), Block(offsets, sizes, live[t]))
    {
      var w :| 0 <= w < t && live[w] == kept[u];
    }
  }

  /** A request still alive joins the kept ones. */
  lemma KeepLive(kept: seq<nat>, free: seq<Range>, total: nat, offsets: seq<nat>, sizes: seq<nat>, x: nat)
    requires |offsets| == |sizes| && Holds(kept, free, total, offsets, sizes)
    requires x < |sizes| && x !in kept && sizes[x] > 0 && offsets[x] + sizes[x] <= total
    requires AvoidsAll(free, Block(offsets, sizes, x))
    requires forall u :: 0 <= u < |kept| ==> Disjoint(Block(offsets, sizes, kept[u]), Block(offsets, sizes, x))
    ensures Holds(kept + [x], free, total, offsets, sizes)
  {
    var next := kept + [x];
    assert forall u :: 0 <= u < |next| ==> next[u] == if u < |kept| then kept[u] else x;
  }

  /** The block of `live[t]` goes back to the free list; the kept requests and those still to visit stay clear of it. */
  lemma FreeBlock(kept: seq<nat>, free: seq<Range>, total: nat, offsets: seq<nat>, sizes: seq<nat>, live: seq<nat>, t: nat)
    requires |offsets| == |sizes| && Holds(kept, free, total, offsets, sizes)
    requires t < |live| && live[t] < |sizes| && sizes[live[t]] > 0 && offsets[live[t]] + sizes[live[t]] <= total
    requires AvoidsAll(free, Block(offsets, sizes, live[t]))
    requires forall u :: 0 <= u < |kept| ==> Disjoint(Block(offsets, sizes, kept[u]), Block(offsets, sizes, live[t]))
    requires forall u :: t < u < |live| ==> live[u] < |sizes| && AvoidsAll(free, Block(offsets, sizes, live[u]))
    requires forall u :: t < u < |live| ==> Disjoint(Block(offsets, sizes, live[t]), Block(offsets, sizes, live[u]))
    ensures Holds(kept, InsertFree(free, Block(offsets, sizes, live[t])), total, offsets, sizes)
    ensures forall u :: t < u < |live| ==> AvoidsAll(InsertFree(free, Block(offsets, sizes, live[t])), Block(offsets, sizes, live[u]))
  {
    var b := Block(offsets, sizes, live[t]);
    InsertFreeKeepsFreeList(free, b, total);
    forall u | 0 <= u < |kept|
      ensures AvoidsAll(InsertFree(free, b), Block(offsets, sizes, kept[u]))
    {
      InsertFreeAvoids(free, b, Block(offsets, sizes, kept[u]));
    }
    forall u | t < u < |live|
      ensures AvoidsAll(InsertFree(free, b), Block(offsets, sizes, live[u]))
    {
      InsertFreeAvoids(free, b, Block(offsets, sizes, live[u]));
    }
  }

  /** The planner's answer: one offset per request and the arena size. */
  datatype Plan = Plan(offsets: seq<nat>, total: nat)

  /** The planner's working state: the live requests, the free list, the arena size and the offsets given so far. */
  datatype Arena = Arena(live: seq<nat>, free: seq<Range>, total: nat, offsets: seq<nat>)

  /** The live requests and the offsets of `a` are those of `n` requests. */
  predicate Fits(a: Arena, n: nat)
  {
    |a.offsets| == n && forall u :: 0 <= u < |a.live| ==> a.live[u] < n
  }

  /**
   * One step of the planner for request `j`: reclaim what has finished by
   * its start, place it by the placement rule, and record its offset; it
   * joins the live requests and no other offset changes.
   */
  function Step(a: Arena, j: nat, sizes: seq<nat>, validity: seq<Validity>): (b: Arena)
    requires |sizes| == |validity| && j < |sizes| && Fits(a, |sizes|)
    ensures Fits(b, |sizes|)
    ensures b.offsets == a.offsets[j := b.offsets[j]]
    ensures j in b.live && b.total >= a.total
  {
    var r := ReclaimFrom(a.live, 0, [], a.free, a.offsets, sizes, validity, validity[j].start);
    assert a.live[0..] == a.live;
    var p := Placed(r.free, a.total, sizes[j]);
    Arena(r.kept + [j], p.free, p.total, a.offsets[j := p.offset])
  }

  /** The state after the first `k` requests of `order` have had their `Step`, from an empty arena. */
  function Run(order: seq<nat>, k: nat, sizes: seq<nat>, validity: seq<Validity>): (a: Arena)
    requires |sizes| == |validity| && k <= |order|
    requires forall t :: 0 <= t < |order| ==> order[t] < |sizes|
    ensures Fits(a, |sizes|)
  {
    if k == 0 then Arena([], [], 0, seq(|sizes|, _ => 0))
    else Step(Run(order, k - 1, sizes, validity), order[k - 1], sizes, validity)
  }

  /** The layout the planner computes: every request's `Step` taken in the processing order. */
  function Layout(sizes: seq<nat>, validity: seq<Validity>): (plan: Plan)
    requires |sizes| == |validity|
    ensures |plan.offsets| == |sizes|
  {
    var a := Run(OrderOf(validity, |validity|), |validity|, sizes, validity);
    Plan(a.offsets, a.total)
  }

  /** A request with no bytes or with an empty validity interval. */
  predicate EmptyRequestAt(sizes: seq<nat>, validity: seq<Validity>, i: nat)
    requires i < |sizes| && i < |validity|
  {
    sizes[i] == 0 || validity[i].start >= validity[i].end
  }

  /**
   * What holds after the first `k` requests of `order` are placed: the
   * live ones hold their regions (`Holds`), every placed region lies in
   * the arena, a placed request is either live or finished by `now`, two
   * placed requests alive together share no byte, and the arena ends
   * where some placed region ends.
   */
  ghost predicate Planned(order: seq<nat>, k: nat, live: seq<nat>, free: seq<Range>, total: nat,
                          offsets: seq<nat>, sizes: seq<nat>, validity: seq<Validity>, now: nat)
    requires |offsets| == |sizes| == |validity| && DistinctIndices(order, |sizes|) && k <= |order|
  {
    && Holds(live, free, total, offsets, sizes)
    && (forall u :: 0 <= u < |live| ==> live[u] in order[..k])
    && (forall a :: 0 <= a < k ==> offsets[order[a]] + sizes[order[a]] <= total)
    && (forall a :: 0 <= a < k ==> order[a] in live || validity[order[a]].end <= now)
    && (forall a, b :: 0 <= a < k && 0 <= b < k && a != b && Overlaps(validity[order[a]], validity[order[b]]) ==>
          Disjoint(Block(offsets, sizes, order[a]), Block(offsets, sizes, order[b])))
    && (total == 0 || exists a :: 0 <= a < k && offsets[order[a]] + sizes[order[a]] == total)
  }

  /**
   * `planLayout`: reject a request of size zero or with an empty validity
   * interval; otherwise lay the requests out with `PlaceAll`.
   */
  method PlanLayout(sizes: seq<nat>, validity: seq<Validity>) returns (r: Result<Plan>)
    requires |sizes| == |validity|
    ensures r.Throw? <==> exists i :: 0 <= i < |sizes| && EmptyRequestAt(sizes, validity, i)
    ensures r.Throw? ==> r.ex == InvalidArgument(EmptyRequest)
    ensures r.Ok? ==> r.value == Layout(sizes, validity)
    ensures r.Ok? ==> |r.value.offsets| == |sizes|
    ensures r.Ok? ==> forall i :: 0 <= i < |sizes| ==> r.value.offsets[i] + sizes[i] <= r.value.total
    ensures r.Ok? ==> forall i, j :: 0 <= i < |sizes| && 0 <= j < |sizes| && i != j && Overlaps(validity[i], validity[j]) ==>
                        Disjoint(Block(r.value.offsets, sizes, i), Block(r.value.offsets, sizes, j))
    ensures r.Ok? ==> r.value.total == 0 || exists i :: 0 <= i < |sizes| && r.value.offsets[i] + sizes[i] == r.value.total
  {
    if exists i :: 0 <= i < |sizes| && EmptyRequestAt(sizes, validity, i) {
      return Throw(InvalidArgument(EmptyRequest));
    }
    var offsets, total := PlaceAll(sizes, validity);
    return Ok(Plan(offsets, total));
  }

  /**
   * Visit the requests in `ProcessingOrder`; before each one, free the
   * regions whose validity ended by its start (`Reclaim`), then `Place` it.
   * Requests alive at a common tick get disjoint regions, every region lies
   * in the arena, and the arena ends where some region ends.
   */
  method PlaceAll(sizes: seq<nat>, validity: seq<Validity>) returns (offsets: seq<nat>, total: nat)
    requires |sizes| == |validity|
    requires forall i :: 0 <= i < |sizes| ==> !EmptyRequestAt(sizes, validity, i)
    ensures Plan(offsets, total) == Layout(sizes, validity)
    ensures |offsets| == |sizes|
    ensures forall i :: 0 <= i < |sizes| ==> offsets[i] + sizes[i] <= total
    ensures forall i, j :: 0 <= i < |sizes| && 0 <= j < |sizes| && i != j && Overlaps(validity[i], validity[j]) ==>
              Disjoint(Block(offsets, sizes, i), Block(offsets, sizes, j))
    ensures total == 0 || exists i :: 0 <= i < |sizes| && offsets[i] + sizes[i] == total
  {
    var order := ProcessingOrder(validity);
    assert forall a :: 0 < a < |order| ==> ComesBefore(validity[order[a - 1]], validity[order[a]]);
    var live, free;
    ghost var now;
    offsets, total, live, free, now := PlaceInOrder(order, sizes, validity);
    PlannedAll(order, live, free, total, offsets, sizes, validity, now);
  }

  /** Give memory to the requests one by one in the order `order`; the regions still held and the free list at the end come back too. */
  method PlaceInOrder(order: seq<nat>, sizes: seq<nat>, validity: seq<Validity>)
    returns (offsets: seq<nat>, total: nat, live: seq<nat>, free: seq<Range>, ghost now: nat)
    requires |sizes| == |validity| && DistinctIndices(order, |sizes|)
    requires forall a :: 0 < a < |order| ==> validity[order[a - 1]].start <= validity[order[a]].start
    requires forall i :: 0 <= i < |sizes| ==> !EmptyRequestAt(sizes, validity, i)
    ensures Arena(live, free, total, offsets) == Run(order, |order|, sizes, validity)
    ensures |offsets| == |sizes|
    ensures PlannedUpTo(order, |order|, live, free, total, offsets, sizes, validity, now)
  {
    offsets := seq(|sizes|, _ => 0);
    live, free, total, now := [], [], 0, 0;
    PlannedStart(order, offsets, sizes, validity);
    var k := 0;
    while k < |order|
      invariant 0 <= k <= |order| && |offsets| == |sizes|
      invariant PlannedUpTo(order, k, live, free, total, offsets, sizes, validity, now)
      invariant Arena(live, free, total, offsets) == Run(order, k, sizes, validity)
    {
      assert !EmptyRequestAt(sizes, validity, order[k]);
      assert k + 1 < |order| ==> validity[order[k]].start <= validity[order[k + 1]].start;
      live, free, total, offsets := PlaceNext(order, k, live, free, total, offsets, sizes, validity, now);
      now := validity[order[k]].start;
      k := k + 1;
    }
  }

  /** `Planned` after `k` requests, with `now` no later than the next request's start. */
  ghost predicate PlannedUpTo(order: seq<nat>, k: nat, live: seq<nat>, free: seq<Range>, total: nat,
                              offsets: seq<nat>, sizes: seq<nat>, validity: seq<Validity>, now: nat)
    requires |offsets| == |sizes| == |validity| && DistinctIndices(order, |sizes|) && k <= |order|
  {
    Planned(order, k, live, free, total, offsets, sizes, validity, now) && (k < |order| ==> now <= validity[order[k]].start)
  }

  /** Before any request is placed, `Planned` holds of the empty arena. */
  lemma PlannedStart(order: seq<nat>, offsets: seq<nat>, sizes: seq<nat>, validity: seq<Validity>)
    requires |offsets| == |sizes| == |validity| && DistinctIndices(order, |sizes|)
    ensures PlannedUpTo(order, 0, [], [], 0, offsets, sizes, validity, 0)
  {
  }

  /** Give memory to request `order[k]`: free what has finished by its start, then place it. */
  method PlaceNext(order: seq<nat>, k: nat, live: seq<nat>, free: seq<Range>, total: nat,
                   offsets: seq<nat>, sizes: seq<nat>, validity: seq<Validity>, ghost now: nat)
    returns (live': seq<nat>, free': seq<Range>, total': nat, offsets': seq<nat>)
    requires |offsets| == |sizes| == |validity| && DistinctIndices(order, |sizes|) && k < |order|
    requires k + 1 < |order| ==> validity[order[k]].start <= validity[order[k + 1]].start
    requires PlannedUpTo(order, k, live, free, total, offsets, sizes, validity, now)
    requires !EmptyRequestAt(sizes, validity, order[k])
    ensures Arena(live', free', total', offsets') == Step(Arena(live, free, total, offsets), order[k], sizes, validity)
    ensures |offsets'| == |sizes|
    ensures PlannedUpTo(order, k + 1, live', free', total', offsets', sizes, validity, validity[order[k]].start)
  {
    var j := order[k];
    var kept, free1 := Reclaim(live, free, total, offsets, sizes, validity, validity[j].start);
    var offset, free2, total2 := Place(free1, total, sizes[j]);
    PlaceStep(order, k, live, free, kept, free1, free2, total, total2, offset, offsets, sizes, validity, now);
    live', free', total', offsets' := kept + [j], free2, total2, offsets[j := offset];
  }

  /** One pass of the loop keeps `Planned`: request `order[k]` placed at `offset` after `Reclaim` and `Place`. */
  lemma PlaceStep(order: seq<nat>, k: nat, live: seq<nat>, free: seq<Range>, kept: seq<nat>, free1: seq<Range>, free2: seq<Range>,
                  total: nat, total2: nat, offset: nat, offsets: seq<nat>, sizes: seq<nat>, validity: seq<Validity>, now: nat)
    requires |offsets| == |sizes| == |validity| && DistinctIndices(order, |sizes|) && k < |order|
    requires Planned(order, k, live, free, total, offsets, sizes, validity, now)
    requires now <= validity[order[k]].start && sizes[order[k]] > 0
    // what Reclaim promises
    requires Holds(kept, free1, total, offsets, sizes)
    requires forall u :: 0 <= u < |kept| ==> kept[u] in live && validity[kept[u]].end > validity[order[k]].start
    requires forall u :: 0 <= u < |live| && validity[live[u]].end > validity[order[k]].start ==> live[u] in kept
    // what Place promises
    requires FreeList(free2, total2) && offset + sizes[order[k]] <= total2 && total <= total2
    requires total2 == total || total2 == offset + sizes[order[k]]
    requires forall x: Range :: x.offset + x.size <= total && AvoidsAll(free1, x) ==>
               AvoidsAll(free2, x) && Disjoint(Range(offset, sizes[order[k]]), x)
    requires AvoidsAll(free2, Range(offset, sizes[order[k]]))
    ensures Planned(order, k + 1, kept + [order[k]], free2, total2, offsets[order[k] := offset], sizes, validity, validity[order[k]].start)
  {
    var j := order[k];
    StepKept(order, k, live, kept, sizes, validity, now);
    StepHolds(kept, free1, free2, total, total2, offsets, sizes, j, offset);
    StepBounds(order, k, kept, total, total2, offset, offsets, sizes);
    forall u | 0 <= u < |kept|
      ensures Disjoint(Range(offset, sizes[j]), Block(offsets, sizes, kept[u]))
    {
      assert AvoidsAll(free1, Block(offsets, sizes, kept[u]));
    }
    StepDisjoint(order, k, kept, offsets, sizes, validity, offset);
  }

  /** The requests kept alive were placed before `order[k]`, and every other placed request has finished by its start. */
  lemma StepKept(order: seq<nat>, k: nat, live: seq<nat>, kept: seq<nat>, sizes: seq<nat>, validity: seq<Validity>, now: nat)
    requires |sizes| == |validity| && DistinctIndices(order, |sizes|) && k < |order|
    requires forall u :: 0 <= u < |live| ==> live[u] in order[..k]
    requires forall a :: 0 <= a < k ==> order[a] in live || validity[order[a]].end <= now
    requires now <= validity[order[k]].start
    requires forall u :: 0 <= u < |kept| ==> kept[u] in live
    requires forall u :: 0 <= u < |live| && validity[live[u]].end > validity[order[k]].start ==> live[u] in kept
    ensures forall u :: 0 <= u < |kept| ==> kept[u] in order[..k] && kept[u] != order[k]
    ensures forall a :: 0 <= a < k ==> order[a] in kept || validity[order[a]].end <= validity[order[k]].start
  {
    forall u | 0 <= u < |kept|
      ensures kept[u] in order[..k] && kept[u] != order[k]
    {
      assert kept[u] in order[..k];
      var a :| 0 <= a < k && order[..k][a] == kept[u];
    }
    forall a | 0 <= a < k
      ensures order[a] in kept || validity[order[a]].end <= validity[order[k]].start
    {
      if order[a] in live && order[a] !in kept {
        var u :| 0 <= u < |live| && live[u] == order[a];
      }
    }
  }

  /** After a step every placed region lies in the grown arena, which ends where some placed region ends. */
  lemma StepBounds(order: seq<nat>, k: nat, kept: seq<nat>, total: nat, total2: nat, offset: nat, offsets: seq<nat>, sizes: seq<nat>)
    requires |offsets| == |sizes| && DistinctIndices(order, |sizes|) && k < |order|
    requires forall a :: 0 <= a < k ==> offsets[order[a]] + sizes[order[a]] <= total
    requires total == 0 || exists a :: 0 <= a < k && offsets[order[a]] + sizes[order[a]] == total
    requires forall u :: 0 <= u < |kept| ==> kept[u] in order[..k]
    requires offset + sizes[order[k]] <= total2 && total <= total2
    requires total2 == total || total2 == offset + sizes[order[k]]
    ensures forall u :: 0 <= u < |kept + [order[k]]| ==> (kept + [order[k]])[u] in order[..k + 1]
    ensures forall a :: 0 <= a < k + 1 ==> offsets[order[k] := offset][order[a]] + sizes[order[a]] <= total2
    ensures total2 == 0 || exists a :: 0 <= a < k + 1 && offsets[order[k] := offset][order[a]] + sizes[order[a]] == total2
  {
    var j := order[k];
    var offsets' := offsets[j := offset];
    assert forall a :: 0 <= a < k ==> order[a] != j;
    assert order[..k + 1] == order[..k] + [j];
    if total2 != 0 {
      if total2 == total {
        var a :| 0 <= a < k && offsets[order[a]] + sizes[order[a]] == total;
        assert offsets'[order[a]] + sizes[order[a]] == total2;
      } else {
        assert offsets'[order[k]] + sizes[order[k]] == total2;
      }
    }
  }

  /** After a step the live requests, `j` added at `offset`, still hold their regions. */
  lemma StepHolds(kept: seq<nat>, free1: seq<Range>, free2: seq<Range>, total: nat, total2: nat,
                  offsets: seq<nat>, sizes: seq<nat>, j: nat, offset: nat)
    requires |offsets| == |sizes| && j < |sizes| && sizes[j] > 0
    requires Holds(kept, free1, total, offsets, sizes)
    requires forall u :: 0 <= u < |kept| ==> kept[u] != j
    requires FreeList(free2, total2) && offset + sizes[j] <= total2 && total <= total2
    requires forall x: Range :: x.offset + x.size <= total && AvoidsAll(free1, x) ==>
               AvoidsAll(free2, x) && Disjoint(Range(offset, sizes[j]), x)
    requires AvoidsAll(free2, Range(offset, sizes[j]))
    ensures Holds(kept + [j], free2, total2, offsets[j := offset], sizes)
  {
    var offsets' := offsets[j := offset];
    var live' := kept + [j];
    assert forall u :: 0 <= u < |kept| ==> Block(offsets', sizes, kept[u]) == Block(offsets, sizes, kept[u]);
    assert Block(offsets', sizes, j) == Range(offset, sizes[j]);
    assert forall u :: 0 <= u < |live'| ==> live'[u] == if u < |kept| then kept[u] else j;
  }

  /** After a step, two placed requests alive together still share no byte. */
  lemma StepDisjoint(order: seq<nat>, k: nat, kept: seq<nat>, offsets: seq<nat>, sizes: seq<nat>, validity: seq<Validity>, offset: nat)
    requires |offsets| == |sizes| == |validity| && DistinctIndices(order, |sizes|) && k < |order|
    requires forall a, b :: 0 <= a < k && 0 <= b < k && a != b && Overlaps(validity[order[a]], validity[order[b]]) ==>
               Disjoint(Block(offsets, sizes, order[a]), Block(offsets, sizes, order[b]))
    requires forall a :: 0 <= a < k ==> order[a] in kept || validity[order[a]].end <= validity[order[k]].start
    requires forall u :: 0 <= u < |kept| ==> kept[u] < |sizes| && Disjoint(Range(offset, sizes[order[k]]), Block(offsets, sizes, kept[u]))
    ensures forall a, b :: 0 <= a < k + 1 && 0 <= b < k + 1 && a != b && Overlaps(validity[order[a]], validity[order[b]]) ==>
              Disjoint(Block(offsets[order[k] := offset], sizes, order[a]), Block(offsets[order[k] := offset], sizes, order[b]))
  {
    var j := order[k];
    var offsets' := offsets[j := offset];
    assert forall a :: 0 <= a < k ==> order[a] != j && Block(offsets', sizes, order[a]) == Block(offsets, sizes, order[a]);
    forall a | 0 <= a < k && Overlaps(validity[order[a]], validity[j])
      ensures Disjoint(Block(offsets', sizes, order[a]), Block(offsets', sizes, j))
    {
      var u :| 0 <= u < |kept| && kept[u] == order[a];
    }
  }

  /** When every request is placed, `Planned` gives the plan's promises for all of them. */
  lemma PlannedAll(order: seq<nat>, live: seq<nat>, free: seq<Range>, total: nat,
                   offsets: seq<nat>, sizes: seq<nat>, validity: seq<Validity>, now: nat)
    requires |offsets| == |sizes| == |validity| == |order| && DistinctIndices(order, |sizes|)
    requires forall i :: 0 <= i < |sizes| ==> i in order
    requires PlannedUpTo(order, |order|, live, free, total, offsets, sizes, validity, now)
    ensures forall i :: 0 <= i < |sizes| ==> offsets[i] + sizes[i] <= total
    ensures forall i, j :: 0 <= i < |sizes| && 0 <= j < |sizes| && i != j && Overlaps(validity[i], validity[j]) ==>
              Disjoint(Block(offsets, sizes, i), Block(offsets, sizes, j))
    ensures total == 0 || exists i :: 0 <= i < |sizes| && offsets[i] + sizes[i] == total
  {
    forall i | 0 <= i < |sizes|
      ensures offsets[i] + sizes[i] <= total
    {
      assert i in order;
      var a :| 0 <= a < |order| && order[a] == i;
    }
    forall i, j | 0 <= i < |sizes| && 0 <= j < |sizes| && i != j && Overlaps(validity[i], validity[j])
      ensures Disjoint(Block(offsets, sizes, i), Block(offsets, sizes, j))
    {
      assert i in order && j in order;
      var a :| 0 <= a < |order| && order[a] == i;
      var b :| 0 <= b < |order| && order[b] == j;
    }
    if total != 0 {
      var a :| 0 <= a < |order| && offsets[order[a]] + sizes[order[a]] == total;
    }
  }

  /** The longer-lived request first in the input keeps its place in the processing order. */
  lemma TieBreakLongFirstOrder()
    ensures OrderOf([Validity(0, 5), Validity(0, 3)], 2) == [0, 1]
  {
    assert OrderOf([Validity(0, 5), Validity(0, 3)], 1) == [0];
  }

  /** The longer-lived request first in the input: it keeps its place and gets offset 0. */
  lemma TieBreakLongFirst()
    ensures Layout([10, 10], [Validity(0, 5), Validity(0, 3)]) == Plan([0, 10], 20)
  {
    var validity := [Validity(0, 5), Validity(0, 3)];
    TieBreakLongFirstOrder();
    assert Run([0, 1], 1, [10, 10], validity) == Arena([0], [], 10, [0, 0]);
    assert ReclaimFrom([0], 0, [], [], [0, 0], [10, 10], validity, 0) == Reclaimed([0], []);
    assert Placed([], 10, 10) == Placement(10, [], 20);
    assert Step(Arena([0], [], 10, [0, 0]), 1, [10, 10], validity) == Arena([0, 1], [], 20, [0, 10]);
  }

  /** The longer-lived request second in the input comes first in the processing order. */
  lemma TieBreakShortFirstOrder()
    ensures OrderOf([Validity(0, 3), Validity(0, 5)], 2) == [1, 0]
  {
    var validity := [Validity(0, 3), Validity(0, 5)];
    assert OrderOf(validity, 1) == [0];
    assert InsertPos(validity, [0], 1, 0) == 0;
  }

  /** The longer-lived request second in the input: it is still served first and gets offset 0. */
  lemma TieBreakShortFirst()
    ensures Layout([10, 10], [Validity(0, 3), Validity(0, 5)]) == Plan([10, 0], 20)
  {
    var validity := [Validity(0, 3), Validity(0, 5)];
    TieBreakShortFirstOrder();
    assert Run([1, 0], 1, [10, 10], validity) == Arena([1], [], 10, [0, 0]);
    assert ReclaimFrom([1], 0, [], [], [0, 0], [10, 10], validity, 0) == Reclaimed([1], []);
    assert Placed([], 10, 10) == Placement(10, [], 20);
    assert Step(Arena([1], [], 10, [0, 0]), 0, [10, 10], validity) == Arena([1, 0], [], 20, [10, 0]);
  }

  /**
   * Equal starts: the request that ends later is served first, wherever it
   * stands in the input, and so gets the lower offset.
   */
  lemma TieBreakExample()
    ensures Layout([10, 10], [Validity(0, 5), Validity(0, 3)]) == Plan([0, 10], 20)
    ensures Layout([10, 10], [Validity(0, 3), Validity(0, 5)]) == Plan([10, 0], 20)
  {
    TieBreakLongFirst();
    TieBreakShortFirst();
  }

  /** The processing order of the reuse example is the input order. */
  lemma ReuseOrder()
    ensures OrderOf([Validity(0, 3), Validity(1, 2), Validity(3, 5)], 3) == [0, 1, 2]
  {
    assert OrderOf([Validity(0, 3), Validity(1, 2), Validity(3, 5)], 1) == [0];
    assert OrderOf([Validity(0, 3), Validity(1, 2), Validity(3, 5)], 2) == [0, 1];
  }

  /** R1 of the reuse example goes at the start of the empty arena. */
  lemma ReuseFirst()
    ensures Run([0, 1, 2], 1, [100, 50, 80], [Validity(0, 3), Validity(1, 2), Validity(3, 5)]) == Arena([0], [], 100, [0, 0, 0])
  {
    var sizes := [100, 50, 80];
    var validity := [Validity(0, 3), Validity(1, 2), Validity(3, 5)];
    assert Run([0, 1, 2], 0, sizes, validity) == Arena([], [], 0, [0, 0, 0]);
    assert ReclaimFrom([], 0, [], [], [0, 0, 0], sizes, validity, 0) == Reclaimed([], []);
    assert Placed([], 0, 100) == Placement(0, [], 100);
  }

  /** R1 and R2 of the reuse example overlap: R2 goes above R1. */
  lemma ReuseFirstTwo()
    ensures Run([0, 1, 2], 2, [100, 50, 80], [Validity(0, 3), Validity(1, 2), Validity(3, 5)]) == Arena([0, 1], [], 150, [0, 100, 0])
  {
    var sizes := [100, 50, 80];
    var validity := [Validity(0, 3), Validity(1, 2), Validity(3, 5)];
    ReuseFirst();
    assert ReclaimFrom([0], 0, [], [], [0, 0, 0], sizes, validity, 1) == Reclaimed([0], []);
    assert Placed([], 100, 50) == Placement(100, [], 150);
    assert [0, 0, 0][1 := 100] == [0, 100, 0];
    assert Step(Arena([0], [], 100, [0, 0, 0]), 1, sizes, validity) == Arena([0, 1], [], 150, [0, 100, 0]);
  }

  /** At tick 3 both R1 and R2 have finished, and their blocks merge into one free piece. */
  lemma ReuseReclaim()
    ensures ReclaimFrom([0, 1], 0, [], [], [0, 100, 0], [100, 50, 80], [Validity(0, 3), Validity(1, 2), Validity(3, 5)], 3)
            == Reclaimed([], [Range(0, 150)])
  {
    var sizes := [100, 50, 80];
    var validity := [Validity(0, 3), Validity(1, 2), Validity(3, 5)];
    assert InsertFree([], Range(0, 100)) == [Range(0, 100)];
    assert InsertFree([Range(0, 100)], Range(100, 50)) == [Range(0, 150)];
    assert ReclaimFrom([0, 1], 1, [], [Range(0, 100)], [0, 100, 0], sizes, validity, 3) == Reclaimed([], [Range(0, 150)]);
  }

  /**
   * Reuse: R2 overlaps R1 and goes above it; by R3's start both have
   * finished, their blocks merge into one free piece, and R3 is served
   * from its front instead of growing the arena.
   */
  lemma ReuseExample()
    ensures Layout([100, 50, 80], [Validity(0, 3), Validity(1, 2), Validity(3, 5)]) == Plan([0, 100, 0], 150)
  {
    ReuseOrder();
    ReuseFirstTwo();
    ReuseLast();
  }

  /** R3 of the reuse example is served from the front of the merged free piece. */
  lemma ReuseLast()
    ensures Step(Arena([0, 1], [], 150, [0, 100, 0]), 2, [100, 50, 80], [Validity(0, 3), Validity(1, 2), Validity(3, 5)])
            == Arena([2], [Range(80, 70)], 150, [0, 100, 0])
  {
    ReuseReclaim();
    assert Placed([Range(0, 150)], 150, 80) == Placement(0, [Range(80, 70)], 150);
  }
}

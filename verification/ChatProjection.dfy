/** The printed chat timeline: each item below its parent, one level further in. */
module ChatProjection {
  import opened Options

  datatype Item = Item(id: string, parent: Option<string>)

  /** One printed item: which, and how far it is indented. */
  datatype Visit = Visit(at: nat, depth: nat)

  ghost predicate DistinctIds(items: seq<Item>) {
    forall i, j :: 0 <= i < j < |items| ==> items[i].id != items[j].id
  }

  ghost predicate Names(items: seq<Item>, id: string) {
    exists i :: 0 <= i < |items| && items[i].id == id
  }

  /** Printed at the left margin: no parent, itself for a parent, or a parent that is not here. */
  ghost predicate IsRoot(items: seq<Item>, k: nat)
    requires k < |items|
  {
    items[k].parent.None? || items[k].parent.value == items[k].id || !Names(items, items[k].parent.value)
  }

  ghost predicate IsChild(items: seq<Item>, k: nat, id: string) {
    k < |items| && !IsRoot(items, k) && items[k].parent.value == id
  }

  ghost predicate Ascending(list: seq<nat>) {
    forall i, j :: 0 <= i < j < |list| ==> list[i] < list[j]
  }

  /** Among the first `n` items, those whose parent is `id`, in input order. */
  ghost function ChildrenUpTo(items: seq<Item>, id: string, n: nat): seq<nat>
    requires n <= |items|
  {
    if n == 0 then []
    else
      var before := ChildrenUpTo(items, id, n - 1);
      if IsChild(items, n - 1, id) then before + [n - 1] else before
  }

  ghost function ChildrenOf(items: seq<Item>, k: nat): seq<nat>
    requires k < |items|
  {
    ChildrenUpTo(items, items[k].id, |items|)
  }

  ghost function RootsUpTo(items: seq<Item>, n: nat): seq<nat>
    requires n <= |items|
  {
    if n == 0 then []
    else
      var before := RootsUpTo(items, n - 1);
      if IsRoot(items, n - 1) then before + [n - 1] else before
  }

  /** All of them, each once, siblings as they came. */
  lemma {:induction false} ChildrenInInputOrder(items: seq<Item>, id: string, n: nat)
    requires n <= |items|
    ensures forall c: nat :: c in ChildrenUpTo(items, id, n) <==> c < n && IsChild(items, c, id)
    ensures Ascending(ChildrenUpTo(items, id, n))
  {
    if n > 0 {
      ChildrenInInputOrder(items, id, n - 1);
      var before := ChildrenUpTo(items, id, n - 1);
      assert forall i :: 0 <= i < |before| ==> before[i] in before;
    }
  }

  lemma {:induction false} RootsInInputOrder(items: seq<Item>, n: nat)
    requires n <= |items|
    ensures forall c: nat :: c in RootsUpTo(items, n) <==> c < n && IsRoot(items, c)
    ensures Ascending(RootsUpTo(items, n))
  {
    if n > 0 {
      RootsInInputOrder(items, n - 1);
      var before := RootsUpTo(items, n - 1);
      assert forall i :: 0 <= i < |before| ==> before[i] in before;
    }
  }

  ghost function ParentOf(items: seq<Item>, k: nat): (p: nat)
    requires k < |items| && !IsRoot(items, k)
    ensures p < |items| && items[p].id == items[k].parent.value
  {
    var p: nat :| p < |items| && items[p].id == items[k].parent.value;
    p
  }

  /** The `n`th ancestor, if the chain of parents is that long. */
  ghost function Climb(items: seq<Item>, k: nat, n: nat): (a: Option<nat>)
    requires k < |items|
    ensures a.Some? ==> a.value < |items|
  {
    if n == 0 then Some(k)
    else
      var a := Climb(items, k, n - 1);
      if a.None? || IsRoot(items, a.value) then None else Some(ParentOf(items, a.value))
  }

  /** The chain of parents reaches a root in exactly `d` steps. */
  ghost predicate AtDepth(items: seq<Item>, k: nat, d: nat) {
    k < |items| && Climb(items, k, d).Some? && IsRoot(items, Climb(items, k, d).value)
  }

  lemma {:induction false} ClimbEnds(items: seq<Item>, k: nat, n: nat, m: nat)
    requires k < |items| && n <= m && Climb(items, k, n).None?
    ensures Climb(items, k, m).None?
  {
    if n < m {
      ClimbEnds(items, k, n, m - 1);
    }
  }

  lemma DepthIsUnique(items: seq<Item>, k: nat, d: nat, e: nat)
    requires AtDepth(items, k, d) && AtDepth(items, k, e)
    ensures d == e
  {
    if d < e {
      ClimbEnds(items, k, d + 1, e);
    } else if e < d {
      ClimbEnds(items, k, e + 1, d);
    }
  }

  lemma {:induction false} ClimbFromParent(items: seq<Item>, k: nat, n: nat)
    requires k < |items| && !IsRoot(items, k)
    ensures Climb(items, k, n + 1) == Climb(items, ParentOf(items, k), n)
  {
    if n > 0 {
      ClimbFromParent(items, k, n - 1);
    } else {
      assert Climb(items, k, 0) == Some(k);
    }
  }

  lemma {:induction false} ClimbOn(items: seq<Item>, k: nat, n: nat, m: nat)
    requires k < |items| && Climb(items, k, n).Some?
    ensures Climb(items, k, n + m) == Climb(items, Climb(items, k, n).value, m)
  {
    if m > 0 {
      ClimbOn(items, k, n, m - 1);
    }
  }

  // ---------------------------------------------------------------- the pigeonhole

  ghost predicate Repeats(list: seq<nat>) {
    exists i, j :: 0 <= i < j < |list| && list[i] == list[j]
  }

  lemma {:induction false} Pigeonhole(list: seq<nat>, n: nat)
    requires |list| > n > 0 && forall x <- list :: x < n
    ensures Repeats(list)
  {
    if n == 1 {
      assert list[0] in list && list[1] in list;
    } else if p: nat :| p < |list| && list[p] == n - 1 {
      var rest := list[..p] + list[p + 1..];
      if q: nat :| q < |rest| && rest[q] == n - 1 {
        var at := if q < p then q else q + 1;
        assert list[at] == rest[q];
        assert at < p || p < at;
      } else {
        assert forall x <- rest :: x in list;
        Pigeonhole(rest, n - 1);
        var i, j :| 0 <= i < j < |rest| && rest[i] == rest[j];
        var ii, jj := if i < p then i else i + 1, if j < p then j else j + 1;
        assert list[ii] == list[jj] && ii < jj;
      }
    } else {
      Pigeonhole(list, n - 1);
    }
  }

  /** The first `n` items of the chain of parents. */
  ghost function Chain(items: seq<Item>, k: nat, n: nat): (chain: seq<nat>)
    requires k < |items| && (n > 0 ==> Climb(items, k, n - 1).Some?)
    ensures |chain| == n && forall x <- chain :: x < |items|
    ensures forall i :: 0 <= i < n ==> Climb(items, k, i) == Some(chain[i])
  {
    if n == 0 then [] else Chain(items, k, n - 1) + [Climb(items, k, n - 1).value]
  }

  lemma PastTheRoot(items: seq<Item>, k: nat, d: nat, j: nat)
    requires AtDepth(items, k, d) && d < j
    ensures Climb(items, k, j).None?
  {
    ClimbEnds(items, k, d + 1, j);
  }

  lemma DepthFrom(items: seq<Item>, k: nat, d: nat, i: nat)
    requires AtDepth(items, k, d) && i <= d && Climb(items, k, i).Some?
    ensures AtDepth(items, Climb(items, k, i).value, d - i)
  {
    hide Climb, IsRoot;
    ClimbOn(items, k, i, d - i);
  }

  /** Chains that reach a root never come back to an item. */
  lemma RootedChainsAreSimple(items: seq<Item>, k: nat, d: nat, i: nat, j: nat)
    requires k < |items| && AtDepth(items, k, d) && i < j && Climb(items, k, i).Some?
    ensures Climb(items, k, i) != Climb(items, k, j)
  {
    hide Climb, AtDepth;
    if d < j {
      PastTheRoot(items, k, d, j);
    } else if Climb(items, k, i) == Climb(items, k, j) {
      DepthFrom(items, k, d, i);
      DepthFrom(items, k, d, j);
      DepthIsUnique(items, Climb(items, k, i).value, d - i, d - j);
    }
  }

  lemma DepthIsBounded(items: seq<Item>, k: nat, d: nat)
    requires AtDepth(items, k, d)
    ensures d < |items|
  {
    if d >= |items| {
      var chain := Chain(items, k, d + 1);
      Pigeonhole(chain, |items|);
      var i, j :| 0 <= i < j < |chain| && chain[i] == chain[j];
      RootedChainsAreSimple(items, k, d, i, j);
    }
  }

  /** On a cycle of parents, or under one. */
  ghost predicate MeetsCycle(items: seq<Item>, k: nat) {
    && k < |items|
    && exists i: nat, j: nat :: i < j && Climb(items, k, i).Some? && Climb(items, k, i) == Climb(items, k, j)
  }

  lemma {:induction false} ClimbsUnlessRooted(items: seq<Item>, k: nat, n: nat)
    requires k < |items|
    ensures Climb(items, k, n).Some? || exists d: nat :: AtDepth(items, k, d)
  {
    if n > 0 {
      ClimbsUnlessRooted(items, k, n - 1);
      if Climb(items, k, n - 1).Some? && Climb(items, k, n).None? {
        assert AtDepth(items, k, n - 1);
      }
    }
  }

  /** Every item's chain either reaches a root or meets a cycle, never both. */
  lemma RootedOrCyclic(items: seq<Item>, k: nat)
    requires k < |items|
    ensures (exists d: nat :: AtDepth(items, k, d)) <==> !MeetsCycle(items, k)
  {
    if d: nat :| AtDepth(items, k, d) {
      if i: nat, j: nat :| i < j && Climb(items, k, i).Some? && Climb(items, k, i) == Climb(items, k, j) {
        RootedChainsAreSimple(items, k, d, i, j);
      }
    } else {
      ClimbsUnlessRooted(items, k, |items|);
      var chain := Chain(items, k, |items| + 1);
      Pigeonhole(chain, |items|);
      var i, j :| 0 <= i < j < |chain| && chain[i] == chain[j];
      assert Climb(items, k, i) == Climb(items, k, j);
    }
  }

  // ---------------------------------------------------------------- down from the margin

  ghost predicate IsPath(items: seq<Item>, p: seq<nat>) {
    && (forall i :: 0 <= i < |p| ==> p[i] < |items|)
    && (forall i :: 0 < i < |p| ==> IsChild(items, p[i], items[p[i - 1]].id))
  }

  /** From the margin down, each item under the one before. */
  ghost predicate IsTrail(items: seq<Item>, p: seq<nat>) {
    IsPath(items, p) && p != [] && IsRoot(items, p[0])
  }

  ghost predicate IsTrailTo(items: seq<Item>, p: seq<nat>, k: nat, d: nat) {
    IsTrail(items, p) && |p| == d + 1 && p[d] == k
  }

  /** Some trail of `d` steps comes to the item; with repeated ids there can be several. */
  ghost predicate ReachedAt(items: seq<Item>, k: nat, d: nat) {
    exists p :: IsTrailTo(items, p, k, d)
  }

  /** No item that is reached from the margin is reached again below itself. */
  ghost predicate Ends(items: seq<Item>) {
    forall p :: IsTrail(items, p) ==> !Repeats(p)
  }

  lemma ReachedIsBounded(items: seq<Item>, k: nat, d: nat)
    requires Ends(items) && ReachedAt(items, k, d)
    ensures k < |items| && d < |items|
  {
    hide IsChild, IsRoot, Repeats;
    var p :| IsTrailTo(items, p, k, d);
    if |p| > |items| {
      assert forall x <- p :: x < |items|;
      Pigeonhole(p, |items|);
    }
  }

  lemma StepDown(items: seq<Item>, k: nat, d: nat, c: nat)
    requires ReachedAt(items, k, d) && k < |items| && IsChild(items, c, items[k].id)
    ensures ReachedAt(items, c, d + 1)
  {
    hide IsChild, IsRoot;
    var p :| IsTrailTo(items, p, k, d);
    ChildIsThere(items, c, items[k].id);
    assert IsTrailTo(items, p + [c], c, d + 1);
  }

  lemma ChildIsThere(items: seq<Item>, c: nat, id: string)
    requires IsChild(items, c, id)
    ensures c < |items|
  {
  }

  /** An item below the margin is reached through one that it is under. */
  lemma StepUp(items: seq<Item>, k: nat, d: nat) returns (above: nat)
    requires ReachedAt(items, k, d) && d > 0
    ensures above < |items| && ReachedAt(items, above, d - 1) && IsChild(items, k, items[above].id)
  {
    hide IsChild, IsRoot;
    var p :| IsTrailTo(items, p, k, d);
    above := p[d - 1];
    assert IsTrailTo(items, p[..d], above, d - 1);
  }

  lemma MarginIsReached(items: seq<Item>, k: nat)
    requires k < |items|
    ensures ReachedAt(items, k, 0) <==> IsRoot(items, k)
  {
    hide IsChild, IsRoot;
    if IsRoot(items, k) {
      assert IsTrailTo(items, [k], k, 0);
    }
  }

  lemma DepthOfRoot(items: seq<Item>, k: nat, d: nat)
    requires k < |items| && IsRoot(items, k)
    ensures AtDepth(items, k, d) <==> d == 0
  {
    hide IsRoot;
    assert Climb(items, k, 0) == Some(k);
    assert AtDepth(items, k, 0);
    if AtDepth(items, k, d) {
      DepthIsUnique(items, k, 0, d);
    }
  }

  lemma DepthOfParent(items: seq<Item>, k: nat, d: nat)
    requires k < |items| && !IsRoot(items, k)
    ensures AtDepth(items, k, d + 1) <==> AtDepth(items, ParentOf(items, k), d)
    ensures !AtDepth(items, k, 0)
  {
    hide IsRoot, Climb;
    ClimbFromParent(items, k, d);
    ClimbsNowhere(items, k);
  }

  lemma ClimbsNowhere(items: seq<Item>, k: nat)
    requires k < |items|
    ensures Climb(items, k, 0) == Some(k)
  {
  }

  /** Where ids differ, an item's parent is the one item it is a child of. */
  lemma OneParent(items: seq<Item>, k: nat, above: nat)
    requires DistinctIds(items) && above < |items|
    ensures IsChild(items, k, items[above].id) <==> k < |items| && !IsRoot(items, k) && ParentOf(items, k) == above
  {
    if k < |items| && !IsRoot(items, k) && items[k].parent.value == items[above].id {
      var p := ParentOf(items, k);
      assert p == above;
    }
  }

  /** Where ids differ there is one way to each item: back up its chain of parents. */
  lemma {:induction false} ReachedAlongTheChain(items: seq<Item>, k: nat, d: nat)
    requires DistinctIds(items) && k < |items|
    ensures ReachedAt(items, k, d) <==> AtDepth(items, k, d)
    decreases d
  {
    hide ReachedAt, AtDepth, DistinctIds, IsRoot, IsChild;
    MarginIsReached(items, k);
    if IsRoot(items, k) {
      DepthOfRoot(items, k, d);
      if d > 0 && ReachedAt(items, k, d) {
        var above := StepUp(items, k, d);
        OneParent(items, k, above);
      }
    } else if d == 0 {
      DepthOfParent(items, k, 0);
    } else {
      var p := ParentOf(items, k);
      DepthOfParent(items, k, d - 1);
      ReachedAlongTheChain(items, p, d - 1);
      OneParent(items, k, p);
      if ReachedAt(items, k, d) {
        var above := StepUp(items, k, d);
        OneParent(items, k, above);
      }
      if AtDepth(items, p, d - 1) {
        StepDown(items, p, d - 1, k);
      }
    }
  }

  lemma AlongTrail(items: seq<Item>, p: seq<nat>, i: nat)
    requires IsTrail(items, p) && i < |p|
    ensures ReachedAt(items, p[i], i) && p[i] < |items|
  {
    hide IsChild, IsRoot;
    assert IsTrailTo(items, p[..i + 1], p[i], i);
  }

  /** Differing ids are enough for the loop to end. */
  lemma DistinctIdsEnd(items: seq<Item>)
    requires DistinctIds(items)
    ensures Ends(items)
  {
    hide DistinctIds, IsTrail, ReachedAt, AtDepth;
    forall p | IsTrail(items, p)
      ensures !Repeats(p)
    {
      forall i, j | 0 <= i < j < |p|
        ensures p[i] != p[j]
      {
        AlongTrail(items, p, i);
        AlongTrail(items, p, j);
        ReachedAlongTheChain(items, p[i], i);
        ReachedAlongTheChain(items, p[j], j);
        if p[i] == p[j] {
          DepthIsUnique(items, p[i], i, j);
        }
      }
    }
  }

  // ---------------------------------------------------------------- the recursive walk

  ghost function Room(items: seq<Item>, d: nat): nat {
    if d < |items| then |items| - d else 0
  }

  ghost predicate AllReached(items: seq<Item>, list: seq<nat>, d: nat) {
    forall k <- list :: ReachedAt(items, k, d)
  }

  lemma ChildrenAreDeeper(items: seq<Item>, k: nat, d: nat)
    requires ReachedAt(items, k, d) && k < |items|
    ensures AllReached(items, ChildrenOf(items, k), d + 1) && Ascending(ChildrenOf(items, k))
  {
    hide ReachedAt, IsChild;
    ChildrenInInputOrder(items, items[k].id, |items|);
    forall c | c in ChildrenOf(items, k)
      ensures ReachedAt(items, c, d + 1)
    {
      StepDown(items, k, d, c);
    }
  }

  /** An item, then all that is under it. */
  ghost function Walk(items: seq<Item>, k: nat, d: nat): seq<Visit>
    requires Ends(items) && ReachedAt(items, k, d)
    decreases Room(items, d), 0
  {
    ReachedIsBounded(items, k, d);
    ChildrenAreDeeper(items, k, d);
    [Visit(k, d)] + WalkAll(items, ChildrenOf(items, k), d + 1)
  }

  ghost function WalkAll(items: seq<Item>, list: seq<nat>, d: nat): seq<Visit>
    requires Ends(items) && AllReached(items, list, d)
    decreases Room(items, d), |list|
  {
    if list == [] then []
    else
      assert list[0] in list;
      Walk(items, list[0], d) + WalkAll(items, list[1..], d)
  }

  lemma RootsAreAtTheMargin(items: seq<Item>)
    ensures AllReached(items, RootsUpTo(items, |items|), 0)
  {
    hide ReachedAt, IsRoot;
    RootsInInputOrder(items, |items|);
    forall k | k in RootsUpTo(items, |items|)
      ensures ReachedAt(items, k, 0)
    {
      MarginIsReached(items, k);
    }
  }

  /** What is printed: each root and all that is under it, in input order. */
  ghost function PreOrder(items: seq<Item>): seq<Visit>
    requires Ends(items)
  {
    RootsAreAtTheMargin(items);
    WalkAll(items, RootsUpTo(items, |items|), 0)
  }

  lemma {:induction false} WalkReaches(items: seq<Item>, k: nat, d: nat, visit: Visit)
    requires Ends(items) && ReachedAt(items, k, d) && visit in Walk(items, k, d)
    ensures ReachedAt(items, visit.at, visit.depth)
    decreases Room(items, d), 0
  {
    hide ReachedAt, Ends, ChildrenOf, WalkAll, Ascending, AllReached;
    ReachedIsBounded(items, k, d);
    ChildrenAreDeeper(items, k, d);
    if visit != Visit(k, d) {
      WalkAllReaches(items, ChildrenOf(items, k), d + 1, visit);
    }
  }

  lemma {:induction false} WalkAllReaches(items: seq<Item>, list: seq<nat>, d: nat, visit: Visit)
    requires Ends(items) && AllReached(items, list, d) && visit in WalkAll(items, list, d)
    ensures ReachedAt(items, visit.at, visit.depth)
    decreases Room(items, d), |list|
  {
    hide ReachedAt, Ends, Walk;
    assert list[0] in list;
    if visit in Walk(items, list[0], d) {
      WalkReaches(items, list[0], d, visit);
    } else {
      WalkAllReaches(items, list[1..], d, visit);
    }
  }

  lemma {:induction false} WalkAllHas(items: seq<Item>, list: seq<nat>, d: nat, k: nat, visit: Visit)
    requires Ends(items) && AllReached(items, list, d) && k in list && visit in Walk(items, k, d)
    ensures visit in WalkAll(items, list, d)
  {
    hide ReachedAt, Ends, Walk;
    assert list[0] in list;
    if k != list[0] {
      WalkAllHas(items, list[1..], d, k, visit);
    }
  }

  /** If an item is printed under another, so are its own children. */
  lemma {:induction false} WalkGoesDown(items: seq<Item>, k: nat, d: nat, above: Visit, c: nat)
    requires Ends(items) && ReachedAt(items, k, d) && above in Walk(items, k, d)
    requires above.at < |items| && IsChild(items, c, items[above.at].id)
    ensures Visit(c, above.depth + 1) in Walk(items, k, d)
    decreases Room(items, d), 0
  {
    hide ReachedAt, Ends, ChildrenOf, WalkAll, Ascending, AllReached, IsChild;
    ReachedIsBounded(items, k, d);
    ChildrenAreDeeper(items, k, d);
    var list := ChildrenOf(items, k);
    if above == Visit(k, d) {
      ChildIsWalked(items, list, d + 1, k, c);
    } else {
      WalkAllGoesDown(items, list, d + 1, above, c);
    }
  }

  lemma ChildIsWalked(items: seq<Item>, list: seq<nat>, d: nat, k: nat, c: nat)
    requires Ends(items) && k < |items| && list == ChildrenOf(items, k) && AllReached(items, list, d)
    requires IsChild(items, c, items[k].id)
    ensures Visit(c, d) in WalkAll(items, list, d)
  {
    hide ReachedAt, Ends, WalkAll;
    ChildrenInInputOrder(items, items[k].id, |items|);
    assert Visit(c, d) in Walk(items, c, d);
    WalkAllHas(items, list, d, c, Visit(c, d));
  }

  lemma {:induction false} WalkAllGoesDown(items: seq<Item>, list: seq<nat>, d: nat, above: Visit, c: nat)
    requires Ends(items) && AllReached(items, list, d) && above in WalkAll(items, list, d)
    requires above.at < |items| && IsChild(items, c, items[above.at].id)
    ensures Visit(c, above.depth + 1) in WalkAll(items, list, d)
    decreases Room(items, d), |list|
  {
    hide ReachedAt, Ends, Walk, IsChild;
    assert list[0] in list;
    if above in Walk(items, list[0], d) {
      WalkGoesDown(items, list[0], d, above, c);
    } else {
      WalkAllGoesDown(items, list[1..], d, above, c);
    }
  }

  /** An item is printed at a depth exactly when a trail of that length comes down to it. */
  lemma {:induction false} PrintedExactlyWhenReached(items: seq<Item>, k: nat, d: nat)
    requires Ends(items)
    ensures Visit(k, d) in PreOrder(items) <==> ReachedAt(items, k, d)
    decreases d
  {
    hide ReachedAt, Ends, WalkAll, RootsUpTo, IsChild, IsRoot;
    RootsAreAtTheMargin(items);
    var roots := RootsUpTo(items, |items|);
    if Visit(k, d) in PreOrder(items) {
      WalkAllReaches(items, roots, 0, Visit(k, d));
    }
    if ReachedAt(items, k, d) {
      ReachedIsBounded(items, k, d);
      if d == 0 {
        RootIsWalked(items, k);
      } else {
        var above := StepUp(items, k, d);
        PrintedExactlyWhenReached(items, above, d - 1);
        WalkAllGoesDown(items, roots, 0, Visit(above, d - 1), k);
      }
    }
  }

  lemma RootIsWalked(items: seq<Item>, k: nat)
    requires Ends(items) && k < |items| && ReachedAt(items, k, 0)
    ensures Visit(k, 0) in PreOrder(items)
  {
    hide ReachedAt, Ends, WalkAll, RootsUpTo, IsRoot;
    MarginIsReached(items, k);
    RootsInInputOrder(items, |items|);
    RootsAreAtTheMargin(items);
    assert Visit(k, 0) in Walk(items, k, 0);
    WalkAllHas(items, RootsUpTo(items, |items|), 0, k, Visit(k, 0));
  }

  // ---------------------------------------------------------------- once each

  /** Where ids differ, `j`, printed at depth `d`, is the ancestor under which `k` is printed at depth `e`. */
  ghost predicate IsUnder(items: seq<Item>, k: nat, e: nat, j: nat, d: nat) {
    AtDepth(items, k, e) && d <= e && Climb(items, k, e - d) == Some(j)
  }

  ghost predicate UnderOneOf(items: seq<Item>, k: nat, e: nat, list: seq<nat>, d: nat) {
    exists j <- list :: IsUnder(items, k, e, j, d)
  }

  /** Under `j` is `j` itself, or else what is under one of its children. */
  lemma StepUnder(items: seq<Item>, k: nat, e: nat, j: nat, d: nat)
    requires DistinctIds(items) && j < |items| && AtDepth(items, j, d)
    ensures var below := UnderOneOf(items, k, e, ChildrenOf(items, j), d + 1);
            && (IsUnder(items, k, e, j, d) <==> (k == j && e == d) || below)
            && !(k == j && e == d && below)
  {
    ChildrenInInputOrder(items, items[j].id, |items|);
    if AtDepth(items, k, e) {
      if e == d {
        assert Climb(items, k, 0) == Some(k);
      } else if d < e {
        var c := Climb(items, k, e - d - 1);
        if c.Some? {
          if IsRoot(items, c.value) {
            assert AtDepth(items, k, e - d - 1);
            DepthIsUnique(items, k, e - d - 1, e);
          } else {
            assert ParentOf(items, c.value) == j <==> IsChild(items, c.value, items[j].id);
            assert IsUnder(items, k, e, c.value, d + 1);
          }
        }
      }
    }
  }

  lemma {:induction false} WalkCounts(items: seq<Item>, j: nat, d: nat, visit: Visit)
    requires DistinctIds(items) && Ends(items) && ReachedAt(items, j, d)
    ensures multiset(Walk(items, j, d))[visit] == if IsUnder(items, visit.at, visit.depth, j, d) then 1 else 0
    decreases Room(items, d), 0
  {
    hide Climb, IsRoot, ChildrenUpTo, AllReached, DistinctIds, Ends, ReachedAt, IsUnder, UnderOneOf, Ascending,
         ChildrenOf, WalkAll, AtDepth;
    ReachedIsBounded(items, j, d);
    ReachedAlongTheChain(items, j, d);
    ChildrenAreDeeper(items, j, d);
    var list := ChildrenOf(items, j);
    WalkAllCounts(items, list, d + 1, visit);
    StepUnder(items, visit.at, visit.depth, j, d);
    var below := WalkAll(items, list, d + 1);
    assert multiset([Visit(j, d)] + below) == multiset{Visit(j, d)} + multiset(below);
  }

  lemma {:induction false} WalkAllCounts(items: seq<Item>, list: seq<nat>, d: nat, visit: Visit)
    requires DistinctIds(items) && Ends(items) && AllReached(items, list, d) && Ascending(list)
    ensures multiset(WalkAll(items, list, d))[visit]
         == if UnderOneOf(items, visit.at, visit.depth, list, d) then 1 else 0
    decreases Room(items, d), |list|
  {
    if list != [] {
      hide AtDepth, Climb, IsRoot, DistinctIds, Walk, Ends, ReachedAt;
      var first, rest := list[0], list[1..];
      assert first in list && list == [first] + rest;
      WalkCounts(items, first, d, visit);
      WalkAllCounts(items, rest, d, visit);
      assert first !in rest;
      if UnderOneOf(items, visit.at, visit.depth, rest, d) {
        var j :| j in rest && IsUnder(items, visit.at, visit.depth, j, d);
        assert j in list;
      }
    }
  }

  /**
   * Where ids differ, each item whose chain reaches a root is printed exactly once, as deep
   * as its chain is long; no other is.
   */
  lemma PrintedOnce(items: seq<Item>, visit: Visit)
    requires DistinctIds(items)
    ensures Ends(items)
    ensures multiset(PreOrder(items))[visit] == if AtDepth(items, visit.at, visit.depth) then 1 else 0
  {
    hide DistinctIds, Ends, ReachedAt, WalkAll, IsRoot;
    DistinctIdsEnd(items);
    RootsAreAtTheMargin(items);
    RootsInInputOrder(items, |items|);
    WalkAllCounts(items, RootsUpTo(items, |items|), 0, visit);
    if AtDepth(items, visit.at, visit.depth) {
      var root := Climb(items, visit.at, visit.depth).value;
      assert root in RootsUpTo(items, |items|) && IsUnder(items, visit.at, visit.depth, root, 0);
    } else {
      assert !UnderOneOf(items, visit.at, visit.depth, RootsUpTo(items, |items|), 0);
    }
  }

  /** What is left out altogether where ids differ: the items on a parent cycle or under one. */
  lemma LeftOutExactlyWhenCyclic(items: seq<Item>, k: nat)
    requires DistinctIds(items) && k < |items|
    ensures Ends(items)
    ensures (forall d: nat :: Visit(k, d) !in PreOrder(items)) <==> MeetsCycle(items, k)
  {
    hide DistinctIds, Ends, AtDepth, MeetsCycle, ReachedAt;
    DistinctIdsEnd(items);
    RootedOrCyclic(items, k);
    forall d: nat
      ensures Visit(k, d) in PreOrder(items) <==> AtDepth(items, k, d)
    {
      PrintedExactlyWhenReached(items, k, d);
      ReachedAlongTheChain(items, k, d);
    }
  }

  // ---------------------------------------------------------------- the stack loop

  /** A list put on the stack so that its first item comes off first. */
  function Reversed(list: seq<nat>, d: nat): (stack: seq<Visit>)
    ensures |stack| == |list|
    ensures forall i :: 0 <= i < |list| ==> stack[i] == Visit(list[|list| - 1 - i], d)
  {
    seq(|list|, i requires 0 <= i < |list| => Visit(list[|list| - 1 - i], d))
  }

  ghost predicate Sound(items: seq<Item>, stack: seq<Visit>) {
    forall visit <- stack :: ReachedAt(items, visit.at, visit.depth)
  }

  /** What the stack still stands for, from its top down. */
  ghost function Pending(items: seq<Item>, stack: seq<Visit>): seq<Visit>
    requires Ends(items) && Sound(items, stack)
  {
    if stack == [] then []
    else
      var top := stack[|stack| - 1];
      assert top in stack;
      Walk(items, top.at, top.depth) + Pending(items, stack[..|stack| - 1])
  }

  lemma PendingOfOneMore(items: seq<Item>, stack: seq<Visit>, k: nat, d: nat)
    requires Ends(items) && Sound(items, stack) && ReachedAt(items, k, d)
    ensures Sound(items, stack + [Visit(k, d)])
    ensures Pending(items, stack + [Visit(k, d)]) == Walk(items, k, d) + Pending(items, stack)
  {
    hide ReachedAt, Ends, Walk;
    assert (stack + [Visit(k, d)])[..|stack|] == stack;
  }

  lemma {:induction false} PendingOfPushed(items: seq<Item>, stack: seq<Visit>, list: seq<nat>, d: nat)
    requires Ends(items) && Sound(items, stack) && AllReached(items, list, d)
    ensures Sound(items, stack + Reversed(list, d))
    ensures Pending(items, stack + Reversed(list, d)) == WalkAll(items, list, d) + Pending(items, stack)
  {
    hide ReachedAt, Ends, Walk, Sound, Pending;
    if list == [] {
      assert stack + Reversed(list, d) == stack;
    } else {
      var first, rest := list[0], list[1..];
      assert first in list;
      PendingOfPushed(items, stack, rest, d);
      PendingOfOneMore(items, stack + Reversed(rest, d), first, d);
      assert stack + Reversed(list, d) == stack + Reversed(rest, d) + [Visit(first, d)];
    }
  }

  function ChildrenIn(children: map<string, seq<nat>>, id: string): seq<nat> {
    if id in children then children[id] else []
  }

  /** Sorts the items into those printed at the margin and those under a parent. */
  method Nest(items: seq<Item>) returns (top: seq<nat>, children: map<string, seq<nat>>)
    ensures top == RootsUpTo(items, |items|)
    ensures forall id :: ChildrenIn(children, id) == ChildrenUpTo(items, id, |items|)
  {
    var ids := set item <- items :: item.id;
    top, children := [], map[];
    var k := 0;
    while k < |items|
      invariant 0 <= k <= |items|
      invariant top == RootsUpTo(items, k)
      invariant forall id :: ChildrenIn(children, id) == ChildrenUpTo(items, id, k)
    {
      var item := items[k];
      assert item.parent.Some? ==> (item.parent.value in ids <==> Names(items, item.parent.value));
      if item.parent.Some? && item.parent.value != item.id && item.parent.value in ids {
        var parent := item.parent.value;
        assert ChildrenIn(children, parent) == ChildrenUpTo(items, parent, k);
        children := children[parent := ChildrenIn(children, parent) + [k]];
      } else {
        top := top + [k];
      }
      k := k + 1;
    }
  }

  lemma PendingOfTop(items: seq<Item>, stack: seq<Visit>)
    requires Ends(items) && Sound(items, stack) && stack != []
    ensures var visit, below := stack[|stack| - 1], stack[..|stack| - 1];
            && ReachedAt(items, visit.at, visit.depth) && Sound(items, below)
            && Pending(items, stack) == Walk(items, visit.at, visit.depth) + Pending(items, below)
  {
    hide ReachedAt, Ends, Walk;
    assert stack[|stack| - 1] in stack;
  }

  /** One round of the loop: the top item off, its children on. */
  ghost function Round(items: seq<Item>, stack: seq<Visit>): seq<Visit>
    requires stack != [] && stack[|stack| - 1].at < |items|
  {
    var visit := stack[|stack| - 1];
    stack[..|stack| - 1] + Reversed(ChildrenOf(items, visit.at), visit.depth + 1)
  }

  /** A round leaves all but the item it took off to come. */
  lemma PendingOfPopped(items: seq<Item>, stack: seq<Visit>)
    requires Ends(items) && Sound(items, stack) && stack != []
    ensures var visit := stack[|stack| - 1];
            && visit.at < |items| && Sound(items, Round(items, stack))
            && Pending(items, stack) == [visit] + Pending(items, Round(items, stack))
  {
    hide ReachedAt, Ends, WalkAll, ChildrenOf, AllReached, Reversed, Pending, Sound;
    var visit, below := stack[|stack| - 1], stack[..|stack| - 1];
    PendingOfTop(items, stack);
    ReachedIsBounded(items, visit.at, visit.depth);
    var under := ChildrenOf(items, visit.at);
    ChildrenAreDeeper(items, visit.at, visit.depth);
    assert Walk(items, visit.at, visit.depth) == [visit] + WalkAll(items, under, visit.depth + 1);
    PendingOfPushed(items, below, under, visit.depth + 1);
  }

  lemma PendingAtStart(items: seq<Item>)
    requires Ends(items)
    ensures Sound(items, []) && Pending(items, []) == []
    ensures var stack := Reversed(RootsUpTo(items, |items|), 0);
            Sound(items, stack) && Pending(items, stack) == PreOrder(items)
  {
    hide ReachedAt, Ends, WalkAll, RootsUpTo;
    var stack := Reversed(RootsUpTo(items, |items|), 0);
    RootsAreAtTheMargin(items);
    PendingOfPushed(items, [], RootsUpTo(items, |items|), 0);
    assert [] + stack == stack;
  }

  /** Puts an item's children, if it has any, on the stack. */
  method Extend(items: seq<Item>, stack: seq<Visit>, children: map<string, seq<nat>>, visit: Visit)
    returns (next: seq<Visit>)
    requires visit.at < |items| && ChildrenIn(children, items[visit.at].id) == ChildrenOf(items, visit.at)
    ensures next == Round(items, stack + [visit])
  {
    assert (stack + [visit])[..|stack|] == stack;
    next := stack;
    var id := items[visit.at].id;
    if id in children {
      next := next + Reversed(children[id], visit.depth + 1);
    } else {
      assert Reversed([], visit.depth + 1) == [];
    }
  }

  lemma ReversedIn(list: seq<nat>, d: nat, visit: Visit)
    requires visit in Reversed(list, d)
    ensures visit.at in list
  {
  }

  /** The stack before the loop's first round, and after each. */
  ghost function StackAfter(items: seq<Item>, rounds: nat): (stack: seq<Visit>)
    ensures forall visit <- stack :: visit.at < |items|
  {
    if rounds == 0 then FirstStack(items)
    else
      var before := StackAfter(items, rounds - 1);
      if before == [] then [] else NextStack(items, before)
  }

  ghost function FirstStack(items: seq<Item>): (stack: seq<Visit>)
    ensures stack == Reversed(RootsUpTo(items, |items|), 0)
    ensures forall visit <- stack :: visit.at < |items|
  {
    RootsInInputOrder(items, |items|);
    assert forall visit <- Reversed(RootsUpTo(items, |items|), 0) :: visit.at < |items| by {
      forall visit | visit in Reversed(RootsUpTo(items, |items|), 0)
        ensures visit.at < |items|
      {
        ReversedIn(RootsUpTo(items, |items|), 0, visit);
      }
    }
    Reversed(RootsUpTo(items, |items|), 0)
  }

  ghost function NextStack(items: seq<Item>, stack: seq<Visit>): (next: seq<Visit>)
    requires stack != [] && forall visit <- stack :: visit.at < |items|
    ensures next == Round(items, stack)
    ensures forall visit <- next :: visit.at < |items|
  {
    assert stack[|stack| - 1] in stack;
    assert forall visit <- Round(items, stack) :: visit.at < |items| by {
      RoundIsThere(items, stack);
    }
    Round(items, stack)
  }

  lemma RoundIsThere(items: seq<Item>, stack: seq<Visit>)
    requires stack != [] && forall visit <- stack :: visit.at < |items|
    ensures forall visit <- Round(items, stack) :: visit.at < |items|
  {
    var top := stack[|stack| - 1];
    assert top in stack;
    ChildrenInInputOrder(items, items[top.at].id, |items|);
    forall visit | visit in Round(items, stack)
      ensures visit.at < |items|
    {
      if visit !in stack {
        ReversedIn(ChildrenOf(items, top.at), top.depth + 1, visit);
      }
    }
  }

  /** The stack loop prints what the recursive walk would, wherever it ends. */
  method FormatChatProjection(items: seq<Item>) returns (out: seq<Visit>)
    requires Ends(items)
    ensures out == PreOrder(items)
    ensures StackAfter(items, |out|) == []
  {
    hide Ends, ChildrenUpTo, RootsUpTo, Sound, Pending, PreOrder, Reversed, ChildrenIn, Round;
    var top, children := Nest(items);
    out := [];
    var stack := Reversed(top, 0);
    PendingAtStart(items);
    while stack != []
      invariant Sound(items, stack) && stack == StackAfter(items, |out|)
      invariant out + Pending(items, stack) == PreOrder(items)
      decreases |Pending(items, stack)|
    {
      PendingOfPopped(items, stack);
      ghost var popped := stack;
      var visit := stack[|stack| - 1];
      out := out + [visit];
      stack := Extend(items, stack[..|stack| - 1], children, visit);
      assert popped[..|popped| - 1] + [visit] == popped;
      assert Pending(items, popped) == [visit] + Pending(items, stack);
    }
  }

  // ---------------------------------------------------------------- when the loop ends

  lemma {:induction false} RoundsPrint(items: seq<Item>, rounds: nat)
    requires Ends(items) && rounds <= |PreOrder(items)|
    ensures Sound(items, StackAfter(items, rounds))
    ensures |Pending(items, StackAfter(items, rounds))| == |PreOrder(items)| - rounds
  {
    hide Ends, PreOrder, Pending, Sound, Round, Reversed;
    if rounds == 0 {
      PendingAtStart(items);
    } else {
      RoundsPrint(items, rounds - 1);
      var before := StackAfter(items, rounds - 1);
      if before == [] {
        PendingAtStart(items);
      } else {
        PendingOfPopped(items, before);
      }
    }
  }

  lemma NothingPending(items: seq<Item>, stack: seq<Visit>)
    requires Ends(items) && Sound(items, stack) && |Pending(items, stack)| == 0
    ensures stack == []
  {
    hide Ends;
    if stack != [] {
      PendingOfPopped(items, stack);
    }
  }

  /** Some path down from the item comes to an item twice. */
  ghost predicate Endless(items: seq<Item>, k: nat) {
    exists p :: IsPath(items, p) && p != [] && p[0] == k && Repeats(p)
  }

  /** Once round the repeat and one step on: a path of its own, which repeats where it began. */
  lemma OnceRound(items: seq<Item>, p: seq<nat>, j: nat)
    requires IsPath(items, p) && 0 < j < |p| && p[j] == p[0]
    ensures var round := p[1..j + 1] + [p[1]];
            IsPath(items, round) && round[0] == p[1] && Repeats(round)
  {
    hide IsChild;
    var round := p[1..j + 1] + [p[1]];
    assert |round| == j + 1 && round[j] == p[1] && forall i :: 0 <= i < j ==> round[i] == p[i + 1];
    forall i | 0 < i < |round|
      ensures IsChild(items, round[i], items[round[i - 1]].id)
    {
      if i == j {
        assert round[i - 1] == p[j];
        assert IsChild(items, p[1], items[p[0]].id);
      } else {
        assert IsChild(items, p[i + 1], items[p[i]].id);
      }
    }
    assert round[0] == round[j];
  }

  lemma OneStepOn(items: seq<Item>, p: seq<nat>, i: nat, j: nat)
    requires IsPath(items, p) && 0 < i < j < |p| && p[i] == p[j]
    ensures IsPath(items, p[1..]) && Repeats(p[1..])
  {
    hide IsChild;
    var rest := p[1..];
    assert rest[i - 1] == rest[j - 1];
  }

  /** Below an endless item there is another. */
  lemma EndlessGoesOn(items: seq<Item>, k: nat) returns (c: nat)
    requires Endless(items, k)
    ensures k < |items| && IsChild(items, c, items[k].id) && Endless(items, c)
  {
    hide IsChild, IsRoot;
    var p :| IsPath(items, p) && p != [] && p[0] == k && Repeats(p);
    var i, j :| 0 <= i < j < |p| && p[i] == p[j];
    c := p[1];
    if i > 0 {
      OneStepOn(items, p, i, j);
    } else {
      OnceRound(items, p, j);
    }
  }

  ghost predicate HasEndless(items: seq<Item>, stack: seq<Visit>) {
    exists visit <- stack :: Endless(items, visit.at)
  }

  lemma RoundStaysEndless(items: seq<Item>, stack: seq<Visit>)
    requires HasEndless(items, stack) && stack != [] && stack[|stack| - 1].at < |items|
    ensures HasEndless(items, Round(items, stack))
  {
    hide Endless, IsChild;
    var visit :| visit in stack && Endless(items, visit.at);
    var top, below := stack[|stack| - 1], stack[..|stack| - 1];
    if visit in below {
      assert visit in Round(items, stack);
    } else {
      assert visit == top;
      var c := EndlessGoesOn(items, top.at);
      var list := ChildrenOf(items, top.at);
      ChildrenInInputOrder(items, items[top.at].id, |items|);
      ChildIsThere(items, c, items[top.at].id);
      var x :| 0 <= x < |list| && list[x] == c;
      assert Reversed(list, top.depth + 1)[|list| - 1 - x] == Visit(c, top.depth + 1);
      assert Visit(c, top.depth + 1) in Round(items, stack);
    }
  }

  lemma {:induction false} EndlessStays(items: seq<Item>, root: nat, rounds: nat)
    requires root < |items| && IsRoot(items, root) && Endless(items, root)
    ensures HasEndless(items, StackAfter(items, rounds))
  {
    hide Endless, IsRoot, Round;
    if rounds == 0 {
      var roots := RootsUpTo(items, |items|);
      RootsInInputOrder(items, |items|);
      var x :| 0 <= x < |roots| && roots[x] == root;
      assert Reversed(roots, 0)[|roots| - 1 - x] == Visit(root, 0);
    } else {
      EndlessStays(items, root, rounds - 1);
      RoundStaysEndless(items, StackAfter(items, rounds - 1));
    }
  }

  /**
   * For any items: the loop's stack runs empty exactly when nothing reached from the margin
   * is reached again below itself.
   */
  lemma LoopEndsExactlyWhen(items: seq<Item>)
    ensures (exists rounds: nat :: StackAfter(items, rounds) == []) <==> Ends(items)
  {
    hide Endless, PreOrder, Pending, Sound, StackAfter, Repeats, IsRoot;
    if Ends(items) {
      RoundsPrint(items, |PreOrder(items)|);
      NothingPending(items, StackAfter(items, |PreOrder(items)|));
    } else {
      var p :| IsTrail(items, p) && Repeats(p);
      TrailIsEndless(items, p);
      forall rounds: nat
        ensures StackAfter(items, rounds) != []
      {
        EndlessStays(items, p[0], rounds);
      }
    }
  }

  lemma TrailIsEndless(items: seq<Item>, p: seq<nat>)
    requires IsTrail(items, p) && Repeats(p)
    ensures Endless(items, p[0])
  {
  }

  /** With a repeated id it need not end: an `x` below a `y` below an `x`. */
  lemma RepeatedIdsMayNotEnd()
    ensures !Ends([Item("x", None), Item("y", Some("x")), Item("x", Some("y"))])
  {
    var items := [Item("x", None), Item("y", Some("x")), Item("x", Some("y"))];
    assert items[0].id == "x" && items[1].id == "y" && items[2].id == "x";
    assert Names(items, "x") && Names(items, "y");
    var p := [0, 1, 2, 1];
    assert IsChild(items, 1, "x") && IsChild(items, 2, "y");
    assert IsTrail(items, p);
    assert p[1] == p[3];
  }
}

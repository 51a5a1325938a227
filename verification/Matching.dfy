/** Maximum bipartite matching between elements (left) and matchers (right). */
module Matching {

  /** The value of a node that is not matched. */
  const UNUSED := -1

  type Pair = (nat, nat)

  /** Which element satisfies which matcher. */
  datatype MatchMatrix = MatchMatrix(lhs: nat, rhs: nat, edges: set<Pair>) {
    predicate HasEdge(l: nat, r: nat) {
      (l, r) in edges
    }
  }

  // ----- What a matching is, independently of the algorithm

  ghost predicate Disjoint(p: Pair, q: Pair) {
    p.0 != q.0 && p.1 != q.1
  }

  /** A set of edges of the graph no two of which share a node. */
  ghost predicate IsMatching(g: MatchMatrix, m: set<Pair>) {
    && (forall p <- m :: p.0 < g.lhs && p.1 < g.rhs && g.HasEdge(p.0, p.1))
    && (forall p <- m, q <- m :: p != q ==> Disjoint(p, q))
  }

  /** `f` gives every matcher an element of its own that satisfies it. */
  ghost predicate IsPairing(g: MatchMatrix, f: seq<nat>) {
    && |f| == g.rhs
    && (forall r :: 0 <= r < |f| ==> f[r] < g.lhs && g.HasEdge(f[r], r))
    && (forall r, s :: 0 <= r < s < |f| ==> f[r] != f[s])
  }

  ghost predicate HasPairing(g: MatchMatrix) {
    exists f: seq<nat> :: IsPairing(g, f)
  }

  /** The elements that satisfy at least one of the matchers in `w`. */
  ghost function Neighbours(g: MatchMatrix, w: set<nat>): set<nat> {
    set l: nat | l < g.lhs && Satisfies(g, l, w)
  }

  ghost predicate Satisfies(g: MatchMatrix, l: nat, w: set<nat>) {
    exists r :: r in w && g.HasEdge(l, r)
  }

  ghost predicate HallViolator(g: MatchMatrix, w: set<nat>) {
    (forall r <- w :: r < g.rhs) && |Neighbours(g, w)| < |w|
  }

  // ----- The state of the search, as two sequences

  /** Every used element of `left` is answered by `right`, along an edge. */
  ghost predicate LeftOk(g: MatchMatrix, left: seq<int>, right: seq<int>) {
    && |left| == g.lhs && |right| == g.rhs
    && (forall l :: 0 <= l < |left| ==> left[l] == UNUSED
                                        || (0 <= left[l] < g.rhs && right[left[l]] == l && g.HasEdge(l, left[l])))
  }

  /** Every used element of `right`, except possibly `stale`, is answered by `left`. */
  ghost predicate RightOk(g: MatchMatrix, left: seq<int>, right: seq<int>, stale: int) {
    && |left| == g.lhs && |right| == g.rhs
    && (forall r :: 0 <= r < |right| ==> right[r] == UNUSED || 0 <= right[r] < g.lhs)
    && (forall r :: 0 <= r < |right| && r != stale && right[r] != UNUSED ==> left[right[r]] == r)
  }

  /** Elements of `left` and `right` are unused or mutually referent. */
  ghost predicate MutuallyReferent(g: MatchMatrix, left: seq<int>, right: seq<int>) {
    LeftOk(g, left, right) && RightOk(g, left, right, UNUSED)
  }

  /** All matchers that element `l` satisfies lie in `s`. */
  ghost predicate Confined(g: MatchMatrix, l: nat, s: set<nat>) {
    forall r: nat :: r < g.rhs && g.HasEdge(l, r) ==> r in s
  }

  /** No augmenting path that enters `dead` can leave it again. */
  ghost predicate Trap(g: MatchMatrix, right: seq<int>, dead: set<nat>) {
    forall r <- dead :: r < |right| && 0 <= right[r] < g.lhs && Confined(g, right[r], dead)
  }

  /** Every element below `n` that is unmatched can only reach `dead`. */
  ghost predicate Exhausted(g: MatchMatrix, left: seq<int>, n: nat, dead: set<nat>) {
    forall l: nat :: l < n && l < |left| && left[l] == UNUSED ==> Confined(g, l, dead)
  }

  ghost function Marked(seen: seq<bool>): set<nat> {
    set r: nat | r < |seen| && seen[r]
  }

  ghost function Unmarked(seen: seq<bool>): set<nat> {
    set r: nat | r < |seen| && !seen[r]
  }

  /** Each matcher marked since `seen0` is taken, and its element leads only to marked ones. */
  ghost predicate NewlySeenTrapped(g: MatchMatrix, right: seq<int>, seen0: seq<bool>, seen: seq<bool>) {
    && |right| == |seen0| == |seen| == g.rhs
    && forall r :: 0 <= r < g.rhs && seen[r] && !seen0[r] ==>
                     0 <= right[r] < g.lhs && Confined(g, right[r], Marked(seen))
  }

  /** What a failed search from element `l` leaves behind. */
  ghost predicate DeadEnd(g: MatchMatrix, right: seq<int>, seen0: seq<bool>, seen: seq<bool>, l: nat) {
    NewlySeenTrapped(g, right, seen0, seen) && Confined(g, l, Marked(seen))
  }

  /**
   * What a successful search from element `l` does. Element `l` has moved to a matcher that was
   * not marked, so the matcher it had before still names it: the one stale entry of `right`.
   */
  ghost predicate Augmented(g: MatchMatrix, left0: seq<int>, right0: seq<int>, seen0: seq<bool>, l: nat,
                            left: seq<int>, right: seq<int>)
  {
    && |left0| == g.lhs && |right0| == |seen0| == g.rhs && l < g.lhs
    && LeftOk(g, left, right) && RightOk(g, left, right, left0[l])
    && left[l] != UNUSED && !seen0[left[l]]
    && (forall k :: 0 <= k < g.lhs && k != l ==> (left[k] == UNUSED <==> left0[k] == UNUSED))
    && (forall r :: 0 <= r < g.rhs && seen0[r] ==> right[r] == right0[r])
  }

  ghost function PairSet(left: seq<int>): set<Pair> {
    set l: nat | l < |left| && 0 <= left[l] :: (l, left[l] as nat)
  }

  // ----- The search itself

  class MaxBipartiteMatchState {
    const graph: MatchMatrix
    const left: array<int>
    const right: array<int>

    ghost predicate Valid()
      reads left, right
    {
      left != right && MutuallyReferent(graph, left[..], right[..])
    }

    constructor (g: MatchMatrix)
      ensures Valid() && graph == g && fresh(left) && fresh(right)
      ensures forall l :: 0 <= l < g.lhs ==> left[l] == UNUSED
    {
      graph := g;
      left := new int[g.lhs](_ => UNUSED);
      right := new int[g.rhs](_ => UNUSED);
    }

    /**
     * Looks for an augmenting path from element `ilhs`. `dead` is any trap of the
     * current matching: no path goes through it, so its partners never change.
     */
    method TryAugment(ilhs: nat, seen: array<bool>, ghost dead: set<nat>) returns (found: bool)
      requires Valid() && seen.Length == graph.rhs && ilhs < graph.lhs
      requires left[ilhs] != UNUSED ==> seen[left[ilhs]]
      requires Trap(graph, right[..], dead)
      modifies left, right, seen
      decreases Unmarked(seen[..])
      ensures forall r :: 0 <= r < graph.rhs && old(seen[r]) ==> seen[r]
      ensures Confined(graph, ilhs, dead) ==> !found
      ensures forall r <- dead :: right[r] == old(right[r])
      ensures !found ==> left[..] == old(left[..]) && right[..] == old(right[..])
      ensures !found ==> DeadEnd(graph, right[..], old(seen[..]), seen[..], ilhs)
      ensures found ==> Augmented(graph, old(left[..]), old(right[..]), old(seen[..]), ilhs, left[..], right[..])
    {
      ghost var left0, right0, seen0 := left[..], right[..], seen[..];
      for irhs := 0 to graph.rhs
        invariant left[..] == left0 && right[..] == right0
        invariant forall r :: 0 <= r < graph.rhs && seen0[r] ==> seen[r]
        invariant forall r: nat :: r < irhs && graph.HasEdge(ilhs, r) ==> seen[r]
        invariant NewlySeenTrapped(graph, right0, seen0, seen[..])
      {
        if seen[irhs] {
          continue;
        }
        if !graph.HasEdge(ilhs, irhs) {
          continue;
        }
        ghost var before := seen[..];
        seen[irhs] := true;
        ghost var after := seen[..];
        assert after == before[irhs := true];
        assert irhs !in Unmarked(after) && irhs in Unmarked(seen0);
        assert Unmarked(after) <= Unmarked(seen0);
        var ok := right[irhs] == UNUSED;
        if !ok {
          ok := TryAugment(right[irhs], seen, dead);
        }
        if ok {
          ghost var left1, right1 := left[..], right[..];
          left[ilhs] := irhs;
          right[irhs] := ilhs;
          assert left[..] == left1[ilhs := irhs] && right[..] == right1[irhs := ilhs];
          if right0[irhs] == UNUSED {
            AugmentedDirectly(graph, left0, right0, seen0, ilhs, irhs);
          } else {
            AugmentedThrough(graph, left0, right0, seen0, after, ilhs, irhs, left1, right1);
          }
          return true;
        }
        NewlySeenGrows(graph, right0, seen0, before, after, seen[..], irhs);
      }
      return false;
    }

    /** One pass over the elements gives a matching that no matching exceeds. */
    method Compute() returns (result: seq<Pair>, ghost dead: set<nat>)
      requires Valid() && forall l :: 0 <= l < graph.lhs ==> left[l] == UNUSED
      modifies left, right
      ensures Valid()
      ensures Trap(graph, right[..], dead) && Exhausted(graph, left[..], graph.lhs, dead)
      ensures forall i, j :: 0 <= i < j < |result| ==> result[i].0 < result[j].0
      ensures (set p <- result) == PairSet(left[..])
    {
      dead := {};
      for ilhs := 0 to graph.lhs
        invariant Valid()
        invariant forall l :: ilhs <= l < graph.lhs ==> left[l] == UNUSED
        invariant Trap(graph, right[..], dead) && Exhausted(graph, left[..], ilhs, dead)
      {
        var seen := new bool[graph.rhs](_ => false);
        ghost var left0, right0 := left[..], right[..];
        var found := TryAugment(ilhs, seen, dead);
        if !found {
          ghost var marked := Marked(seen[..]);
          TrapsUnite(graph, right[..], dead, marked);
          dead := dead + marked;
        }
      }
      result := [];
      for ilhs := 0 to left.Length
        invariant forall i :: 0 <= i < |result| ==> result[i].0 < ilhs
        invariant forall i, j :: 0 <= i < j < |result| ==> result[i].0 < result[j].0
        invariant (set p <- result) == PairSet(left[..ilhs])
      {
        var irhs := left[ilhs];
        assert left[..ilhs + 1] == left[..ilhs] + [irhs];
        if irhs == UNUSED {
          assert PairSet(left[..ilhs + 1]) == PairSet(left[..ilhs]);
          continue;
        }
        assert PairSet(left[..ilhs + 1]) == PairSet(left[..ilhs]) + {(ilhs, irhs)};
        result := result + [(ilhs, irhs)];
      }
      assert left[..] == left[..left.Length];
    }
  }

  lemma AugmentedDirectly(g: MatchMatrix, left: seq<int>, right: seq<int>, seen: seq<bool>, l: nat, r: nat)
    requires MutuallyReferent(g, left, right) && |seen| == g.rhs
    requires l < g.lhs && r < g.rhs && g.HasEdge(l, r) && right[r] == UNUSED && !seen[r]
    ensures Augmented(g, left, right, seen, l, left[l := r], right[r := l])
  {
  }

  /** The mutual reference broken by a deeper search is mended by the two writes after it. */
  lemma AugmentedThrough(g: MatchMatrix, left0: seq<int>, right0: seq<int>, seen0: seq<bool>, seen1: seq<bool>,
                         l: nat, r: nat, left1: seq<int>, right1: seq<int>)
    requires MutuallyReferent(g, left0, right0) && |seen0| == |seen1| == g.rhs
    requires l < g.lhs && r < g.rhs && g.HasEdge(l, r) && right0[r] != UNUSED && !seen0[r] && seen1[r]
    requires forall k :: 0 <= k < g.rhs && seen0[k] ==> seen1[k]
    requires left0[l] != UNUSED ==> seen0[left0[l]]
    requires Augmented(g, left0, right0, seen1, right0[r], left1, right1)
    ensures Augmented(g, left0, right0, seen0, l, left1[l := r], right1[r := l])
  {
    var l2 := right0[r];
    assert left0[l2] == r && right1[r] == l2 && left1[l2] != r && l != l2;
    if left0[l] != UNUSED {
      assert right1[left0[l]] == l;
    }
  }

  lemma NewlySeenGrows(g: MatchMatrix, right: seq<int>, seen0: seq<bool>, before: seq<bool>, after: seq<bool>,
                       seen: seq<bool>, r: nat)
    requires r < g.rhs && NewlySeenTrapped(g, right, seen0, before)
    requires after == before[r := true] && 0 <= right[r] < g.lhs
    requires forall k :: 0 <= k < g.rhs && after[k] ==> |seen| == g.rhs && seen[k]
    requires DeadEnd(g, right, after, seen, right[r])
    ensures NewlySeenTrapped(g, right, seen0, seen)
  {
    assert Marked(before) <= Marked(seen);
  }

  lemma TrapsUnite(g: MatchMatrix, right: seq<int>, a: set<nat>, b: set<nat>)
    requires Trap(g, right, a) && Trap(g, right, b)
    ensures Trap(g, right, a + b)
  {
  }

  // ----- Why the final state is the best possible

  lemma {:induction false} InjectionBound<A, B>(f: map<A, B>, b: set<B>)
    requires f.Values <= b
    requires forall x <- f, y <- f :: x != y ==> f[x] != f[y]
    ensures |f| <= |b|
    decreases |f|
  {
    if f.Keys != {} {
      var x :| x in f;
      var rest := f - {x};
      assert rest.Keys == f.Keys - {x};
      assert f[x] in f.Values;
      forall v | v in rest.Values ensures v in b - {f[x]} {
        var y :| y in rest && rest[y] == v;
        assert y in f && f[y] in f.Values;
      }
      InjectionBound(rest, b - {f[x]});
    }
  }

  ghost function Used(left: seq<int>): set<nat> {
    set l: nat | l < |left| && left[l] != UNUSED
  }

  /** The elements whose matcher is outside `dead`. */
  ghost function Free(left: seq<int>, dead: set<nat>): set<nat> {
    set l: nat | l < |left| && left[l] != UNUSED && left[l] !in dead
  }

  lemma UsedCountsPairs(left: seq<int>)
    requires forall l :: 0 <= l < |left| ==> left[l] >= UNUSED
    ensures |PairSet(left)| == |Used(left)|
  {
    var there := map l | l in Used(left) :: (l, left[l] as nat);
    var back := map p: Pair | p in PairSet(left) :: p.0;
    InjectionBound(there, PairSet(left));
    assert there.Keys == Used(left) && back.Keys == PairSet(left);
    InjectionBound(back, Used(left));
  }

  /** The free elements and the trap cover every edge, one node for each matched pair. */
  lemma Covered(g: MatchMatrix, left: seq<int>, right: seq<int>, dead: set<nat>, l: nat, r: nat)
    requires MutuallyReferent(g, left, right)
    requires Trap(g, right, dead) && Exhausted(g, left, g.lhs, dead)
    requires l < g.lhs && r < g.rhs && g.HasEdge(l, r)
    ensures r in dead || l in Free(left, dead)
  {
  }

  lemma MaximumMatching(g: MatchMatrix, left: seq<int>, right: seq<int>, dead: set<nat>, m: set<Pair>)
    requires MutuallyReferent(g, left, right)
    requires Trap(g, right, dead) && Exhausted(g, left, g.lhs, dead)
    requires IsMatching(g, m)
    ensures |m| <= |PairSet(left)|
  {
    var f: map<Pair, nat> := map p: Pair | p in m :: if p.1 in dead then right[p.1] as nat else p.0;
    forall p | p in m ensures f[p] in Used(left) {
      Covered(g, left, right, dead, p.0, p.1);
    }
    forall p, q | p in m && q in m && p != q ensures f[p] != f[q] {
      Covered(g, left, right, dead, p.0, p.1);
      Covered(g, left, right, dead, q.0, q.1);
      assert Disjoint(p, q);
    }
    assert f.Keys == m;
    InjectionBound(f, Used(left));
    UsedCountsPairs(left);
  }

  lemma PairSetIsMatching(g: MatchMatrix, left: seq<int>, right: seq<int>)
    requires MutuallyReferent(g, left, right)
    ensures IsMatching(g, PairSet(left))
  {
  }

  /** When some matcher stays unmatched, the matchers outside the trap have too few elements. */
  lemma TrapGivesHallViolator(g: MatchMatrix, left: seq<int>, right: seq<int>, dead: set<nat>, w: set<nat>)
    requires MutuallyReferent(g, left, right)
    requires Trap(g, right, dead) && Exhausted(g, left, g.lhs, dead)
    requires |PairSet(left)| < g.rhs
    requires w == Below(g.rhs) - dead
    ensures HallViolator(g, w)
  {
    var free := Free(left, dead);
    forall l | l in Neighbours(g, w) ensures l in free {
      var r :| r in w && g.HasEdge(l, r);
      Covered(g, left, right, dead, l, r);
    }
    SubsetSize(Neighbours(g, w), free);
    TrapPartners(g, left, right, dead);
    assert Below(g.rhs) == w + dead;
  }

  /** Free elements and elements matched into the trap are all the used ones. */
  lemma TrapPartners(g: MatchMatrix, left: seq<int>, right: seq<int>, dead: set<nat>)
    requires MutuallyReferent(g, left, right) && Trap(g, right, dead)
    ensures |Free(left, dead)| + |dead| <= |PairSet(left)|
  {
    var free, used := Free(left, dead), Used(left);
    var partner := map r | r in dead :: right[r] as nat;
    assert partner.Keys == dead;
    InjectionBound(partner, used - free);
    assert used == free + (used - free);
    UsedCountsPairs(left);
  }

  lemma {:induction false} SubsetSize<T>(a: set<T>, b: set<T>)
    requires a <= b
    ensures |a| <= |b|
  {
    assert b == a + (b - a);
  }

  ghost function Below(n: nat): (s: set<nat>)
    ensures forall k: nat :: k in s <==> k < n
    ensures |s| == n
  {
    if n == 0 then {} else Below(n - 1) + {n - 1}
  }

  /** The easy half of Hall's theorem: a violator rules every pairing out. */
  lemma HallViolatorRefutesPairing(g: MatchMatrix, w: set<nat>, f: seq<nat>)
    requires HallViolator(g, w)
    ensures !IsPairing(g, f)
  {
    if IsPairing(g, f) {
      var m := map r | r in w :: f[r];
      assert m.Keys == w;
      forall l | l in m.Values ensures l in Neighbours(g, w) {
        var r :| r in w && f[r] == l;
        assert g.HasEdge(l, r);
      }
      InjectionBound(m, Neighbours(g, w));
    }
  }

  lemma SubsetOfSameSize<T>(a: set<T>, b: set<T>)
    requires a <= b && |a| >= |b|
    ensures a == b
  {
    assert b == a + (b - a);
  }

  ghost function AsNats(s: seq<int>): (t: seq<nat>)
    requires forall i :: 0 <= i < |s| ==> s[i] >= 0
    ensures |t| == |s| && forall i :: 0 <= i < |s| ==> t[i] == s[i]
  {
    if s == [] then [] else AsNats(s[..|s| - 1]) + [s[|s| - 1]]
  }

  /** The pairing read off a matching that uses every matcher. */
  lemma FullMatchingIsPairing(g: MatchMatrix, left: seq<int>, right: seq<int>) returns (f: seq<nat>)
    requires MutuallyReferent(g, left, right)
    requires |PairSet(left)| == g.rhs
    ensures IsPairing(g, f)
  {
    UsedCountsPairs(left);
    var m := map l | l in Used(left) :: left[l] as nat;
    var matched := set r: nat | r < g.rhs && right[r] != UNUSED;
    assert m.Keys == Used(left);
    InjectionBound(m, matched);
    var all := Below(g.rhs);
    SubsetOfSameSize(matched, all);
    forall i | 0 <= i < |right| ensures right[i] >= 0 {
      assert i in all && i in matched;
    }
    f := AsNats(right);
  }

  // ----- The functions built on the search

  method FindMaxBipartiteMatching(g: MatchMatrix) returns (result: seq<Pair>, ghost w: set<nat>)
    ensures IsMatching(g, set p <- result)
    ensures forall m :: IsMatching(g, m) ==> |m| <= |result|
    ensures forall i, j :: 0 <= i < j < |result| ==> result[i].0 < result[j].0
    ensures if |result| < g.rhs then HallViolator(g, w) else HasPairing(g)
  {
    var state := new MaxBipartiteMatchState(g);
    ghost var dead;
    result, dead := state.Compute();
    ghost var left, right := state.left[..], state.right[..];
    PairSetIsMatching(g, left, right);
    NoRepeats(result);
    forall m | IsMatching(g, m) ensures |m| <= |result| {
      MaximumMatching(g, left, right, dead, m);
    }
    w := Below(g.rhs) - dead;
    if |result| < g.rhs {
      TrapGivesHallViolator(g, left, right, dead, w);
    } else {
      MatchingFits(g, set p <- result);
      ghost var f := FullMatchingIsPairing(g, left, right);
    }
  }

  lemma {:induction false} NoRepeats<T>(s: seq<T>)
    requires forall i, j :: 0 <= i < j < |s| ==> s[i] != s[j]
    ensures |(set x <- s)| == |s|
  {
    if s != [] {
      var n := |s| - 1;
      NoRepeats(s[..n]);
      assert (set x <- s) == (set x <- s[..n]) + {s[n]} by {
        assert s == s[..n] + [s[n]];
      }
    }
  }

  lemma MatchingFits(g: MatchMatrix, m: set<Pair>)
    requires IsMatching(g, m)
    ensures |m| <= g.rhs
  {
    var f := map p: Pair | p in m :: p.1;
    assert f.Keys == m;
    forall p, q | p in m && q in m && p != q ensures f[p] != f[q] {
      assert Disjoint(p, q);
    }
    InjectionBound(f, Below(g.rhs));
  }

  /** True exactly when every matcher can be given an element of its own. */
  method FindPairing(g: MatchMatrix) returns (result: bool, ghost w: set<nat>)
    ensures result <==> HasPairing(g)
    ensures !result ==> HallViolator(g, w)
  {
    var matches;
    matches, w := FindMaxBipartiteMatching(g);
    result := |matches| == g.rhs;
    if !result {
      MatchingFits(g, set p <- matches);
      NoRepeats(matches);
      forall f: seq<nat> ensures !IsPairing(g, f) {
        HallViolatorRefutesPairing(g, w, f);
      }
    }
  }

  ghost predicate ElementHasMatcher(g: MatchMatrix, l: nat) {
    exists r: nat :: r < g.rhs && g.HasEdge(l, r)
  }

  ghost predicate MatcherHasElement(g: MatchMatrix, r: nat) {
    exists l: nat :: l < g.lhs && g.HasEdge(l, r)
  }

  /** The quick check done before the search: no node of the graph is isolated. */
  method VerifyAllElementsAndMatchersAreMatched(g: MatchMatrix) returns (result: bool)
    ensures result <==> (forall l: nat :: l < g.lhs ==> ElementHasMatcher(g, l))
                        && (forall r: nat :: r < g.rhs ==> MatcherHasElement(g, r))
  {
    var elementMatched := new bool[g.lhs](_ => false);
    var matcherMatched := new bool[g.rhs](_ => false);
    for ilhs := 0 to g.lhs
      invariant forall l :: 0 <= l < ilhs ==> (elementMatched[l] <==> ElementHasMatcher(g, l))
      invariant forall l :: ilhs <= l < g.lhs ==> !elementMatched[l]
      invariant forall r: nat :: r < g.rhs ==>
                                   (matcherMatched[r] <==> exists l: nat :: l < ilhs && g.HasEdge(l, r))
    {
      for irhs := 0 to g.rhs
        invariant forall l :: 0 <= l < ilhs ==> (elementMatched[l] <==> ElementHasMatcher(g, l))
        invariant elementMatched[ilhs] <==> exists r: nat :: r < irhs && g.HasEdge(ilhs, r)
        invariant forall l :: ilhs < l < g.lhs ==> !elementMatched[l]
        invariant forall r: nat :: irhs <= r < g.rhs ==>
                                     (matcherMatched[r] <==> exists l: nat :: l < ilhs && g.HasEdge(l, r))
        invariant forall r: nat :: r < irhs ==>
                                     (matcherMatched[r] <==> exists l: nat :: l <= ilhs && g.HasEdge(l, r))
      {
        var matched := g.HasEdge(ilhs, irhs);
        elementMatched[ilhs] := elementMatched[ilhs] || matched;
        matcherMatched[irhs] := matcherMatched[irhs] || matched;
      }
    }
    assert forall r: nat :: r < g.rhs ==> (matcherMatched[r] <==> MatcherHasElement(g, r));
    result := true;
    for mi := 0 to g.rhs
      invariant result <==> forall r: nat :: r < mi ==> MatcherHasElement(g, r)
    {
      if matcherMatched[mi] {
        continue;
      }
      result := false;
    }
    ghost var matchersOk := result;
    for ei := 0 to g.lhs
      invariant result <==> matchersOk && forall l: nat :: l < ei ==> ElementHasMatcher(g, l)
    {
      if elementMatched[ei] {
        continue;
      }
      result := false;
    }
  }

  /** In a square graph an isolated node rules every pairing out, so the quick check loses nothing. */
  lemma IsolatedNodeRefutesPairing(g: MatchMatrix, f: seq<nat>)
    requires g.lhs == g.rhs && IsPairing(g, f)
    ensures forall l: nat :: l < g.lhs ==> ElementHasMatcher(g, l)
    ensures forall r: nat :: r < g.rhs ==> MatcherHasElement(g, r)
  {
    forall r: nat | r < g.rhs ensures MatcherHasElement(g, r) {
      assert g.HasEdge(f[r], r);
    }
    forall l: nat | l < g.lhs ensures ElementHasMatcher(g, l) {
      SquarePairingIsOnto(g, f, l);
      var r :| 0 <= r < |f| && f[r] == l;
      assert g.HasEdge(l, r);
    }
  }

  lemma SquarePairingIsOnto(g: MatchMatrix, f: seq<nat>, l: nat)
    requires g.lhs == g.rhs && IsPairing(g, f) && l < g.lhs
    ensures l in f
  {
    NoRepeats(f);
    SubsetOfSameSize((set x <- f), Below(g.lhs));
    assert l in Below(g.lhs);
  }

  /** What the matcher of unordered elements answers: equally many of both, and a pairing. */
  method MatchElements(g: MatchMatrix) returns (result: bool)
    ensures result <==> g.lhs == g.rhs && HasPairing(g)
  {
    if g.lhs == 0 && g.rhs == 0 {
      assert IsPairing(g, []);
      return true;
    }
    if g.lhs != g.rhs {
      return false;
    }
    result := VerifyAllElementsAndMatchersAreMatched(g);
    if !result {
      forall f: seq<nat> ensures !IsPairing(g, f) {
        if IsPairing(g, f) {
          IsolatedNodeRefutesPairing(g, f);
        }
      }
      return;
    }
    ghost var w;
    result, w := FindPairing(g);
  }
}

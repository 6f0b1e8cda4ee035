/** The in-place search of gmock's `MaxBipartiteMatchState`, and the two checks built on it. */
module MaxBipartiteMatch {
  import opened BipartiteGraph

  ghost predicate PairOf(f: Flow, e: (int, int)) {
    0 <= e.0 < |f.left| && f.left[e.0] != UNUSED && e.1 == f.left[e.0]
  }

  /** Every right node marked during a failed search is matched, and its partner's edges all lead to
      marked nodes. */
  ghost predicate Explored(g: MatchMatrix, f: Flow, before: seq<bool>, now: seq<bool>)
    requires Shape(g, f) && |before| == |now| == g.rhs
  {
    forall r :: 0 <= r < g.rhs && now[r] && !before[r] ==>
      f.right[r] != UNUSED && EdgesSeen(g, f.right[r], g.rhs, now)
  }

  ghost predicate EdgesSeen(g: MatchMatrix, l: int, upTo: int, seen: seq<bool>)
    requires |seen| == g.rhs
  {
    forall r :: 0 <= r < upTo && g.HasEdge(l, r) ==> seen[r]
  }

  ghost function Unseen(seen: seq<bool>): set<int> {
    set r | 0 <= r < |seen| && !seen[r]
  }

  ghost function SeenSet(seen: seq<bool>): set<int> {
    set r | 0 <= r < |seen| && seen[r]
  }

  class MaxBipartiteMatchState {
    const graph: MatchMatrix
    const left: array<int>
    const right: array<int>

    ghost function View(): Flow
      reads left, right
    {
      Flow(left[..], right[..])
    }

    ghost predicate Valid()
      reads left, right
    {
      left != right && Consistent(graph, View())
    }

    constructor (g: MatchMatrix)
      ensures graph == g && Valid() && fresh(left) && fresh(right)
      ensures MatchedLeft(View()) == {}
    {
      graph := g;
      left := new int[g.lhs](_ => UNUSED);
      right := new int[g.rhs](_ => UNUSED);
    }

    /** Depth-first search from `ilhs` for a way to the sink. On success the two arrays become exactly
        the old flow flipped along `path`, which uses only right nodes not marked before. */
    method TryAugment(ilhs: int, seen: array<bool>) returns (found: bool, ghost path: seq<int>)
      requires Valid() && 0 <= ilhs < graph.lhs && seen.Length == graph.rhs
      requires left[ilhs] != UNUSED ==> seen[left[ilhs]]
      modifies left, right, seen
      ensures Shape(graph, old(View()))
      ensures forall r :: 0 <= r < graph.rhs && old(seen[r]) ==> seen[r]
      ensures !found ==> View() == old(View())
      ensures !found ==> Explored(graph, View(), old(seen[..]), seen[..])
      ensures !found ==> EdgesSeen(graph, ilhs, graph.rhs, seen[..])
      ensures found ==> Augmenting(graph, old(View()), ilhs, path) && Distinct(path)
      ensures found ==> forall r :: r in path ==> 0 <= r < graph.rhs && !old(seen[r])
      ensures found ==> View() == Flip(graph, old(View()), ilhs, path)
      ensures (forall r :: 0 <= r < graph.rhs ==> !old(seen[r])) ==>
                (found <==> HasAugmentingPath(graph, old(View()), ilhs))
      decreases Unseen(seen[..])
    {
      hide Explored, Augmenting, Flip, Distinct, HasAugmentingPath;
      path := [];
      ghost var f := View();
      ghost var start := seen[..];
      NothingExplored(graph, f, start);
      var irhs := 0;
      while irhs < graph.rhs
        invariant 0 <= irhs <= graph.rhs
        invariant View() == f
        invariant forall r :: 0 <= r < graph.rhs && start[r] ==> seen[r]
        invariant Explored(graph, f, start, seen[..])
        invariant EdgesSeen(graph, ilhs, irhs, seen[..])
      {
        if seen[irhs] || !graph.HasEdge(ilhs, irhs) {
          irhs := irhs + 1;
          continue;
        }
        ghost var before := seen[..];
        seen[irhs] := true;
        assert seen[..] == before[irhs := true];
        assert irhs in Unseen(start) && irhs !in Unseen(seen[..]);
        var reached := right[irhs] == UNUSED;
        ghost var rest := [];
        if !reached {
          reached, rest := TryAugment(right[irhs], seen);
        }
        if reached {
          left[ilhs] := irhs;
          right[irhs] := ilhs;
          path := [irhs] + rest;
          PathGrows(graph, f, ilhs, irhs, rest);
          return true, path;
        }
        ExploredMore(graph, f, start, before, irhs, seen[..]);
        irhs := irhs + 1;
      }
      found := false;
      if forall r :: 0 <= r < graph.rhs ==> !start[r] {
        assert start == seq(graph.rhs, _ => false);
        FailedSearchIsFinal(graph, f, ilhs, seen[..]);
      }
    }

    /** Tries every left node once, then lists the edges that carry flow. */
    method Compute() returns (result: seq<(int, int)>)
      requires Valid() && MatchedLeft(View()) == {}
      modifies left, right
      ensures Valid()
      ensures IsMatching(graph, Elements(result)) && Distinct(result)
      ensures forall m :: IsMatching(graph, m) ==> |m| <= |result|
    {
      ghost var dead: set<int> := {};
      FreshIsSettled(graph, View());
      var ilhs := 0;
      while ilhs < graph.lhs
        invariant 0 <= ilhs <= graph.lhs
        invariant left != right && Settled(graph, View(), dead, ilhs)
      {
        assert left[ilhs] == UNUSED;  // the source's own check
        var seen := new bool[graph.rhs](_ => false);
        assert seen[..] == seq(graph.rhs, _ => false);
        ghost var f := View();
        var found, path := TryAugment(ilhs, seen);
        if found {
          SuccessKeepsSettled(graph, f, dead, ilhs, path);
        } else {
          FailureKeepsSettled(graph, f, dead, ilhs, seen[..]);
          dead := dead + SeenSet(seen[..]);
        }
        ilhs := ilhs + 1;
      }
      result := CollectPairs();
      forall m | IsMatching(graph, m) ensures |m| <= |result| {
        StuckIsMaximum(graph, View(), dead, m);
      }
    }

    method CollectPairs() returns (result: seq<(int, int)>)
      requires Valid()
      ensures IsMatching(graph, Elements(result)) && Distinct(result)
      ensures |result| == |MatchedLeft(View())|
      ensures forall e :: e in result <==> PairOf(View(), e)
    {
      result := [];
      var ilhs := 0;
      while ilhs < graph.lhs
        invariant 0 <= ilhs <= graph.lhs
        invariant forall e :: e in result <==> e.0 < ilhs && PairOf(View(), e)
        invariant Distinct(result)
        invariant |result| == |MatchedBelow(View(), ilhs)|
      {
        var irhs := left[ilhs];
        MatchedBelowStep(View(), ilhs);
        if irhs != UNUSED {
          result := result + [(ilhs, irhs)];
        }
        ilhs := ilhs + 1;
      }
      assert MatchedBelow(View(), graph.lhs) == MatchedLeft(View());
    }
  }

  /** An edge in front of a way to the sink, or to the sink itself. */
  lemma PathGrows(g: MatchMatrix, f: Flow, u: int, r: int, rest: seq<int>)
    requires Shape(g, f) && 0 <= u < g.lhs && 0 <= r < g.rhs && g.HasEdge(u, r)
    requires if f.right[r] == UNUSED then rest == []
             else Augmenting(g, f, f.right[r], rest) && Distinct(rest) && r !in rest
    ensures var p := [r] + rest;
            && Augmenting(g, f, u, p) && Distinct(p) && HasAugmentingPath(g, f, u)
            && var h := if f.right[r] == UNUSED then f else Flip(g, f, f.right[r], rest);
               Flip(g, f, u, p) == Flow(h.left[u := r], h.right[r := u])
  {
    assert ([r] + rest)[1..] == rest;
    assert Augmenting(g, f, u, [r] + rest);
  }

  lemma NothingExplored(g: MatchMatrix, f: Flow, seen: seq<bool>)
    requires Shape(g, f) && |seen| == g.rhs
    ensures Explored(g, f, seen, seen)
  {
  }

  /** A right node whose partner was searched in vain joins what has been explored. */
  lemma ExploredMore(g: MatchMatrix, f: Flow, start: seq<bool>, before: seq<bool>, r: int, now: seq<bool>)
    requires Shape(g, f) && 0 <= r < g.rhs == |start| == |before| == |now|
    requires Explored(g, f, start, before) && f.right[r] != UNUSED
    requires Explored(g, f, before[r := true], now) && EdgesSeen(g, f.right[r], g.rhs, now)
    requires forall k :: 0 <= k < g.rhs && before[k] ==> now[k]
    ensures Explored(g, f, start, now)
  {
    forall k | 0 <= k < g.rhs && now[k] && !start[k]
      ensures f.right[k] != UNUSED && EdgesSeen(g, f.right[k], g.rhs, now)
    {
      if before[k] {
        assert EdgesSeen(g, f.right[k], g.rhs, before);
      }
    }
  }

  /** The state of `Compute` after `n` left nodes: the others are still free, and every node that was
      tried in vain leads only into the dead region. */
  ghost predicate Settled(g: MatchMatrix, f: Flow, dead: set<int>, n: int) {
    && Consistent(g, f)
    && Closed(g, f, dead)
    && (forall l :: n <= l < g.lhs && 0 <= l ==> f.left[l] == UNUSED)
    && (forall l :: 0 <= l < n && l < g.lhs && f.left[l] == UNUSED ==> Trapped(g, l, dead))
  }

  lemma FreshIsSettled(g: MatchMatrix, f: Flow)
    requires Consistent(g, f) && MatchedLeft(f) == {}
    ensures Settled(g, f, {}, 0)
  {
    forall l | 0 <= l < g.lhs ensures f.left[l] == UNUSED {
      assert l !in MatchedLeft(f);
    }
  }

  lemma SuccessKeepsSettled(g: MatchMatrix, f: Flow, dead: set<int>, n: int, p: seq<int>)
    requires 0 <= n < g.lhs && Settled(g, f, dead, n) && Augmenting(g, f, n, p) && Distinct(p)
    ensures Settled(g, Flip(g, f, n, p), dead, n + 1)
  {
    FlipKeepsClosed(g, f, dead, n, p);
    FlipShifts(g, f, n, p);
  }

  lemma FailureKeepsSettled(g: MatchMatrix, f: Flow, dead: set<int>, n: int, seen: seq<bool>)
    requires 0 <= n < g.lhs && Settled(g, f, dead, n) && |seen| == g.rhs
    requires Explored(g, f, seq(g.rhs, _ => false), seen) && EdgesSeen(g, n, g.rhs, seen)
    ensures Settled(g, f, dead + SeenSet(seen), n + 1)
  {
    FailedSearchGrowsDead(g, f, dead, n, seen);
  }

  ghost function MatchedBelow(f: Flow, n: int): set<int> {
    set l | 0 <= l < |f.left| && l < n && f.left[l] != UNUSED
  }

  lemma MatchedBelowStep(f: Flow, n: int)
    requires 0 <= n < |f.left|
    ensures |MatchedBelow(f, n + 1)| == |MatchedBelow(f, n)| + if f.left[n] != UNUSED then 1 else 0
  {
    if f.left[n] != UNUSED {
      assert MatchedBelow(f, n + 1) == MatchedBelow(f, n) + {n};
    } else {
      assert MatchedBelow(f, n + 1) == MatchedBelow(f, n);
    }
  }

  /** What a failed search has marked is a dead region. */
  lemma FailedSearchGrowsDead(g: MatchMatrix, f: Flow, dead: set<int>, u: int, seen: seq<bool>)
    requires Shape(g, f) && Closed(g, f, dead) && |seen| == g.rhs
    requires Explored(g, f, seq(g.rhs, _ => false), seen) && EdgesSeen(g, u, g.rhs, seen)
    ensures Closed(g, f, dead + SeenSet(seen)) && Trapped(g, u, dead + SeenSet(seen))
    ensures forall l :: Trapped(g, l, dead) ==> Trapped(g, l, dead + SeenSet(seen))
  {
    var w := dead + SeenSet(seen);
    forall r | r in w ensures f.right[r] != UNUSED && Trapped(g, f.right[r], w) {
      assert r in dead || EdgesSeen(g, f.right[r], g.rhs, seen);
    }
  }

  lemma FailedSearchIsFinal(g: MatchMatrix, f: Flow, u: int, seen: seq<bool>)
    requires Shape(g, f) && |seen| == g.rhs
    requires Explored(g, f, seq(g.rhs, _ => false), seen) && EdgesSeen(g, u, g.rhs, seen)
    ensures !HasAugmentingPath(g, f, u)
  {
    FailedSearchGrowsDead(g, f, {}, u, seen);
    forall p ensures !Augmenting(g, f, u, p) {
      TrappedHasNoPath(g, f, {} + SeenSet(seen), u, p);
    }
  }

  method FindMaxBipartiteMatching(g: MatchMatrix) returns (pairs: seq<(int, int)>)
    ensures IsMatching(g, Elements(pairs)) && Distinct(pairs)
    ensures forall m :: IsMatching(g, m) ==> |m| <= |pairs|
  {
    var state := new MaxBipartiteMatchState(g);
    pairs := state.Compute();
  }

  /** True exactly when all matchers can be satisfied at the same time by elements of their own. */
  method FindPairing(g: MatchMatrix) returns (result: bool)
    ensures result <==> Pairable(g)
  {
    var matches := FindMaxBipartiteMatching(g);
    result := |matches| == g.rhs;
    DistinctSize(matches);
    FullMatchingIffPairable(g, Elements(matches));
  }

  ghost predicate RowHit(g: MatchMatrix, l: int, upTo: int) {
    exists r :: 0 <= r < upTo && g.HasEdge(l, r)
  }

  ghost predicate ColumnHit(g: MatchMatrix, r: int, upTo: int) {
    exists l :: 0 <= l < upTo && g.HasEdge(l, r)
  }

  /** The quick test run before the pairing: is any element or any matcher without a counterpart? */
  method VerifyAllElementsAndMatchersAreMatched(g: MatchMatrix) returns (result: bool)
    ensures result <==> (forall l :: 0 <= l < g.lhs ==> RowHit(g, l, g.rhs)) &&
                        (forall r :: 0 <= r < g.rhs ==> ColumnHit(g, r, g.lhs))
    ensures !result && g.lhs == g.rhs ==> !Pairable(g)
  {
    var elementMatched := new bool[g.lhs](_ => false);
    var matcherMatched := new bool[g.rhs](_ => false);
    var ilhs := 0;
    while ilhs < g.lhs
      invariant 0 <= ilhs <= g.lhs
      invariant forall l :: 0 <= l < g.lhs ==> (elementMatched[l] <==> l < ilhs && RowHit(g, l, g.rhs))
      invariant forall r :: 0 <= r < g.rhs ==> (matcherMatched[r] <==> ColumnHit(g, r, ilhs))
    {
      var irhs := 0;
      while irhs < g.rhs
        invariant 0 <= irhs <= g.rhs
        invariant forall l :: 0 <= l < g.lhs && l != ilhs ==>
                    (elementMatched[l] <==> l < ilhs && RowHit(g, l, g.rhs))
        invariant elementMatched[ilhs] <==> RowHit(g, ilhs, irhs)
        invariant forall r :: 0 <= r < g.rhs ==>
                    (matcherMatched[r] <==> ColumnHit(g, r, if r < irhs then ilhs + 1 else ilhs))
      {
        var matched := g.HasEdge(ilhs, irhs);
        elementMatched[ilhs] := elementMatched[ilhs] || matched;
        matcherMatched[irhs] := matcherMatched[irhs] || matched;
        irhs := irhs + 1;
      }
      ilhs := ilhs + 1;
    }
    result := true;
    var mi := 0;
    while mi < g.rhs
      invariant 0 <= mi <= g.rhs
      invariant result <==> forall r :: 0 <= r < mi ==> ColumnHit(g, r, g.lhs)
    {
      if !matcherMatched[mi] {
        result := false;
      }
      mi := mi + 1;
    }
    var ei := 0;
    while ei < g.lhs
      invariant 0 <= ei <= g.lhs
      invariant result <==> (forall r :: 0 <= r < g.rhs ==> ColumnHit(g, r, g.lhs)) &&
                            (forall l :: 0 <= l < ei ==> RowHit(g, l, g.rhs))
    {
      if !elementMatched[ei] {
        result := false;
      }
      ei := ei + 1;
    }
    if g.lhs == g.rhs && Pairable(g) {
      PairableHitsAll(g);
    }
  }

  /** The quick test rejects no square matrix that has a pairing. */
  lemma PairableHitsAll(g: MatchMatrix)
    requires Pairable(g) && g.lhs == g.rhs
    ensures forall l :: 0 <= l < g.lhs ==> RowHit(g, l, g.rhs)
    ensures forall r :: 0 <= r < g.rhs ==> ColumnHit(g, r, g.lhs)
  {
    var a :| Pairs(g, a);
    forall l | 0 <= l < g.lhs ensures RowHit(g, l, g.rhs) {
      PairingCoversElements(g, a, l);
      var r :| 0 <= r < |a| && a[r] == l;
      assert g.HasEdge(l, r);
    }
    forall r | 0 <= r < g.rhs ensures ColumnHit(g, r, g.lhs) {
      assert g.HasEdge(a[r], r);
    }
  }
}

/** Maximum bipartite matching, as gmock's UnorderedElementsAre uses it.

    The left side is the elements, the right side the matchers. The flow is held in two arrays,
    `left` and `right`; an augmentation is a walk in the residual graph, written as the sequence of
    right nodes it visits, and `Flip` is what one successful search does to the two arrays. */
module BipartiteGraph {

  const UNUSED: int := -1

  /** The boolean matrix of which matcher accepts which element. */
  datatype MatchMatrix = MatchMatrix(lhs: nat, rhs: nat, edges: set<(int, int)>) {
    predicate HasEdge(l: int, r: int) {
      0 <= l < lhs && 0 <= r < rhs && (l, r) in edges
    }
  }

  datatype Flow = Flow(left: seq<int>, right: seq<int>)

  ghost predicate Shape(g: MatchMatrix, f: Flow) {
    && |f.left| == g.lhs && |f.right| == g.rhs
    && (forall l :: 0 <= l < g.lhs ==> f.left[l] == UNUSED || 0 <= f.left[l] < g.rhs)
    && (forall r :: 0 <= r < g.rhs ==> f.right[r] == UNUSED || 0 <= f.right[r] < g.lhs)
  }

  /** The two vectors are mutual inverses, along edges of the graph. */
  ghost predicate Consistent(g: MatchMatrix, f: Flow) {
    && Shape(g, f)
    && (forall l :: 0 <= l < g.lhs && f.left[l] != UNUSED ==>
          f.right[f.left[l]] == l && g.HasEdge(l, f.left[l]))
    && (forall r :: 0 <= r < g.rhs && f.right[r] != UNUSED ==> f.left[f.right[r]] == r)
  }

  /** `p` leads from left node `u` to the sink: its right nodes alternate unmatched and matched
      edges and only the last of them is free. */
  ghost predicate Augmenting(g: MatchMatrix, f: Flow, u: int, p: seq<int>)
    requires Shape(g, f)
    decreases |p|
  {
    && |p| > 0
    && g.HasEdge(u, p[0])
    && if |p| == 1 then f.right[p[0]] == UNUSED
       else f.right[p[0]] != UNUSED && Augmenting(g, f, f.right[p[0]], p[1..])
  }

  ghost predicate HasAugmentingPath(g: MatchMatrix, f: Flow, u: int)
    requires Shape(g, f)
  {
    exists p :: Augmenting(g, f, u, p)
  }

  ghost predicate Distinct<T>(p: seq<T>) {
    forall i, j :: 0 <= i < j < |p| ==> p[i] != p[j]
  }

  /** The flow after pushing one unit along `p`, last segment first. */
  ghost function Flip(g: MatchMatrix, f: Flow, u: int, p: seq<int>): (h: Flow)
    requires Shape(g, f) && Augmenting(g, f, u, p)
    ensures |h.left| == g.lhs && |h.right| == g.rhs
    decreases |p|
  {
    var h := if |p| == 1 then f else Flip(g, f, f.right[p[0]], p[1..]);
    Flow(h.left[u := p[0]], h.right[p[0] := u])
  }

  /** What one (possibly nested) augmentation changes. The old partner of `u` still points at `u`:
      that entry is only overwritten by the caller. */
  ghost predicate Shifted(g: MatchMatrix, f: Flow, u: int, p: seq<int>, h: Flow)
    requires Shape(g, f) && |p| > 0 && 0 <= u < g.lhs
  {
    Shape(g, h) && Moved(g, f, u, p, h) && InverseBut(g, f, u, h)
  }

  /** Which entries change, and which nodes become matched. */
  ghost predicate Moved(g: MatchMatrix, f: Flow, u: int, p: seq<int>, h: Flow)
    requires Shape(g, f) && Shape(g, h) && |p| > 0 && 0 <= u < g.lhs
  {
    && h.left[u] == p[0]
    && (forall l :: 0 <= l < g.lhs && l != u && (f.left[l] == UNUSED || f.left[l] !in p) ==> h.left[l] == f.left[l])
    && (forall r :: 0 <= r < g.rhs && r !in p ==> h.right[r] == f.right[r])
    && (forall l :: 0 <= l < g.lhs && l != u ==> (h.left[l] == UNUSED <==> f.left[l] == UNUSED))
    && (forall r :: 0 <= r < g.rhs ==>
          (h.right[r] == UNUSED <==> f.right[r] == UNUSED && r != p[|p| - 1]))
  }

  /** The inverse property, except for the old partner of `u`. */
  ghost predicate InverseBut(g: MatchMatrix, f: Flow, u: int, h: Flow)
    requires Shape(g, f) && Shape(g, h) && 0 <= u < g.lhs
  {
    && (forall l :: 0 <= l < g.lhs && h.left[l] != UNUSED ==>
          h.right[h.left[l]] == l && g.HasEdge(l, h.left[l]))
    && (forall r :: 0 <= r < g.rhs && h.right[r] != UNUSED ==>
          h.left[h.right[r]] == r || (r == f.left[u] && h.right[r] == u))
  }

  lemma {:induction false} FlipShifts(g: MatchMatrix, f: Flow, u: int, p: seq<int>)
    requires Consistent(g, f) && Augmenting(g, f, u, p) && Distinct(p)
    requires f.left[u] == UNUSED || f.left[u] !in p
    ensures Shifted(g, f, u, p, Flip(g, f, u, p))
    decreases |p|
  {
    if |p| > 1 {
      var v := f.right[p[0]];
      FlipShifts(g, f, v, p[1..]);
      var h := Flip(g, f, v, p[1..]);
      hide Shifted, Flip;
      ShiftsOneMore(g, f, u, p, h);
      FlipUnfolds(g, f, u, p);
    } else {
      assert p == [p[0]];
    }
  }

  lemma FlipUnfolds(g: MatchMatrix, f: Flow, u: int, p: seq<int>)
    requires Shape(g, f) && Augmenting(g, f, u, p) && |p| > 1
    ensures var h := Flip(g, f, f.right[p[0]], p[1..]);
            Flip(g, f, u, p) == Flow(h.left[u := p[0]], h.right[p[0] := u])
  {
  }

  /** An edge in front of a shifted path. */
  lemma ShiftsOneMore(g: MatchMatrix, f: Flow, u: int, p: seq<int>, h: Flow)
    requires Consistent(g, f) && Augmenting(g, f, u, p) && Distinct(p) && |p| > 1
    requires f.left[u] == UNUSED || f.left[u] !in p
    requires Shifted(g, f, f.right[p[0]], p[1..], h)
    ensures Shifted(g, f, u, p, Flow(h.left[u := p[0]], h.right[p[0] := u]))
  {
    hide Flip, Shifted;
    var v := f.right[p[0]];
    assert 0 <= p[0] < g.rhs && g.HasEdge(u, p[0]) && v != UNUSED && f.left[v] == p[0] && v != u;
    assert p[0] !in p[1..] && g.HasEdge(v, p[1..][0]) && p[1..][0] == p[1];
    assert Shape(g, h) && Moved(g, f, v, p[1..], h) && InverseBut(g, f, v, h) by { ShiftedParts(g, f, v, p[1..], h); }
    var k := Flow(h.left[u := p[0]], h.right[p[0] := u]);
    hide Consistent, Augmenting, Distinct;
    MovedOneMore(g, f, u, p, h, k);
    InverseOneMore(g, f, u, p, h, k);
    ShiftedParts(g, f, u, p, k);
  }

  lemma ShiftedParts(g: MatchMatrix, f: Flow, u: int, p: seq<int>, h: Flow)
    requires Shape(g, f) && |p| > 0 && 0 <= u < g.lhs
    ensures Shifted(g, f, u, p, h) <==> Shape(g, h) && Moved(g, f, u, p, h) && InverseBut(g, f, u, h)
  {
  }

  lemma MovedOneMore(g: MatchMatrix, f: Flow, u: int, p: seq<int>, h: Flow, k: Flow)
    requires Shape(g, f) && Shape(g, h) && |p| > 1 && 0 <= u < g.lhs && 0 <= p[0] < g.rhs && p[0] !in p[1..]
    requires f.right[p[0]] != UNUSED && f.left[f.right[p[0]]] == p[0] && f.right[p[0]] != u
    requires f.left[u] == UNUSED || f.left[u] !in p
    requires Moved(g, f, f.right[p[0]], p[1..], h) && k == Flow(h.left[u := p[0]], h.right[p[0] := u])
    requires p[1] != UNUSED
    ensures Shape(g, k) && Moved(g, f, u, p, k)
  {
    assert p == [p[0]] + p[1..];
    assert p[1..][|p| - 2] == p[|p| - 1];
  }

  lemma InverseOneMore(g: MatchMatrix, f: Flow, u: int, p: seq<int>, h: Flow, k: Flow)
    requires Shape(g, f) && Shape(g, h) && |p| > 1 && 0 <= u < g.lhs && 0 <= p[0] < g.rhs && p[0] !in p[1..]
    requires f.right[p[0]] != UNUSED && f.left[f.right[p[0]]] == p[0] && f.right[p[0]] != u && g.HasEdge(u, p[0])
    requires f.left[u] == UNUSED || f.left[u] !in p
    requires Moved(g, f, f.right[p[0]], p[1..], h) && InverseBut(g, f, f.right[p[0]], h)
    requires k == Flow(h.left[u := p[0]], h.right[p[0] := u])
    ensures Shape(g, k) && InverseBut(g, f, u, k)
  {
    assert h.right[p[0]] == f.right[p[0]] && h.left[u] == f.left[u];
  }

  /** An augmentation from a free left node restores the inverse property. */
  lemma AugmentationIsConsistent(g: MatchMatrix, f: Flow, u: int, p: seq<int>)
    requires Consistent(g, f) && Augmenting(g, f, u, p) && Distinct(p) && f.left[u] == UNUSED
    ensures Consistent(g, Flip(g, f, u, p))
  {
    FlipShifts(g, f, u, p);
  }

  /** It matches exactly its start and one more right node, and never unmatches any node. */
  lemma AugmentationAddsOne(g: MatchMatrix, f: Flow, u: int, p: seq<int>)
    requires Consistent(g, f) && Augmenting(g, f, u, p) && Distinct(p) && f.left[u] == UNUSED
    ensures MatchedLeft(Flip(g, f, u, p)) == MatchedLeft(f) + {u}
    ensures MatchedRight(Flip(g, f, u, p)) == MatchedRight(f) + {p[|p| - 1]}
    ensures u !in MatchedLeft(f) && p[|p| - 1] !in MatchedRight(f)
  {
    FlipShifts(g, f, u, p);
    LastIsFree(g, f, u, p);
    var h := Flip(g, f, u, p);
    assert p[0] != UNUSED && 0 <= u < g.lhs && Shape(g, f);
    hide Consistent, Augmenting, Flip, Distinct, Shifted, Shape;
    ShiftAddsLeft(g, f, u, p, h);
    ShiftAddsRight(g, f, u, p, h);
  }

  lemma ShiftAddsLeft(g: MatchMatrix, f: Flow, u: int, p: seq<int>, h: Flow)
    requires Shape(g, f) && |p| > 0 && 0 <= u < g.lhs && Shifted(g, f, u, p, h) && f.left[u] == UNUSED
    requires p[0] != UNUSED
    ensures MatchedLeft(h) == MatchedLeft(f) + {u} && u !in MatchedLeft(f)
  {
    forall l ensures l in MatchedLeft(h) <==> l in MatchedLeft(f) + {u} { }
  }

  lemma ShiftAddsRight(g: MatchMatrix, f: Flow, u: int, p: seq<int>, h: Flow)
    requires Shape(g, f) && |p| > 0 && 0 <= u < g.lhs && Shifted(g, f, u, p, h)
    requires 0 <= p[|p| - 1] < g.rhs && f.right[p[|p| - 1]] == UNUSED
    ensures MatchedRight(h) == MatchedRight(f) + {p[|p| - 1]} && p[|p| - 1] !in MatchedRight(f)
  {
    forall r ensures r in MatchedRight(h) <==> r in MatchedRight(f) + {p[|p| - 1]} { }
  }

  lemma {:induction false} LastIsFree(g: MatchMatrix, f: Flow, u: int, p: seq<int>)
    requires Shape(g, f) && Augmenting(g, f, u, p)
    ensures 0 <= p[|p| - 1] < g.rhs && f.right[p[|p| - 1]] == UNUSED
    decreases |p|
  {
    if |p| > 1 {
      LastIsFree(g, f, f.right[p[0]], p[1..]);
    }
  }

  ghost function MatchedLeft(f: Flow): set<int> {
    set l | 0 <= l < |f.left| && f.left[l] != UNUSED
  }

  ghost function MatchedRight(f: Flow): set<int> {
    set r | 0 <= r < |f.right| && f.right[r] != UNUSED
  }

  // ----- dead ends --------------------------------------------------------------------------

  /** `w` is a set of matched right nodes that no residual edge leaves. */
  ghost predicate Closed(g: MatchMatrix, f: Flow, w: set<int>)
    requires Shape(g, f)
  {
    forall r :: r in w ==> 0 <= r < g.rhs && f.right[r] != UNUSED && Trapped(g, f.right[r], w)
  }

  /** Every edge of left node `l` leads into `w`. */
  ghost predicate Trapped(g: MatchMatrix, l: int, w: set<int>) {
    forall r :: g.HasEdge(l, r) ==> r in w
  }

  lemma {:induction false} TrappedHasNoPath(g: MatchMatrix, f: Flow, w: set<int>, u: int, p: seq<int>)
    requires Shape(g, f) && Closed(g, f, w) && Trapped(g, u, w)
    ensures !Augmenting(g, f, u, p)
    decreases |p|
  {
    if Augmenting(g, f, u, p) && |p| > 1 {
      TrappedHasNoPath(g, f, w, f.right[p[0]], p[1..]);
    }
  }

  lemma {:induction false} PathAvoidsClosed(g: MatchMatrix, f: Flow, w: set<int>, u: int, p: seq<int>)
    requires Shape(g, f) && Closed(g, f, w) && Augmenting(g, f, u, p)
    ensures forall r :: r in p ==> r !in w
    decreases |p|
  {
    if p[0] in w && |p| > 1 {
      TrappedHasNoPath(g, f, w, f.right[p[0]], p[1..]);
    }
    if |p| > 1 {
      PathAvoidsClosed(g, f, w, f.right[p[0]], p[1..]);
      assert forall r :: r in p ==> r == p[0] || r in p[1..];
    }
  }

  /** A dead region stays dead: no augmentation can enter it. */
  lemma FlipKeepsClosed(g: MatchMatrix, f: Flow, w: set<int>, u: int, p: seq<int>)
    requires Consistent(g, f) && Closed(g, f, w)
    requires Augmenting(g, f, u, p) && Distinct(p) && f.left[u] == UNUSED
    ensures Consistent(g, Flip(g, f, u, p)) && Closed(g, Flip(g, f, u, p), w)
  {
    PathAvoidsClosed(g, f, w, u, p);
    FlipShifts(g, f, u, p);
    AugmentationIsConsistent(g, f, u, p);
  }

  // ----- one visit per left node is enough ----------------------------------------------------

  /** A walk in the residual graph, which may stop anywhere. */
  ghost predicate Walk(g: MatchMatrix, f: Flow, u: int, q: seq<int>)
    requires Shape(g, f)
    decreases |q|
  {
    && |q| > 0
    && g.HasEdge(u, q[0])
    && (|q| > 1 ==> f.right[q[0]] != UNUSED && Walk(g, f, f.right[q[0]], q[1..]))
  }

  lemma {:induction false} WalkToFreeAugments(g: MatchMatrix, f: Flow, u: int, q: seq<int>)
    requires Shape(g, f) && Walk(g, f, u, q)
    ensures 0 <= q[|q| - 1] < g.rhs
    ensures f.right[q[|q| - 1]] == UNUSED ==> Augmenting(g, f, u, q)
    decreases |q|
  {
    if |q| > 1 {
      WalkToFreeAugments(g, f, f.right[q[0]], q[1..]);
    }
  }

  lemma {:induction false} WalkExtends(g: MatchMatrix, f: Flow, u: int, q: seq<int>, r: int)
    requires Shape(g, f) && Walk(g, f, u, q)
    requires 0 <= q[|q| - 1] < g.rhs && f.right[q[|q| - 1]] != UNUSED
    requires g.HasEdge(f.right[q[|q| - 1]], r)
    ensures Walk(g, f, u, q + [r])
    decreases |q|
  {
    if |q| > 1 {
      WalkExtends(g, f, f.right[q[0]], q[1..], r);
      assert (q + [r])[1..] == q[1..] + [r];
    } else {
      assert (q + [r])[1..] == [r];
    }
  }

  ghost predicate Reached(g: MatchMatrix, f: Flow, u: int, r: int)
    requires Shape(g, f)
  {
    exists q :: Walk(g, f, u, q) && q[|q| - 1] == r
  }

  /** When no augmenting path starts at `u`, what `u` can reach is a dead region around it. */
  lemma NoPathLeavesClosed(g: MatchMatrix, f: Flow, u: int) returns (w: set<int>)
    requires Shape(g, f) && !HasAugmentingPath(g, f, u)
    ensures Closed(g, f, w) && Trapped(g, u, w)
  {
    w := set r | 0 <= r < g.rhs && Reached(g, f, u, r);
    forall r | r in w
      ensures f.right[r] != UNUSED && Trapped(g, f.right[r], w)
    {
      var q :| Walk(g, f, u, q) && q[|q| - 1] == r;
      WalkToFreeAugments(g, f, u, q);
      forall s | g.HasEdge(f.right[r], s) ensures s in w {
        WalkExtends(g, f, u, q, s);
        assert (q + [s])[|q + [s]| - 1] == s;
      }
    }
    forall r | g.HasEdge(u, r) ensures r in w {
      assert Walk(g, f, u, [r]) && [r][|[r]| - 1] == r;
    }
  }

  /** One augmentation of a run: where it starts and the right nodes it visits. */
  datatype Push = Push(start: int, path: seq<int>)

  ghost predicate CanPush(g: MatchMatrix, f: Flow, a: Push) {
    && Consistent(g, f) && Augmenting(g, f, a.start, a.path) && Distinct(a.path)
    && f.left[a.start] == UNUSED
  }

  ghost predicate ValidRun(g: MatchMatrix, f: Flow, run: seq<Push>)
    decreases |run|
  {
    run != [] ==> CanPush(g, f, run[0]) && ValidRun(g, Flip(g, f, run[0].start, run[0].path), run[1..])
  }

  ghost function After(g: MatchMatrix, f: Flow, run: seq<Push>): Flow
    requires ValidRun(g, f, run)
    decreases |run|
  {
    if run == [] then f else After(g, Flip(g, f, run[0].start, run[0].path), run[1..])
  }

  lemma {:induction false} RunKeepsClosed(g: MatchMatrix, f: Flow, w: set<int>, run: seq<Push>)
    requires Consistent(g, f) && Closed(g, f, w) && ValidRun(g, f, run)
    ensures Consistent(g, After(g, f, run)) && Closed(g, After(g, f, run), w)
    decreases |run|
  {
    if run != [] {
      FlipKeepsClosed(g, f, w, run[0].start, run[0].path);
      RunKeepsClosed(g, Flip(g, f, run[0].start, run[0].path), w, run[1..]);
    }
  }

  /** A left node from which the search fails once can never be matched later, whatever is pushed
      in between. */
  lemma OneVisitIsEnough(g: MatchMatrix, f: Flow, u: int, run: seq<Push>)
    requires Consistent(g, f) && !HasAugmentingPath(g, f, u) && ValidRun(g, f, run)
    ensures Shape(g, After(g, f, run)) && !HasAugmentingPath(g, After(g, f, run), u)
  {
    var w := NoPathLeavesClosed(g, f, u);
    RunKeepsClosed(g, f, w, run);
    forall p ensures !Augmenting(g, After(g, f, run), u, p) {
      TrappedHasNoPath(g, After(g, f, run), w, u, p);
    }
  }

  // ----- maximality -----------------------------------------------------------------------------

  /** A matching: edges of the graph no two of which share a node. */
  ghost predicate IsMatching(g: MatchMatrix, m: set<(int, int)>) {
    && (forall e :: e in m ==> g.HasEdge(e.0, e.1))
    && (forall e, e' :: e in m && e' in m && (e.0 == e'.0 || e.1 == e'.1) ==> e == e')
  }

  /** No left node without a partner can reach the sink. */
  ghost predicate Stuck(g: MatchMatrix, f: Flow, w: set<int>)
    requires Shape(g, f)
  {
    Closed(g, f, w) && forall l :: 0 <= l < g.lhs && f.left[l] == UNUSED ==> Trapped(g, l, w)
  }

  /** The matched left node that pays for edge `e` of another matching: the matched left nodes
      outside the dead region, with the dead right nodes, cover every edge. */
  ghost function Payer(f: Flow, w: set<int>, e: (int, int)): int {
    if e.1 in w && 0 <= e.1 < |f.right| then f.right[e.1] else e.0
  }

  lemma StuckIsMaximum(g: MatchMatrix, f: Flow, w: set<int>, m: set<(int, int)>)
    requires Consistent(g, f) && Stuck(g, f, w) && IsMatching(g, m)
    ensures |m| <= |MatchedLeft(f)|
  {
    forall e | e in m ensures Payer(f, w, e) in MatchedLeft(f) {
      if e.1 !in w {
        assert g.HasEdge(e.0, e.1);
      }
    }
    forall e, e' | e in m && e' in m && Payer(f, w, e) == Payer(f, w, e') ensures e == e' {
      PayersDiffer(g, f, w, m, e, e');
    }
    InjectionBounds(m, MatchedLeft(f), e => Payer(f, w, e));
  }

  lemma PayersDiffer(g: MatchMatrix, f: Flow, w: set<int>, m: set<(int, int)>, e: (int, int), e': (int, int))
    requires Consistent(g, f) && Stuck(g, f, w) && IsMatching(g, m)
    requires e in m && e' in m && Payer(f, w, e) == Payer(f, w, e')
    ensures e == e'
  {
    assert g.HasEdge(e.0, e.1) && g.HasEdge(e'.0, e'.1);
    if e.1 in w && e'.1 in w {
      assert f.left[f.right[e.1]] == e.1 && f.left[f.right[e'.1]] == e'.1;
    }
  }

  lemma {:induction false} InjectionBounds<A, B>(a: set<A>, b: set<B>, pick: A -> B)
    requires forall x :: x in a ==> pick(x) in b
    requires forall x, y :: x in a && y in a && pick(x) == pick(y) ==> x == y
    ensures |a| <= |b|
    decreases a
  {
    if a != {} {
      var x :| x in a;
      InjectionBounds(a - {x}, b - {pick(x)}, pick);
    }
  }

  /** An assignment of every matcher to an element of its own that it accepts. */
  ghost predicate Pairs(g: MatchMatrix, a: seq<int>) {
    |a| == g.rhs && Distinct(a) && forall r :: 0 <= r < |a| ==> g.HasEdge(a[r], r)
  }

  ghost function Elements<T>(s: seq<T>): set<T> {
    set x | x in s
  }

  lemma {:induction false} DistinctSize<T>(s: seq<T>)
    requires Distinct(s)
    ensures |Elements(s)| == |s|
    decreases |s|
  {
    if s != [] {
      DistinctSize(s[1..]);
      assert Elements(s) == {s[0]} + Elements(s[1..]);
    }
  }

  ghost function AssignmentEdges(a: seq<int>): seq<(int, int)> {
    seq(|a|, r requires 0 <= r < |a| => (a[r], r))
  }

  lemma AssignmentIsMatching(g: MatchMatrix, a: seq<int>)
    requires Pairs(g, a)
    ensures IsMatching(g, Elements(AssignmentEdges(a))) && |Elements(AssignmentEdges(a))| == g.rhs
  {
    DistinctSize(AssignmentEdges(a));
  }

  ghost function Range(n: nat): (s: set<int>)
    ensures forall i :: i in s <==> 0 <= i < n
    ensures |s| == n
  {
    if n == 0 then {} else Range(n - 1) + {n - 1}
  }

  lemma {:induction false} SubsetOfSameSize<T>(a: set<T>, b: set<T>)
    requires a <= b && |a| == |b|
    ensures a == b
    decreases a
  {
    if x :| x in a {
      SubsetOfSameSize(a - {x}, b - {x});
    }
  }

  /** With as many elements as matchers, a pairing uses up every element. */
  lemma PairingCoversElements(g: MatchMatrix, a: seq<int>, l: int)
    requires Pairs(g, a) && g.lhs == g.rhs && 0 <= l < g.lhs
    ensures l in a
  {
    DistinctSize(a);
    assert forall r :: 0 <= r < |a| ==> g.HasEdge(a[r], r);
    SubsetOfSameSize(Elements(a), Range(g.lhs));
    assert l in Elements(a);
  }

  lemma MatchingFitsRight(g: MatchMatrix, m: set<(int, int)>)
    requires IsMatching(g, m)
    ensures |m| <= g.rhs
  {
    forall e | e in m ensures e.1 in Range(g.rhs) {
      assert g.HasEdge(e.0, e.1);
    }
    InjectionBounds(m, Range(g.rhs), (e: (int, int)) => e.1);
  }

  lemma FullMatchingCovers(g: MatchMatrix, m: set<(int, int)>, r: int)
    requires IsMatching(g, m) && |m| == g.rhs && 0 <= r < g.rhs
    ensures exists l :: (l, r) in m
  {
    if forall l :: (l, r) !in m {
      forall e | e in m ensures e.1 in Range(g.rhs) - {r} {
        assert g.HasEdge(e.0, e.1) && e == (e.0, e.1);
      }
      InjectionBounds(m, Range(g.rhs) - {r}, (e: (int, int)) => e.1);
    }
  }

  ghost predicate Pairable(g: MatchMatrix) {
    exists a :: Pairs(g, a)
  }

  /** All matchers can be served at once exactly when some matching has an edge per matcher. */
  lemma FullMatchingIffPairable(g: MatchMatrix, m: set<(int, int)>)
    requires IsMatching(g, m) && forall m' :: IsMatching(g, m') ==> |m'| <= |m|
    ensures |m| == g.rhs <==> Pairable(g)
  {
    MatchingFitsRight(g, m);
    if a :| Pairs(g, a) {
      AssignmentIsMatching(g, a);
    }
    if |m| == g.rhs {
      var a := Served(g, m, g.rhs);
      assert Pairs(g, a);
    }
  }

  lemma {:induction false} Served(g: MatchMatrix, m: set<(int, int)>, n: nat) returns (a: seq<int>)
    requires IsMatching(g, m) && |m| == g.rhs && n <= g.rhs
    ensures |a| == n && Distinct(a) && forall r :: 0 <= r < n ==> (a[r], r) in m && g.HasEdge(a[r], r)
    decreases n
  {
    a := [];
    if n > 0 {
      a := Served(g, m, n - 1);
      FullMatchingCovers(g, m, n - 1);
      var l :| (l, n - 1) in m;
      forall r | 0 <= r < n - 1 ensures a[r] != l {
        assert (a[r], r) in m;
      }
      assert g.HasEdge((l, n - 1).0, (l, n - 1).1);
      a := a + [l];
    }
  }
}

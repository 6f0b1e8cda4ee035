/** How far gtest's edit scripts are from shortest: exactly the cells where adding and removing tie below
    replacing go wrong. */
module EditDistance {
  import opened EditScript

  /** More elements than this and the surcharges of the replacements may add up to a whole edit. */
  const LIMIT: nat := 190000

  /** Rounding as good as that of IEEE doubles: whole numbers stay, and below 2^18 a sum is off by at
      most half a unit in the last place, 2^-36. */
  ghost predicate Near(round: Rounding) {
    && ExactUpTo(round, LIMIT)
    && forall x: real :: 0.0 <= x <= 262144.0 ==> -0.00000000003 <= round(x) - x <= 0.00000000003
  }

  function Edits(es: seq<Edit>): nat {
    if es == [] then 0 else Edits(es[..|es| - 1]) + if es[|es| - 1] == Match then 0 else 1
  }

  /** No script that does the same work has fewer edits. */
  ghost predicate Shortest<T>(left: seq<T>, right: seq<T>, es: seq<Edit>) {
    Turns(left, right, es) && forall other :: Turns(left, right, other) ==> Edits(es) <= Edits(other)
  }

  function Cost<T(==)>(left: seq<T>, right: seq<T>, i: nat, j: nat, round: Rounding): real
    requires i <= |left| && j <= |right|
  {
    Entry(left, right, i, j, round).cost
  }

  /** The cells on which the choice of move goes wrong: adding and removing cost the same, so neither is
      chosen, although replacing takes a whole edit more. */
  ghost predicate Tied<T>(left: seq<T>, right: seq<T>, i: nat, j: nat, round: Rounding)
    requires 0 < i <= |left| && 0 < j <= |right|
  {
    var add, remove := Cost(left, right, i, j - 1, round), Cost(left, right, i - 1, j, round);
    && left[i - 1] != right[j - 1]
    && add == remove
    && add.Floor < Cost(left, right, i - 1, j - 1, round).Floor
  }

  ghost predicate NoTies<T>(left: seq<T>, right: seq<T>, i: nat, j: nat, round: Rounding)
    requires i <= |left| && j <= |right|
  {
    forall a: nat, b: nat :: 0 < a <= i && 0 < b <= j ==> !Tied(left, right, a, b, round)
  }

  // ----- counting -----------------------------------------------------------------------------------------

  function Replaces(es: seq<Edit>): nat {
    if es == [] then 0 else Replaces(es[..|es| - 1]) + if es[|es| - 1] == Replace then 1 else 0
  }

  /** A script of `n` edits with `k` replacements costs `n` and `k` surcharges, but for the rounding; it
      costs exactly `n` if there are none. */
  ghost predicate Priced(n: nat, k: nat, x: real) {
    var error := n as real * 0.00000000003;
    && -error <= x - (n as real + k as real * 0.00001) <= error
    && (k == 0 ==> x == n as real)
  }

  lemma {:induction false} TotalCounts(es: seq<Edit>, round: Rounding)
    requires Near(round) && |es| <= LIMIT
    ensures Priced(Edits(es), Replaces(es), Total(es, round))
    ensures Replaces(es) <= LeftUsed(es) && Replaces(es) <= RightUsed(es) && Replaces(es) <= Edits(es) <= |es|
    decreases |es|
  {
    if es != [] {
      var front, e := es[..|es| - 1], es[|es| - 1];
      TotalCounts(front, round);
      if e != Match {
        RoundedStep(Edits(front), Replaces(front), Total(front, round), e, round);
      }
    }
  }

  lemma RoundedStep(n: nat, k: nat, x: real, e: Edit, round: Rounding)
    requires Near(round) && Priced(n, k, x) && k <= n < LIMIT && e != Match
    ensures Priced(n + 1, if e == Replace then k + 1 else k, round(x + Price(e)))
  {
    if e != Replace && k == 0 {
      assert x + Price(e) == Whole(n + 1);
    }
  }

  lemma {:induction false} SizeOfScript(es: seq<Edit>)
    ensures |es| <= LeftUsed(es) + RightUsed(es)
    decreases |es|
  {
    if es != [] {
      SizeOfScript(es[..|es| - 1]);
    }
  }

  /** The whole part of a cell's cost is the length of its script, in edits. */
  lemma CostCounts<T>(left: seq<T>, right: seq<T>, i: nat, j: nat, round: Rounding)
    requires i <= |left| && j <= |right| && Near(round) && i + j <= LIMIT
    ensures Cost(left, right, i, j, round).Floor == Edits(Script(left, right, i, j, round))
  {
    hide Script, Entry, StepFits, Priced;
    var es := Script(left, right, i, j, round);
    ScriptTurns(left, right, i, j, round);
    SizeOfScript(es);
    TotalCounts(es, round);
    ExactFewer(round, i + j, LIMIT);
    ScriptCost(left, right, i, j, round);
    hide Total, Edits, Replaces, LeftUsed, RightUsed;
    WholePart(Edits(es), Replaces(es), Cost(left, right, i, j, round));
  }

  lemma WholePart(n: nat, k: nat, x: real)
    requires n <= LIMIT && 2 * k <= LIMIT && Priced(n, k, x)
    ensures x.Floor == n
  {
    assert n as real <= x < n as real + 1.0;
  }

  lemma EditsStep(es: seq<Edit>, e: Edit)
    ensures Edits(es + [e]) == Edits(es) + if e == Match then 0 else 1
  {
    assert (es + [e])[..|es|] == es;
  }

  // ----- shortening scripts -------------------------------------------------------------------------------

  function LeftBefore(i: nat, e: Edit): int {
    if e == Add then i else i - 1
  }

  function RightBefore(j: nat, e: Edit): int {
    if e == Remove then j else j - 1
  }

  /** A script without its last move does the rest of the work. */
  lemma TurnsBack<T>(left: seq<T>, right: seq<T>, i: nat, j: nat, es: seq<Edit>)
    requires i <= |left| && j <= |right| && es != [] && Turns(left[..i], right[..j], es)
    ensures var front, e := es[..|es| - 1], es[|es| - 1];
            && LeftBefore(i, e) >= 0 && RightBefore(j, e) >= 0
            && Turns(left[..LeftBefore(i, e)], right[..RightBefore(j, e)], front)
            && (e == Match ==> left[i - 1] == right[j - 1])
            && (e == Replace ==> left[i - 1] != right[j - 1])
  {
    var n := |es| - 1;
    var front, e := es[..n], es[n];
    assert StepFits(left[..i], right[..j], es, n);
    var i', j' := LeftBefore(i, e), RightBefore(j, e);
    forall k | 0 <= k < n ensures StepFits(left[..i'], right[..j'], front, k) {
      assert StepFits(left[..i], right[..j], es, k);
      assert front[..k] == es[..k] && front[..k + 1][..k] == front[..k];
      UsedMonotone(front, k + 1);
    }
  }

  /** The script for one element less on the left: its last element is no longer consumed. */
  function DropLeft(es: seq<Edit>): seq<Edit> {
    if es == [] then []
    else
      var front, e := es[..|es| - 1], es[|es| - 1];
      if e == Add then DropLeft(front) + [Add] else if e == Remove then front else front + [Add]
  }

  lemma {:induction false} DropLeftTurns<T>(left: seq<T>, right: seq<T>, i: nat, j: nat, es: seq<Edit>)
    requires 0 < i <= |left| && j <= |right| && Turns(left[..i], right[..j], es)
    ensures Turns(left[..i - 1], right[..j], DropLeft(es)) && Edits(DropLeft(es)) <= Edits(es) + 1
    decreases |es|
  {
    assert es != [];
    hide Turns;
    TurnsBack(left, right, i, j, es);
    var front, e := es[..|es| - 1], es[|es| - 1];
    EditsStep(front, Add);
    if e == Add {
      DropLeftTurns(left, right, i, j - 1, front);
      EditsStep(DropLeft(front), Add);
      StepFitsPrefix(left, right, DropLeft(front), Add, i - 1, j - 1);
    } else if e != Remove {
      StepFitsPrefix(left, right, front, Add, i - 1, j - 1);
    }
  }

  function DropRight(es: seq<Edit>): seq<Edit> {
    if es == [] then []
    else
      var front, e := es[..|es| - 1], es[|es| - 1];
      if e == Remove then DropRight(front) + [Remove] else if e == Add then front else front + [Remove]
  }

  lemma {:induction false} DropRightTurns<T>(left: seq<T>, right: seq<T>, i: nat, j: nat, es: seq<Edit>)
    requires i <= |left| && 0 < j <= |right| && Turns(left[..i], right[..j], es)
    ensures Turns(left[..i], right[..j - 1], DropRight(es)) && Edits(DropRight(es)) <= Edits(es) + 1
    decreases |es|
  {
    assert es != [];
    hide Turns;
    TurnsBack(left, right, i, j, es);
    var front, e := es[..|es| - 1], es[|es| - 1];
    EditsStep(front, Remove);
    if e == Remove {
      DropRightTurns(left, right, i - 1, j, front);
      EditsStep(DropRight(front), Remove);
      StepFitsPrefix(left, right, DropRight(front), Remove, i - 1, j - 1);
    } else if e != Add {
      StepFitsPrefix(left, right, front, Remove, i - 1, j - 1);
    }
  }

  // ----- the exact condition ------------------------------------------------------------------------------

  function Length<T(==)>(left: seq<T>, right: seq<T>, i: nat, j: nat, round: Rounding): nat
    requires i <= |left| && j <= |right|
  {
    Edits(Script(left, right, i, j, round))
  }

  /** The script of a cell in terms of its neighbours'. */
  lemma LengthStep<T>(left: seq<T>, right: seq<T>, i: nat, j: nat, round: Rounding)
    requires i <= |left| && j <= |right| && i + j > 0
    ensures
      var e := Entry(left, right, i, j, round).move;
      && LeftBefore(i, e) >= 0 && RightBefore(j, e) >= 0
      && Length(left, right, i, j, round) ==
         Length(left, right, LeftBefore(i, e), RightBefore(j, e), round) + if e == Match then 0 else 1
  {
    var e := Entry(left, right, i, j, round).move;
    LastMove(left, right, i, j, round);
    EditsStep(Script(left, right, LeftBefore(i, e), RightBefore(j, e), round), e);
    hide Script, Edits, Entry;
  }

  /** On a cell whose elements differ, the move leads to the best neighbour unless the cell is tied. */
  lemma MoveIsBest<T>(left: seq<T>, right: seq<T>, i: nat, j: nat, round: Rounding)
    requires 0 < i <= |left| && 0 < j <= |right| && left[i - 1] != right[j - 1]
    requires Near(round) && |left| + |right| <= LIMIT
    ensures
      var add, remove := Length(left, right, i, j - 1, round), Length(left, right, i - 1, j, round);
      var replace := Length(left, right, i - 1, j - 1, round);
      var best := Length(left, right, i, j, round);
      if Tied(left, right, i, j, round) then best == replace + 1 > add + 1
      else best <= add + 1 && best <= remove + 1 && best <= replace + 1
  {
    hide Near, Script, Entry, Edits, StepFits, Turns;
    CostCounts(left, right, i, j - 1, round);
    CostCounts(left, right, i - 1, j, round);
    CostCounts(left, right, i - 1, j - 1, round);
    LengthStep(left, right, i, j, round);
    CellMove(left, right, i, j, round);
    var add, remove := Cost(left, right, i, j - 1, round), Cost(left, right, i - 1, j, round);
    var replace := Cost(left, right, i - 1, j - 1, round);
    assert Tied(left, right, i, j, round) <==> add == remove && add.Floor < replace.Floor;
    assert Length(left, right, i, j - 1, round) == add.Floor && Length(left, right, i - 1, j, round) == remove.Floor;
    assert Length(left, right, i - 1, j - 1, round) == replace.Floor;
    hide *;
    FloorMonotone(add, replace);
    FloorMonotone(remove, replace);
    FloorMonotone(add, remove);
    FloorMonotone(remove, add);
    FloorMonotone(replace, add);
    FloorMonotone(replace, remove);
  }

  lemma FloorMonotone(a: real, b: real)
    ensures a <= b ==> a.Floor <= b.Floor
  {
  }

  lemma CellMove<T>(left: seq<T>, right: seq<T>, i: nat, j: nat, round: Rounding)
    requires 0 < i <= |left| && 0 < j <= |right| && left[i - 1] != right[j - 1]
    ensures
      var add, remove := Cost(left, right, i, j - 1, round), Cost(left, right, i - 1, j, round);
      var replace := Cost(left, right, i - 1, j - 1, round);
      Entry(left, right, i, j, round).move ==
      if add < remove && add < replace then Add else if remove < add && remove < replace then Remove else Replace
  {
  }

  /** With equal last elements, the work on the rest takes no more edits than the whole. */
  lemma Reduced<T>(left: seq<T>, right: seq<T>, i: nat, j: nat, es: seq<Edit>) returns (r: seq<Edit>)
    requires 0 < i <= |left| && 0 < j <= |right| && left[i - 1] == right[j - 1]
    requires Turns(left[..i], right[..j], es)
    ensures Turns(left[..i - 1], right[..j - 1], r) && Edits(r) <= Edits(es)
  {
    assert es != [];
    hide Turns, DropLeft, DropRight;
    TurnsBack(left, right, i, j, es);
    var front, e := es[..|es| - 1], es[|es| - 1];
    r := front;
    if e == Add {
      DropLeftTurns(left, right, i, j - 1, front);
      r := DropLeft(front);
    } else if e == Remove {
      DropRightTurns(left, right, i - 1, j, front);
      r := DropRight(front);
    }
  }

  /** Without ties no other script is shorter. */
  lemma {:induction false} NoTiesIsShortest<T>(left: seq<T>, right: seq<T>, i: nat, j: nat, round: Rounding,
                                               es: seq<Edit>)
    requires i <= |left| && j <= |right| && Near(round) && |left| + |right| <= LIMIT
    requires NoTies(left, right, i, j, round) && Turns(left[..i], right[..j], es)
    ensures Length(left, right, i, j, round) <= Edits(es)
    decreases i + j
  {
    if i + j > 0 {
      assert es != [];
      hide Turns, Script, Tied;
      TurnsBack(left, right, i, j, es);
      LengthStep(left, right, i, j, round);
      var front, e := es[..|es| - 1], es[|es| - 1];
      if i > 0 && j > 0 && left[i - 1] == right[j - 1] {
        var r := Reduced(left, right, i, j, es);
        NoTiesIsShortest(left, right, i - 1, j - 1, round, r);
      } else {
        hide Entry;
        NoTiesIsShortest(left, right, LeftBefore(i, e), RightBefore(j, e), round, front);
        if i > 0 && j > 0 {
          MoveIsBest(left, right, i, j, round);
          assert !Tied(left, right, i, j, round);
        }
      }
    }
  }

  /** The script read from a tied cell is not shortest: a neighbour's script and one more addition do the
      same work. */
  lemma TieIsLonger<T>(left: seq<T>, right: seq<T>, i: nat, j: nat, round: Rounding)
    requires 0 < i <= |left| && 0 < j <= |right| && Tied(left, right, i, j, round)
    requires Near(round) && |left| + |right| <= LIMIT
    ensures !Shortest(left[..i], right[..j], Script(left, right, i, j, round))
  {
    hide Near;
    var es := Script(left, right, i, j - 1, round);
    assert left[i - 1] != right[j - 1];
    hide *;
    ScriptTurns(left, right, i, j - 1, round);
    MoveIsBest(left, right, i, j, round);
    StepFitsPrefix(left, right, es, Add, i, j - 1);
    EditsStep(es, Add);
    NotShortest(left[..i], right[..j], Script(left, right, i, j, round), es + [Add]) by {
      assert Edits(es + [Add]) < Edits(Script(left, right, i, j, round)) by {
        LengthIs(left, right, i, j, round);
        LengthIs(left, right, i, j - 1, round);
      }
    }
  }

  lemma LengthIs<T>(left: seq<T>, right: seq<T>, i: nat, j: nat, round: Rounding)
    requires i <= |left| && j <= |right|
    ensures Length(left, right, i, j, round) == Edits(Script(left, right, i, j, round))
  {
  }

  lemma NotShortest<T>(left: seq<T>, right: seq<T>, es: seq<Edit>, other: seq<Edit>)
    requires Turns(left, right, other) && Edits(other) < Edits(es)
    ensures !Shortest(left, right, es)
  {
    hide Turns, Edits;
  }

  ghost predicate AllShortest<T>(left: seq<T>, right: seq<T>, round: Rounding) {
    forall i: nat, j: nat :: i <= |left| && j <= |right| ==>
      Shortest(left[..i], right[..j], Script(left, right, i, j, round))
  }

  /** The scripts of all prefixes are shortest exactly when no cell is tied. */
  lemma AllShortestIffNoTies<T>(left: seq<T>, right: seq<T>, round: Rounding)
    requires Near(round) && |left| + |right| <= LIMIT
    ensures AllShortest(left, right, round) <==> NoTies(left, right, |left|, |right|, round)
  {
    hide Turns, Script, Entry, Tied, Near;
    if NoTies(left, right, |left|, |right|, round) {
      forall i: nat, j: nat | i <= |left| && j <= |right|
        ensures Shortest(left[..i], right[..j], Script(left, right, i, j, round))
      {
        ScriptTurns(left, right, i, j, round);
        forall other | Turns(left[..i], right[..j], other)
          ensures Edits(Script(left, right, i, j, round)) <= Edits(other)
        {
          NoTiesIsShortest(left, right, i, j, round, other);
        }
      }
    } else {
      var i: nat, j: nat :| 0 < i <= |left| && 0 < j <= |right| && Tied(left, right, i, j, round);
      TieIsLonger(left, right, i, j, round);
      assert !Shortest(left[..i], right[..j], Script(left, right, i, j, round));
    }
  }

  /** The script `es` for the two prefixes follows the table's rules where it passes: it matches wherever
      the last elements are equal and goes through no tied cell. */
  ghost predicate Clean<T>(left: seq<T>, right: seq<T>, i: nat, j: nat, round: Rounding, es: seq<Edit>)
    requires i <= |left| && j <= |right|
    decreases |es|
  {
    es != [] ==>
      var e := es[|es| - 1];
      && (i > 0 && j > 0 ==> if left[i - 1] == right[j - 1] then e == Match else !Tied(left, right, i, j, round))
      && LeftBefore(i, e) >= 0 && RightBefore(j, e) >= 0
      && Clean(left, right, LeftBefore(i, e), RightBefore(j, e), round, es[..|es| - 1])
  }

  /** No script is longer than a clean one. */
  lemma {:induction false} CleanIsShortest<T>(left: seq<T>, right: seq<T>, i: nat, j: nat, round: Rounding,
                                              es: seq<Edit>)
    requires i <= |left| && j <= |right| && Near(round) && |left| + |right| <= LIMIT
    requires Turns(left[..i], right[..j], es) && Clean(left, right, i, j, round, es)
    ensures Length(left, right, i, j, round) <= Edits(es)
    decreases |es|
  {
    if i + j > 0 {
      assert es != [];
      hide Turns, Script, Tied, Near;
      TurnsBack(left, right, i, j, es);
      LengthStep(left, right, i, j, round);
      var front, e := es[..|es| - 1], es[|es| - 1];
      CleanIsShortest(left, right, LeftBefore(i, e), RightBefore(j, e), round, front);
      if i > 0 && j > 0 && left[i - 1] != right[j - 1] {
        hide Entry;
        MoveIsBest(left, right, i, j, round);
      }
    }
  }

  /** A shortest script that the table produces is clean. */
  lemma {:induction false} ShortestIsClean<T>(left: seq<T>, right: seq<T>, i: nat, j: nat, round: Rounding)
    requires i <= |left| && j <= |right| && Near(round) && |left| + |right| <= LIMIT
    requires Shortest(left[..i], right[..j], Script(left, right, i, j, round))
    ensures Clean(left, right, i, j, round, Script(left, right, i, j, round))
    decreases i + j
  {
    hide Near, Turns, Script, Entry, Tied, Shortest, Clean, Edits;
    if i + j > 0 {
      var e := Entry(left, right, i, j, round).move;
      LastMove(left, right, i, j, round);
      LastMoveFits(left, right, i, j, round);
      FrontIsShortest(left, right, i, j, round);
      ShortestIsClean(left, right, LeftBefore(i, e), RightBefore(j, e), round);
      if i > 0 && j > 0 && left[i - 1] != right[j - 1] && Tied(left, right, i, j, round) {
        TieIsLonger(left, right, i, j, round);
      }
      CleanOneMore(left, right, i, j, round, Script(left, right, LeftBefore(i, e), RightBefore(j, e), round), e);
    } else {
      CleanStart(left, right, round);
    }
  }

  lemma CleanStart<T>(left: seq<T>, right: seq<T>, round: Rounding)
    ensures Clean(left, right, 0, 0, round, Script(left, right, 0, 0, round))
  {
  }

  lemma CleanOneMore<T>(left: seq<T>, right: seq<T>, i: nat, j: nat, round: Rounding, front: seq<Edit>, e: Edit)
    requires i <= |left| && j <= |right| && LeftBefore(i, e) >= 0 && RightBefore(j, e) >= 0
    requires i > 0 && j > 0 ==> if left[i - 1] == right[j - 1] then e == Match else !Tied(left, right, i, j, round)
    requires Clean(left, right, LeftBefore(i, e), RightBefore(j, e), round, front)
    ensures Clean(left, right, i, j, round, front + [e])
  {
    hide Tied;
    assert (front + [e])[..|front|] == front;
  }

  /** What a shortest script does before its last move is shortest for the rest. */
  lemma FrontIsShortest<T>(left: seq<T>, right: seq<T>, i: nat, j: nat, round: Rounding)
    requires i <= |left| && j <= |right| && i + j > 0
    requires Shortest(left[..i], right[..j], Script(left, right, i, j, round))
    ensures
      var e := Entry(left, right, i, j, round).move;
      && LeftBefore(i, e) >= 0 && RightBefore(j, e) >= 0
      && Shortest(left[..LeftBefore(i, e)], right[..RightBefore(j, e)],
                  Script(left, right, LeftBefore(i, e), RightBefore(j, e), round))
  {
    var e := Entry(left, right, i, j, round).move;
    LastMove(left, right, i, j, round);
    var i', j' := LeftBefore(i, e), RightBefore(j, e);
    var front := Script(left, right, i', j', round);
    ScriptTurns(left, right, i', j', round);
    ScriptTurns(left, right, i, j, round);
    EditsStep(front, e);
    LastMoveFits(left, right, i, j, round);
    hide Turns, Script, Entry, Edits;
    forall other | Turns(left[..i'], right[..j'], other) ensures Edits(front) <= Edits(other) {
      StepFitsPrefix(left, right, other, e, i', j');
      EditsStep(other, e);
    }
  }

  lemma LastMoveFits<T>(left: seq<T>, right: seq<T>, i: nat, j: nat, round: Rounding)
    requires i <= |left| && j <= |right| && i + j > 0
    ensures
      var e := Entry(left, right, i, j, round).move;
      && (e != Add ==> i > 0) && (e != Remove ==> j > 0)
      && (e == Match ==> i > 0 && j > 0 && left[i - 1] == right[j - 1])
      && (e == Replace ==> i > 0 && j > 0 && left[i - 1] != right[j - 1])
  {
  }

  /** The script is shortest exactly when some shortest script is clean; in particular when no cell is
      tied at all. */
  lemma ShortestIff<T>(left: seq<T>, right: seq<T>, round: Rounding)
    requires Near(round) && |left| + |right| <= LIMIT
    ensures var script := Script(left, right, |left|, |right|, round);
            Shortest(left, right, script) <==>
            exists es :: Shortest(left, right, es) && Clean(left, right, |left|, |right|, round, es)
    ensures NoTies(left, right, |left|, |right|, round) ==>
              Shortest(left, right, Script(left, right, |left|, |right|, round))
  {
    var m, n, script := |left|, |right|, Script(left, right, |left|, |right|, round);
    assert left[..m] == left && right[..n] == right;
    ScriptTurns(left, right, m, n, round);
    AllShortestIffNoTies(left, right, round);
    hide Turns, Script, Entry, Tied, Near, Clean, NoTies;
    if Shortest(left, right, script) {
      ShortestIsClean(left, right, m, n, round);
    }
    if es :| Shortest(left, right, es) && Clean(left, right, m, n, round, es) {
      CleanIsShortest(left, right, m, n, round, es);
      LengthIs(left, right, m, n, round);
    }
  }

  // ----- a tie --------------------------------------------------------------------------------------------

  const FROM := [1, 2, 1]
  const TO := [2, 1, 2]

  lemma Cell(i: nat, j: nat, add: real, remove: real, replace: real, round: Rounding)
    requires 0 < i <= 3 && 0 < j <= 3
    requires Cost(FROM, TO, i, j - 1, round) == add && Cost(FROM, TO, i - 1, j, round) == remove
    requires Cost(FROM, TO, i - 1, j - 1, round) == replace
    ensures var c := Entry(FROM, TO, i, j, round);
            c.cost == Cost(FROM, TO, i, j, round) &&
            if FROM[i - 1] == TO[j - 1] then c == EditScript.Cell(replace, Match)
            else if add < remove && add < replace then c == EditScript.Cell(round(add + 1.0), Add)
            else if remove < add && remove < replace then c == EditScript.Cell(round(remove + 1.0), Remove)
            else c == EditScript.Cell(round(replace + 1.00001), Replace)
  {
  }

  lemma Border(i: nat, round: Rounding)
    requires i <= 3
    ensures Cost(FROM, TO, i, 0, round) == Whole(i) == i as real && Cost(FROM, TO, 0, i, round) == i as real
  {
  }

  /** The surcharge survives the rounding of one and of two replacements; whole sums are exact. */
  ghost predicate KeepsSurcharge(round: Rounding) {
    ExactUpTo(round, 6) && round(1.00001) > 1.0 && round(round(1.00001) + 1.00001) > 1.0
  }

  lemma NearKeepsSurcharge(round: Rounding)
    requires Near(round)
    ensures KeepsSurcharge(round)
  {
  }

  lemma Diagonal(round: Rounding)
    requires KeepsSurcharge(round)
    ensures Entry(FROM, TO, 1, 1, round).move == Replace && Entry(FROM, TO, 2, 2, round).move == Replace
    ensures Entry(FROM, TO, 3, 3, round).move == Replace
  {
    var x := round(1.00001);
    var y := round(x + 1.00001);
    hide Entry, Cost;
    Border(0, round);
    Border(1, round);
    Border(2, round);
    assert 0.0 + 1.00001 == 1.00001;
    Cell(1, 1, 1.0, 1.0, 0.0, round);
    Cell(1, 2, x, 2.0, 1.0, round);
    Cell(2, 1, 2.0, x, 1.0, round);
    Cell(2, 2, 1.0, 1.0, x, round);
    Border(3, round);
    Cell(1, 3, 1.0, 3.0, 2.0, round);
    Cell(3, 1, 3.0, 1.0, 2.0, round);
    var a, r := Cost(FROM, TO, 1, 3, round), Cost(FROM, TO, 3, 1, round);
    Cell(2, 3, y, a, 1.0, round);
    Cell(3, 2, r, y, 1.0, round);
    Cell(3, 3, 1.0, 1.0, y, round);
  }

  lemma Better()
    ensures Turns(FROM, TO, [Remove, Match, Match, Add]) && Edits([Remove, Match, Match, Add]) == 2
  {
    assert Turns(FROM[..0], TO[..0], []);
    hide Turns;
    StepFitsPrefix(FROM, TO, [], Remove, 0, 0);
    StepFitsPrefix(FROM, TO, [Remove], Match, 1, 0);
    StepFitsPrefix(FROM, TO, [Remove, Match], Match, 2, 1);
    StepFitsPrefix(FROM, TO, [Remove, Match, Match], Add, 3, 2);
    assert [] + [Remove] == [Remove] && [Remove] + [Match] == [Remove, Match];
    assert [Remove, Match] + [Match] == [Remove, Match, Match];
    assert [Remove, Match, Match] + [Add] == [Remove, Match, Match, Add];
    assert FROM[..3] == FROM && TO[..3] == TO;
    EditsStep([], Remove);
    EditsStep([Remove], Match);
    EditsStep([Remove, Match], Match);
    EditsStep([Remove, Match, Match], Add);
  }

  /** Three replacements where a removal and an addition would do. */
  lemma NotAlwaysShortest(round: Rounding)
    requires KeepsSurcharge(round)
    ensures Script(FROM, TO, 3, 3, round) == [Replace, Replace, Replace]
    ensures !Shortest(FROM, TO, Script(FROM, TO, 3, 3, round))
  {
    Diagonal(round);
    Better();
    hide Turns, Entry, KeepsSurcharge;
    LastMove(FROM, TO, 3, 3, round);
    LastMove(FROM, TO, 2, 2, round);
    LastMove(FROM, TO, 1, 1, round);
    assert Script(FROM, TO, 0, 0, round) == [];
    hide Script;
    assert [] + [Replace] + [Replace] + [Replace] == [Replace, Replace, Replace];
    EditsStep([], Replace);
    EditsStep([Replace], Replace);
    EditsStep([Replace, Replace], Replace);
    assert [Replace] == [] + [Replace] && [Replace, Replace] == [Replace] + [Replace];
    NotShortest(FROM, TO, [Replace, Replace, Replace], [Remove, Match, Match, Add]);
  }
}

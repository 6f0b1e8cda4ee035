/** gtest's edit distance: the cost table, the moves read back from it, and string interning. */
module EditScript {

  datatype Edit = Match | Add | Remove | Replace

  /** The rounding of floating-point addition. Everything below holds for any rounding that leaves
      the small whole numbers on the table's border alone. */
  type Rounding = real -> real

  ghost predicate ExactUpTo(round: Rounding, n: nat) {
    forall i: nat {:trigger Whole(i)} :: i <= n ==> round(Whole(i)) == Whole(i)
  }

  function Whole(i: nat): real {
    i as real
  }

  function Price(e: Edit): real {
    match e
    case Match => 0.0
    case Replace => 1.00001
    case _ => 1.0
  }

  /** One cell of the table and the move that reaches it. */
  datatype Cell = Cell(cost: real, move: Edit)

  function Choose(same: bool, add: real, remove: real, replace: real, round: Rounding): (c: Cell)
    ensures same <==> c.move == Match
  {
    if same then Cell(replace, Match)
    else if add < remove && add < replace then Cell(round(add + 1.0), Add)
    else if remove < add && remove < replace then Cell(round(remove + 1.0), Remove)
    else Cell(round(replace + 1.00001), Replace)
  }

  /** The table entry for the first `i` elements of `left` and the first `j` of `right`. */
  function Entry<T(==)>(left: seq<T>, right: seq<T>, i: nat, j: nat, round: Rounding): (c: Cell)
    requires i <= |left| && j <= |right|
    ensures j == 0 ==> c.move == Remove
    ensures i == 0 < j ==> c.move == Add
    ensures i > 0 && j > 0 ==> (c.move == Match <==> left[i - 1] == right[j - 1])
    decreases i + j
  {
    if j == 0 then Cell(Whole(i), Remove)
    else if i == 0 then Cell(Whole(j), Add)
    else Choose(left[i - 1] == right[j - 1],
                Entry(left, right, i, j - 1, round).cost,
                Entry(left, right, i - 1, j, round).cost,
                Entry(left, right, i - 1, j - 1, round).cost, round)
  }

  /** The moves from the origin to cell `(i, j)`. */
  function Script<T(==)>(left: seq<T>, right: seq<T>, i: nat, j: nat, round: Rounding): seq<Edit>
    requires i <= |left| && j <= |right|
    decreases i + j
  {
    if i == 0 && j == 0 then []
    else
      var move := Entry(left, right, i, j, round).move;
      Script(left, right, if move == Add then i else i - 1, if move == Remove then j else j - 1, round) + [move]
  }

  // ----- what a script means --------------------------------------------------------------------

  function LeftUsed(es: seq<Edit>): (n: nat)
    ensures n <= |es|
  {
    if es == [] then 0 else LeftUsed(es[..|es| - 1]) + if es[|es| - 1] == Add then 0 else 1
  }

  function RightUsed(es: seq<Edit>): (n: nat)
    ensures n <= |es|
  {
    if es == [] then 0 else RightUsed(es[..|es| - 1]) + if es[|es| - 1] == Remove then 0 else 1
  }

  /** The script turns `left` into `right`: it consumes both completely, matches only equal elements
      and replaces only unequal ones. */
  ghost predicate Turns<T>(left: seq<T>, right: seq<T>, es: seq<Edit>) {
    && LeftUsed(es) == |left| && RightUsed(es) == |right|
    && forall k :: 0 <= k < |es| ==> StepFits(left, right, es, k)
  }

  ghost predicate StepFits<T>(left: seq<T>, right: seq<T>, es: seq<Edit>, k: nat)
    requires k < |es|
  {
    var l, r := LeftUsed(es[..k]), RightUsed(es[..k]);
    && (es[k] != Add ==> l < |left|)
    && (es[k] != Remove ==> r < |right|)
    && (es[k] == Match ==> left[l] == right[r])
    && (es[k] == Replace ==> left[l] != right[r])
  }

  /** The running sum of the prices of a script, rounded after every addition. */
  function Total(es: seq<Edit>, round: Rounding): real {
    if es == [] then 0.0
    else
      var last := es[|es| - 1];
      var before := Total(es[..|es| - 1], round);
      if last == Match then before else round(before + Price(last))
  }

  lemma {:induction false} StepFitsPrefix<T>(left: seq<T>, right: seq<T>, es: seq<Edit>, e: Edit, i: nat, j: nat)
    requires i <= |left| && j <= |right|
    requires Turns(left[..i], right[..j], es)
    requires e != Add ==> i < |left|
    requires e != Remove ==> j < |right|
    requires e == Match ==> left[i] == right[j]
    requires e == Replace ==> left[i] != right[j]
    ensures Turns(left[..if e == Add then i else i + 1], right[..if e == Remove then j else j + 1], es + [e])
  {
    var i', j' := if e == Add then i else i + 1, if e == Remove then j else j + 1;
    var es' := es + [e];
    assert es'[..|es'| - 1] == es;
    forall k | 0 <= k < |es'| ensures StepFits(left[..i'], right[..j'], es', k) {
      assert es'[..k] == es[..k];
      if k < |es| {
        assert StepFits(left[..i], right[..j], es, k);
        UsedMonotone(es, k);
      } else {
        assert es[..k] == es;
      }
    }
  }

  lemma {:induction false} UsedMonotone(es: seq<Edit>, k: nat)
    requires k <= |es|
    ensures LeftUsed(es[..k]) <= LeftUsed(es) && RightUsed(es[..k]) <= RightUsed(es)
    decreases |es|
  {
    if k == |es| {
      assert es[..k] == es;
    } else {
      UsedMonotone(es[..|es| - 1], k);
      assert es[..|es| - 1][..k] == es[..k];
    }
  }

  /** Every cell's script is valid for the two prefixes, whatever the rounding does. */
  lemma {:induction false} ScriptTurns<T>(left: seq<T>, right: seq<T>, i: nat, j: nat, round: Rounding)
    requires i <= |left| && j <= |right|
    ensures Turns(left[..i], right[..j], Script(left, right, i, j, round))
    decreases i + j
  {
    if i > 0 || j > 0 {
      var e := Entry(left, right, i, j, round).move;
      var i', j' := if e == Add then i else i - 1, if e == Remove then j else j - 1;
      ScriptTurns(left, right, i', j', round);
      StepFitsPrefix(left, right, Script(left, right, i', j', round), e, i', j');
    }
  }

  /** The last cell holds the price of the script. */
  lemma {:induction false} ScriptCost<T>(left: seq<T>, right: seq<T>, i: nat, j: nat, round: Rounding)
    requires i <= |left| && j <= |right| && ExactUpTo(round, i + j)
    ensures Total(Script(left, right, i, j, round), round) == Entry(left, right, i, j, round).cost
    decreases i + j
  {
    hide *;
    if i == 0 && j == 0 {
      OriginCost(left, right, round);
    } else {
      LastMove(left, right, i, j, round);
      CostStep(left, right, i, j, round);
      var e := Entry(left, right, i, j, round).move;
      var i', j' := if e == Add then i else i - 1, if e == Remove then j else j - 1;
      TotalStep(Script(left, right, i', j', round), e, round);
      ExactFewer(round, i' + j', i + j);
      ScriptCost(left, right, i', j', round);
    }
  }

  lemma OriginCost<T>(left: seq<T>, right: seq<T>, round: Rounding)
    ensures Total(Script(left, right, 0, 0, round), round) == Entry(left, right, 0, 0, round).cost
  {
  }

  lemma ExactFewer(round: Rounding, m: nat, n: nat)
    requires m <= n && ExactUpTo(round, n)
    ensures ExactUpTo(round, m)
  {
  }

  lemma LastMove<T>(left: seq<T>, right: seq<T>, i: nat, j: nat, round: Rounding)
    requires i <= |left| && j <= |right| && i + j > 0
    ensures
      var e := Entry(left, right, i, j, round).move;
      var i', j' := if e == Add then i else i - 1, if e == Remove then j else j - 1;
      i' >= 0 && j' >= 0 && Script(left, right, i, j, round) == Script(left, right, i', j', round) + [e]
  {
    hide Entry;
  }

  lemma TotalStep(es: seq<Edit>, e: Edit, round: Rounding)
    ensures Total(es + [e], round) ==
            if e == Match then Total(es, round) else round(Total(es, round) + Price(e))
  {
    assert (es + [e])[..|es|] == es;
  }

  lemma CostStep<T>(left: seq<T>, right: seq<T>, i: nat, j: nat, round: Rounding)
    requires i <= |left| && j <= |right| && i + j > 0 && ExactUpTo(round, i + j)
    ensures
      var e := Entry(left, right, i, j, round).move;
      var i', j' := if e == Add then i else i - 1, if e == Remove then j else j - 1;
      var before := Entry(left, right, i', j', round).cost;
      Entry(left, right, i, j, round).cost == if e == Match then before else round(before + Price(e))
  {
    if i == 0 || j == 0 {
      assert Whole(i + j - 1) + 1.0 == Whole(i + j);
      assert round(Whole(i + j)) == Whole(i + j);
    }
  }

  /** The script depends on the elements only through which of them are equal. */
  ghost predicate SamePattern<S, T>(l: seq<S>, r: seq<S>, l': seq<T>, r': seq<T>) {
    && |l| == |l'| && |r| == |r'|
    && forall i, j :: 0 <= i < |l| && 0 <= j < |r| ==> (l[i] == r[j] <==> l'[i] == r'[j])
  }

  lemma {:induction false} EntryRespectsPattern<S, T>(l: seq<S>, r: seq<S>, l': seq<T>, r': seq<T>, i: nat, j: nat,
                                                      round: Rounding)
    requires SamePattern(l, r, l', r') && i <= |l| && j <= |r|
    ensures Entry(l, r, i, j, round) == Entry(l', r', i, j, round)
    decreases i + j
  {
    hide Choose;
    if i > 0 && j > 0 {
      EntryRespectsPattern(l, r, l', r', i, j - 1, round);
      EntryRespectsPattern(l, r, l', r', i - 1, j, round);
      EntryRespectsPattern(l, r, l', r', i - 1, j - 1, round);
    }
  }

  lemma {:induction false} ScriptRespectsPattern<S, T>(l: seq<S>, r: seq<S>, l': seq<T>, r': seq<T>, i: nat, j: nat,
                                                       round: Rounding)
    requires SamePattern(l, r, l', r') && i <= |l| && j <= |r|
    ensures Script(l, r, i, j, round) == Script(l', r', i, j, round)
    decreases i + j
  {
    if i > 0 || j > 0 {
      EntryRespectsPattern(l, r, l', r', i, j, round);
      var e := Entry(l, r, i, j, round).move;
      ScriptRespectsPattern(l, r, l', r', if e == Add then i else i - 1, if e == Remove then j else j - 1, round);
    }
  }

  // ----- the table algorithm -------------------------------------------------------------------

  /** The two tables, one row per prefix of `left`. */
  datatype Tables = Tables(costs: seq<seq<real>>, best: seq<seq<Edit>>) {
    predicate Sized(rows: nat, columns: nat) {
      && |costs| == |best| == rows
      && forall i :: 0 <= i < rows ==> |costs[i]| == |best[i]| == columns
    }

    function Set(i: nat, j: nat, cost: real, move: Edit): Tables
      requires i < |costs| && i < |best| && j < |costs[i]| && j < |best[i]|
    {
      Tables(costs[i := costs[i][j := cost]], best[i := best[i][j := move]])
    }

    function At(i: nat, j: nat): Cell
      requires i < |costs| && i < |best| && j < |costs[i]| && j < |best[i]|
    {
      Cell(costs[i][j], best[i][j])
    }
  }

  /** Row `i` holds its entries up to column `upTo`. */
  ghost predicate RowFilled(left: seq<nat>, right: seq<nat>, t: Tables, i: nat, upTo: nat, round: Rounding)
    requires t.Sized(|left| + 1, |right| + 1) && i <= |left| && upTo <= |right|
  {
    forall j: nat :: j <= upTo ==> t.At(i, j) == Entry(left, right, i, j, round)
  }

  /** The rows up to `rows` are complete, and so is the first column. */
  ghost predicate FilledTo(left: seq<nat>, right: seq<nat>, t: Tables, rows: nat, round: Rounding) {
    && t.Sized(|left| + 1, |right| + 1)
    && forall i: nat, j: nat :: i <= |left| && j <= |right| && (i <= rows || j == 0) ==>
         t.At(i, j) == Entry(left, right, i, j, round)
  }

  method CalculateOptimalEdits(left: seq<nat>, right: seq<nat>, round: Rounding) returns (path: seq<Edit>)
    ensures path == Script(left, right, |left|, |right|, round)
    ensures Turns(left, right, path)
  {
    hide *;
    var t := FillBorders(left, right, round);
    var li := 0;
    while li < |left|
      invariant 0 <= li <= |left| && FilledTo(left, right, t, li, round)
    {
      t := FillRow(left, right, t, li, round);
      li := li + 1;
    }
    path := WalkBack(left, right, t, round);
    ScriptTurns(left, right, |left|, |right|, round);
    assert left[..|left|] == left && right[..|right|] == right;
  }

  /** The cells for an empty right side and for an empty left side. */
  method FillBorders(left: seq<nat>, right: seq<nat>, round: Rounding) returns (t: Tables)
    ensures FilledTo(left, right, t, 0, round)
  {
    hide Choose;
    t := Tables(seq(|left| + 1, _ => seq(|right| + 1, _ => 0.0)),
                    seq(|left| + 1, _ => seq(|right| + 1, _ => Match)));
    var li := 0;
    while li < |left| + 1
      invariant 0 <= li <= |left| + 1 && t.Sized(|left| + 1, |right| + 1)
      invariant forall i: nat :: i < li ==> t.At(i, 0) == Entry(left, right, i, 0, round)
    {
      t := t.Set(li, 0, Whole(li), Remove);
      li := li + 1;
    }
    var ri := 1;
    while ri < |right| + 1
      invariant 1 <= ri <= |right| + 1 && t.Sized(|left| + 1, |right| + 1)
      invariant forall i: nat :: i <= |left| ==> t.At(i, 0) == Entry(left, right, i, 0, round)
      invariant RowFilled(left, right, t, 0, ri - 1, round)
    {
      t := t.Set(0, ri, Whole(ri), Add);
      ri := ri + 1;
    }
  }

  /** The inner loop of the table computation. */
  method FillRow(left: seq<nat>, right: seq<nat>, start: Tables, li: nat, round: Rounding) returns (t: Tables)
    requires li < |left| && FilledTo(left, right, start, li, round)
    ensures FilledTo(left, right, t, li + 1, round)
  {
    hide Choose, Entry;
    t := start;
    var ri := 0;
    while ri < |right|
      invariant 0 <= ri <= |right| && t.Sized(|left| + 1, |right| + 1)
      invariant RowFilled(left, right, t, li + 1, ri, round)
      invariant forall i :: 0 <= i <= |left| && i != li + 1 ==>
                  t.costs[i] == start.costs[i] && t.best[i] == start.best[i]
    {
      assert start.At(li, ri) == Entry(left, right, li, ri, round);
      assert start.At(li, ri + 1) == Entry(left, right, li, ri + 1, round);
      assert t.At(li + 1, ri) == Entry(left, right, li + 1, ri, round);
      var add := t.costs[li + 1][ri];
      var remove := t.costs[li][ri + 1];
      var replace := t.costs[li][ri];
      EntryUnfolds(left, right, li, ri, round);
      ghost var cell := Choose(left[li] == right[ri], add, remove, replace, round);
      ChooseCases(left[li] == right[ri], add, remove, replace, round);
      if left[li] == right[ri] {
        t := t.Set(li + 1, ri + 1, replace, Match);
      } else if add < remove && add < replace {
        t := t.Set(li + 1, ri + 1, round(add + 1.0), Add);
      } else if remove < add && remove < replace {
        t := t.Set(li + 1, ri + 1, round(remove + 1.0), Remove);
      } else {
        t := t.Set(li + 1, ri + 1, round(replace + 1.00001), Replace);
      }
      assert t.At(li + 1, ri + 1) == cell;
      ri := ri + 1;
    }
  }

  lemma ChooseCases(same: bool, add: real, remove: real, replace: real, round: Rounding)
    ensures Choose(same, add, remove, replace, round) ==
            if same then Cell(replace, Match)
            else if add < remove && add < replace then Cell(round(add + 1.0), Add)
            else if remove < add && remove < replace then Cell(round(remove + 1.0), Remove)
            else Cell(round(replace + 1.00001), Replace)
  {
  }

  lemma EntryUnfolds(left: seq<nat>, right: seq<nat>, i: nat, j: nat, round: Rounding)
    requires i < |left| && j < |right|
    ensures Entry(left, right, i + 1, j + 1, round) ==
            Choose(left[i] == right[j], Entry(left, right, i + 1, j, round).cost,
                   Entry(left, right, i, j + 1, round).cost, Entry(left, right, i, j, round).cost, round)
  {
    hide Choose;
  }

  /** Reconstructs the path in reverse order, then turns it round. */
  method WalkBack(left: seq<nat>, right: seq<nat>, t: Tables, round: Rounding) returns (path: seq<Edit>)
    requires FilledTo(left, right, t, |left|, round)
    ensures path == Script(left, right, |left|, |right|, round)
  {
    hide Choose, Entry, Script;
    var backwards := [];
    var li, ri := |left|, |right|;
    assert Script(left, right, li, ri, round) + Reversed(backwards) == Script(left, right, li, ri, round);
    while li > 0 || ri > 0
      invariant 0 <= li <= |left| && 0 <= ri <= |right|
      invariant Script(left, right, li, ri, round) + Reversed(backwards) ==
                Script(left, right, |left|, |right|, round)
      decreases li + ri
    {
      var move := t.best[li][ri];
      assert t.At(li, ri) == Entry(left, right, li, ri, round);
      ReversedAppend(backwards, move);
      ScriptStep(left, right, li, ri, round, Reversed(backwards));
      backwards := backwards + [move];
      if move != Add { li := li - 1; }
      if move != Remove { ri := ri - 1; }
    }
    ScriptStart(left, right, round);
    path := Reversed(backwards);
  }

  lemma ScriptStart(left: seq<nat>, right: seq<nat>, round: Rounding)
    ensures Script(left, right, 0, 0, round) == []
  {
  }

  lemma ScriptStep(left: seq<nat>, right: seq<nat>, i: nat, j: nat, round: Rounding, rest: seq<Edit>)
    requires i <= |left| && j <= |right| && i + j > 0
    ensures
      var move := Entry(left, right, i, j, round).move;
      var i', j' := if move == Add then i else i - 1, if move == Remove then j else j - 1;
      Script(left, right, i, j, round) + rest == Script(left, right, i', j', round) + ([move] + rest)
  {
    hide Choose;
    var move := Entry(left, right, i, j, round).move;
    var i', j' := if move == Add then i else i - 1, if move == Remove then j else j - 1;
    assert Script(left, right, i, j, round) == Script(left, right, i', j', round) + [move];
  }

  lemma ReversedAppend<T>(s: seq<T>, x: T)
    ensures Reversed(s + [x]) == [x] + Reversed(s)
  {
    assert (s + [x])[..|s|] == s;
  }

  function Reversed<T>(s: seq<T>): (r: seq<T>)
    ensures |r| == |s| && forall k :: 0 <= k < |s| ==> r[k] == s[|s| - 1 - k]
  {
    if s == [] then [] else [s[|s| - 1]] + Reversed(s[..|s| - 1])
  }

  // ----- interning -----------------------------------------------------------------------------

  class InternalStrings {
    var ids: map<string, nat>

    /** Ids are handed out densely and no two strings share one. */
    ghost predicate Valid()
      reads this
    {
      && (forall s :: s in ids ==> ids[s] < |ids|)
      && (forall s, t :: s in ids && t in ids && ids[s] == ids[t] ==> s == t)
    }

    constructor ()
      ensures Valid() && ids == map[]
    {
      ids := map[];
    }

    method GetId(str: string) returns (id: nat)
      requires Valid()
      modifies this
      ensures Valid() && str in ids && id == ids[str]
      ensures forall s :: s in old(ids) ==> s in ids && ids[s] == old(ids)[s]
      ensures forall s :: s in ids ==> s in old(ids) || s == str
    {
      if str in ids {
        return ids[str];
      }
      id := |ids|;
      ids := ids[str := id];
    }
  }

  method InternAll(table: InternalStrings, strs: seq<string>) returns (found: seq<nat>)
    requires table.Valid()
    modifies table
    ensures table.Valid() && |found| == |strs|
    ensures forall s :: s in old(table.ids) ==> s in table.ids && table.ids[s] == old(table.ids)[s]
    ensures forall k :: 0 <= k < |strs| ==> strs[k] in table.ids && found[k] == table.ids[strs[k]]
  {
    found := [];
    var i := 0;
    while i < |strs|
      invariant 0 <= i <= |strs| == |strs| && |found| == i && table.Valid()
      invariant forall s :: s in old(table.ids) ==> s in table.ids && table.ids[s] == old(table.ids)[s]
      invariant forall k :: 0 <= k < i ==> strs[k] in table.ids && found[k] == table.ids[strs[k]]
    {
      var id := table.GetId(strs[i]);
      found := found + [id];
      i := i + 1;
    }
  }

  /** The string version: interned, then compared by id. */
  method CalculateOptimalEditsOfStrings(left: seq<string>, right: seq<string>, round: Rounding)
    returns (path: seq<Edit>)
    ensures path == Script(left, right, |left|, |right|, round)
    ensures Turns(left, right, path)
  {
    var table := new InternalStrings();
    var leftIds := InternAll(table, left);
    var rightIds := InternAll(table, right);
    path := CalculateOptimalEdits(leftIds, rightIds, round);
    assert SamePattern(left, right, leftIds, rightIds);
    ScriptRespectsPattern(left, right, leftIds, rightIds, |left|, |right|, round);
    ScriptTurns(left, right, |left|, |right|, round);
    assert left[..|left|] == left && right[..|right|] == right;
  }
}

/**
 * The stand-alone helpers shared by the rest of the game: the fall-through
 * switch matcher, the movement authority `IsBlocked`, and the selections that
 * take their random number from the caller.
 */
module Utility {
  import opened Wrappers
  import opened Constants
  import opened Tiles
  import opened Pieces

  // ---------------------------------------------------------------------------
  // switch / case

  /** A switch on `value`; `fall` is set once some case has matched. */
  datatype Switch<T> = Switch(value: T, fall: bool)

  function NewSwitch<T>(value: T): (s: Switch<T>)
    ensures s.value == value && !s.fall
  {
    Switch(value, false)
  }

  /**
   * One `case(args...)` test: whether to enter the suite, and the switch
   * afterwards. A case with no labels is the default and always enters.
   */
  function Match<T(==)>(s: Switch<T>, args: seq<T>): (r: (bool, Switch<T>))
    ensures r.1.value == s.value
    ensures |args| == 0 ==> r.0 && r.1 == s
    ensures s.fall ==> r.0 && r.1 == s
    ensures r.0 <==> s.fall || |args| == 0 || s.value in args
    ensures r.1.fall <==> s.fall || (|args| > 0 && s.value in args)
  {
    if s.fall || |args| == 0 then (true, s)
    else if s.value in args then (true, s.(fall := true))
    else (false, s)
  }

  /** The answers of a run of consecutive case tests against one switch. */
  function MatchAll<T(==)>(s: Switch<T>, cases: seq<seq<T>>): (r: seq<bool>)
    ensures |r| == |cases|
    decreases |cases|
  {
    if |cases| == 0 then []
    else
      var (b, s') := Match(s, cases[0]);
      [b] + MatchAll(s', cases[1..])
  }

  /** Once the switch is falling, every later case is entered. */
  lemma {:induction false} FallingEntersAll<T>(s: Switch<T>, cases: seq<seq<T>>)
    requires s.fall
    ensures forall j :: 0 <= j < |cases| ==> MatchAll(s, cases)[j]
    decreases |cases|
  {
    if |cases| > 0 {
      FallingEntersAll(s, cases[1..]);
    }
  }

  /** Fall-through: from the first case naming the value on, every case is entered. */
  lemma {:induction false} FallThrough<T>(s: Switch<T>, cases: seq<seq<T>>, i: nat)
    requires i < |cases| && s.value in cases[i]
    ensures forall j :: i <= j < |cases| ==> MatchAll(s, cases)[j]
    decreases i
  {
    var (b, s') := Match(s, cases[0]);
    if i == 0 {
      FallingEntersAll(s', cases[1..]);
    } else {
      FallThrough(s', cases[1..], i - 1);
    }
  }

  /** Single-label cases `case(l0)`, `case(l1)`, ... */
  function Singletons<T>(labels: seq<T>): (cases: seq<seq<T>>)
    ensures |cases| == |labels|
    ensures forall j :: 0 <= j < |labels| ==> cases[j] == [labels[j]]
  {
    seq(|labels|, j requires 0 <= j < |labels| => [labels[j]])
  }

  /**
   * Dispatch: with one label per case, the cases before the first label
   * equal to the value are skipped and that case is entered.
   */
  lemma {:induction false} DispatchToFirstMatch<T>(s: Switch<T>, labels: seq<T>, k: nat)
    requires !s.fall
    requires k < |labels| && labels[k] == s.value
    requires forall j :: 0 <= j < k ==> labels[j] != s.value
    ensures forall j :: 0 <= j < k ==> !MatchAll(s, Singletons(labels))[j]
    ensures MatchAll(s, Singletons(labels))[k]
    decreases k
  {
    var cases := Singletons(labels);
    assert cases[1..] == Singletons(labels[1..]);
    var (b, s') := Match(s, cases[0]);
    if k > 0 {
      assert !b && s' == s;
      DispatchToFirstMatch(s, labels[1..], k - 1);
    }
  }

  // ---------------------------------------------------------------------------
  // is_blocked

  /** Piece p stands in the way at (x, y). */
  predicate BlocksAt(p: GamePiece, x: int, y: int) {
    p.blocks && p.x == x && p.y == y
  }

  /** The movement authority: the tile is a wall, or a blocking piece stands on it. */
  function IsBlocked(m: Grid, objects: seq<GamePiece>, x: int, y: int): (b: bool)
    requires WellFormed(m) && InBounds(x, y)
    ensures b <==> m[x][y].blocked || exists j :: 0 <= j < |objects| && BlocksAt(objects[j], x, y)
    decreases |objects|
  {
    if m[x][y].blocked then true
    else if |objects| == 0 then false
    else if BlocksAt(objects[0], x, y) then true
    else
      var rest := IsBlocked(m, objects[1..], x, y);
      assert forall j :: 1 <= j < |objects| ==> objects[j] == objects[1..][j - 1];
      rest
  }

  /** Adding pieces can only block more; adding non-blocking pieces changes nothing. */
  lemma {:induction false} IsBlockedMonotone(m: Grid, objects: seq<GamePiece>, more: seq<GamePiece>, x: int, y: int)
    requires WellFormed(m) && InBounds(x, y)
    ensures IsBlocked(m, objects, x, y) ==> IsBlocked(m, objects + more, x, y)
    ensures (forall j :: 0 <= j < |more| ==> !more[j].blocks) ==>
              IsBlocked(m, objects + more, x, y) == IsBlocked(m, objects, x, y)
  {
    var all := objects + more;
    if IsBlocked(m, objects, x, y) && !m[x][y].blocked {
      var j :| 0 <= j < |objects| && BlocksAt(objects[j], x, y);
      assert all[j] == objects[j];
    }
    if (forall j :: 0 <= j < |more| ==> !more[j].blocks) && IsBlocked(m, all, x, y) && !m[x][y].blocked {
      assert forall k :: |objects| <= k < |all| ==> all[k] == more[k - |objects|];
      var j :| 0 <= j < |all| && BlocksAt(all[j], x, y);
      assert objects[j] == all[j];
    }
  }

  /** Only which pieces are present matters, not their order. */
  lemma {:induction false} IsBlockedReorder(m: Grid, a: seq<GamePiece>, b: seq<GamePiece>, x: int, y: int)
    requires WellFormed(m) && InBounds(x, y)
    requires multiset(a) == multiset(b)
    ensures IsBlocked(m, a, x, y) == IsBlocked(m, b, x, y)
  {
    forall s, t | (s, t) == (a, b) || (s, t) == (b, a)
      ensures IsBlocked(m, s, x, y) ==> IsBlocked(m, t, x, y)
    {
      if IsBlocked(m, s, x, y) && !m[x][y].blocked {
        var j :| 0 <= j < |s| && BlocksAt(s[j], x, y);
        assert s[j] in multiset(s);
        assert s[j] in t;
        var k :| 0 <= k < |t| && t[k] == s[j];
      }
    }
  }

  // ---------------------------------------------------------------------------
  // choose_random_unblocked_spot

  /** Cells strictly after the top-left border, in the scanning order of the source. */
  predicate Scanned(c: Cell) {
    1 <= c.0 < MapWidth && 1 <= c.1 < MapHeight
  }

  /** Column-major order: by x, then by y. */
  predicate Before(a: Cell, b: Cell) {
    a.0 < b.0 || (a.0 == b.0 && a.1 < b.1)
  }

  predicate Ascending(cs: seq<Cell>) {
    forall i, j :: 0 <= i < j < |cs| ==> Before(cs[i], cs[j])
  }

  /** The open cells of column x from row y down. */
  function ColumnCandidates(m: Grid, x: int, y: int): (cs: seq<Cell>)
    requires WellFormed(m) && 1 <= x < MapWidth && 1 <= y
    ensures forall c :: c in cs <==> c.0 == x && y <= c.1 < MapHeight && !m[c.0][c.1].blocked
    ensures forall k :: 0 <= k < |cs| ==> cs[k].0 == x
    ensures Ascending(cs)
    decreases MapHeight - y
  {
    if y >= MapHeight then []
    else (if m[x][y].blocked then [] else [(x, y)]) + ColumnCandidates(m, x, y + 1)
  }

  lemma {:induction false} AscendingConcat(a: seq<Cell>, b: seq<Cell>)
    requires Ascending(a) && Ascending(b)
    requires forall i, j :: 0 <= i < |a| && 0 <= j < |b| ==> Before(a[i], b[j])
    ensures Ascending(a + b)
  {
    var ab := a + b;
    forall i, j | 0 <= i < j < |ab| ensures Before(ab[i], ab[j]) {
      if j < |a| {
        assert ab[i] == a[i] && ab[j] == a[j];
      } else if i >= |a| {
        assert ab[i] == b[i - |a|] && ab[j] == b[j - |a|];
      } else {
        assert ab[i] == a[i] && ab[j] == b[j - |a|];
      }
    }
  }

  /** The open cells of columns x.. in scanning order. */
  function CandidatesFrom(m: Grid, x: int): (cs: seq<Cell>)
    requires WellFormed(m) && 1 <= x
    ensures forall c :: c in cs <==> Scanned(c) && x <= c.0 && !m[c.0][c.1].blocked
    ensures forall k :: 0 <= k < |cs| ==> x <= cs[k].0
    ensures Ascending(cs)
    decreases MapWidth - x
  {
    if x >= MapWidth then []
    else
      var col := ColumnCandidates(m, x, 1);
      var rest := CandidatesFrom(m, x + 1);
      CandidatesJoin(m, x, col, rest);
      col + rest
  }

  /** Column x followed by the columns after it keeps the scanning order. */
  lemma {:induction false} CandidatesJoin(m: Grid, x: int, col: seq<Cell>, rest: seq<Cell>)
    requires WellFormed(m) && 1 <= x < MapWidth
    requires forall k :: 0 <= k < |col| ==> col[k].0 == x
    requires forall k :: 0 <= k < |rest| ==> x + 1 <= rest[k].0
    requires Ascending(col) && Ascending(rest)
    ensures forall k :: 0 <= k < |col + rest| ==> x <= (col + rest)[k].0
    ensures Ascending(col + rest)
  {
    assert forall i, j :: 0 <= i < |col| && 0 <= j < |rest| ==> Before(col[i], rest[j]);
    AscendingConcat(col, rest);
    var cs := col + rest;
    forall k | 0 <= k < |cs| ensures x <= cs[k].0 {
      if k < |col| { assert cs[k] == col[k]; } else { assert cs[k] == rest[k - |col|]; }
    }
  }

  /** Every open cell of the scanned range, each once, in scanning order. */
  function Candidates(m: Grid): (cs: seq<Cell>)
    requires WellFormed(m)
    ensures forall c :: c in cs <==> Scanned(c) && !m[c.0][c.1].blocked
    ensures Ascending(cs)
  {
    CandidatesFrom(m, 1)
  }

  /**
   * The candidate picked by the random index `roll`, which the game draws
   * from [0, |candidates| - 1]. There is nothing to pick on a map with no
   * open cell, where the source fails.
   */
  function ChooseRandomUnblockedSpot(m: Grid, roll: int): (r: Option<Cell>)
    requires WellFormed(m)
    ensures r.Some? <==> 0 <= roll < |Candidates(m)|
    ensures r.Some? ==> Scanned(r.value) && !m[r.value.0][r.value.1].blocked
  {
    var cs := Candidates(m);
    if 0 <= roll < |cs| then
      assert cs[roll] in cs;
      Some(cs[roll])
    else None
  }

  /** Cells in scanning order are all different. */
  lemma {:induction false} AscendingDistinct(cs: seq<Cell>)
    requires Ascending(cs)
    ensures forall i, j :: 0 <= i < |cs| && 0 <= j < |cs| && i != j ==> cs[i] != cs[j]
  {
    forall i, j | 0 <= i < |cs| && 0 <= j < |cs| && i != j ensures cs[i] != cs[j] {
      if i < j {
        assert Before(cs[i], cs[j]);
      } else {
        assert Before(cs[j], cs[i]);
      }
    }
  }

  /** Every open scanned cell is the pick of exactly one roll. */
  lemma {:induction false} EverySpotHasOneRoll(m: Grid, c: Cell)
    requires WellFormed(m) && Scanned(c) && !m[c.0][c.1].blocked
    ensures exists roll :: ChooseRandomUnblockedSpot(m, roll) == Some(c)
    ensures forall r1, r2 :: ChooseRandomUnblockedSpot(m, r1) == Some(c) && ChooseRandomUnblockedSpot(m, r2) == Some(c) ==> r1 == r2
  {
    var cs := Candidates(m);
    assert c in cs;
    var roll :| 0 <= roll < |cs| && cs[roll] == c;
    assert ChooseRandomUnblockedSpot(m, roll) == Some(c);
    AscendingDistinct(cs);
    forall r1 | ChooseRandomUnblockedSpot(m, r1) == Some(c) ensures r1 == roll {
      assert 0 <= r1 < |cs| && cs[r1] == c;
    }
  }

  // ---------------------------------------------------------------------------
  // random_choice_index

  /** The sum of the first n weights. */
  function PrefixSum(chances: seq<int>, n: nat): int
    requires n <= |chances|
  {
    if n == 0 then 0 else PrefixSum(chances, n - 1) + chances[n - 1]
  }

  function Total(chances: seq<int>): int {
    PrefixSum(chances, |chances|)
  }

  /** The scan from index i on, with `running` the sum of the weights before i. */
  function ChoiceFrom(chances: seq<int>, dice: int, i: nat, running: int): (r: Option<nat>)
    requires i <= |chances| && running == PrefixSum(chances, i)
    ensures r.Some? ==> i <= r.value < |chances| && dice <= PrefixSum(chances, r.value + 1)
    ensures r.Some? ==> forall n :: i < n <= r.value ==> PrefixSum(chances, n) < dice
    ensures r.None? ==> forall n :: i < n <= |chances| ==> PrefixSum(chances, n) < dice
    decreases |chances| - i
  {
    if i == |chances| then None
    else
      var running' := running + chances[i];
      if dice <= running' then Some(i) else ChoiceFrom(chances, dice, i + 1, running')
  }

  /**
   * The index chosen by the die roll `dice`, which the game draws from
   * [1, sum of the weights]: the first index whose running sum reaches the
   * roll, or nothing if none does.
   */
  function RandomChoiceIndex(chances: seq<int>, dice: int): (r: Option<nat>)
    ensures r.Some? ==> r.value < |chances| && dice <= PrefixSum(chances, r.value + 1)
    ensures r.Some? ==> forall n :: 0 < n <= r.value ==> PrefixSum(chances, n) < dice
    ensures r.None? <==> forall n :: 0 < n <= |chances| ==> PrefixSum(chances, n) < dice
  {
    ChoiceFrom(chances, dice, 0, 0)
  }

  predicate NonNegative(chances: seq<int>) {
    forall k :: 0 <= k < |chances| ==> chances[k] >= 0
  }

  lemma {:induction false} PrefixSumMonotone(chances: seq<int>, a: nat, b: nat)
    requires NonNegative(chances) && a <= b <= |chances|
    ensures PrefixSum(chances, a) <= PrefixSum(chances, b)
    decreases b - a
  {
    if a < b {
      PrefixSumMonotone(chances, a, b - 1);
    }
  }

  /** A roll the game can draw always picks a valid index. */
  lemma {:induction false} RandomChoiceInRange(chances: seq<int>, dice: int)
    requires 1 <= dice <= Total(chances)
    ensures RandomChoiceIndex(chances, dice).Some?
  {
    if |chances| > 0 {
      assert dice <= PrefixSum(chances, |chances|);
    }
  }

  /** A weight of zero is never chosen by a positive roll. */
  lemma {:induction false} ZeroWeightNeverChosen(chances: seq<int>, dice: int, i: nat)
    requires 1 <= dice && i < |chances| && chances[i] == 0
    ensures RandomChoiceIndex(chances, dice) != Some(i)
  {
    var r := RandomChoiceIndex(chances, dice);
    assert PrefixSum(chances, i + 1) == PrefixSum(chances, i);
    assert r == Some(i) && i > 0 ==> PrefixSum(chances, i) < dice;
  }

  /**
   * With non-negative weights, index i is chosen by exactly the positive rolls in
   * (sum before i, sum through i]: `chances[i]` of the `Total` possible rolls.
   */
  lemma {:induction false} RandomChoiceExact(chances: seq<int>, dice: int, i: nat)
    requires NonNegative(chances) && i < |chances| && 1 <= dice
    ensures RandomChoiceIndex(chances, dice) == Some(i) <==>
              PrefixSum(chances, i) < dice <= PrefixSum(chances, i + 1)
  {
    var r := RandomChoiceIndex(chances, dice);
    if r == Some(i) && i > 0 {
      assert PrefixSum(chances, i) < dice;
    }
    if PrefixSum(chances, i) < dice <= PrefixSum(chances, i + 1) {
      forall n | 0 < n <= i ensures PrefixSum(chances, n) < dice {
        PrefixSumMonotone(chances, n, i);
      }
      assert r.Some?;
    }
  }

  /** The worked example: weights [1, 1, 1, 2] give each of the first three 1 roll in 5, the last 2. */
  lemma {:induction false} RandomChoiceExample()
    ensures RandomChoiceIndex([1, 1, 1, 2], 1) == Some(0)
    ensures RandomChoiceIndex([1, 1, 1, 2], 2) == Some(1)
    ensures RandomChoiceIndex([1, 1, 1, 2], 3) == Some(2)
    ensures RandomChoiceIndex([1, 1, 1, 2], 4) == Some(3)
    ensures RandomChoiceIndex([1, 1, 1, 2], 5) == Some(3)
  {
  }

  // ---------------------------------------------------------------------------
  // from_difficulty_level

  /** Pair j is the last one whose level the difficulty reaches. */
  predicate LastReached(table: seq<(int, int)>, difficulty: int, j: int) {
    && 0 <= j < |table|
    && table[j].1 <= difficulty
    && forall k :: j < k < |table| ==> table[k].1 > difficulty
  }

  /** The value of a table of (value, level) pairs at a difficulty, read from the end. */
  function FromDifficultyLevel(table: seq<(int, int)>, difficulty: int): (r: int)
    ensures (exists j :: 0 <= j < |table| && table[j].1 <= difficulty) ==>
              exists j :: LastReached(table, difficulty, j) && r == table[j].0
    ensures (forall j :: 0 <= j < |table| ==> table[j].1 > difficulty) ==> r == 0
    decreases |table|
  {
    if |table| == 0 then 0
    else if difficulty >= table[|table| - 1].1 then
      assert LastReached(table, difficulty, |table| - 1);
      table[|table| - 1].0
    else
      var front := table[..|table| - 1];
      var r := FromDifficultyLevel(front, difficulty);
      assert forall j :: 0 <= j < |front| ==> front[j] == table[j];
      if exists j :: 0 <= j < |table| && table[j].1 <= difficulty then
        var j :| LastReached(front, difficulty, j) && r == front[j].0;
        assert LastReached(table, difficulty, j);
        r
      else r
  }

  /** Levels ascending, values ascending and non-negative. */
  predicate AscendingTable(table: seq<(int, int)>) {
    && (forall i, j :: 0 <= i < j < |table| ==> table[i].1 <= table[j].1 && table[i].0 <= table[j].0)
    && (forall i :: 0 <= i < |table| ==> table[i].0 >= 0)
  }

  /** On an ascending table a higher difficulty never gives a lower value. */
  lemma {:induction false} DifficultyMonotone(table: seq<(int, int)>, d1: int, d2: int)
    requires AscendingTable(table) && d1 <= d2
    ensures FromDifficultyLevel(table, d1) <= FromDifficultyLevel(table, d2)
  {
    var v1 := FromDifficultyLevel(table, d1);
    var v2 := FromDifficultyLevel(table, d2);
    if exists j :: 0 <= j < |table| && table[j].1 <= d1 {
      var j1 :| LastReached(table, d1, j1) && v1 == table[j1].0;
      assert table[j1].1 <= d2;
      var j2 :| LastReached(table, d2, j2) && v2 == table[j2].0;
      assert !(j2 < j1 < |table|) by { assert table[j1].1 <= d2; }
      assert j1 == j2 || table[j1].0 <= table[j2].0;
    } else if exists j :: 0 <= j < |table| && table[j].1 <= d2 {
      var j2 :| LastReached(table, d2, j2) && v2 == table[j2].0;
      assert v2 >= 0;
    }
  }
}

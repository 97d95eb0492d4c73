/**
 * The AI behaviours: a basic NPC that hunts the player, a confused NPC that
 * staggers about for a while, and an explorer that walks planned routes.
 * Field of view is a set of visible cells, and every route or random step
 * the behaviours need is supplied by the caller.
 */
module Ai {
  import opened Wrappers
  import opened Constants
  import opened Tiles
  import opened Pieces
  import opened Utility
  import opened Deaths
  import opened Classes

  /** Piece i has an AI of the given kind. */
  predicate HasBasicNpc(w: GameMap, i: nat) {
    i < |w.objects| && w.objects[i].ai == Some(BasicNpc)
  }

  predicate HasConfused(w: GameMap, i: nat) {
    i < |w.objects| && w.objects[i].ai.Some? && w.objects[i].ai.value.Confused?
  }

  predicate HasExplorer(w: GameMap, i: nat) {
    i < |w.objects| && w.objects[i].ai.Some? && w.objects[i].ai.value.Explorer?
  }

  function DistanceSquared(a: GamePiece, b: GamePiece): int {
    (b.x - a.x) * (b.x - a.x) + (b.y - a.y) * (b.y - a.y)
  }

  /** Piece i with its AI replaced. */
  function SetAi(w: GameMap, i: nat, ai: Ai): (r: GameMap)
    requires Valid(w) && i < |w.objects| && w.objects[i].ai.Some?
    ensures Valid(r) && r.level == w.level && r.player == w.player && |r.objects| == |w.objects|
    ensures r.objects == w.objects[i := w.objects[i].(ai := Some(ai))]
  {
    w.(objects := w.objects[i := w.objects[i].(ai := Some(ai))])
  }

  // ---------------------------------------------------------------------------
  // Confused NPC

  /**
   * A confused NPC's turn. While turns remain it staggers by the random step
   * (dx, dy) and counts one turn down; once none remain it gets its old AI
   * back and does not move.
   */
  function ConfusedTurn(w: GameMap, i: nat, dx: int, dy: int): (r: GameMap)
    requires Valid(w) && HasConfused(w, i) && UnitStep(dx, dy)
    ensures Valid(r) && r.level == w.level && r.player == w.player && |r.objects| == |w.objects|
    ensures forall j :: 0 <= j < |w.objects| && j != i ==> r.objects[j] == w.objects[j]
    ensures var c := w.objects[i].ai.value;
            c.numTurns > 0 ==>
              r.objects[i] == Move(w, i, dx, dy).objects[i].(ai := Some(Confused(c.oldAi, c.numTurns - 1)))
    ensures var c := w.objects[i].ai.value;
            c.numTurns <= 0 ==> r.objects[i] == w.objects[i].(ai := Some(c.oldAi))
  {
    var c := w.objects[i].ai.value;
    if c.numTurns > 0 then
      SetAi(Move(w, i, dx, dy), i, Confused(c.oldAi, c.numTurns - 1))
    else
      SetAi(w, i, c.oldAi)
  }

  /** Staggers that the random generator can produce. */
  predicate AllUnit(steps: seq<(int, int)>) {
    forall k :: 0 <= k < |steps| ==> UnitStep(steps[k].0, steps[k].1)
  }

  /**
   * Consecutive turns of an NPC confused for n more turns, at most n + 1 of
   * them. After k <= n turns it is still confused with n - k turns left; the
   * turn after that restores the old AI.
   */
  function ConfusedRun(w: GameMap, i: nat, steps: seq<(int, int)>): (r: GameMap)
    requires Valid(w) && HasConfused(w, i) && AllUnit(steps)
    requires 0 <= w.objects[i].ai.value.numTurns && |steps| <= w.objects[i].ai.value.numTurns + 1
    ensures Valid(r) && r.level == w.level && r.player == w.player && |r.objects| == |w.objects|
    ensures forall j :: 0 <= j < |w.objects| && j != i ==> r.objects[j] == w.objects[j]
    ensures var c := w.objects[i].ai.value;
            |steps| <= c.numTurns ==> r.objects[i].ai == Some(Confused(c.oldAi, c.numTurns - |steps|))
    ensures var c := w.objects[i].ai.value;
            |steps| == c.numTurns + 1 ==> r.objects[i].ai == Some(c.oldAi)
    decreases |steps|
  {
    if |steps| == 0 then w
    else
      var w1 := ConfusedTurn(w, i, steps[0].0, steps[0].1);
      if |steps| == 1 then w1
      else
        assert AllUnit(steps[1..]) by {
          forall k | 0 <= k < |steps| - 1 ensures UnitStep(steps[1..][k].0, steps[1..][k].1) {
            assert steps[1..][k] == steps[k + 1];
          }
        }
        ConfusedRun(w1, i, steps[1..])
  }

  /**
   * Confusion for n turns lasts exactly n turns: the count never goes
   * negative, and the old AI comes back on call n + 1.
   */
  lemma {:induction false} ConfusionEndsOnCallNPlusOne(w: GameMap, i: nat, steps: seq<(int, int)>, k: nat)
    requires Valid(w) && HasConfused(w, i) && AllUnit(steps)
    requires 0 <= w.objects[i].ai.value.numTurns && |steps| == w.objects[i].ai.value.numTurns + 1
    requires k < |steps|
    ensures var c := w.objects[i].ai.value;
            AllUnit(steps[..k]) &&
            ConfusedRun(w, i, steps[..k]).objects[i].ai == Some(Confused(c.oldAi, c.numTurns - k)) &&
            c.numTurns - k >= 0
    ensures ConfusedRun(w, i, steps).objects[i].ai == Some(w.objects[i].ai.value.oldAi)
  {
    UnitPrefix(steps, k);
    var pre := steps[..k];
    var c := w.objects[i].ai.value;
    assert |pre| == k <= c.numTurns;
  }

  /** A prefix of staggers the generator can produce is one too. */
  lemma {:induction false} UnitPrefix(steps: seq<(int, int)>, k: nat)
    requires AllUnit(steps) && k <= |steps|
    ensures AllUnit(steps[..k])
  {
    forall j | 0 <= j < k ensures UnitStep(steps[..k][j].0, steps[..k][j].1) {
      assert steps[..k][j] == steps[j];
    }
  }

  // ---------------------------------------------------------------------------
  // Basic NPC

  /**
   * A blow at the player moves no piece in the list, and the attacker keeps
   * its AI and its flag; only its wait changes, unless it is the player.
   */
  lemma {:induction false} AttackOnPlayer(w: GameMap, i: nat)
    requires Valid(w) && i < |w.objects| && w.objects[i].fighter.Some?
    ensures var a := Attack(w, i, w.player);
            && a.player == w.player
            && (forall j :: 0 <= j < |w.objects| && j != i && j != w.player ==> a.objects[j] == w.objects[j])
            && a.objects[i].wait == w.objects[i].fighter.value.attackSpeed
            && a.objects[i].ai == w.objects[i].ai && a.objects[i].spoken == w.objects[i].spoken
  {
    var d := AttackDamage(w, i, w.player);
    assert forall k :: HitIndex(w, w.player, d, k) == k;
    if d > 0 && Kills(w.objects[w.player], d) {
      var h := TakeDamage(w, w.player, d);
      assert h.objects[w.player] == PlayerCorpse(Wounded(w.objects[w.player], d)).0;
    }
  }

  /**
   * An adjacent basic NPC attacks the player and, the first time, introduces
   * itself. The flag says whether it introduced itself now.
   */
  function NpcStrikes(w: GameMap, i: nat): (r: (GameMap, bool))
    requires Valid(w) && HasBasicNpc(w, i)
    ensures Valid(r.0) && r.0.level == w.level && r.0.player == w.player && |r.0.objects| == |w.objects|
    ensures forall j :: 0 <= j < |w.objects| && j != i && j != w.player ==> r.0.objects[j] == w.objects[j]
    ensures r.0.objects[i].ai == w.objects[i].ai && r.0.objects[i].spoken
    ensures r.0.objects[i].wait == w.objects[i].fighter.value.attackSpeed
    ensures i != w.player ==> r.0.objects[w.player] == Attack(w, i, w.player).objects[w.player]
    ensures r.1 == !w.objects[i].spoken
  {
    var a := Attack(w, i, w.player);
    AttackOnPlayer(w, i);
    if a.objects[i].spoken then (a, false)
    else
      ReplaceKeepsValid(a, i, a.objects[i].(spoken := true));
      (a.(objects := a.objects[i := a.objects[i].(spoken := true)]), true)
  }

  /**
   * A basic NPC's turn, given the visible cells and the next cell of a route
   * to the player. Unseen, it does nothing. Two or more cells away it steps
   * along the route; adjacent, it attacks a player with hit points left and
   * introduces itself the first time. The flag says whether it introduced
   * itself on this turn.
   */
  function BasicNpcTurn(w: GameMap, i: nat, fov: set<Cell>, towards: Cell): (r: (GameMap, bool))
    requires Valid(w) && HasBasicNpc(w, i)
    ensures Valid(r.0) && r.0.level == w.level && r.0.player == w.player && |r.0.objects| == |w.objects|
    ensures forall j :: 0 <= j < |w.objects| && j != i && j != w.player ==> r.0.objects[j] == w.objects[j]
    ensures r.0.objects[i].ai == w.objects[i].ai
    ensures (w.objects[i].x, w.objects[i].y) !in fov ==> r == (w, false)
    ensures (w.objects[i].x, w.objects[i].y) in fov && DistanceSquared(w.objects[i], w.objects[w.player]) >= 4 ==>
              r == (MoveTowards(w, i, towards), false)
    ensures (w.objects[i].x, w.objects[i].y) in fov && DistanceSquared(w.objects[i], w.objects[w.player]) < 4 ==>
              if w.objects[w.player].fighter.value.hp > 0 then
                && r.0.objects[i].spoken
                && r.0.objects[i].wait == w.objects[i].fighter.value.attackSpeed
                && (i != w.player ==> r.0.objects[w.player] == Attack(w, i, w.player).objects[w.player])
                && r.1 == !w.objects[i].spoken
              else r == (w, false)
    ensures w.objects[i].spoken ==> r.0.objects[i].spoken
    ensures r.1 ==> !w.objects[i].spoken
  {
    var npc := w.objects[i];
    var player := w.objects[w.player];
    if (npc.x, npc.y) !in fov then (w, false)
    else if DistanceSquared(npc, player) >= 4 then (MoveTowards(w, i, towards), false)
    else if player.fighter.value.hp > 0 then NpcStrikes(w, i)
    else (w, false)
  }

  /** The introduction is made at most once: never on two turns in a row, nor after. */
  lemma {:induction false} IntroducedOnce(w: GameMap, i: nat, fov1: set<Cell>, towards1: Cell, fov2: set<Cell>, towards2: Cell)
    requires Valid(w) && HasBasicNpc(w, i)
    ensures var r1 := BasicNpcTurn(w, i, fov1, towards1);
            HasBasicNpc(r1.0, i) && !(r1.1 && BasicNpcTurn(r1.0, i, fov2, towards2).1)
  {
    var r1 := BasicNpcTurn(w, i, fov1, towards1);
    assert r1.0.objects[i].ai == w.objects[i].ai by {
      var npc := w.objects[i];
      if (npc.x, npc.y) in fov1 && DistanceSquared(npc, w.objects[w.player]) < 4 && w.objects[w.player].fighter.value.hp > 0 {
        var d := AttackDamage(w, i, w.player);
        assert HitIndex(w, w.player, d, i) == i;
      }
    }
  }

  // ---------------------------------------------------------------------------
  // Explorer

  /**
   * The explorer's private pathfinding map: inside the top-left border, a
   * cell can be walked iff its tile is not blocked and seen through iff its
   * tile does not block sight; the top and left border lines stay closed.
   */
  method NewExplorer(m: Grid) returns (ai: Ai)
    requires WellFormed(m)
    ensures ai.Explorer? && ai.path == []
    ensures |ai.pathMap| == MapWidth && forall x :: 0 <= x < MapWidth ==> |ai.pathMap[x]| == MapHeight
    ensures forall x, y :: 1 <= x < MapWidth && 1 <= y < MapHeight ==>
              ai.pathMap[x][y] == PathCell(!m[x][y].blockSight, !m[x][y].blocked)
    ensures forall x, y :: InBounds(x, y) && (x == 0 || y == 0) ==> ai.pathMap[x][y] == PathCell(false, false)
  {
    var closed: seq<seq<PathCell>> := seq(MapWidth, x => seq(MapHeight, y => PathCell(false, false)));
    var pathMap := Paint(closed, 1, MapWidth, 1, MapHeight,
                         (x: int, y: int, c: PathCell) =>
                           if 0 <= x < |m| && 0 <= y < |m[x]| then PathCell(!m[x][y].blockSight, !m[x][y].blocked) else c);
    ai := Explorer(pathMap, []);
  }

  /**
   * An explorer's turn. With a route left it takes the route's next cell
   * off and steps toward it; with the route used up it plans the new route
   * `replan` (supplied by the caller) and does not move.
   */
  function ExplorerTurn(w: GameMap, i: nat, replan: seq<Cell>): (r: GameMap)
    requires Valid(w) && HasExplorer(w, i)
    ensures Valid(r) && r.level == w.level && r.player == w.player && |r.objects| == |w.objects|
    ensures forall j :: 0 <= j < |w.objects| && j != i ==> r.objects[j] == w.objects[j]
    ensures HasExplorer(r, i) && r.objects[i].ai.value.pathMap == w.objects[i].ai.value.pathMap
    ensures var e := w.objects[i].ai.value;
            |e.path| > 0 ==>
              r.objects[i] == MoveTowards(w, i, e.path[0]).objects[i].(ai := Some(e.(path := e.path[1..])))
    ensures var e := w.objects[i].ai.value;
            |e.path| == 0 ==> r.objects[i] == w.objects[i].(ai := Some(e.(path := replan)))
  {
    var e := w.objects[i].ai.value;
    if |e.path| > 0 then SetAi(MoveTowards(w, i, e.path[0]), i, e.(path := e.path[1..]))
    else SetAi(w, i, e.(path := replan))
  }

  /** Route cells each one step from the one before, starting one step from `start`. */
  predicate StepByStep(start: Cell, route: seq<Cell>) {
    && (|route| > 0 ==> Adjacent(start, route[0]))
    && forall k :: 0 < k < |route| ==> Adjacent(route[k - 1], route[k])
  }

  /** b is one step (or no step) from a. */
  predicate Adjacent(a: Cell, b: Cell) {
    UnitStep(b.0 - a.0, b.1 - a.1)
  }

  /** No tile of the route is a wall and no blocking piece other than piece i stands on it. */
  ghost predicate RouteOpen(w: GameMap, i: nat, route: seq<Cell>) {
    WellFormed(w.level) && forall k :: 0 <= k < |route| ==>
      InBounds(route[k].0, route[k].1) && !w.level[route[k].0][route[k].1].blocked &&
      forall j :: 0 <= j < |w.objects| && j != i ==> !BlocksAt(w.objects[j], route[k].0, route[k].1)
  }

  /** n consecutive explorer turns in which no new route is needed. */
  function ExplorerWalk(w: GameMap, i: nat, n: nat): (r: GameMap)
    requires Valid(w) && HasExplorer(w, i) && n <= |w.objects[i].ai.value.path|
    ensures Valid(r) && HasExplorer(r, i) && r.level == w.level && r.player == w.player && |r.objects| == |w.objects|
    ensures forall j :: 0 <= j < |w.objects| && j != i ==> r.objects[j] == w.objects[j]
    ensures r.objects[i].ai.value.path == w.objects[i].ai.value.path[n..]
    decreases n
  {
    if n == 0 then w
    else
      var w1 := ExplorerTurn(w, i, []);
      ExplorerWalk(w1, i, n - 1)
  }

  /** One turn on an open route of single steps lands on the route's first cell. */
  lemma {:induction false} ExplorerStepArrives(w: GameMap, i: nat)
    requires Valid(w) && HasExplorer(w, i) && |w.objects[i].ai.value.path| > 0
    requires var p := w.objects[i]; StepByStep((p.x, p.y), p.ai.value.path) && RouteOpen(w, i, p.ai.value.path)
    ensures var q := ExplorerTurn(w, i, []).objects[i];
            (q.x, q.y) == w.objects[i].ai.value.path[0]
  {
    var p := w.objects[i];
    var next := p.ai.value.path[0];
    assert UnitStep(next.0 - p.x, next.1 - p.y);
    if next != (p.x, p.y) {
      assert !IsBlocked(w.level, w.objects, next.0, next.1);
    }
    MoveTowardsHeadsForNext(w, i, next);
  }

  /**
   * Walking an open route of single steps: after n turns the explorer
   * stands on the route's n-th cell, and after the whole route on its last.
   */
  lemma {:induction false} ExplorerFollowsRoute(w: GameMap, i: nat, n: nat)
    requires Valid(w) && HasExplorer(w, i)
    requires var p := w.objects[i]; StepByStep((p.x, p.y), p.ai.value.path) && RouteOpen(w, i, p.ai.value.path)
    requires 0 < n <= |w.objects[i].ai.value.path|
    ensures var q := ExplorerWalk(w, i, n).objects[i];
            (q.x, q.y) == w.objects[i].ai.value.path[n - 1]
    decreases n
  {
    var p := w.objects[i];
    var route := p.ai.value.path;
    ExplorerStepArrives(w, i);
    var w1 := ExplorerTurn(w, i, []);
    var q := w1.objects[i];
    if n > 1 {
      var rest := route[1..];
      assert q.ai.value.path == rest;
      assert StepByStep((q.x, q.y), rest) by {
        assert rest[0] == route[1];
        forall k | 0 < k < |rest| ensures Adjacent(rest[k - 1], rest[k]) {
          assert rest[k - 1] == route[k] && rest[k] == route[k + 1];
        }
      }
      assert RouteOpen(w1, i, rest) by {
        forall k | 0 <= k < |rest| ensures
          InBounds(rest[k].0, rest[k].1) && !w1.level[rest[k].0][rest[k].1].blocked &&
          forall j :: 0 <= j < |w1.objects| && j != i ==> !BlocksAt(w1.objects[j], rest[k].0, rest[k].1)
        {
          assert rest[k] == route[k + 1];
        }
      }
      ExplorerFollowsRoute(w1, i, n - 1);
    }
  }

  // ---------------------------------------------------------------------------
  // Dispatch

  /** What the caller supplies for one AI turn: a random stagger, a route step, a new route. */
  datatype TurnInput = TurnInput(dx: int, dy: int, towards: Cell, replan: seq<Cell>)

  predicate InputOk(input: TurnInput) {
    UnitStep(input.dx, input.dy)
  }

  /**
   * Piece i takes the turn its AI decides. Which turn that is is stated
   * by `TurnByKind`, so that callers reasoning about many turns carry only
   * the frame facts below.
   */
  function TakeTurn(w: GameMap, i: nat, fov: set<Cell>, input: TurnInput): (r: GameMap)
    requires Valid(w) && i < |w.objects| && w.objects[i].ai.Some? && InputOk(input)
    ensures Valid(r) && r.level == w.level && r.player == w.player && |r.objects| == |w.objects|
    ensures forall j :: 0 <= j < |w.objects| && j != i && j != w.player ==> r.objects[j] == w.objects[j]
  {
    match w.objects[i].ai.value
    case BasicNpc => BasicNpcTurn(w, i, fov, input.towards).0
    case Confused(_, _) => ConfusedTurn(w, i, input.dx, input.dy)
    case Explorer(_, _) => ExplorerTurn(w, i, input.replan)
  }

  /** Each kind of AI takes its own kind of turn, with its own part of the input. */
  lemma {:induction false} TurnByKind(w: GameMap, i: nat, fov: set<Cell>, input: TurnInput)
    requires Valid(w) && i < |w.objects| && w.objects[i].ai.Some? && InputOk(input)
    ensures w.objects[i].ai == Some(BasicNpc) ==> TakeTurn(w, i, fov, input) == BasicNpcTurn(w, i, fov, input.towards).0
    ensures w.objects[i].ai.value.Confused? ==> TakeTurn(w, i, fov, input) == ConfusedTurn(w, i, input.dx, input.dy)
    ensures w.objects[i].ai.value.Explorer? ==> TakeTurn(w, i, fov, input) == ExplorerTurn(w, i, input.replan)
  {
  }
}

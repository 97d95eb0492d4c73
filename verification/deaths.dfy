/**
 * The death callbacks: what a fighter turns into when its hit points run out.
 */
module Deaths {
  import opened Wrappers
  import opened Tiles
  import opened Pieces

  const CorpseGlyph: char := '%'
  const CorpsePrefix: string := "remains of "

  /**
   * The player becomes a corpse in place and the game is declared over. Only
   * the look and the name change: the player keeps fighting stats and blocks.
   */
  function PlayerCorpse(p: GamePiece): (r: (GamePiece, GameState))
    ensures r.1 == Dead
    ensures r.0.glyph == CorpseGlyph && r.0.name == CorpsePrefix + p.name
    ensures r.0.(glyph := p.glyph, name := p.name) == p
  {
    (p.(glyph := CorpseGlyph, name := CorpsePrefix + p.name), Dead)
  }

  /** An NPC becomes a corpse that no longer blocks, fights or acts. */
  function NpcCorpse(p: GamePiece): (r: GamePiece)
    ensures r.glyph == CorpseGlyph && r.name == CorpsePrefix + p.name
    ensures !r.blocks && r.fighter.None? && r.ai.None?
    ensures r.(glyph := p.glyph, name := p.name, blocks := p.blocks, fighter := p.fighter, ai := p.ai) == p
  {
    p.(glyph := CorpseGlyph, blocks := false, fighter := None, ai := None, name := CorpsePrefix + p.name)
  }

  /** An NPC dies: piece i becomes a corpse and is sent to the front of the drawing order. */
  function NpcDies(w: GameMap, i: nat): (r: GameMap)
    requires i < |w.objects|
    ensures r.level == w.level && |r.objects| == |w.objects|
    ensures r.objects[0] == NpcCorpse(w.objects[i])
    ensures forall k :: 0 <= k < |w.objects| && k != i ==> r.objects[FrontIndex(i, k)] == w.objects[k]
    ensures r.player == FrontIndex(i, w.player)
    ensures Valid(w) && i != w.player ==> Valid(r)
  {
    var w1 := w.(objects := w.objects[i := NpcCorpse(w.objects[i])]);
    SendToBackWorldValid(w1, i);
    SendToBackWorld(w1, i)
  }

  /** Dying a second time only lengthens the corpse's name. */
  lemma {:induction false} NpcDiesTwice(w: GameMap, i: nat)
    requires i < |w.objects|
    ensures var r := NpcDies(w, i);
            NpcDies(r, 0) == r.(objects := r.objects[0 := r.objects[0].(name := CorpsePrefix + r.objects[0].name)])
  {
    var r := NpcDies(w, i);
    var r2 := NpcDies(r, 0);
    var expected := r.(objects := r.objects[0 := r.objects[0].(name := CorpsePrefix + r.objects[0].name)]);
    assert forall k :: 0 < k < |r.objects| ==> r2.objects[FrontIndex(0, k)] == r.objects[k];
    assert r2.objects == expected.objects;
  }

  /** Where piece k ends up after piece i dies by `fn`. */
  function AfterDeath(fn: Option<DeathFn>, i: nat, k: nat): (r: nat)
    ensures fn != Some(NpcDeath) ==> r == k
    ensures fn == Some(NpcDeath) ==> (k == i ==> r == 0) && (k < i ==> r == k + 1) && (k > i ==> r == k)
  {
    if fn == Some(NpcDeath) then FrontIndex(i, k) else k
  }

  /** The piece p turns into when it dies by `fn`. */
  function DeathOf(fn: Option<DeathFn>, p: GamePiece): (r: GamePiece)
    ensures fn.None? ==> r == p
    ensures fn.Some? ==> r.glyph == CorpseGlyph && r.name == CorpsePrefix + p.name && r.x == p.x && r.y == p.y
    ensures fn == Some(PlayerDeath) ==> r.blocks == p.blocks && r.fighter == p.fighter && r.ai == p.ai
    ensures fn == Some(NpcDeath) ==> !r.blocks && r.fighter.None? && r.ai.None?
  {
    match fn
    case None => p
    case Some(PlayerDeath) => PlayerCorpse(p).0
    case Some(NpcDeath) => NpcCorpse(p)
  }

  /**
   * Run the death callback `fn` on piece i. The game state the player's
   * callback returns is dropped, as the caller in the game drops it.
   */
  function Die(w: GameMap, i: nat, fn: Option<DeathFn>): (r: GameMap)
    requires i < |w.objects|
    ensures r.level == w.level && |r.objects| == |w.objects|
    ensures r.objects[AfterDeath(fn, i, i)] == DeathOf(fn, w.objects[i])
    ensures forall k :: 0 <= k < |w.objects| && k != i ==> r.objects[AfterDeath(fn, i, k)] == w.objects[k]
    ensures r.player == AfterDeath(fn, i, w.player)
    ensures Valid(w) && (fn == Some(NpcDeath) ==> i != w.player) ==> Valid(r)
  {
    match fn
    case None => w
    case Some(PlayerDeath) =>
      var r := w.(objects := w.objects[i := PlayerCorpse(w.objects[i]).0]);
      assert forall j :: 0 <= j < |r.objects| && j != i ==> r.objects[j] == w.objects[j];
      r
    case Some(NpcDeath) => NpcDies(w, i)
  }
}

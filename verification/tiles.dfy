/**
 * The map of one play area: tiles, rectangles, and the carving steps that
 * build a surface level (rooms, buildings, tunnels, the impassable border and
 * the doors punched into building walls).
 *
 * A map is a sequence of columns, so `m[x][y]` is the tile at column x, row y,
 * exactly as the game indexes it. Colours are cosmetic and not modelled.
 */
module Tiles {
  import opened Wrappers
  import opened Constants

  /** A map coordinate (x, y). */
  type Cell = (int, int)

  /** What a designated tile is to be turned into. */
  datatype DesignationKind = Clearing

  datatype Tile = Tile(
    blocked: bool,      // impassable
    blockSight: bool,   // opaque to field of view
    glyph: char,
    outdoors: bool,
    mapEdge: bool,
    explored: bool,
    designated: bool,   // marked for construction work
    designationType: Option<DesignationKind>,
    designationChar: Option<char>)

  type Grid = seq<seq<Tile>>

  /** The map has the fixed playing-area size. */
  predicate WellFormed(m: Grid) {
    |m| == MapWidth && forall x :: 0 <= x < |m| ==> |m[x]| == MapHeight
  }

  predicate InBounds(x: int, y: int) {
    0 <= x < MapWidth && 0 <= y < MapHeight
  }

  predicate OnBorder(x: int, y: int) {
    InBounds(x, y) && (x == 0 || x == MapWidth - 1 || y == 0 || y == MapHeight - 1)
  }

  predicate Interior(x: int, y: int) {
    1 <= x < MapWidth - 1 && 1 <= y < MapHeight - 1
  }

  /** Every border cell is impassable and flagged as map edge. */
  ghost predicate BorderClosed(m: Grid)
    requires WellFormed(m)
  {
    forall x, y :: OnBorder(x, y) ==> m[x][y].blocked && m[x][y].mapEdge
  }

  /** A fresh tile; `blockSight` defaults to true whatever `blocked` is. */
  function NewTile(blocked: bool, blockSight: bool := true, glyph: char := ' ', outdoors: bool := true): (t: Tile)
    ensures t.blocked == blocked && t.blockSight == blockSight
    ensures t.glyph == glyph && t.outdoors == outdoors
    ensures !t.explored && !t.designated && !t.mapEdge
    ensures t.designationType == None && t.designationChar == None
  {
    Tile(blocked, blockSight, glyph, outdoors, false, false, false, None, None)
  }

  lemma {:induction false} NewTileBlocksSightByDefault(blocked: bool)
    ensures NewTile(blocked).blockSight
    ensures NewTile(blocked).blocked == blocked
  {
  }

  // ---------------------------------------------------------------------------
  // Rectangles

  /** Corners (x1, y1) and (x2, y2); both corners belong to the rectangle. */
  datatype Rect = Rect(x1: int, y1: int, x2: int, y2: int)

  datatype Side = Left | Right | Top | Bottom

  function NewRect(x: int, y: int, w: int, h: int): (r: Rect)
    ensures r.x1 == x && r.y1 == y
    ensures r.x2 - r.x1 == w && r.y2 - r.y1 == h
  {
    Rect(x, y, x + w, y + h)
  }

  /** The closed rectangle contains (x, y). */
  predicate Contains(r: Rect, x: int, y: int) {
    r.x1 <= x <= r.x2 && r.y1 <= y <= r.y2
  }

  /** (x, y) lies on the outline of r. */
  predicate OnRectEdge(r: Rect, x: int, y: int) {
    Contains(r, x, y) && (x == r.x1 || x == r.x2 || y == r.y1 || y == r.y2)
  }

  /** (x, y) lies strictly inside the outline of r. */
  predicate StrictlyInside(r: Rect, x: int, y: int) {
    r.x1 < x < r.x2 && r.y1 < y < r.y2
  }

  /** The floored midpoint of the rectangle. */
  function Center(r: Rect): (c: Cell)
    ensures 2 * c.0 <= r.x1 + r.x2 < 2 * c.0 + 2
    ensures 2 * c.1 <= r.y1 + r.y2 < 2 * c.1 + 2
    ensures r.x1 <= r.x2 && r.y1 <= r.y2 ==> Contains(r, c.0, c.1)
  {
    ((r.x1 + r.x2) / 2, (r.y1 + r.y2) / 2)
  }

  /**
   * The overlap test of two rooms. With inclusive bounds, for proper
   * rectangles it holds exactly when some cell lies in both.
   */
  function Intersect(a: Rect, b: Rect): (r: bool)
    ensures a.x1 <= a.x2 && a.y1 <= a.y2 && b.x1 <= b.x2 && b.y1 <= b.y2 ==>
              (r <==> exists x, y :: Contains(a, x, y) && Contains(b, x, y))
  {
    var x := if a.x1 <= b.x1 then b.x1 else a.x1;
    var y := if a.y1 <= b.y1 then b.y1 else a.y1;
    var r := a.x1 <= b.x2 && a.x2 >= b.x1 && a.y1 <= b.y2 && a.y2 >= b.y1;
    assert r && a.x1 <= a.x2 && a.y1 <= a.y2 && b.x1 <= b.x2 && b.y1 <= b.y2 ==>
             Contains(a, x, y) && Contains(b, x, y);
    r
  }

  lemma {:induction false} IntersectSymmetricReflexive(a: Rect, b: Rect)
    ensures Intersect(a, b) == Intersect(b, a)
    ensures a.x1 <= a.x2 && a.y1 <= a.y2 ==> Intersect(a, a)
  {
  }

  /** The middle of one wall, where a door goes. */
  function MiddleOfWall(r: Rect, side: Side): (c: Cell)
    ensures side == Left ==> c.0 == r.x1 && 2 * c.1 <= r.y1 + r.y2 < 2 * c.1 + 2
    ensures side == Right ==> c.0 == r.x2 && 2 * c.1 <= r.y1 + r.y2 < 2 * c.1 + 2
    ensures side == Top ==> c.1 == r.y1 && 2 * c.0 <= r.x1 + r.x2 < 2 * c.0 + 2
    ensures side == Bottom ==> c.1 == r.y2 && 2 * c.0 <= r.x1 + r.x2 < 2 * c.0 + 2
    ensures r.x1 <= r.x2 && r.y1 <= r.y2 ==> OnRectEdge(r, c.0, c.1)
  {
    match side
    case Left => (r.x1, (r.y1 + r.y2) / 2)
    case Right => (r.x2, (r.y1 + r.y2) / 2)
    case Top => ((r.x1 + r.x2) / 2, r.y1)
    case Bottom => ((r.x1 + r.x2) / 2, r.y2)
  }

  // ---------------------------------------------------------------------------
  // Carving

  /**
   * The nested `for x in range(xlo, xhi): for y in range(ylo, yhi)` loop that
   * every carving step uses: applies f to each cell of the half-open block.
   */
  method Paint<T>(g: seq<seq<T>>, xlo: int, xhi: int, ylo: int, yhi: int, f: (int, int, T) -> T)
    returns (r: seq<seq<T>>)
    requires xlo < xhi && ylo < yhi ==>
      0 <= xlo && xhi <= |g| && 0 <= ylo && forall x :: xlo <= x < xhi ==> yhi <= |g[x]|
    ensures |r| == |g|
    ensures forall x :: 0 <= x < |g| ==> |r[x]| == |g[x]|
    ensures forall x, y :: 0 <= x < |g| && 0 <= y < |g[x]| ==>
      r[x][y] == (if xlo <= x < xhi && ylo <= y < yhi then f(x, y, g[x][y]) else g[x][y])
  {
    r := g;
    if xhi <= xlo || yhi <= ylo {
      return;
    }
    var x := xlo;
    while x < xhi
      invariant xlo <= x <= xhi
      invariant |r| == |g|
      invariant forall i :: 0 <= i < |g| ==> |r[i]| == |g[i]|
      invariant forall i, j :: 0 <= i < |g| && 0 <= j < |g[i]| ==>
        r[i][j] == (if xlo <= i < x && ylo <= j < yhi then f(i, j, g[i][j]) else g[i][j])
    {
      var y := ylo;
      while y < yhi
        invariant ylo <= y <= yhi
        invariant |r| == |g|
        invariant forall i :: 0 <= i < |g| ==> |r[i]| == |g[i]|
        invariant forall i, j :: 0 <= i < |g| && 0 <= j < |g[i]| ==>
          r[i][j] == (if (xlo <= i < x && ylo <= j < yhi) || (i == x && ylo <= j < y) then f(i, j, g[i][j]) else g[i][j])
      {
        r := r[x := r[x][y := f(x, y, r[x][y])]];
        y := y + 1;
      }
      x := x + 1;
    }
  }

  /** A tile after digging: passable and see-through. */
  function Carve(t: Tile): Tile {
    t.(blocked := false, blockSight := false)
  }

  function Min(a: int, b: int): int { if a <= b then a else b }
  function Max(a: int, b: int): int { if a <= b then b else a }

  /** v lies between a and b inclusive, in either order. */
  predicate Between(v: int, a: int, b: int) {
    a <= v <= b || b <= v <= a
  }

  /** Dig out the room: every cell strictly inside the outline, nothing else. */
  method CreateRoom(m: Grid, room: Rect) returns (r: Grid)
    requires WellFormed(m)
    requires room.x1 + 1 < room.x2 && room.y1 + 1 < room.y2 ==>
      -1 <= room.x1 && room.x2 <= MapWidth && -1 <= room.y1 && room.y2 <= MapHeight
    ensures WellFormed(r)
    ensures forall x, y :: InBounds(x, y) && StrictlyInside(room, x, y) ==> r[x][y] == Carve(m[x][y])
    ensures forall x, y :: InBounds(x, y) && !StrictlyInside(room, x, y) ==> r[x][y] == m[x][y]
  {
    r := Paint(m, room.x1 + 1, room.x2, room.y1 + 1, room.y2, (x: int, y: int, t: Tile) => Carve(t));
  }

  /** The building footprint lies inside the map, as generated buildings do. */
  predicate BuildingFits(b: Rect) {
    0 <= b.x1 <= b.x2 < MapWidth && 0 <= b.y1 <= b.y2 < MapHeight
  }

  /**
   * Clear the footprint as indoor floor, then wall in its outline: outline
   * cells end blocked and opaque, inner cells open, both indoors.
   */
  method CreateBuilding(m: Grid, b: Rect) returns (r: Grid)
    requires WellFormed(m) && BuildingFits(b)
    ensures WellFormed(r)
    ensures forall x, y :: InBounds(x, y) && OnRectEdge(b, x, y) ==>
      r[x][y] == m[x][y].(blocked := true, blockSight := true, outdoors := false)
    ensures forall x, y :: InBounds(x, y) && StrictlyInside(b, x, y) ==>
      r[x][y] == m[x][y].(blocked := false, blockSight := false, outdoors := false)
    ensures forall x, y :: InBounds(x, y) && !Contains(b, x, y) ==> r[x][y] == m[x][y]
  {
    r := Paint(m, b.x1, b.x2 + 1, b.y1, b.y2 + 1,
               (x: int, y: int, t: Tile) => t.(blocked := false, blockSight := false, outdoors := false));
    var wall := (x: int, y: int, t: Tile) => t.(blocked := true, blockSight := true);
    r := Paint(r, b.x1, b.x2 + 1, b.y1, b.y1 + 1, wall);
    r := Paint(r, b.x1, b.x2 + 1, b.y2, b.y2 + 1, wall);
    r := Paint(r, b.x1, b.x1 + 1, b.y1, b.y2 + 1, wall);
    r := Paint(r, b.x2, b.x2 + 1, b.y1, b.y2 + 1, wall);
  }

  /** Dig a horizontal corridor on row y, endpoints included, in either order. */
  method CreateHTunnel(m: Grid, x1: int, x2: int, y: int) returns (r: Grid)
    requires WellFormed(m) && InBounds(x1, y) && InBounds(x2, y)
    ensures WellFormed(r)
    ensures forall x, y' :: InBounds(x, y') && y' == y && Between(x, x1, x2) ==> r[x][y'] == Carve(m[x][y'])
    ensures forall x, y' :: InBounds(x, y') && !(y' == y && Between(x, x1, x2)) ==> r[x][y'] == m[x][y']
  {
    r := Paint(m, Min(x1, x2), Max(x1, x2) + 1, y, y + 1, (x: int, y: int, t: Tile) => Carve(t));
  }

  /** Dig a vertical corridor on column x, endpoints included, in either order. */
  method CreateVTunnel(m: Grid, y1: int, y2: int, x: int) returns (r: Grid)
    requires WellFormed(m) && InBounds(x, y1) && InBounds(x, y2)
    ensures WellFormed(r)
    ensures forall x', y :: InBounds(x', y) && x' == x && Between(y, y1, y2) ==> r[x'][y] == Carve(m[x'][y])
    ensures forall x', y :: InBounds(x', y) && !(x' == x && Between(y, y1, y2)) ==> r[x'][y] == m[x'][y]
  {
    r := Paint(m, x, x + 1, Min(y1, y2), Max(y1, y2) + 1, (x: int, y: int, t: Tile) => Carve(t));
  }

  /** The open surface every level starts from. */
  function NewSurfaceGrid(): (m: Grid)
    ensures WellFormed(m)
    ensures forall x, y :: InBounds(x, y) ==> m[x][y] == NewTile(false, false, ' ')
  {
    seq(MapWidth, x => seq(MapHeight, y => NewTile(false, false, ' ')))
  }

  /** Wall in the whole map: the four border lines become impassable map edge. */
  method AddBorder(m: Grid) returns (r: Grid)
    requires WellFormed(m)
    ensures WellFormed(r) && BorderClosed(r)
    ensures forall x, y :: OnBorder(x, y) ==> r[x][y] == m[x][y].(blocked := true, blockSight := true, mapEdge := true)
    ensures forall x, y :: InBounds(x, y) && !OnBorder(x, y) ==> r[x][y] == m[x][y]
  {
    var edge := (x: int, y: int, t: Tile) => t.(blocked := true, blockSight := true, mapEdge := true);
    r := Paint(m, 0, MapWidth, 0, 1, edge);
    r := Paint(r, 0, MapWidth, MapHeight - 1, MapHeight, edge);
    r := Paint(r, 0, 1, 0, MapHeight, edge);
    r := Paint(r, MapWidth - 1, MapWidth, 0, MapHeight, edge);
  }

  /**
   * Raise rock on the interior cells the terrain generator marks as rough;
   * the generator's noise itself is a parameter.
   */
  method ApplyTerrain(m: Grid, rough: (int, int) -> bool) returns (r: Grid)
    requires WellFormed(m)
    ensures WellFormed(r)
    ensures forall x, y :: Interior(x, y) && rough(x, y) ==> r[x][y] == m[x][y].(blocked := true, blockSight := true)
    ensures forall x, y :: InBounds(x, y) && !(Interior(x, y) && rough(x, y)) ==> r[x][y] == m[x][y]
  {
    r := Paint(m, 1, MapWidth - 1, 1, MapHeight - 1,
               (x: int, y: int, t: Tile) => if rough(x, y) then t.(blocked := true, blockSight := true) else t);
  }

  // ---------------------------------------------------------------------------
  // Doors

  function DoorGlyph(side: Side): char {
    if side == Left || side == Right then 29 as char else 18 as char
  }

  /** r differs from m only by doors: tiles that were blocked, not map edge, and are now open. */
  ghost predicate OnlyOpened(m: Grid, r: Grid)
    requires WellFormed(m) && WellFormed(r)
  {
    forall x, y :: InBounds(x, y) ==>
      r[x][y] == m[x][y] ||
      (m[x][y].blocked && !m[x][y].mapEdge && r[x][y] == m[x][y].(glyph := r[x][y].glyph, blocked := false))
  }

  lemma {:induction false} OnlyOpenedTransitive(a: Grid, b: Grid, c: Grid)
    requires WellFormed(a) && WellFormed(b) && WellFormed(c)
    requires OnlyOpened(a, b) && OnlyOpened(b, c)
    ensures OnlyOpened(a, c)
  {
    forall x, y | InBounds(x, y)
      ensures c[x][y] == a[x][y] ||
        (a[x][y].blocked && !a[x][y].mapEdge && c[x][y] == a[x][y].(glyph := c[x][y].glyph, blocked := false))
    {
      if b[x][y] != a[x][y] {
        assert !b[x][y].blocked;
        assert c[x][y] == b[x][y];
      }
    }
  }

  /** Opening a door only affects a blocked tile that is not on the map edge. */
  function PunchDoor(m: Grid, c: Cell, glyph: char): (r: Grid)
    requires WellFormed(m) && InBounds(c.0, c.1)
    ensures WellFormed(r) && OnlyOpened(m, r)
    ensures forall x, y :: InBounds(x, y) && (x, y) != c ==> r[x][y] == m[x][y]
    ensures r[c.0][c.1] != m[c.0][c.1] <==> m[c.0][c.1].blocked && !m[c.0][c.1].mapEdge
    ensures r[c.0][c.1] != m[c.0][c.1] ==> !r[c.0][c.1].blocked && r[c.0][c.1].glyph == glyph
  {
    var t := m[c.0][c.1];
    if t.blocked && !t.mapEdge then m[c.0 := m[c.0][c.1 := t.(glyph := glyph, blocked := false)]] else m
  }

  /** The four doors of one building: left, top, right, bottom, in that order. */
  function PunchBuildingDoors(m: Grid, b: Rect): (r: Grid)
    requires WellFormed(m) && BuildingFits(b)
    ensures WellFormed(r) && OnlyOpened(m, r)
    ensures forall x, y :: InBounds(x, y) && !OnRectEdge(b, x, y) ==> r[x][y] == m[x][y]
  {
    var m1 := PunchDoor(m, MiddleOfWall(b, Left), DoorGlyph(Left));
    var m2 := PunchDoor(m1, MiddleOfWall(b, Top), DoorGlyph(Top));
    var m3 := PunchDoor(m2, MiddleOfWall(b, Right), DoorGlyph(Right));
    var m4 := PunchDoor(m3, MiddleOfWall(b, Bottom), DoorGlyph(Bottom));
    OnlyOpenedTransitive(m, m1, m2);
    OnlyOpenedTransitive(m, m2, m3);
    OnlyOpenedTransitive(m, m3, m4);
    m4
  }

  /** Doors for every building, after all buildings stand. */
  function PunchDoors(m: Grid, buildings: seq<Rect>): (r: Grid)
    requires WellFormed(m)
    requires forall i :: 0 <= i < |buildings| ==> BuildingFits(buildings[i])
    ensures WellFormed(r) && OnlyOpened(m, r)
    decreases |buildings|
  {
    if |buildings| == 0 then m
    else
      var m1 := PunchBuildingDoors(m, buildings[0]);
      var r := PunchDoors(m1, buildings[1..]);
      OnlyOpenedTransitive(m, m1, r);
      r
  }

  /** Door punching never opens the border. */
  lemma {:induction false} OnlyOpenedKeepsBorder(m: Grid, r: Grid)
    requires WellFormed(m) && WellFormed(r) && BorderClosed(m) && OnlyOpened(m, r)
    ensures BorderClosed(r)
    ensures forall x, y :: OnBorder(x, y) ==> r[x][y] == m[x][y]
  {
  }

  /** A building keeps a closed border closed: its inner cells are never border cells. */
  lemma {:induction false} BuildingKeepsBorder(m: Grid, b: Rect, r: Grid)
    requires WellFormed(m) && WellFormed(r) && BuildingFits(b) && BorderClosed(m)
    requires forall x, y :: InBounds(x, y) && OnRectEdge(b, x, y) ==>
      r[x][y] == m[x][y].(blocked := true, blockSight := true, outdoors := false)
    requires forall x, y :: InBounds(x, y) && StrictlyInside(b, x, y) ==>
      r[x][y] == m[x][y].(blocked := false, blockSight := false, outdoors := false)
    requires forall x, y :: InBounds(x, y) && !Contains(b, x, y) ==> r[x][y] == m[x][y]
    ensures BorderClosed(r)
    ensures forall x, y :: OnBorder(x, y) ==> r[x][y].blockSight == (m[x][y].blockSight || Contains(b, x, y))
  {
    forall x, y | OnBorder(x, y)
      ensures r[x][y].blocked && r[x][y].mapEdge
      ensures r[x][y].blockSight == (m[x][y].blockSight || Contains(b, x, y))
    {
      assert !StrictlyInside(b, x, y);
    }
  }

  /**
   * The surface level: open ground, an impassable border, rough terrain,
   * the buildings in order, then their doors. Noise and building placement
   * are parameters.
   */
  method MakeSurfaceMap(rough: (int, int) -> bool, buildings: seq<Rect>) returns (r: Grid)
    requires forall i :: 0 <= i < |buildings| ==> BuildingFits(buildings[i])
    ensures WellFormed(r) && BorderClosed(r)
    ensures forall x, y :: OnBorder(x, y) ==> r[x][y].blockSight
    ensures forall x, y ::
      (Interior(x, y) && !rough(x, y) && forall i :: 0 <= i < |buildings| ==> !Contains(buildings[i], x, y)) ==>
      !r[x][y].blocked && r[x][y].outdoors
  {
    r := NewSurfaceGrid();
    r := AddBorder(r);
    r := ApplyTerrain(r, rough);
    var i := 0;
    while i < |buildings|
      invariant 0 <= i <= |buildings|
      invariant WellFormed(r) && BorderClosed(r)
      invariant forall x, y :: OnBorder(x, y) ==> r[x][y].blockSight
      invariant forall x, y ::
        (Interior(x, y) && !rough(x, y) && forall j :: 0 <= j < i ==> !Contains(buildings[j], x, y)) ==>
        !r[x][y].blocked && r[x][y].outdoors
    {
      var next := CreateBuilding(r, buildings[i]);
      BuildingKeepsBorder(r, buildings[i], next);
      r := next;
      i := i + 1;
    }
    var doors := PunchDoors(r, buildings);
    OnlyOpenedKeepsBorder(r, doors);
    r := doors;
  }
}

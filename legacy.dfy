/** The single-player prototype: a player moved a fixed number of pixels by
    the held WASD keys, and a world of obstacles scattered on a tile grid. */
module LegacyGame {

  /** Pixels per movement step. */
  const PlayerSpeed: int := 10

  /** Which of the four movement keys are held. */
  datatype Keys = Keys(w: bool, s: bool, a: bool, d: bool)

  const NoKeys := Keys(false, false, false, false)

  type Point = (int, int)

  /** The position the held keys aim at: W up, S down, A left, D right,
      each by `speed`, each key independently. */
  function Candidate(x: int, y: int, speed: int, keys: Keys): (c: Point)
    ensures c.0 - x in {-speed, 0, speed} && c.1 - y in {-speed, 0, speed}
  {
    (x + (if keys.d then speed else 0) - (if keys.a then speed else 0),
     y + (if keys.s then speed else 0) - (if keys.w then speed else 0))
  }

  /** Holding two opposite keys is the same as holding neither. */
  lemma OppositeKeysCancel(x: int, y: int, speed: int, keys: Keys)
    ensures Candidate(x, y, speed, keys.(w := true, s := true)) == Candidate(x, y, speed, keys.(w := false, s := false))
    ensures Candidate(x, y, speed, keys.(a := true, d := true)) == Candidate(x, y, speed, keys.(a := false, d := false))
  {
  }

  /** The step moves by `speed` along each axis whose key pair is pressed
      on one side only, and not at all along the other axes. */
  lemma CandidateAxes(x: int, y: int, speed: int, keys: Keys)
    ensures Candidate(x, y, speed, keys).0 == x <==> (keys.a == keys.d || speed == 0)
    ensures Candidate(x, y, speed, keys).1 == y <==> (keys.w == keys.s || speed == 0)
  {
  }

  class Player {
    var x: int
    var y: int
    var size: int
    var color: (int, int, int)
    var speed: int

    constructor (x: int, y: int, size: int, color: (int, int, int))
      ensures this.x == x && this.y == y && this.size == size && this.color == color
      ensures speed == PlayerSpeed
    {
      this.x, this.y, this.size, this.color := x, y, size, color;
      speed := PlayerSpeed;
    }

    /** Moves to the candidate position unless an obstacle sits exactly
        there. */
    method Move(keys: Keys, obstacles: set<Point>)
      modifies this`x, this`y
      ensures var c := Candidate(old(x), old(y), speed, keys);
        (x, y) == if c in obstacles then (old(x), old(y)) else c
      ensures (x, y) !in obstacles || (x, y) == (old(x), old(y))
    {
      var newX, newY := x, y;
      if keys.w { newY := newY - speed; }
      if keys.s { newY := newY + speed; }
      if keys.a { newX := newX - speed; }
      if keys.d { newX := newX + speed; }
      if (newX, newY) !in obstacles {
        x, y := newX, newY;
      }
    }
  }

  /** Without a key held the player stays put. */
  lemma NoKeysNoMove(x: int, y: int, speed: int)
    ensures Candidate(x, y, speed, NoKeys) == (x, y)
  {
  }

  /** Multiples of `tile` that fit in [0, extent). */
  predicate OnGrid(v: int, tile: int, extent: int) {
    0 <= v < extent && tile > 0 && v % tile == 0
  }

  lemma MultipleMod(i: nat, tile: int)
    requires tile > 0
    ensures (i * tile) % tile == 0
  {
    var q, r := (i * tile) / tile, (i * tile) % tile;
    assert i * tile == q * tile + r;
    var d := i - q;
    assert d * tile == r;
  }

  /** A cell index scaled to pixels stays inside the world. */
  lemma ScaledInside(i: nat, tile: int, extent: int)
    requires tile > 0 && i <= extent / tile - 1
    ensures OnGrid(i * tile, tile, extent)
  {
    var q := extent / tile;
    assert extent == q * tile + extent % tile;
    assert i * tile <= (q - 1) * tile;
    MultipleMod(i, tile);
  }

  /** How many random draws the generator makes. */
  const ObstacleDraws := 50

  class GameWorld {
    const width: int
    const height: int
    const tileSize: int
    var obstacles: set<Point>

    /** Every obstacle is a tile corner inside the world. */
    predicate Valid()
      reads this
    {
      && |obstacles| <= ObstacleDraws
      && forall p :: p in obstacles ==> OnGrid(p.0, tileSize, width) && OnGrid(p.1, tileSize, height)
    }

    /** Builds the world; `draws` are the 50 random (column, row) indices
        the generator picks, each within the grid (the generator fails
        unless at least one tile fits on each axis). */
    constructor (width: int, height: int, tileSize: int, draws: seq<Point>)
      requires tileSize > 0 && width >= tileSize && height >= tileSize
      requires |draws| == ObstacleDraws
      requires forall k :: 0 <= k < |draws| ==>
                 0 <= draws[k].0 <= width / tileSize - 1 && 0 <= draws[k].1 <= height / tileSize - 1
      ensures this.width == width && this.height == height && this.tileSize == tileSize
      ensures Valid()
      ensures obstacles == Scaled(draws, tileSize)
    {
      this.width, this.height, this.tileSize := width, height, tileSize;
      new;
      obstacles := GenerateObstacles(width, height, tileSize, draws);
    }
  }

  /** The obstacle set the draws stand for. */
  function Scaled(draws: seq<Point>, tile: int): (s: set<Point>)
    ensures |s| <= |draws|
  {
    if draws == [] then {}
    else Scaled(draws[..|draws| - 1], tile) + {(draws[|draws| - 1].0 * tile, draws[|draws| - 1].1 * tile)}
  }

  /** The obstacles are the scaled draws, collected one draw at a time. */
  method GenerateObstacles(width: int, height: int, tileSize: int, draws: seq<Point>) returns (obstacles: set<Point>)
    requires tileSize > 0
    requires |draws| == ObstacleDraws
    requires forall k :: 0 <= k < |draws| ==>
               0 <= draws[k].0 <= width / tileSize - 1 && 0 <= draws[k].1 <= height / tileSize - 1
    ensures obstacles == Scaled(draws, tileSize)
    ensures |obstacles| <= ObstacleDraws
    ensures forall p :: p in obstacles ==> OnGrid(p.0, tileSize, width) && OnGrid(p.1, tileSize, height)
  {
    obstacles := {};
    for k := 0 to ObstacleDraws
      invariant obstacles == Scaled(draws[..k], tileSize)
      invariant forall p :: p in obstacles ==> OnGrid(p.0, tileSize, width) && OnGrid(p.1, tileSize, height)
    {
      ScaledInside(draws[k].0, tileSize, width);
      ScaledInside(draws[k].1, tileSize, height);
      assert draws[..k + 1][..k] == draws[..k];
      obstacles := obstacles + {(draws[k].0 * tileSize, draws[k].1 * tileSize)};
    }
    assert draws[..ObstacleDraws] == draws;
  }
}

/** The mapping from grid cells to world coordinates on the floor plane.
    The cell size is 6, so every coordinate the game computes from a cell is
    an exact integer and the model uses `int` throughout. */
module Coords {
  import opened Grid

  /** Cell size, in world units. */
  const S: int := 6

  /** A point on the floor plane: world `x` grows east, world `z` grows south. */
  datatype Point = Point(x: int, z: int)

  /** The world coordinate of the grid's west (north) edge for width (height)
      `n`: the floor of side n*S is centred on the world origin. */
  function Origin1(n: int): int {
    -(n * S) / 2
  }

  /** The world point at the centre of cell (x, y) of a w-by-h maze. */
  function CellCenter(w: int, h: int, x: int, y: int): (c: Point)
    ensures c.x - Origin1(w) == x * S + S / 2
    ensures c.z - Origin1(h) == y * S + S / 2
    ensures (c.x - Origin1(w)) / S == x && (c.z - Origin1(h)) / S == y
  {
    Point(Origin1(w) + x * S + S / 2, Origin1(h) + y * S + S / 2)
  }

  /** The edge of a grid of side `n` is exactly half the floor away from the
      world origin: the origin is -n*S/2, which is the integer -3n. */
  lemma {:induction false} OriginExact(n: int)
    ensures Origin1(n) == -3 * n
    ensures 2 * Origin1(n) == -(n * S)
  {
    assert n * S == 2 * (3 * n);
  }

  /** The centre of an in-grid cell lies strictly inside the floor, which
      spans [-n*S/2, n*S/2] on each axis. */
  lemma CenterOnFloor(w: int, h: int, x: int, y: int)
    requires InBounds(Pos(x, y), w, h)
    ensures var c := CellCenter(w, h, x, y);
      Origin1(w) < c.x < -Origin1(w) && Origin1(h) < c.z < -Origin1(h)
  {
    OriginExact(w);
    OriginExact(h);
  }

  /** Neighbouring cells' centres are exactly S apart, in the direction of the step. */
  lemma CenterSpacing(w: int, h: int, p: Pos, d: int)
    requires IsDir(d)
    ensures var q := Step(p, d);
      CellCenter(w, h, q.x, q.y).x == CellCenter(w, h, p.x, p.y).x + S * DX[d] &&
      CellCenter(w, h, q.x, q.y).z == CellCenter(w, h, p.x, p.y).z + S * DY[d]
  {
  }

  /** The maze is centred on the world origin: mirroring a cell through the
      grid's centre negates its centre point. */
  lemma CenterSymmetric(w: int, h: int, x: int, y: int)
    ensures CellCenter(w, h, x, y).x == -CellCenter(w, h, w - 1 - x, h - 1 - y).x
    ensures CellCenter(w, h, x, y).z == -CellCenter(w, h, w - 1 - x, h - 1 - y).z
  {
    OriginExact(w);
    OriginExact(h);
  }
}

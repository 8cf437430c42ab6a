/** The flow field of artp5/sketch.js: the `cols` x `rows` grid of direction
    vectors, the particles that are pushed along it, and the tracer that turns
    each particle's path into a polyline (`drawFlowFieldLines`).

    Perlin noise and `p5.Vector.fromAngle` are a `sample` function from grid
    cell to vector; `vel.limit(maxspeed)` is a `limit` function whose results
    obey `IsLimit`. Positions are exact reals. */
module FlowField {
  import opened P5Random

  /** `scl`: the side of one grid cell in pixels. */
  const Scl: nat := 20

  datatype Option<T> = None | Some(value: T)

  datatype Vec = Vec(x: real, y: real)

  function Add(a: Vec, b: Vec): Vec {
    Vec(a.x + b.x, a.y + b.y)
  }

  function Zero(): Vec {
    Vec(0.0, 0.0)
  }

  function Norm2(v: Vec): real {
    v.x * v.x + v.y * v.y
  }

  /** `v.limit(m)` as p5 defines it, without the square root: `v` itself when
      its length is at most `m`, otherwise the vector of length `m` that
      points the same way. */
  predicate IsLimit(v: Vec, m: real, r: Vec) {
    if Norm2(v) <= m * m then r == v
    else Norm2(r) == m * m && r.x * v.y == r.y * v.x && r.x * v.x + r.y * v.y > 0.0
  }

  ghost predicate LimitLaw(limit: (Vec, real) -> Vec) {
    forall v: Vec, m: real :: m > 0.0 ==> IsLimit(v, m, limit(v, m))
  }

  // ---------------------------------------------------------------------------
  // Grid sizing and indexing

  /** `cols = floor(width / scl)`. */
  function Cols(width: nat): (r: nat)
    ensures r * Scl <= width < (r + 1) * Scl
  {
    width / Scl
  }

  /** `rows = floor(height / scl)`. */
  function Rows(height: nat): (r: nat)
    ensures r * Scl <= height < (r + 1) * Scl
  {
    height / Scl
  }

  /** An 800 x 600 canvas has a 40 x 30 grid of 1200 cells. */
  lemma DefaultCanvasGrid()
    ensures Cols(800) == 40 && Rows(600) == 30 && Cols(800) * Rows(600) == 1200
  {
  }

  /** `index = x + y * cols`. */
  function GridIndex(x: int, y: int, cols: int): int {
    x + y * cols
  }

  lemma {:induction false} GridIndexInRange(x: nat, y: nat, cols: nat, rows: nat)
    requires x < cols && y < rows
    ensures 0 <= GridIndex(x, y, cols) < cols * rows
  {
    assert y * cols + cols == (y + 1) * cols;
    assert (y + 1) * cols <= rows * cols by {
      MulMono(y + 1, rows, cols);
    }
  }

  lemma MulMono(a: nat, b: nat, c: nat)
    requires a <= b
    ensures a * c <= b * c
  {
    assert b * c == a * c + (b - a) * c;
  }

  /** Column and row of a cell are recovered from its index. */
  lemma {:induction false} GridIndexSplit(x: nat, y: nat, cols: nat)
    requires x < cols
    ensures GridIndex(x, y, cols) % cols == x && GridIndex(x, y, cols) / cols == y
  {
    var i := GridIndex(x, y, cols);
    assert i == y * cols + x;
    assert i / cols == y && i % cols == x by {
      DivModUnique(i, cols, y, x);
    }
  }

  lemma DivModUnique(i: int, n: int, q: int, r: int)
    requires n > 0 && 0 <= r < n && i == q * n + r
    ensures i / n == q && i % n == r
  {
    var q' := i / n;
    var r' := i % n;
    assert i == q' * n + r';
    assert (q - q') * n == r' - r;
    if q > q' {
      assert (q - q') * n >= n by {
        MulMono(1, q - q', n);
      }
    } else if q < q' {
      assert (q' - q) * n >= n by {
        MulMono(1, q' - q, n);
      }
    }
  }

  /** Distinct cells have distinct indices. */
  lemma GridIndexInjective(x1: nat, y1: nat, x2: nat, y2: nat, cols: nat)
    requires x1 < cols && x2 < cols
    requires GridIndex(x1, y1, cols) == GridIndex(x2, y2, cols)
    ensures x1 == x2 && y1 == y2
  {
    GridIndexSplit(x1, y1, cols);
    GridIndexSplit(x2, y2, cols);
  }

  /** Every index of the array is the index of one cell of the grid. */
  lemma {:induction false} GridIndexOnto(i: nat, cols: nat, rows: nat)
    requires i < cols * rows
    ensures cols > 0
    ensures i % cols < cols && i / cols < rows
    ensures GridIndex(i % cols, i / cols, cols) == i
  {
    var q := i / cols;
    if q >= rows {
      MulMono(rows, q, cols);
      assert false;
    }
  }

  /** The array holds, at every index, the sample of the cell it belongs to. */
  predicate Filled(s: seq<Option<Vec>>, cols: nat, sample: (nat, nat) -> Vec) {
    FilledUpTo(s, |s|, cols, sample)
  }

  /** A filled field is determined by the samples: filling the same grid twice
      from the same sample gives the same field. */
  lemma FilledDeterministic(s: seq<Option<Vec>>, t: seq<Option<Vec>>, cols: nat, rows: nat,
                            sample: (nat, nat) -> Vec)
    requires |s| == cols * rows && |t| == cols * rows
    requires Filled(s, cols, sample) && Filled(t, cols, sample)
    ensures s == t
  {
    forall i | 0 <= i < |s|
      ensures s[i] == t[i]
    {
      GridIndexOnto(i, cols, rows);
    }
  }

  // ---------------------------------------------------------------------------
  // The grid (`cols`, `rows`, `flowfield`)

  class FlowGrid {
    const cols: nat
    const rows: nat
    const field: array<Option<Vec>>

    /** The sizing in `setup` (repeated in `windowResized`): a fresh array of
        `cols * rows` entries, none of them set yet. */
    constructor (width: nat, height: nat)
      ensures cols == Cols(width) && rows == Rows(height)
      ensures field.Length == cols * rows && fresh(field)
      ensures forall i :: 0 <= i < field.Length ==> field[i] == None
    {
      cols := Cols(width);
      rows := Rows(height);
      field := new Option<Vec>[Cols(width) * Rows(height)](_ => None);
    }

    /** `updateFlowField`: row by row, column by column, the cell at `x`,
        `y` gets the vector sampled there. */
    method UpdateFlowField(sample: (nat, nat) -> Vec)
      requires field.Length == cols * rows
      modifies field
      ensures Filled(field[..], cols, sample)
    {
      var y := 0;
      while y < rows
        invariant 0 <= y <= rows
        invariant FilledUpTo(field[..], y * cols, cols, sample)
      {
        FillRow(y, sample);
        y := y + 1;
      }
      assert rows * cols == field.Length;
    }

    /** The inner loop of `updateFlowField`, for row `y`. */
    method FillRow(y: nat, sample: (nat, nat) -> Vec)
      requires field.Length == cols * rows && y < rows
      requires FilledUpTo(field[..], y * cols, cols, sample)
      modifies field
      ensures FilledUpTo(field[..], (y + 1) * cols, cols, sample)
    {
      var x := 0;
      while x < cols
        invariant 0 <= x <= cols
        invariant FilledUpTo(field[..], y * cols + x, cols, sample)
      {
        var index := GridIndex(x, y, cols);
        GridIndexInRange(x, y, cols, rows);
        GridIndexSplit(x, y, cols);
        FilledStep(field[..], index, cols, sample, Some(sample(x, y)));
        field[index] := Some(sample(x, y));
        x := x + 1;
      }
      assert y * cols + cols == (y + 1) * cols;
    }
  }

  /** The first `n` entries hold the samples of their cells. */
  predicate FilledUpTo(s: seq<Option<Vec>>, n: nat, cols: nat, sample: (nat, nat) -> Vec) {
    n <= |s| && (cols > 0 ==> forall i :: 0 <= i < n ==> s[i] == Some(sample(i % cols, i / cols)))
  }

  lemma FilledStep(s: seq<Option<Vec>>, n: nat, cols: nat, sample: (nat, nat) -> Vec, v: Option<Vec>)
    requires FilledUpTo(s, n, cols, sample) && n < |s| && cols > 0
    requires v == Some(sample(n % cols, n / cols))
    ensures FilledUpTo(s[n := v], n + 1, cols, sample)
  {
  }

  // ---------------------------------------------------------------------------
  // One particle, as values

  /** The three vectors of a particle that change while it is traced. */
  datatype Mover = Mover(pos: Vec, vel: Vec, acc: Vec)

  /** The cell index `follow` computes for a position. */
  function CellIndex(pos: Vec, cols: int): int {
    GridIndex((pos.x / Scl as real).Floor, (pos.y / Scl as real).Floor, cols)
  }

  /** `follow`: add the force stored at the particle's cell, provided the
      index lies inside the array and the entry is set. */
  function FollowStep(m: Mover, field: seq<Option<Vec>>, cols: int): Mover {
    var index := CellIndex(m.pos, cols);
    if 0 <= index < |field| && field[index].Some? then
      m.(acc := Add(m.acc, field[index].value))
    else m
  }

  /** `update`: acceleration into velocity, capped at `maxspeed`, velocity
      into position, acceleration back to zero. */
  function UpdateStep(m: Mover, maxspeed: real, limit: (Vec, real) -> Vec): Mover {
    var vel := limit(Add(m.vel, m.acc), maxspeed);
    Mover(Add(m.pos, vel), vel, Zero())
  }

  /** The guard of `follow`: an index outside the array, or an entry not yet
      set, leaves the particle as it was; only the acceleration ever changes. */
  lemma FollowGuard(m: Mover, field: seq<Option<Vec>>, cols: int)
    ensures FollowStep(m, field, cols).pos == m.pos
    ensures FollowStep(m, field, cols).vel == m.vel
    ensures !(0 <= CellIndex(m.pos, cols) < |field|) ==> FollowStep(m, field, cols) == m
    ensures FollowStep(m, field, cols) != m ==>
      0 <= CellIndex(m.pos, cols) < |field| && field[CellIndex(m.pos, cols)].Some?
  {
  }

  /** On a filled grid, a particle inside the covered area is pushed by the
      vector sampled at the cell it is in. */
  lemma {:induction false} FollowReadsOwnCell(m: Mover, field: seq<Option<Vec>>, cols: nat, rows: nat,
                                              sample: (nat, nat) -> Vec)
    requires |field| == cols * rows && Filled(field, cols, sample)
    requires 0.0 <= m.pos.x < (cols * Scl) as real && 0.0 <= m.pos.y < (rows * Scl) as real
    ensures 0 <= (m.pos.x / Scl as real).Floor < cols && 0 <= (m.pos.y / Scl as real).Floor < rows
    ensures FollowStep(m, field, cols).acc ==
      Add(m.acc, sample((m.pos.x / Scl as real).Floor, (m.pos.y / Scl as real).Floor))
  {
    var cx := (m.pos.x / Scl as real).Floor;
    var cy := (m.pos.y / Scl as real).Floor;
    assert 0 <= cx < cols;
    assert 0 <= cy < rows;
    GridIndexInRange(cx, cy, cols, rows);
    GridIndexSplit(cx, cy, cols);
  }

  /** At the right edge the lookup wraps: a particle whose column would be
      `cols` (which happens at `x == width` when the width is a multiple of
      `scl`) reads the first cell of the next row. */
  lemma {:induction false} FollowWrapsAtRightEdge(pos: Vec, cols: nat)
    requires (cols * Scl) as real <= pos.x < ((cols + 1) * Scl) as real && 0.0 <= pos.y
    ensures CellIndex(pos, cols) == GridIndex(0, (pos.y / Scl as real).Floor + 1, cols)
  {
    assert (pos.x / Scl as real).Floor == cols;
  }

  /** `update` always clears the acceleration, and the new speed never exceeds
      `maxspeed`. */
  lemma UpdateClearsAcceleration(m: Mover, maxspeed: real, limit: (Vec, real) -> Vec)
    requires maxspeed > 0.0 && LimitLaw(limit)
    ensures UpdateStep(m, maxspeed, limit).acc == Zero()
    ensures Norm2(UpdateStep(m, maxspeed, limit).vel) <= maxspeed * maxspeed
    ensures UpdateStep(m, maxspeed, limit).pos == Add(m.pos, UpdateStep(m, maxspeed, limit).vel)
  {
    var v := Add(m.vel, m.acc);
    assert IsLimit(v, maxspeed, limit(v, maxspeed));
  }

  /** The break test of the tracer: outside [0, width] x [0, height]. */
  predicate OffCanvas(pos: Vec, width: real, height: real) {
    pos.x < 0.0 || pos.x > width || pos.y < 0.0 || pos.y > height
  }

  datatype Traced = Traced(vertices: seq<Vec>, last: Mover)

  /** The inner loop of `drawFlowFieldLines` for one particle: at most `steps`
      rounds of vertex, follow, update, stopping at the first position off the
      canvas. */
  function Trace(m: Mover, maxspeed: real, field: seq<Option<Vec>>, cols: int,
                 width: real, height: real, limit: (Vec, real) -> Vec, steps: nat): Traced
    decreases steps
  {
    if steps == 0 || OffCanvas(m.pos, width, height) then Traced([], m)
    else
      var t := Trace(UpdateStep(FollowStep(m, field, cols), maxspeed, limit),
                     maxspeed, field, cols, width, height, limit, steps - 1);
      Traced([m.pos] + t.vertices, t.last)
  }

  /** The polyline has at most `steps` vertices, all on the canvas, starting at
      the particle's position; a shorter one ends because the particle left the
      canvas. */
  lemma {:induction false} TraceBounds(m: Mover, maxspeed: real, field: seq<Option<Vec>>, cols: int,
                                       width: real, height: real, limit: (Vec, real) -> Vec, steps: nat)
    ensures |Trace(m, maxspeed, field, cols, width, height, limit, steps).vertices| <= steps
    ensures forall k :: 0 <= k < |Trace(m, maxspeed, field, cols, width, height, limit, steps).vertices| ==>
      !OffCanvas(Trace(m, maxspeed, field, cols, width, height, limit, steps).vertices[k], width, height)
    ensures |Trace(m, maxspeed, field, cols, width, height, limit, steps).vertices| > 0 ==>
      Trace(m, maxspeed, field, cols, width, height, limit, steps).vertices[0] == m.pos
    ensures |Trace(m, maxspeed, field, cols, width, height, limit, steps).vertices| < steps ==>
      OffCanvas(Trace(m, maxspeed, field, cols, width, height, limit, steps).last.pos, width, height)
    decreases steps
  {
    if steps > 0 && !OffCanvas(m.pos, width, height) {
      var n := UpdateStep(FollowStep(m, field, cols), maxspeed, limit);
      TraceBounds(n, maxspeed, field, cols, width, height, limit, steps - 1);
    }
  }

  /** The number of steps per line: `int(random(50, 600))`. */
  function StepCount(u: real): (r: nat)
    requires Unit(u)
    ensures 50 <= r < 600
  {
    IntBetween(50, 600, u)
  }

  // ---------------------------------------------------------------------------
  // Particles as objects

  class FlowParticle {
    var pos: Vec
    var vel: Vec
    var acc: Vec
    const maxspeed: real

    ghost function View(): Mover
      reads this
    {
      Mover(pos, vel, acc)
    }

    /** `new Particle()`: a random position on the canvas, at rest, with a
        random top speed in [2, 6). */
    constructor (width: real, height: real, ux: real, uy: real, us: real)
      requires width >= 0.0 && height >= 0.0 && Unit(ux) && Unit(uy) && Unit(us)
      ensures 0.0 <= pos.x <= width && 0.0 <= pos.y <= height
      ensures vel == Zero() && acc == Zero()
      ensures 2.0 <= maxspeed < 6.0
    {
      if width > 0.0 {
        ScaleBelow(width, ux);
      }
      if height > 0.0 {
        ScaleBelow(height, uy);
      }
      pos := Vec(Scale(width, ux), Scale(height, uy));
      vel := Zero();
      acc := Zero();
      maxspeed := Between(2.0, 6.0, us);
    }

    method Follow(vectors: array<Option<Vec>>, cols: nat)
      modifies this`acc
      ensures View() == FollowStep(old(View()), vectors[..], cols)
    {
      var x := (pos.x / Scl as real).Floor;
      var y := (pos.y / Scl as real).Floor;
      var index := x + y * cols;
      if index >= 0 && index < vectors.Length {
        var force := vectors[index];
        if force.Some? {
          ApplyForce(force.value);
        }
      }
    }

    method ApplyForce(force: Vec)
      modifies this`acc
      ensures acc == Add(old(acc), force)
    {
      acc := Add(acc, force);
    }

    method Update(limit: (Vec, real) -> Vec)
      modifies this
      ensures View() == UpdateStep(old(View()), maxspeed, limit)
    {
      vel := Add(vel, acc);
      vel := limit(vel, maxspeed);
      pos := Add(pos, vel);
      acc := Vec(acc.x * 0.0, acc.y * 0.0);
    }

    /** One line of `drawFlowFieldLines`: the vertices handed to `vertex`. */
    method TraceLine(vectors: array<Option<Vec>>, cols: nat, width: real, height: real,
                     limit: (Vec, real) -> Vec, steps: nat)
      returns (vertices: seq<Vec>)
      modifies this
      ensures vertices == Trace(old(View()), maxspeed, vectors[..], cols, width, height, limit, steps).vertices
      ensures View() == Trace(old(View()), maxspeed, vectors[..], cols, width, height, limit, steps).last
    {
      ghost var goal := Trace(View(), maxspeed, vectors[..], cols, width, height, limit, steps);
      vertices := [];
      var step := 0;
      while step < steps
        invariant 0 <= step <= steps
        invariant goal.vertices ==
          vertices + Trace(View(), maxspeed, vectors[..], cols, width, height, limit, steps - step).vertices
        invariant goal.last ==
          Trace(View(), maxspeed, vectors[..], cols, width, height, limit, steps - step).last
      {
        if pos.x < 0.0 || pos.x > width || pos.y < 0.0 || pos.y > height {
          break;
        }
        vertices := vertices + [pos];
        Follow(vectors, cols);
        Update(limit);
        step := step + 1;
      }
    }
  }

  predicate DistinctParticles(ps: seq<FlowParticle>) {
    forall i, j :: 0 <= i < j < |ps| ==> ps[i] != ps[j]
  }

  /** `numParticles = int(random(200, 1500))`: at least 200 and at most 1499. */
  function ParticleCount(u: real): (r: nat)
    requires Unit(u)
    ensures 200 <= r < 1500
  {
    IntBetween(200, 1500, u)
  }

  /** The particle loop of `generateArt`: `numParticles` new particles, each
      with its own three draws (x, y, top speed). */
  method CreateParticles(width: real, height: real, count: real, draws: seq<(real, real, real)>)
    returns (ps: seq<FlowParticle>)
    requires width >= 0.0 && height >= 0.0 && Unit(count) && |draws| >= 1500
    requires forall k :: 0 <= k < |draws| ==> Unit(draws[k].0) && Unit(draws[k].1) && Unit(draws[k].2)
    ensures |ps| == ParticleCount(count) && DistinctParticles(ps)
    ensures forall k :: 0 <= k < |ps| ==> fresh(ps[k])
    ensures forall k :: 0 <= k < |ps| ==>
      0.0 <= ps[k].pos.x <= width && 0.0 <= ps[k].pos.y <= height &&
      ps[k].vel == Zero() && ps[k].acc == Zero() && 2.0 <= ps[k].maxspeed < 6.0
  {
    var n := ParticleCount(count);
    ps := [];
    var i := 0;
    while i < n
      invariant 0 <= i <= n && |ps| == i && DistinctParticles(ps)
      invariant forall k :: 0 <= k < i ==> fresh(ps[k])
      invariant forall k :: 0 <= k < i ==>
        0.0 <= ps[k].pos.x <= width && 0.0 <= ps[k].pos.y <= height &&
        ps[k].vel == Zero() && ps[k].acc == Zero() && 2.0 <= ps[k].maxspeed < 6.0
    {
      var p := new FlowParticle(width, height, draws[i].0, draws[i].1, draws[i].2);
      ps := ps + [p];
      i := i + 1;
    }
  }

  /** `drawFlowFieldLines`: one line per particle, every line traced with the
      same step count. */
  method DrawFlowFieldLines(particles: seq<FlowParticle>, grid: FlowGrid, width: real, height: real,
                            limit: (Vec, real) -> Vec, stepsDraw: real)
    returns (steps: nat, lines: seq<seq<Vec>>)
    requires Unit(stepsDraw) && DistinctParticles(particles)
    modifies set p | p in particles
    ensures steps == StepCount(stepsDraw)
    ensures |lines| == |particles|
    ensures forall i :: 0 <= i < |particles| ==>
      lines[i] == Trace(old(particles[i].View()), particles[i].maxspeed, grid.field[..], grid.cols,
                        width, height, limit, steps).vertices &&
      particles[i].View() == Trace(old(particles[i].View()), particles[i].maxspeed, grid.field[..], grid.cols,
                                   width, height, limit, steps).last
  {
    steps := StepCount(stepsDraw);
    lines := [];
    var i := 0;
    while i < |particles|
      invariant 0 <= i <= |particles| && |lines| == i
      invariant forall k :: 0 <= k < i ==>
        lines[k] == Trace(old(particles[k].View()), particles[k].maxspeed, grid.field[..], grid.cols,
                          width, height, limit, steps).vertices &&
        particles[k].View() == Trace(old(particles[k].View()), particles[k].maxspeed, grid.field[..], grid.cols,
                                     width, height, limit, steps).last
      invariant forall k :: i <= k < |particles| ==> particles[k].View() == old(particles[k].View())
    {
      var line := particles[i].TraceLine(grid.field, grid.cols, width, height, limit, steps);
      lines := lines + [line];
      i := i + 1;
    }
  }
}

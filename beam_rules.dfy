/** Value-level rules of the beam mini-game (game1_kame/sketch.js).

    Every global of the sketch and every field of its objects appears in a
    `GameView`; each event handler and each phase of one frame of `runGame` is
    a function from one view to the next. The class layer in module
    `BeamGame` is proved to follow these functions exactly, and the lemmas
    below state what the game promises about them. */
module BeamRules {

  const MaxCharge: int := 800
  const ChargeSpeed: int := 3
  /** Damage a single beam particle deals on a hit. */
  const ParticleDamage: int := 10
  /** Frames of hit flash a target shows after being hit. */
  const HitFlash: int := 10
  /** The canvas is created as 800 x 600. */
  const Width: real := 800.0
  const Height: real := 600.0
  /** The emitter sits at (50, height / 2). */
  const PlayerX: real := 50.0

  datatype GameState = Playing | Charging | Firing | GameClear | GameOver

  /** The states in which `draw` runs `runGame`. */
  predicate Running(s: GameState) {
    s == Playing || s == Charging || s == Firing
  }

  /** A centred, axis-aligned box: centre (cx, cy), width w, height h. */
  datatype Box = Box(cx: real, cy: real, w: real, h: real)

  /** The two subclasses of `Target`; collision treats them differently. */
  datatype Kind = WallKind | TreasureKind

  datatype TargetState = TargetState(kind: Kind, box: Box, initialHp: int, hp: int, hitEffect: int)

  datatype Particle = Particle(x: real, y: real, vx: real, vy: real, size: real, life: real, damage: int)

  /** The two random values a wall hit draws: `random(0.2, 0.5)` for the
      damping of the bounce and `random()` for the vertical spread. The model
      puts no constraint on them; everything below holds for any values. */
  datatype Scatter = Scatter(damp: real, spread: real)

  /** The whole state the sketch keeps between frames. */
  datatype GameView = GameView(
    state: GameState,
    chargeTime: int,
    fireDuration: int,
    initialFireDuration: int,
    walls: seq<TargetState>,
    treasure: TargetState,
    particles: seq<Particle>)

  // ---------------------------------------------------------------------
  // Targets
  // ---------------------------------------------------------------------

  /** `Target.takeDamage`: subtract, then clamp at zero. */
  function TakeDamage(hp: int, damage: int): (r: int)
    ensures r >= 0
    ensures hp >= damage ==> r == hp - damage
    ensures hp < damage ==> r == 0
    ensures 0 <= damage && 0 <= hp ==> r <= hp
  {
    if hp - damage < 0 then 0 else hp - damage
  }

  /** The strict box test of `Target.checkCollision`: points on an edge are outside. */
  predicate Inside(b: Box, x: real, y: real) {
    b.cx - b.w / 2.0 < x < b.cx + b.w / 2.0 &&
    b.cy - b.h / 2.0 < y < b.cy + b.h / 2.0
  }

  /** A particle bouncing off a wall: pushed to the left of the wall by its own
      size, horizontal speed reversed and damped, vertical speed redrawn. */
  function Deflect(b: Box, p: Particle, s: Scatter): (q: Particle)
    ensures q.size == p.size && q.life == p.life && q.damage == p.damage && q.y == p.y
    ensures p.size > 0.0 ==> !Inside(b, q.x, q.y)
  {
    p.(x := b.cx - b.w / 2.0 - p.size, vx := -p.vx * s.damp, vy := (s.spread - 0.5) * 10.0)
  }

  datatype Contact = Contact(hit: bool, target: TargetState, particle: Particle)

  /** `Target.checkCollision`: the hit flag, the target afterwards and the
      particle afterwards. */
  function Collide(t: TargetState, p: Particle, s: Scatter): (c: Contact)
    ensures c.hit <==> t.hp > 0 && Inside(t.box, p.x, p.y)
    ensures !c.hit ==> c.target == t && c.particle == p
    ensures c.hit ==> c.target == t.(hp := TakeDamage(t.hp, p.damage), hitEffect := HitFlash)
    ensures c.hit && t.kind == WallKind ==> c.particle == Deflect(t.box, p, s)
    ensures c.hit && t.kind == TreasureKind ==> c.particle == p.(life := 0.0)
  {
    if t.hp <= 0 then Contact(false, t, p)
    else if Inside(t.box, p.x, p.y) then
      var t' := t.(hp := TakeDamage(t.hp, p.damage), hitEffect := HitFlash);
      if t.kind == WallKind then Contact(true, t', Deflect(t.box, p, s))
      else Contact(true, t', p.(life := 0.0))
    else Contact(false, t, p)
  }

  /** The flash countdown in `Wall.display` / `Treasure.display`: only a
      target that is still standing is drawn, and drawing it spends one frame
      of flash. */
  function Display(t: TargetState): (r: TargetState)
    ensures r.kind == t.kind && r.box == t.box && r.initialHp == t.initialHp && r.hp == t.hp
    ensures t.hitEffect > 0 && t.hp > 0 ==> r.hitEffect == t.hitEffect - 1
    ensures t.hitEffect <= 0 || t.hp <= 0 ==> r.hitEffect == t.hitEffect
  {
    if t.hp > 0 && t.hitEffect > 0 then t.(hitEffect := t.hitEffect - 1) else t
  }

  // ---------------------------------------------------------------------
  // Particles
  // ---------------------------------------------------------------------

  /** `Particle.update`. */
  function Advance(p: Particle): (q: Particle)
    ensures q.life == p.life - 1.0 && q.x == p.x + p.vx && q.y == p.y + p.vy
    ensures q.vx == p.vx && q.vy == p.vy && q.size == p.size && q.damage == p.damage
  {
    p.(life := p.life - 1.0, x := p.x + p.vx, y := p.y + p.vy)
  }

  /** `Particle.isDead`: out of life or off the canvas. */
  predicate IsDead(p: Particle) {
    p.life <= 0.0 || p.x > Width || p.x < 0.0 || p.y > Height || p.y < 0.0
  }

  /** A particle as `generateParticles` creates it: at the emitter's x,
      with `size = random(2, 4)`, `life = 120 + random(60)` and damage 10. */
  predicate Spawned(p: Particle) {
    p.x == PlayerX && 2.0 <= p.size < 4.0 && 120.0 <= p.life < 180.0 && p.damage == ParticleDamage
  }

  // ---------------------------------------------------------------------
  // One particle against the walls, then the treasure
  // ---------------------------------------------------------------------

  datatype WallHit = NoWall | WallAt(index: nat)

  datatype WallPass = WallPass(walls: seq<TargetState>, particle: Particle, hit: WallHit)

  /** Wall `w` would register a hit for a particle at (x, y). */
  predicate Hits(w: TargetState, x: real, y: real) {
    w.hp > 0 && Inside(w.box, x, y)
  }

  /** The inner `for (const wall of walls)` loop with its `break`: the first
      standing wall whose box holds the particle takes the hit, and no other
      wall is touched. */
  function PassWalls(ws: seq<TargetState>, p: Particle, s: Scatter): (r: WallPass)
    ensures |r.walls| == |ws|
    ensures r.hit == NoWall <==> forall j :: 0 <= j < |ws| ==> !Hits(ws[j], p.x, p.y)
    ensures r.hit == NoWall ==> r.walls == ws && r.particle == p
    ensures r.hit.WallAt? ==>
      && r.hit.index < |ws|
      && Hits(ws[r.hit.index], p.x, p.y)
      && (forall j :: 0 <= j < r.hit.index ==> !Hits(ws[j], p.x, p.y))
      && r.walls == ws[r.hit.index := Collide(ws[r.hit.index], p, s).target]
      && r.particle == Collide(ws[r.hit.index], p, s).particle
    decreases |ws|
  {
    if ws == [] then WallPass(ws, p, NoWall)
    else
      var c := Collide(ws[0], p, s);
      if ws[0].hp > 0 && c.hit then WallPass([c.target] + ws[1..], c.particle, WallAt(0))
      else
        var rest := PassWalls(ws[1..], p, s);
        WallPass([ws[0]] + rest.walls, rest.particle,
                 if rest.hit.WallAt? then WallAt(rest.hit.index + 1) else NoWall)
  }

  datatype Sweep = Sweep(walls: seq<TargetState>, treasure: TargetState, particles: seq<Particle>)

  /** One iteration of the backward particle loop of `runGame`: move, test the
      walls, and if no wall was hit test the treasure and drop the particle
      when it is dead. `particles` is what is left of it: none or one. */
  function ProcessOne(ws: seq<TargetState>, tr: TargetState, p: Particle, s: Scatter): (r: Sweep)
    ensures |r.walls| == |ws| && |r.particles| <= 1
  {
    var q := Advance(p);
    var w := PassWalls(ws, q, s);
    if w.hit.WallAt? then Sweep(w.walls, tr, [w.particle])
    else
      var c := if tr.hp > 0 then Collide(tr, q, s) else Contact(false, tr, q);
      Sweep(ws, c.target, if IsDead(c.particle) then [] else [c.particle])
  }

  /** What one iteration promises: at most one wall is hit by one particle in
      one frame; a particle that hit a wall neither reaches the treasure nor is
      removed; and a particle is removed exactly when it hit no wall and is dead
      after the treasure test. */
  lemma ProcessOneShape(ws: seq<TargetState>, tr: TargetState, p: Particle, s: Scatter)
    ensures var r := ProcessOne(ws, tr, p, s);
      && (forall j, k :: 0 <= j < k < |ws| ==> r.walls[j] == ws[j] || r.walls[k] == ws[k])
      && (r.walls != ws ==> r.treasure == tr && |r.particles| == 1)
      && (r.particles == [] <==>
           (forall j :: 0 <= j < |ws| ==> !Hits(ws[j], Advance(p).x, Advance(p).y)) &&
           IsDead(if tr.hp > 0 then Collide(tr, Advance(p), s).particle else Advance(p)))
  {
  }

  /** The whole backward loop `for (i = particles.length - 1; i >= 0; i--)`:
      the last particle is handled first, against the targets as the
      particles after it left them; survivors keep their relative order. */
  function SweepAll(ws: seq<TargetState>, tr: TargetState, ps: seq<Particle>, draws: seq<Scatter>): (r: Sweep)
    requires |draws| >= |ps|
    ensures |r.walls| == |ws| && |r.particles| <= |ps|
    decreases |ps|
  {
    if ps == [] then Sweep(ws, tr, [])
    else
      var n := |ps| - 1;
      var one := ProcessOne(ws, tr, ps[n], draws[n]);
      var rest := SweepAll(one.walls, one.treasure, ps[..n], draws);
      Sweep(rest.walls, rest.treasure, rest.particles + one.particles)
  }

  /** The positions in `ps` of the particles that survive the sweep, in the
      order they are left in. */
  function Survivors(ws: seq<TargetState>, tr: TargetState, ps: seq<Particle>, draws: seq<Scatter>): seq<nat>
    requires |draws| >= |ps|
    decreases |ps|
  {
    if ps == [] then []
    else
      var n := |ps| - 1;
      var one := ProcessOne(ws, tr, ps[n], draws[n]);
      Survivors(one.walls, one.treasure, ps[..n], draws) + (if one.particles == [] then [] else [n])
  }

  /** Splicing out dead particles keeps the others in their relative order:
      survivor `k` comes from position `Survivors(..)[k]`, these positions
      increase, and each survivor keeps its origin's size and damage. */
  lemma {:induction false} SweepKeepsOrder(ws: seq<TargetState>, tr: TargetState, ps: seq<Particle>, draws: seq<Scatter>)
    requires |draws| >= |ps|
    ensures var ix := Survivors(ws, tr, ps, draws);
      var r := SweepAll(ws, tr, ps, draws);
      && |ix| == |r.particles|
      && (forall a, b :: 0 <= a < b < |ix| ==> ix[a] < ix[b])
      && (forall k :: 0 <= k < |ix| ==>
            ix[k] < |ps| && r.particles[k].size == ps[ix[k]].size && r.particles[k].damage == ps[ix[k]].damage)
    decreases |ps|
  {
    if ps != [] {
      var n := |ps| - 1;
      var one := ProcessOne(ws, tr, ps[n], draws[n]);
      SweepKeepsOrder(one.walls, one.treasure, ps[..n], draws);
      ProcessOneKeepsParticle(ws, tr, ps[n], draws[n]);
      var ix0 := Survivors(one.walls, one.treasure, ps[..n], draws);
      var rest := SweepAll(one.walls, one.treasure, ps[..n], draws);
      var tail: seq<nat> := if one.particles == [] then [] else [n];
      var ix := ix0 + tail;
      var out := rest.particles + one.particles;
      assert Survivors(ws, tr, ps, draws) == ix;
      assert SweepAll(ws, tr, ps, draws).particles == out;
      forall k | 0 <= k < |ix|
        ensures ix[k] < |ps| && out[k].size == ps[ix[k]].size && out[k].damage == ps[ix[k]].damage
      {
        if k < |ix0| {
          assert ix[k] == ix0[k] && out[k] == rest.particles[k];
          assert ps[..n][ix0[k]] == ps[ix0[k]];
        } else {
          assert ix[k] == n && out[k] == one.particles[0];
        }
      }
    }
  }

  /** A particle that survives one iteration keeps its size and damage. */
  lemma ProcessOneKeepsParticle(ws: seq<TargetState>, tr: TargetState, p: Particle, s: Scatter)
    ensures var r := ProcessOne(ws, tr, p, s);
      forall k :: 0 <= k < |r.particles| ==> r.particles[k].size == p.size && r.particles[k].damage == p.damage
  {
  }

  /** A sweep over the earlier particles followed by the survivors `kept`
      of the later ones, which were processed before them. */
  function Then(r: Sweep, kept: seq<Particle>): (r': Sweep)
    ensures r'.walls == r.walls && r'.treasure == r.treasure && |r'.particles| == |r.particles| + |kept|
  {
    Sweep(r.walls, r.treasure, r.particles + kept)
  }

  /** The loop's step: sweeping the first `i + 1` particles handles particle
      `i` first and then the `i` before it. */
  lemma SweepUnfold(ws: seq<TargetState>, tr: TargetState, ps: seq<Particle>, draws: seq<Scatter>, i: nat, kept: seq<Particle>)
    requires i < |ps| && |draws| >= |ps|
    ensures var one := ProcessOne(ws, tr, ps[i], draws[i]);
      Then(SweepAll(ws, tr, ps[..i + 1], draws), kept)
        == Then(SweepAll(one.walls, one.treasure, ps[..i], draws), one.particles + kept)
  {
    assert ps[..i + 1][..i] == ps[..i];
    var one := ProcessOne(ws, tr, ps[i], draws[i]);
    var rest := SweepAll(one.walls, one.treasure, ps[..i], draws);
    assert rest.particles + one.particles + kept == rest.particles + (one.particles + kept);
  }

  // ---------------------------------------------------------------------
  // The phases of one frame and the event handlers
  // ---------------------------------------------------------------------

  /** Lines 62-67: charging adds `CHARGE_SPEED` and clamps at `MAX_CHARGE`. */
  function ChargePhase(g: GameView): GameView {
    if g.state == Charging then
      var c := g.chargeTime + ChargeSpeed;
      g.(chargeTime := if c > MaxCharge then MaxCharge else c)
    else g
  }

  /** Lines 70-91: a firing frame with time left spends one frame and emits
      `emitted`; a firing frame with none left returns to `playing`. */
  function FirePhase(g: GameView, emitted: seq<Particle>): GameView {
    if g.state == Firing then
      if g.fireDuration > 0 then
        g.(fireDuration := g.fireDuration - 1, particles := g.particles + emitted)
      else g.(state := Playing)
    else g
  }

  /** Lines 94-97: every wall, then the treasure, is displayed. */
  function DisplayPhase(g: GameView): GameView {
    g.(walls := seq(|g.walls|, k requires 0 <= k < |g.walls| => Display(g.walls[k])),
       treasure := Display(g.treasure))
  }

  /** Lines 100-124. */
  function ParticlePhase(g: GameView, draws: seq<Scatter>): GameView
    requires |draws| >= |g.particles|
  {
    var r := SweepAll(g.walls, g.treasure, g.particles, draws);
    g.(walls := r.walls, treasure := r.treasure, particles := r.particles)
  }

  predicate AllWallsDown(ws: seq<TargetState>) {
    forall j :: 0 <= j < |ws| ==> ws[j].hp <= 0
  }

  /** `checkGameState` (lines 156-174). */
  function CheckGameState(g: GameView): (r: GameView)
    ensures r == g.(state := r.state)
    // game over takes priority, whatever the walls are
    ensures g.treasure.hp <= 0 ==> r.state == GameOver
    // a clear needs every wall down, no beam in flight and no particle left
    ensures r.state == GameClear && g.state != GameClear ==>
      AllWallsDown(g.walls) && g.state != Firing && g.particles == [] && g.treasure.hp > 0
    // and with all of that and the treasure standing, the game is cleared
    ensures g.treasure.hp > 0 && AllWallsDown(g.walls) && g.state != Firing && g.particles == [] ==>
      r.state == GameClear
    ensures g.treasure.hp > 0 && !(AllWallsDown(g.walls) && g.state != Firing && g.particles == []) ==>
      r.state == g.state
  {
    if g.treasure.hp <= 0 then g.(state := GameOver)
    else if AllWallsDown(g.walls) && g.state != Firing && g.particles == [] then g.(state := GameClear)
    else g
  }

  /** `runGame`: the phases in the order the sketch runs them. */
  function RunGame(g: GameView, emitted: seq<Particle>, draws: seq<Scatter>): GameView
    requires |draws| >= |g.particles| + |emitted|
  {
    var g2 := FirePhase(ChargePhase(g), emitted);
    CheckGameState(ParticlePhase(DisplayPhase(g2), draws))
  }

  /** `draw`: the game runs only in the three playing states; the clear and
      game-over screens change nothing. */
  function Frame(g: GameView, emitted: seq<Particle>, draws: seq<Scatter>): GameView
    requires |draws| >= |g.particles| + |emitted|
  {
    if Running(g.state) then RunGame(g, emitted, draws) else g
  }

  /** `restartGame` (lines 201-208). */
  function Restart(g: GameView): (r: GameView)
    ensures |r.walls| == |g.walls| && r.particles == [] && r.state == Playing
    ensures forall j :: 0 <= j < |g.walls| ==> r.walls[j] == g.walls[j].(hp := g.walls[j].initialHp)
    ensures r.treasure == g.treasure.(hp := g.treasure.initialHp)
    ensures r.chargeTime == g.chargeTime && r.fireDuration == g.fireDuration
    ensures r.initialFireDuration == g.initialFireDuration
  {
    g.(walls := seq(|g.walls|, k requires 0 <= k < |g.walls| => g.walls[k].(hp := g.walls[k].initialHp)),
       treasure := g.treasure.(hp := g.treasure.initialHp),
       particles := [],
       state := Playing)
  }

  /** `mousePressed` (lines 134-142). */
  function Press(g: GameView): (r: GameView)
    ensures g.state == Playing ==> r == g.(state := Charging, chargeTime := 0)
    ensures g.state == GameClear || g.state == GameOver ==> r == Restart(g)
    ensures g.state == Charging || g.state == Firing ==> r == g
  {
    match g.state
    case Playing => g.(state := Charging, chargeTime := 0)
    case GameClear => Restart(g)
    case GameOver => Restart(g)
    case _ => g
  }

  /** `mouseReleased` (lines 145-153). */
  function Release(g: GameView): (r: GameView)
    ensures g.state == Charging ==>
      r == g.(state := Firing, initialFireDuration := g.chargeTime, fireDuration := g.chargeTime, chargeTime := 0)
    ensures g.state != Charging ==> r == g
  {
    if g.state == Charging then
      g.(state := Firing, initialFireDuration := g.chargeTime, fireDuration := g.chargeTime, chargeTime := 0)
    else g
  }

  /** The game as `setup` builds it on an 800 x 600 canvas. */
  function Setup(): (g: GameView)
    ensures g.state == Playing && |g.walls| == 3 && g.particles == []
  {
    GameView(
      Playing, 0, 0, 0,
      [ TargetState(WallKind, Box(Width / 2.0 - 60.0, Height / 2.0, 40.0, 220.0), 20000, 20000, 0),
        TargetState(WallKind, Box(Width / 2.0, Height / 2.0, 40.0, 220.0), 25000, 25000, 0),
        TargetState(WallKind, Box(Width / 2.0 + 60.0, Height / 2.0, 40.0, 220.0), 30000, 30000, 0) ],
      TargetState(TreasureKind, Box(Width / 2.0 + 150.0, Height / 2.0, 60.0, 60.0), 1000, 1000, 0),
      [])
  }

  /** `(initialFireDuration - fireDuration) / initialFireDuration` of line 76:
      the beam's progress from 0 to 1. */
  function Progress(initialFireDuration: int, fireDuration: int): (r: real)
    requires 0 <= fireDuration <= initialFireDuration && initialFireDuration > 0
    ensures 0.0 <= r <= 1.0
    ensures fireDuration == initialFireDuration ==> r == 0.0
    ensures fireDuration == 0 ==> r == 1.0
  {
    (initialFireDuration - fireDuration) as real / initialFireDuration as real
  }

  // ---------------------------------------------------------------------
  // The invariant of every reachable state
  // ---------------------------------------------------------------------

  predicate TargetOk(t: TargetState) {
    0 <= t.hp <= t.initialHp && 0 <= t.hitEffect <= HitFlash
  }

  predicate ParticleOk(p: Particle) {
    p.damage == ParticleDamage && p.size > 0.0
  }

  predicate Inv(g: GameView) {
    && 0 <= g.chargeTime <= MaxCharge
    && 0 <= g.fireDuration <= g.initialFireDuration <= MaxCharge
    && (forall j :: 0 <= j < |g.walls| ==> g.walls[j].kind == WallKind && TargetOk(g.walls[j]))
    && g.treasure.kind == TreasureKind && TargetOk(g.treasure) && g.treasure.initialHp > 0
    && (forall i :: 0 <= i < |g.particles| ==> ParticleOk(g.particles[i]))
    // the game is over exactly when the treasure is destroyed
    && (g.state == GameOver <==> g.treasure.hp == 0)
    // a cleared game has every wall down and nothing in flight
    && (g.state == GameClear ==> AllWallsDown(g.walls) && g.particles == [])
  }

  lemma SetupInv()
    ensures Inv(Setup())
  {
  }

  /** Moves of the charge and fire counters keep them in range. */
  lemma CountersStayInRange(g: GameView, emitted: seq<Particle>)
    requires Inv(g)
    ensures var g' := FirePhase(ChargePhase(g), emitted);
      0 <= g'.chargeTime <= MaxCharge && 0 <= g'.fireDuration <= g'.initialFireDuration <= MaxCharge
  {
  }

  /** The particle loop never heals a target, never takes hp below zero, and
      never takes more than one particle's damage per particle. */
  lemma {:induction false} SweepKeepsTargets(ws: seq<TargetState>, tr: TargetState, ps: seq<Particle>, draws: seq<Scatter>)
    requires |draws| >= |ps|
    requires forall j :: 0 <= j < |ws| ==> ws[j].kind == WallKind && TargetOk(ws[j])
    requires tr.kind == TreasureKind && TargetOk(tr)
    requires forall i :: 0 <= i < |ps| ==> ParticleOk(ps[i])
    ensures var r := SweepAll(ws, tr, ps, draws);
      && (forall j :: 0 <= j < |ws| ==> SameTarget(r.walls[j], ws[j]) && TargetOk(r.walls[j]))
      && (forall j :: 0 <= j < |ws| ==> ws[j].hp - ParticleDamage * |ps| <= r.walls[j].hp <= ws[j].hp)
      && SameTarget(r.treasure, tr) && TargetOk(r.treasure)
      && tr.hp - ParticleDamage * |ps| <= r.treasure.hp <= tr.hp
      && (forall i :: 0 <= i < |r.particles| ==> ParticleOk(r.particles[i]))
    decreases |ps|
  {
    if ps != [] {
      var n := |ps| - 1;
      var one := ProcessOne(ws, tr, ps[n], draws[n]);
      ProcessOneKeepsTargets(ws, tr, ps[n], draws[n]);
      SweepKeepsTargets(one.walls, one.treasure, ps[..n], draws);
      var rest := SweepAll(one.walls, one.treasure, ps[..n], draws);
      assert SweepAll(ws, tr, ps, draws).particles == rest.particles + one.particles;
    }
  }

  /** Two snapshots of one target that differ at most in hp and flash. */
  predicate SameTarget(a: TargetState, b: TargetState) {
    a.kind == b.kind && a.box == b.box && a.initialHp == b.initialHp
  }

  lemma ProcessOneKeepsTargets(ws: seq<TargetState>, tr: TargetState, p: Particle, s: Scatter)
    requires forall j :: 0 <= j < |ws| ==> ws[j].kind == WallKind && TargetOk(ws[j])
    requires tr.kind == TreasureKind && TargetOk(tr)
    requires ParticleOk(p)
    ensures var r := ProcessOne(ws, tr, p, s);
      && (forall j :: 0 <= j < |ws| ==> SameTarget(r.walls[j], ws[j]) && TargetOk(r.walls[j]))
      && (forall j :: 0 <= j < |ws| ==> ws[j].hp - ParticleDamage <= r.walls[j].hp <= ws[j].hp)
      && SameTarget(r.treasure, tr) && TargetOk(r.treasure)
      && tr.hp - ParticleDamage <= r.treasure.hp <= tr.hp
      && (forall i :: 0 <= i < |r.particles| ==> ParticleOk(r.particles[i]))
  {
  }

  /** Every frame, every event and the restart keep the invariant. */
  lemma FrameKeepsInv(g: GameView, emitted: seq<Particle>, draws: seq<Scatter>)
    requires Inv(g)
    requires |draws| >= |g.particles| + |emitted|
    requires forall i :: 0 <= i < |emitted| ==> Spawned(emitted[i])
    ensures Inv(Frame(g, emitted, draws))
  {
    if Running(g.state) {
      var g1 := ChargePhase(g);
      var g2 := FirePhase(g1, emitted);
      var g3 := DisplayPhase(g2);
      assert forall i :: 0 <= i < |g2.particles| ==> ParticleOk(g2.particles[i]);
      SweepKeepsTargets(g3.walls, g3.treasure, g3.particles, draws);
      var g4 := ParticlePhase(g3, draws);
      assert g4.state == g.state || g4.state == Playing;
    }
  }

  lemma PressKeepsInv(g: GameView)
    requires Inv(g)
    ensures Inv(Press(g))
  {
  }

  lemma ReleaseKeepsInv(g: GameView)
    requires Inv(g)
    ensures Inv(Release(g))
  {
  }

  // ---------------------------------------------------------------------
  // What the frames promise
  // ---------------------------------------------------------------------

  /** The charge phase of `k` frames in a row. */
  function ChargeFrames(g: GameView, k: nat): GameView
    decreases k
  {
    if k == 0 then g else ChargeFrames(ChargePhase(g), k - 1)
  }

  /** Holding the mouse from `playing` for `k` frames gives a charge of
      `min(3k, 800)`: the press starts it at zero, each frame adds
      `CHARGE_SPEED`, and it saturates at `MAX_CHARGE`. */
  lemma {:induction false} ChargeFromZero(g: GameView, k: nat)
    requires g.state == Playing
    ensures ChargeFrames(Press(g), k)
      == g.(state := Charging, chargeTime := if ChargeSpeed * k > MaxCharge then MaxCharge else ChargeSpeed * k)
  {
    ChargeFrom(Press(g), k);
  }

  /** `k` charge phases from a charge `c` give `min(c + 3k, 800)`, and change
      nothing but the charge. */
  lemma {:induction false} ChargeFrom(g: GameView, k: nat)
    requires g.state == Charging && 0 <= g.chargeTime <= MaxCharge
    ensures ChargeFrames(g, k) == g.(chargeTime :=
      if g.chargeTime + ChargeSpeed * k > MaxCharge then MaxCharge else g.chargeTime + ChargeSpeed * k)
    decreases k
  {
    if k > 0 {
      ChargeFrom(ChargePhase(g), k - 1);
    }
  }

  /** The fire counter as `k` firing frames see it. */
  function FireFrames(state: GameState, fd: int, k: nat): (GameState, int)
    decreases k
  {
    if k == 0 || state != Firing then (state, fd)
    else if fd > 0 then FireFrames(state, fd - 1, k - 1)
    else FireFrames(Playing, fd, k - 1)
  }

  /** A beam of duration `d` fires for exactly `d` frames, one unit each
      frame, and is back to `playing` on the frame after the one that spent
      the last unit. */
  lemma {:induction false} FireCountdown(d: nat, k: nat)
    ensures k <= d ==> FireFrames(Firing, d, k) == (Firing, d - k)
    ensures k > d ==> FireFrames(Firing, d, k) == (Playing, 0)
    decreases k
  {
    if k > 0 {
      if d > 0 {
        FireCountdown(d - 1, k - 1);
      } else {
        StoppedStaysStopped(k - 1);
      }
    }
  }

  lemma {:induction false} StoppedStaysStopped(k: nat)
    ensures FireFrames(Playing, 0, k) == (Playing, 0)
  {
  }

  /** `FirePhase` is one step of that countdown, and the division of line 76
      is only reached with a positive divisor. */
  lemma FirePhaseCounts(g: GameView, emitted: seq<Particle>)
    requires Inv(g) && g.state == Firing
    ensures (FirePhase(g, emitted).state, FirePhase(g, emitted).fireDuration) == FireFrames(g.state, g.fireDuration, 1)
    ensures g.fireDuration > 0 ==> g.initialFireDuration > 0
  {
  }

  /** After any frame of play, the state is `gameOver` exactly when the
      treasure is gone, and a cleared game has no wall standing and no
      particle left. */
  lemma FrameOutcome(g: GameView, emitted: seq<Particle>, draws: seq<Scatter>)
    requires Inv(g) && Running(g.state)
    requires |draws| >= |g.particles| + |emitted|
    requires forall i :: 0 <= i < |emitted| ==> Spawned(emitted[i])
    ensures var r := Frame(g, emitted, draws);
      && (r.state == GameOver <==> r.treasure.hp == 0)
      && (r.state == GameClear ==> AllWallsDown(r.walls) && r.particles == [] && r.treasure.hp > 0)
      && (r.state == Firing ==> g.state == Firing)
    // the clear test of the frame sees the state the particle loop left
    ensures var g4 := ParticlePhase(DisplayPhase(FirePhase(ChargePhase(g), emitted)), draws);
      g4.treasure.hp > 0 && AllWallsDown(g4.walls) && g4.state != Firing && g4.particles == [] ==>
        Frame(g, emitted, draws).state == GameClear
  {
    FrameKeepsInv(g, emitted, draws);
  }

  /** A particle that hits a wall is kept (the `continue` skips the splice),
      so a sweep that changes any wall leaves a particle behind. */
  lemma {:induction false} WallHitKeepsParticle(ws: seq<TargetState>, tr: TargetState, ps: seq<Particle>, draws: seq<Scatter>)
    requires |draws| >= |ps|
    ensures SweepAll(ws, tr, ps, draws).walls != ws ==> SweepAll(ws, tr, ps, draws).particles != []
    decreases |ps|
  {
    if ps != [] {
      var n := |ps| - 1;
      var one := ProcessOne(ws, tr, ps[n], draws[n]);
      ProcessOneShape(ws, tr, ps[n], draws[n]);
      WallHitKeepsParticle(one.walls, one.treasure, ps[..n], draws);
    }
  }

  /** So the frame in which the last wall falls is never the frame that
      clears the game: the particle that downed it is still in flight. */
  lemma WallHitFrameNeverClears(g: GameView, emitted: seq<Particle>, draws: seq<Scatter>)
    requires Running(g.state)
    requires |draws| >= |g.particles| + |emitted|
    ensures var g3 := DisplayPhase(FirePhase(ChargePhase(g), emitted));
      ParticlePhase(g3, draws).walls != g3.walls ==> Frame(g, emitted, draws).state != GameClear
  {
    var g3 := DisplayPhase(FirePhase(ChargePhase(g), emitted));
    WallHitKeepsParticle(g3.walls, g3.treasure, g3.particles, draws);
  }

  /** The restart puts every target back to full health, and only the hp of
      the targets changes in them. */
  lemma RestartHeals(g: GameView)
    requires Inv(g)
    ensures var r := Restart(g);
      && Inv(r) && r.state == Playing && r.treasure.hp == g.treasure.initialHp
      && (forall j :: 0 <= j < |g.walls| ==> r.walls[j].hp == r.walls[j].initialHp && SameTarget(r.walls[j], g.walls[j]))
  {
  }
}

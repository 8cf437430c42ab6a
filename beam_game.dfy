/** The beam mini-game as the sketch runs it (game1_kame/sketch.js): the
    `Target` objects whose `hp` and `hitEffect` are updated in place, and the
    sketch's globals gathered in one `Game` object whose methods are the
    event handlers and the phases of `runGame`. Every method is proved to
    move the game exactly as the matching function of `BeamRules` does, and
    the public ones keep `BeamRules.Inv`. */
module BeamGame {
  import R = BeamRules

  class Target {
    const kind: R.Kind
    const box: R.Box
    const initialHp: int
    var hp: int
    var hitEffect: int

    ghost function State(): R.TargetState
      reads this
    {
      R.TargetState(kind, box, initialHp, hp, hitEffect)
    }

    constructor (kind: R.Kind, box: R.Box, hp: int)
      ensures State() == R.TargetState(kind, box, hp, hp, 0)
    {
      this.kind := kind;
      this.box := box;
      this.initialHp := hp;
      this.hp := hp;
      this.hitEffect := 0;
    }

    method TakeDamage(damage: int)
      modifies this`hp
      ensures hp == R.TakeDamage(old(hp), damage)
    {
      hp := hp - damage;
      if hp < 0 {
        hp := 0;
      }
    }

    /** `checkCollision`; the particle is returned as the call leaves it. */
    method CheckCollision(p: R.Particle, s: R.Scatter) returns (hit: bool, q: R.Particle)
      modifies this
      ensures hit == R.Collide(old(State()), p, s).hit
      ensures q == R.Collide(old(State()), p, s).particle
      ensures State() == R.Collide(old(State()), p, s).target
    {
      q := p;
      if hp <= 0 {
        return false, q;
      }
      if box.cx - box.w / 2.0 < p.x && p.x < box.cx + box.w / 2.0 &&
         box.cy - box.h / 2.0 < p.y && p.y < box.cy + box.h / 2.0 {
        TakeDamage(p.damage);
        hitEffect := R.HitFlash;
        if kind == R.WallKind {
          q := q.(x := box.cx - box.w / 2.0 - p.size);
          q := q.(vx := -q.vx * s.damp);
          q := q.(vy := (s.spread - 0.5) * 10.0);
        } else {
          q := q.(life := 0.0);
        }
        return true, q;
      }
      return false, q;
    }

    /** The state-changing part of `Wall.display` / `Treasure.display`. */
    method Display()
      modifies this`hitEffect
      ensures State() == R.Display(old(State()))
    {
      if hp > 0 {
        if hitEffect > 0 {
          hitEffect := hitEffect - 1;
        }
      }
    }
  }

  class Game {
    var gameState: R.GameState
    var chargeTime: int
    var fireDuration: int
    var initialFireDuration: int
    const walls: seq<Target>
    const treasure: Target
    var particles: seq<R.Particle>

    ghost function WallStates(): seq<R.TargetState>
      reads walls
    {
      seq(|walls|, k requires 0 <= k < |walls| reads walls => walls[k].State())
    }

    ghost function View(): R.GameView
      reads this, walls, treasure
    {
      R.GameView(gameState, chargeTime, fireDuration, initialFireDuration,
                 WallStates(), treasure.State(), particles)
    }

    /** The objects are laid out as the sketch builds them: distinct walls and
        a treasure that is none of them. */
    ghost predicate Wellformed()
      reads this
    {
      && treasure !in walls
      && (forall a, b :: 0 <= a < b < |walls| ==> walls[a] != walls[b])
    }

    ghost predicate Valid()
      reads this, walls, treasure
    {
      Wellformed() && R.Inv(View())
    }

    /** `setup`. */
    constructor ()
      ensures Valid() && View() == R.Setup()
    {
      var w0 := new Target(R.WallKind, R.Box(R.Width / 2.0 - 60.0, R.Height / 2.0, 40.0, 220.0), 20000);
      var w1 := new Target(R.WallKind, R.Box(R.Width / 2.0, R.Height / 2.0, 40.0, 220.0), 25000);
      var w2 := new Target(R.WallKind, R.Box(R.Width / 2.0 + 60.0, R.Height / 2.0, 40.0, 220.0), 30000);
      var t := new Target(R.TreasureKind, R.Box(R.Width / 2.0 + 150.0, R.Height / 2.0, 60.0, 60.0), 1000);
      gameState := R.Playing;
      chargeTime, fireDuration, initialFireDuration := 0, 0, 0;
      walls := [w0, w1, w2];
      treasure := t;
      particles := [];
      new;
      assert WallStates() == R.Setup().walls;
      R.SetupInv();
    }

    /** `mousePressed`. */
    method MousePressed()
      requires Valid()
      modifies this, walls, treasure
      ensures Valid() && View() == R.Press(old(View()))
    {
      R.PressKeepsInv(View());
      if gameState == R.Playing {
        gameState := R.Charging;
        chargeTime := 0;
      } else if gameState == R.GameClear || gameState == R.GameOver {
        RestartGame();
      }
    }

    /** `mouseReleased`. */
    method MouseReleased()
      requires Valid()
      modifies this
      ensures Valid() && View() == R.Release(old(View()))
    {
      R.ReleaseKeepsInv(View());
      if gameState == R.Charging {
        gameState := R.Firing;
        initialFireDuration := chargeTime;
        fireDuration := chargeTime;
        chargeTime := 0;
      }
    }

    /** `restartGame`. */
    method RestartGame()
      requires Valid()
      modifies this, walls, treasure
      ensures Valid() && View() == R.Restart(old(View()))
    {
      R.RestartHeals(View());
      ghost var before := WallStates();
      for k := 0 to |walls|
        invariant forall j :: 0 <= j < k ==> walls[j].State() == before[j].(hp := before[j].initialHp)
        invariant forall j :: k <= j < |walls| ==> walls[j].State() == before[j]
        invariant treasure.State() == old(treasure.State()) && unchanged(this)
      {
        walls[k].hp := walls[k].initialHp;
      }
      treasure.hp := treasure.initialHp;
      particles := [];
      gameState := R.Playing;
      assert WallStates() == R.Restart(old(View())).walls;
    }

    /** `draw`: one frame. `emitted` stands for the particles
        `generateParticles` creates in this frame and `draws` for the random
        values of every wall bounce. */
    method Draw(emitted: seq<R.Particle>, draws: seq<R.Scatter>)
      requires Valid()
      requires |draws| >= |particles| + |emitted|
      requires forall i :: 0 <= i < |emitted| ==> R.Spawned(emitted[i])
      modifies this, walls, treasure
      ensures Valid() && View() == R.Frame(old(View()), emitted, draws)
    {
      R.FrameKeepsInv(View(), emitted, draws);
      if R.Running(gameState) {
        RunGame(emitted, draws);
      }
    }

    /** `runGame`. */
    method RunGame(emitted: seq<R.Particle>, draws: seq<R.Scatter>)
      requires Valid()
      requires |draws| >= |particles| + |emitted|
      modifies this, walls, treasure
      ensures Wellformed() && View() == R.RunGame(old(View()), emitted, draws)
    {
      ChargeStep();
      FireStep(emitted);
      DisplayTargets();
      UpdateParticles(draws);
      CheckGameState();
    }

    method ChargeStep()
      requires Wellformed()
      modifies this`chargeTime
      ensures View() == R.ChargePhase(old(View()))
    {
      if gameState == R.Charging {
        chargeTime := chargeTime + R.ChargeSpeed;
        if chargeTime > R.MaxCharge {
          chargeTime := R.MaxCharge;
        }
      }
    }

    method FireStep(emitted: seq<R.Particle>)
      requires 0 <= fireDuration <= initialFireDuration
      modifies this`fireDuration, this`particles, this`gameState
      ensures View() == R.FirePhase(old(View()), emitted)
    {
      if gameState == R.Firing {
        if fireDuration > 0 {
          fireDuration := fireDuration - 1;
          // the beam's progress, on which the number of particles depends
          var progress := R.Progress(initialFireDuration, fireDuration);
          particles := particles + emitted;
        } else {
          gameState := R.Playing;
        }
      }
    }

    method DisplayTargets()
      requires Wellformed()
      modifies walls, treasure
      ensures View() == R.DisplayPhase(old(View()))
    {
      ghost var before := WallStates();
      for k := 0 to |walls|
        invariant forall j :: 0 <= j < k ==> walls[j].State() == R.Display(before[j])
        invariant forall j :: k <= j < |walls| ==> walls[j].State() == before[j]
        invariant treasure.State() == old(treasure.State())
      {
        walls[k].Display();
      }
      treasure.Display();
      assert WallStates() == R.DisplayPhase(old(View())).walls;
    }

    /** The backward particle loop of `runGame`. */
    method UpdateParticles(draws: seq<R.Scatter>)
      requires Wellformed()
      requires |draws| >= |particles|
      modifies this`particles, walls, treasure
      ensures View() == R.ParticlePhase(old(View()), draws)
    {
      ghost var ps := particles;
      ghost var goal := R.SweepAll(WallStates(), treasure.State(), ps, draws);
      ghost var kept: seq<R.Particle> := [];
      var i := |particles| - 1;
      assert ps[..i + 1] == ps && particles + kept == particles;
      while i >= 0
        invariant -1 <= i < |ps|
        invariant particles == ps[..i + 1] + kept
        invariant goal == R.Then(R.SweepAll(WallStates(), treasure.State(), ps[..i + 1], draws), kept)
        decreases i
      {
        kept := SweepStep(i, draws, ps, kept);
        i := i - 1;
      }
      assert ps[..0] == [];
    }

    /** One turn of the loop, stated as the step of its invariant. */
    method SweepStep(i: nat, draws: seq<R.Scatter>, ghost ps: seq<R.Particle>, ghost kept: seq<R.Particle>)
      returns (ghost kept': seq<R.Particle>)
      requires Wellformed() && i < |ps| && |draws| >= |ps|
      requires particles == ps[..i + 1] + kept
      modifies this`particles, walls, treasure
      ensures particles == ps[..i] + kept'
      ensures R.Then(R.SweepAll(old(WallStates()), old(treasure.State()), ps[..i + 1], draws), kept)
           == R.Then(R.SweepAll(WallStates(), treasure.State(), ps[..i], draws), kept')
    {
      ghost var one := R.ProcessOne(WallStates(), treasure.State(), ps[i], draws[i]);
      R.SweepUnfold(WallStates(), treasure.State(), ps, draws, i, kept);
      SpliceAt(ps, i, kept, one.particles);
      ProcessParticle(i, draws[i]);
      kept' := one.particles + kept;
    }

    /** Replacing element `i` of `ps[..i + 1] + kept` by `left`. */
    static lemma SpliceAt(ps: seq<R.Particle>, i: nat, kept: seq<R.Particle>, left: seq<R.Particle>)
      requires i < |ps|
      ensures var cur := ps[..i + 1] + kept;
        cur[i] == ps[i] && cur[..i] + left + cur[i + 1..] == ps[..i] + (left + kept)
    {
      var cur := ps[..i + 1] + kept;
      assert cur[..i] == ps[..i] && cur[i + 1..] == kept;
    }

    /** One iteration of that loop, for particle `i`. The particle object is
        only referenced from `particles`, so its in-place updates become one
        write of what is left of it back into the sequence. */
    method ProcessParticle(i: nat, s: R.Scatter)
      requires Wellformed() && i < |particles|
      modifies this`particles, walls, treasure
      ensures var one := R.ProcessOne(old(WallStates()), old(treasure.State()), old(particles[i]), s);
        && WallStates() == one.walls && treasure.State() == one.treasure
        && particles == old(particles[..i]) + one.particles + old(particles[i + 1..])
    {
      var p := R.Advance(particles[i]);
      var hitAnyWall;
      hitAnyWall, p := HitWalls(p, s);
      if !hitAnyWall && treasure.hp > 0 {
        var treasureHit;
        treasureHit, p := treasure.CheckCollision(p, s);
      }
      // the particle stays in place, updated, unless it is spliced out
      var left := if !hitAnyWall && R.IsDead(p) then [] else [p];
      particles := particles[..i] + left + particles[i + 1..];
    }

    /** The wall loop of one iteration, with its `break` after the first hit. */
    method HitWalls(p: R.Particle, s: R.Scatter) returns (hitAnyWall: bool, q: R.Particle)
      requires Wellformed()
      modifies walls
      ensures var w := R.PassWalls(old(WallStates()), p, s);
        WallStates() == w.walls && q == w.particle && hitAnyWall == w.hit.WallAt?
    {
      ghost var ws := WallStates();
      hitAnyWall := false;
      q := p;
      var j := 0;
      while j < |walls|
        invariant 0 <= j <= |walls|
        invariant !hitAnyWall && q == p && WallStates() == ws
        invariant forall k :: 0 <= k < j ==> !R.Hits(ws[k], p.x, p.y)
      {
        if walls[j].hp > 0 {
          var hit;
          assert walls[j].State() == ws[j];
          hit, q := walls[j].CheckCollision(q, s);
          assert forall k :: 0 <= k < |walls| && k != j ==> walls[k].State() == ws[k];
          assert WallStates() == ws[j := walls[j].State()];
          if hit {
            hitAnyWall := true;
            assert R.PassWalls(ws, p, s).hit == R.WallAt(j);
            break;
          }
        }
        j := j + 1;
      }
    }

    /** `checkGameState`. */
    method CheckGameState()
      requires Wellformed()
      modifies this`gameState
      ensures View() == R.CheckGameState(old(View()))
    {
      if treasure.hp <= 0 {
        gameState := R.GameOver;
        return;
      }
      var allWallsDestroyed := true;
      for k := 0 to |walls|
        invariant allWallsDestroyed <==> forall j :: 0 <= j < k ==> walls[j].hp <= 0
      {
        if walls[k].hp > 0 {
          allWallsDestroyed := false;
        }
      }
      assert forall j :: 0 <= j < |walls| ==> WallStates()[j].hp == walls[j].hp;
      if allWallsDestroyed && gameState != R.Firing && |particles| == 0 {
        if treasure.hp > 0 {
          gameState := R.GameClear;
        }
      }
    }
  }
}

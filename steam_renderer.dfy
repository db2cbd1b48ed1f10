/**
 The steam renderer: a store of particles keyed by monotonically issued ids,
 the simulation step that moves, ages and retires them, and the rasteriser
 that draws them into a reusable character buffer and prints it bottom-up.
 */
module Renderer {
  import opened Numeric
  import opened Particles
  import opened Raster

  /** `SteamRendererOptions`. */
  datatype Options = Options(
    width: nat,
    height: nat,
    offset: nat,
    riseSpeed: real,
    wind: real,
    maxSpeed: real)

  /** Every stored id maps to its own particle object, so updating one
      particle in place leaves every other one alone. */
  predicate Distinct(m: map<nat, SteamParticle>)
  {
    forall i, j :: i in m && j in m && i != j ==> m[i] != m[j]
  }

  /** The ids whose particle `update` reports for deletion in this step:
      those whose next age reaches their lifespan. */
  function Expiring(ps: map<nat, ParticleState>): (ids: set<nat>)
    ensures ids <= ps.Keys
  {
    set id | id in ps && ps[id].frames + 1 >= ps[id].lifespan
  }

  /** The store after one call of `update_simulation`: every particle takes
      one step, and those whose step asks for deletion are dropped. */
  function SimulateAll(ps: map<nat, ParticleState>, wind: real, maxSpeed: real): (r: map<nat, ParticleState>)
    requires maxSpeed >= 0.0 || ps == map[]
    ensures r.Keys <= ps.Keys
  {
    map id | id in ps && !Step(ps[id], wind, maxSpeed).delete :: Step(ps[id], wind, maxSpeed).next
  }

  /** `update_simulation` removes exactly the expiring ids and adds none. */
  lemma SimulateAllKeys(ps: map<nat, ParticleState>, wind: real, maxSpeed: real)
    requires maxSpeed >= 0.0 || ps == map[]
    ensures SimulateAll(ps, wind, maxSpeed).Keys == ps.Keys - Expiring(ps)
  {
  }

  /** Every survivor of `update_simulation` has its horizontal velocity pushed by
      the wind and clamped, keeps its vertical velocity, moves by its new
      velocity, and is one frame older. */
  lemma SimulateAllMotion(ps: map<nat, ParticleState>, wind: real, maxSpeed: real, id: nat)
    requires maxSpeed >= 0.0
    requires id in SimulateAll(ps, wind, maxSpeed)
    ensures id in ps
    ensures var s, t := ps[id], SimulateAll(ps, wind, maxSpeed)[id];
      && t.velocity.x == Clamp(s.velocity.x + wind, -maxSpeed, maxSpeed)
      && -maxSpeed <= t.velocity.x <= maxSpeed
      && t.velocity.y == s.velocity.y
      && t.position == Vec2(s.position.x + t.velocity.x, s.position.y + t.velocity.y)
      && t.frames == s.frames + 1
      && t.lifespan == s.lifespan
  {
  }

  /** Survivors of a step taken by live particles are live. */
  lemma SimulateAllKeepsLive(ps: map<nat, ParticleState>, wind: real, maxSpeed: real)
    requires maxSpeed >= 0.0 || ps == map[]
    requires forall id :: id in ps ==> ps[id].Live()
    ensures forall id :: id in SimulateAll(ps, wind, maxSpeed) ==> SimulateAll(ps, wind, maxSpeed)[id].Live()
  {
    forall id | id in SimulateAll(ps, wind, maxSpeed)
      ensures SimulateAll(ps, wind, maxSpeed)[id].Live()
    {
      TickKeepsLive(Move(ps[id], wind, maxSpeed));
    }
  }

  /** Every particle after the first loop of `update_simulation`, before the
      deletions. */
  function StepEach(ps: map<nat, ParticleState>, wind: real, maxSpeed: real): (r: map<nat, ParticleState>)
    requires maxSpeed >= 0.0 || ps == map[]
    ensures r.Keys == ps.Keys
  {
    map id | id in ps :: Step(ps[id], wind, maxSpeed).next
  }

  /** Removing, after the first loop, exactly the ids whose update asked for
      deletion leaves the store `SimulateAll` describes. */
  lemma DeferredRemoval(ps: map<nat, ParticleState>, wind: real, maxSpeed: real, doomed: set<nat>)
    requires maxSpeed >= 0.0 || ps == map[]
    requires forall id :: id in doomed <==> id in ps && Step(ps[id], wind, maxSpeed).delete
    ensures StepEach(ps, wind, maxSpeed) - doomed == SimulateAll(ps, wind, maxSpeed)
  {
  }

  /** Dropping entries keeps particle objects distinct. */
  lemma DistinctRemove(m: map<nat, SteamParticle>, ids: set<nat>)
    requires Distinct(m)
    ensures Distinct(m - ids)
  {
  }

  class SteamRenderer {
    const options: Options
    var currentHighestId: nat
    var particles: map<nat, SteamParticle>
    /** The reusable `height x (width + offset)` character buffer. */
    const frameData: array2<char>

    /** The buffer has the configured shape, ids below `currentHighestId` are the
        only ones ever issued, and every stored particle is its own live object. */
    ghost predicate Valid()
      reads this, particles.Values
    {
      && frameData.Length0 == options.height
      && frameData.Length1 == options.width + options.offset
      && Distinct(particles)
      && forall id :: id in particles ==> id < currentHighestId && particles[id].State().Live()
    }

    /** The store's value: each live id with its particle's value. */
    ghost function States(): map<nat, ParticleState>
      reads this, particles.Values
    {
      map id | id in particles :: particles[id].State()
    }

    /** The buffer's contents as rows. */
    ghost function Rows(): (g: seq<seq<char>>)
      reads frameData
      ensures |g| == frameData.Length0
      ensures forall r :: 0 <= r < |g| ==> |g[r]| == frameData.Length1
      ensures forall r, c :: 0 <= r < frameData.Length0 && 0 <= c < frameData.Length1 ==> g[r][c] == frameData[r, c]
    {
      seq(frameData.Length0, r reads frameData requires 0 <= r < frameData.Length0 =>
        seq(frameData.Length1, c reads frameData requires 0 <= c < frameData.Length1 => frameData[r, c]))
    }

    /** `SteamRenderer::new`: no particles, no id issued yet, a blank buffer. */
    constructor (options: Options)
      ensures Valid() && fresh(frameData)
      ensures this.options == options
      ensures currentHighestId == 0 && particles == map[]
      ensures forall r, c :: 0 <= r < frameData.Length0 && 0 <= c < frameData.Length1 ==> frameData[r, c] == ' '
    {
      this.options := options;
      currentHighestId := 0;
      particles := map[];
      frameData := new char[options.height, options.width + options.offset]((r, c) => ' ');
    }

    /** `spawn_particle`, with its random variates as parameters: `xPercentage`
        uniform in `[0, 1)`, `left` a fair coin, `framesBetweenFlips` in `[0, 4)`.
        The new particle gets the next id, which no stored particle holds, and
        no other particle changes. */
    method SpawnParticle(xPercentage: real, left: bool, framesBetweenFlips: nat)
      requires Valid()
      requires 0.0 <= xPercentage < 1.0
      requires framesBetweenFlips < 4
      modifies this
      ensures Valid()
      ensures currentHighestId == old(currentHighestId) + 1
      ensures old(currentHighestId) !in old(States())
      ensures States() == old(States())[old(currentHighestId) := Spawned(xPercentage, left, framesBetweenFlips, options.width, options.riseSpeed)]
      ensures old(currentHighestId) in particles && fresh(particles[old(currentHighestId)])
    {
      var id := currentHighestId;
      currentHighestId := currentHighestId + 1;

      var x := xPercentage * options.width as real;
      var lifespan := Lifespan(xPercentage);
      var p := new SteamParticle(Vec2(x, 0.0), Vec2(0.0, options.riseSpeed), left, framesBetweenFlips, lifespan);
      ghost var spawned := Spawned(xPercentage, left, framesBetweenFlips, options.width, options.riseSpeed);
      assert p.State() == spawned && spawned.Live();

      ghost var before, stored := old(States()), particles;
      assert id !in stored;
      particles := particles[id := p];
      assert Distinct(particles) by {
        assert forall j :: j in stored ==> stored[j] != p;
      }
      assert States() == before[id := spawned] by {
        forall j | j in stored
          ensures particles[j].State() == before[j]
        {
          assert particles[j] == stored[j];
        }
      }
    }

    /** `update_simulation`: moves and ages every particle in place, collects the
        ids whose `update` asks for deletion, then removes them. The ids issued
        so far do not change. (`f32::clamp` panics unless `-maxSpeed <= maxSpeed`,
        which matters only when some particle is stored.) */
    method UpdateSimulation()
      requires Valid()
      requires options.maxSpeed >= 0.0 || particles == map[]
      modifies this, particles.Values
      ensures Valid()
      ensures States() == SimulateAll(old(States()), options.wind, options.maxSpeed)
      ensures States().Keys == old(States()).Keys - Expiring(old(States()))
      ensures currentHighestId == old(currentHighestId)
    {
      ghost var before, stored := States(), particles;
      var toDelete := StepParticles();
      ghost var doomed := set id | id in toDelete;
      RemoveIds(toDelete);

      DistinctRemove(stored, doomed);
      DeferredRemoval(before, options.wind, options.maxSpeed, doomed);
      SimulateAllKeepsLive(before, options.wind, options.maxSpeed);
      SimulateAllKeys(before, options.wind, options.maxSpeed);
      assert forall id :: id in particles ==> particles[id].State() == States()[id];
    }

    /** The first loop of `update_simulation`: every particle, in place, gets the
        wind added to its horizontal velocity (clamped), moves by its velocity and
        is updated; the ids whose update asks for deletion are returned. */
    method StepParticles() returns (toDelete: seq<nat>)
      requires Valid()
      requires options.maxSpeed >= 0.0 || particles == map[]
      modifies particles.Values
      ensures States() == StepEach(old(States()), options.wind, options.maxSpeed)
      ensures forall id :: id in toDelete <==>
        id in old(States()) && Step(old(States())[id], options.wind, options.maxSpeed).delete
    {
      toDelete := [];
      var todo := particles.Keys;
      ghost var done: set<nat> := {};

      while todo != {}
        invariant todo !! done && todo + done == particles.Keys
        invariant forall id :: id in todo ==> particles[id].State() == old(particles[id].State())
        invariant forall id :: id in done ==>
          particles[id].State() == Step(old(particles[id].State()), options.wind, options.maxSpeed).next
        invariant forall id :: id in toDelete <==>
          id in done && Step(old(particles[id].State()), options.wind, options.maxSpeed).delete
        decreases todo
      {
        var id :| id in todo;
        var delete := StepParticle(particles[id]);
        if delete {
          toDelete := toDelete + [id];
        }
        todo := todo - {id};
        done := done + {id};
      }
    }

    /** The body of the first loop for one particle: wind, clamp, Euler step,
        then `update`. */
    method StepParticle(p: SteamParticle) returns (delete: bool)
      requires options.maxSpeed >= 0.0
      modifies p
      ensures p.State() == Step(old(p.State()), options.wind, options.maxSpeed).next
      ensures delete == Step(old(p.State()), options.wind, options.maxSpeed).delete
    {
      p.velocity := p.velocity.(x := Clamp(p.velocity.x + options.wind, -options.maxSpeed, options.maxSpeed));
      p.position := Vec2(p.position.x + p.velocity.x, p.position.y + p.velocity.y);
      delete := p.Update();
    }

    /** The second loop of `update_simulation`: removes each listed id from the
        store (an id not present is ignored, as `HashMap::remove` does). */
    method RemoveIds(ids: seq<nat>)
      modifies this`particles
      ensures particles == old(particles) - (set id | id in ids)
      ensures States() == old(States()) - (set id | id in ids)
    {
      var i := 0;
      while i < |ids|
        invariant 0 <= i <= |ids|
        invariant particles == old(particles) - (set id | id in ids[..i])
      {
        assert ids[..i + 1] == ids[..i] + [ids[i]];
        particles := particles - {ids[i]};
        i := i + 1;
      }
      assert ids[..i] == ids;
    }

    /** `generate_frame`: clears the buffer, draws every particle, and returns the
        buffer's text. The buffer then holds a frame of the current particles
        (whatever it held before), and the text has `height` lines of
        `width + offset` cells, printed bottom row first. */
    method GenerateFrame() returns (s: string)
      requires Valid()
      modifies frameData
      ensures Valid() && States() == old(States())
      ensures IsFrame(Rows(), States(), options.width, options.height, options.offset)
      ensures s == FrameText(Rows())
      ensures |s| == options.height * (options.width + options.offset + 1)
    {
      Clear();
      Draw();
      s := Serialize();
      FrameTextLength(Rows(), options.width + options.offset);
    }

    /** Fills every cell of the buffer with a space. */
    method Clear()
      modifies frameData
      ensures forall r, c :: 0 <= r < frameData.Length0 && 0 <= c < frameData.Length1 ==> frameData[r, c] == ' '
    {
      var r := 0;
      while r < frameData.Length0
        invariant 0 <= r <= frameData.Length0
        invariant forall i, j :: 0 <= i < r && 0 <= j < frameData.Length1 ==> frameData[i, j] == ' '
      {
        var c := 0;
        while c < frameData.Length1
          invariant 0 <= c <= frameData.Length1
          invariant forall i, j :: 0 <= i < r && 0 <= j < frameData.Length1 ==> frameData[i, j] == ' '
          invariant forall j :: 0 <= j < c ==> frameData[r, j] == ' '
        {
          frameData[r, c] := ' ';
          c := c + 1;
        }
        r := r + 1;
      }
    }

    /** Writes each on-screen particle's glyph into its cell (column shifted by
        `offset`); particles whose truncated position is off the grid are skipped. */
    method Draw()
      requires Valid()
      requires forall r, c :: 0 <= r < frameData.Length0 && 0 <= c < frameData.Length1 ==> frameData[r, c] == ' '
      modifies frameData
      ensures forall r, c :: 0 <= r < frameData.Length0 && 0 <= c < frameData.Length1 ==>
        CellShows(frameData[r, c], States(), States().Keys, r, c, options.width, options.height, options.offset)
    {
      ghost var ps := States();
      var todo := particles.Keys;
      ghost var done: set<nat> := {};

      while todo != {}
        invariant todo !! done && todo + done == particles.Keys
        invariant States() == ps
        invariant forall r, c :: 0 <= r < frameData.Length0 && 0 <= c < frameData.Length1 ==>
          CellShows(frameData[r, c], ps, done, r, c, options.width, options.height, options.offset)
        decreases todo
      {
        var id :| id in todo;
        var p := particles[id];
        var col := Trunc(p.position.x);
        var row := Trunc(p.position.y);
        assert p.State() == ps[id];

        if 0 <= col < options.width && 0 <= row < options.height {
          DrawCell(ps, done, id, row, col + options.offset);
        } else {
          forall r, c | 0 <= r < frameData.Length0 && 0 <= c < frameData.Length1
            ensures CellShows(frameData[r, c], ps, done + {id}, r, c, options.width, options.height, options.offset)
          {
            assert CellShows(frameData[r, c], ps, done, r, c, options.width, options.height, options.offset);
          }
        }
        todo := todo - {id};
        done := done + {id};
      }
    }

    /** Writes particle `id`'s glyph into its cell `(row, col)`; the cells then show
        the particles of `done` together with `id`. */
    method DrawCell(ghost ps: map<nat, ParticleState>, ghost done: set<nat>, id: nat, row: nat, col: nat)
      requires Valid() && States() == ps
      requires id in particles && id !in done
      requires row < frameData.Length0 && col < frameData.Length1
      requires Lands(ps[id], row, col, options.width, options.height, options.offset)
      requires forall r, c :: 0 <= r < frameData.Length0 && 0 <= c < frameData.Length1 ==>
        CellShows(frameData[r, c], ps, done, r, c, options.width, options.height, options.offset)
      modifies frameData
      ensures forall r, c :: 0 <= r < frameData.Length0 && 0 <= c < frameData.Length1 ==>
        CellShows(frameData[r, c], ps, done + {id}, r, c, options.width, options.height, options.offset)
    {
      frameData[row, col] := particles[id].State().ToAscii();
      forall r, c | 0 <= r < frameData.Length0 && 0 <= c < frameData.Length1
        ensures CellShows(frameData[r, c], ps, done + {id}, r, c, options.width, options.height, options.offset)
      {
        if r == row && c == col {
        } else {
          assert CellShows(old(frameData[r, c]), ps, done, r, c, options.width, options.height, options.offset);
        }
      }
    }

    /** Builds the frame text from the buffer, last row first, each row followed
        by a newline. */
    method Serialize() returns (s: string)
      ensures s == FrameText(Rows())
    {
      s := [];
      var r := frameData.Length0;
      while r > 0
        invariant 0 <= r <= frameData.Length0
        invariant s == FrameText(Rows()[r..])
      {
        r := r - 1;
        ghost var prior := s;
        var c := 0;
        while c < frameData.Length1
          invariant 0 <= c <= frameData.Length1
          invariant s == prior + Rows()[r][..c]
        {
          s := s + [frameData[r, c]];
          c := c + 1;
        }
        s := s + ['\n'];
        assert Rows()[r..][1..] == Rows()[r + 1..];
      }
    }
  }
}

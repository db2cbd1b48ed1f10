/**
 One steam particle: its value (position, velocity, orientation and the two
 frame counters), the pure step functions that specify how one simulation step
 changes it, and the mutable `SteamParticle` object the renderer stores.
 */
module Particles {
  import opened Numeric

  /** The `x, y` pair of `Vector2<f32>`, over exact reals. */
  datatype Vec2 = Vec2(x: real, y: real)

  /** Lifespan of a particle spawned in the middle of the viewport. */
  const MaxLifespan: real := 60.0

  /** The value of a `SteamParticle`: everything its fields hold. */
  datatype ParticleState = ParticleState(
    position: Vec2,
    velocity: Vec2,
    left: bool,
    framesBetweenFlips: nat,
    lifespan: nat,
    frames: nat,
    framesSinceLastFlip: nat)
  {
    /** What holds of every particle the renderer still stores: it has not yet
        reached its lifespan, and its flip counter has not passed the interval. */
    predicate Live()
    {
      frames < lifespan && framesSinceLastFlip <= framesBetweenFlips
    }

    /** The particle's glyph: a vertical bar on the source row, otherwise a
        brace that leans the way the particle does. */
    function ToAscii(): (c: char)
      ensures c != ' ' && c != '\n'
      ensures c == '|' <==> Trunc(position.y) == 0
      ensures c == '{' <==> Trunc(position.y) != 0 && left
      ensures c == '}' <==> Trunc(position.y) != 0 && !left
    {
      if Trunc(position.y) == 0 then '|'
      else if left then '{'
      else '}'
    }
  }

  /** The lifespan, in frames, of a particle spawned at `xPercentage` of the
      width: the nearer the centre, the longer it lives. */
  function Lifespan(xPercentage: real): (n: nat)
    ensures 0.0 <= xPercentage < 1.0 ==> 30 <= n <= 60
    ensures xPercentage == 0.5 ==> n == 60
  {
    var closenessToCenter := Abs(xPercentage - 0.5);
    var multiplier := 1.0 - closenessToCenter;
    SaturateU32(Trunc(MaxLifespan * multiplier))
  }

  /** The lifespan depends only on the distance to the centre and never grows
      with it: a particle spawned nearer the centre lives at least as long. */
  lemma LifespanByDistance(a: real, b: real)
    requires Abs(a - 0.5) <= Abs(b - 0.5)
    ensures Lifespan(b) <= Lifespan(a)
  {
    TruncMonotone(MaxLifespan * (1.0 - Abs(b - 0.5)), MaxLifespan * (1.0 - Abs(a - 0.5)));
  }

  /** The particle `spawn_particle` inserts, given the random variates it draws:
      it starts on the source row (so it shows as `|`) with both counters at
      zero, and for a variate in `[0, 1)` it is live with a lifespan in `[30, 60]`. */
  function Spawned(xPercentage: real, left: bool, framesBetweenFlips: nat, width: nat, riseSpeed: real): (s: ParticleState)
    ensures s.frames == 0 && s.framesSinceLastFlip == 0 && s.ToAscii() == '|'
    ensures 0.0 <= xPercentage < 1.0 ==> s.Live() && 30 <= s.lifespan <= 60
  {
    ParticleState(Vec2(xPercentage * width as real, 0.0), Vec2(0.0, riseSpeed), left,
                  framesBetweenFlips, Lifespan(xPercentage), 0, 0)
  }

  /** The kinematic half of a simulation step: the wind pushes the horizontal
      velocity, which is clamped to `[-maxSpeed, maxSpeed]`, and the position
      advances by one Euler step with the new velocity. */
  function Move(s: ParticleState, wind: real, maxSpeed: real): (t: ParticleState)
    requires maxSpeed >= 0.0
    ensures t.velocity.x == Clamp(s.velocity.x + wind, -maxSpeed, maxSpeed)
    ensures -maxSpeed <= t.velocity.x <= maxSpeed
    ensures t.velocity.y == s.velocity.y
    ensures t.position == Vec2(s.position.x + t.velocity.x, s.position.y + t.velocity.y)
    ensures t.(position := s.position, velocity := s.velocity) == s
  {
    var vx := Clamp(s.velocity.x + wind, -maxSpeed, maxSpeed);
    var velocity := Vec2(vx, s.velocity.y);
    s.(velocity := velocity, position := Vec2(s.position.x + vx, s.position.y + velocity.y))
  }

  /** What one call of `SteamParticle::update` leaves behind and whether it
      asks for the particle to be deleted. */
  datatype Outcome = Outcome(next: ParticleState, delete: bool)

  /** The bookkeeping half of a simulation step (`SteamParticle::update`). */
  function Tick(s: ParticleState): (o: Outcome)
    ensures o.next.frames == s.frames + 1
    ensures o.delete <==> o.next.frames >= s.lifespan
  {
    var t := s.(framesSinceLastFlip := s.framesSinceLastFlip + 1, frames := s.frames + 1);
    if t.frames >= t.lifespan then Outcome(t, true)
    else if t.framesSinceLastFlip > t.framesBetweenFlips then
      Outcome(t.(left := !t.left, framesSinceLastFlip := 0), false)
    else Outcome(t, false)
  }

  /** When `update` reports deletion it neither flips nor resets the flip
      counter. Otherwise the particle flips and the counter restarts exactly
      when the counter has passed the interval, and either way the counter ends
      at most the interval. Only the counters and the orientation change. */
  lemma TickCounters(s: ParticleState)
    ensures var o := Tick(s);
      && (o.delete ==> o.next.left == s.left && o.next.framesSinceLastFlip == s.framesSinceLastFlip + 1)
      && (!o.delete && s.framesSinceLastFlip + 1 > s.framesBetweenFlips ==>
            o.next.left == !s.left && o.next.framesSinceLastFlip == 0)
      && (!o.delete && s.framesSinceLastFlip + 1 <= s.framesBetweenFlips ==>
            o.next.left == s.left && o.next.framesSinceLastFlip == s.framesSinceLastFlip + 1)
      && (!o.delete ==> o.next.framesSinceLastFlip <= s.framesBetweenFlips)
      && o.next.(left := s.left, frames := s.frames, framesSinceLastFlip := s.framesSinceLastFlip) == s
  {
  }

  /** A particle that survives `update` is still live. */
  lemma TickKeepsLive(s: ParticleState)
    requires s.Live()
    ensures !Tick(s).delete ==> Tick(s).next.Live()
  {
  }

  /** One full simulation step of one particle, in the order `update_simulation`
      applies it: move, then update the counters. */
  function Step(s: ParticleState, wind: real, maxSpeed: real): (o: Outcome)
    requires maxSpeed >= 0.0
    ensures -maxSpeed <= o.next.velocity.x <= maxSpeed
    ensures o.delete <==> s.frames + 1 >= s.lifespan
    ensures s.Live() && !o.delete ==> o.next.Live()
  {
    Tick(Move(s, wind, maxSpeed))
  }

  /** The state after `k` simulation steps, ignoring any deletion request: it
      is `k` frames older, with the same lifespan and flip interval. */
  function Steps(s: ParticleState, k: nat, wind: real, maxSpeed: real): (t: ParticleState)
    requires maxSpeed >= 0.0
    ensures t.frames == s.frames + k
    ensures t.lifespan == s.lifespan && t.framesBetweenFlips == s.framesBetweenFlips
    decreases k
  {
    if k == 0 then s else Step(Steps(s, k - 1, wind, maxSpeed), wind, maxSpeed).next
  }

  /** Expiry: a live particle is kept by every one of its first
      `lifespan - frames - 1` steps and is reported for deletion by the next
      one, so a newly spawned particle lives for exactly `lifespan` steps. */
  lemma {:induction false} LivesExactlyLifespan(s: ParticleState, wind: real, maxSpeed: real)
    requires maxSpeed >= 0.0
    requires s.Live()
    ensures forall i: nat :: i < s.lifespan - s.frames - 1 ==> !Step(Steps(s, i, wind, maxSpeed), wind, maxSpeed).delete
    ensures Step(Steps(s, s.lifespan - s.frames - 1, wind, maxSpeed), wind, maxSpeed).delete
  {
    forall i: nat | i < s.lifespan - s.frames - 1
      ensures !Step(Steps(s, i, wind, maxSpeed), wind, maxSpeed).delete
    {
      assert Steps(s, i, wind, maxSpeed).frames + 1 < s.lifespan;
    }
    assert Steps(s, s.lifespan - s.frames - 1, wind, maxSpeed).frames + 1 == s.lifespan;
  }

  /** Within one flip period: starting from a fresh flip counter, the first
      `j <= framesBetweenFlips` steps keep the orientation and count up. */
  lemma {:induction false} FlipCountUp(s: ParticleState, j: nat, wind: real, maxSpeed: real)
    requires maxSpeed >= 0.0
    requires s.framesSinceLastFlip == 0
    requires j <= s.framesBetweenFlips
    requires s.frames + j < s.lifespan
    ensures Steps(s, j, wind, maxSpeed).left == s.left
    ensures Steps(s, j, wind, maxSpeed).framesSinceLastFlip == j
  {
    if j > 0 {
      FlipCountUp(s, j - 1, wind, maxSpeed);
    }
  }

  /** Flip cadence: from a fresh flip counter, and as long as the particle does
      not expire meanwhile, the orientation is unchanged for `framesBetweenFlips`
      steps and toggles (restarting the counter) on step `framesBetweenFlips + 1`.
      So it toggles exactly once every `framesBetweenFlips + 1` steps. */
  lemma FlipCadence(s: ParticleState, wind: real, maxSpeed: real)
    requires maxSpeed >= 0.0
    requires s.framesSinceLastFlip == 0
    requires s.frames + s.framesBetweenFlips + 1 < s.lifespan
    ensures forall j: nat :: j <= s.framesBetweenFlips ==> Steps(s, j, wind, maxSpeed).left == s.left
    ensures Steps(s, s.framesBetweenFlips + 1, wind, maxSpeed).left == !s.left
    ensures Steps(s, s.framesBetweenFlips + 1, wind, maxSpeed).framesSinceLastFlip == 0
  {
    forall j: nat | j <= s.framesBetweenFlips
      ensures Steps(s, j, wind, maxSpeed).left == s.left
    {
      FlipCountUp(s, j, wind, maxSpeed);
    }
    FlipCountUp(s, s.framesBetweenFlips, wind, maxSpeed);
  }

  /** A particle on the source row at `x = 2` rising one cell per frame, leaning
      left, flipping every frame and living two frames: its first step lifts it
      to row 1, where it flips and shows as `}`; its second step retires it. */
  lemma RisingParticleScenario()
    ensures var s := ParticleState(Vec2(2.0, 0.0), Vec2(0.0, 1.0), true, 0, 2, 0, 0);
      var first := Step(s, 0.0, 1.0);
      var second := Step(first.next, 0.0, 1.0);
      && !first.delete
      && first.next.position == Vec2(2.0, 1.0)
      && first.next.frames == 1 && !first.next.left && first.next.framesSinceLastFlip == 0
      && first.next.ToAscii() == '}'
      && second.delete
  {
  }

  /** A `SteamParticle` as the renderer stores it: an object whose fields the
      simulation step updates in place. */
  class SteamParticle {
    var position: Vec2
    var velocity: Vec2
    var left: bool
    var framesBetweenFlips: nat
    var lifespan: nat
    var frames: nat
    var framesSinceLastFlip: nat

    /** The particle's current value. */
    function State(): ParticleState
      reads this
    {
      ParticleState(position, velocity, left, framesBetweenFlips, lifespan, frames, framesSinceLastFlip)
    }

    /** The struct literal of `spawn_particle`: both counters start at zero. */
    constructor (position: Vec2, velocity: Vec2, left: bool, framesBetweenFlips: nat, lifespan: nat)
      ensures State() == ParticleState(position, velocity, left, framesBetweenFlips, lifespan, 0, 0)
    {
      this.position := position;
      this.velocity := velocity;
      this.left := left;
      this.framesBetweenFlips := framesBetweenFlips;
      this.lifespan := lifespan;
      this.frames := 0;
      this.framesSinceLastFlip := 0;
    }

    /** Ages the particle by one frame and flips it when its interval is
        over; returns whether the particle should be deleted. */
    method Update() returns (delete: bool)
      modifies this
      ensures State() == Tick(old(State())).next
      ensures delete == Tick(old(State())).delete
      ensures delete <==> frames >= lifespan
      ensures frames == old(frames) + 1
    {
      framesSinceLastFlip := framesSinceLastFlip + 1;
      frames := frames + 1;

      if frames >= lifespan {
        return true;
      }

      if framesSinceLastFlip > framesBetweenFlips {
        Flip();
        framesSinceLastFlip := 0;
      }

      return false;
    }

    /** Toggles the orientation and nothing else. */
    method Flip()
      modifies this`left
      ensures left == !old(left)
    {
      left := !left;
    }
  }
}

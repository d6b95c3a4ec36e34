/**
 * The arithmetic of the blast (`triggerBlast`): the distance falloff of the
 * initial kick, the velocity each other word body receives, and the decaying
 * outward wind applied on every engine tick for a fixed window afterwards.
 * Distances are exact reals; random draws are inputs.
 */
module Blast {
  import opened Optional
  import opened Geometry

  /** `1 / max(0.6, d / 160)`: a capped boost for near bodies, inverse distance beyond. */
  function Falloff(d: real): (f: real)
    ensures 0.0 < f <= 1.0 / 0.6
  {
    1.0 / Max(0.6, d / 160.0)
  }

  /** The two regimes of the falloff; in particular it is exactly 1 at distance 160. */
  lemma FalloffLaw(d: real)
    ensures d <= 96.0 ==> Falloff(d) == 1.0 / 0.6
    ensures d >= 96.0 ==> Falloff(d) == 160.0 / d
    ensures Falloff(160.0) == 1.0
  {
  }

  /** Nearer bodies are kicked at least as hard as farther ones. */
  lemma FalloffAntitone(d1: real, d2: real)
    requires d1 <= d2
    ensures Falloff(d1) >= Falloff(d2)
  {
  }

  /** The outward speed `base * falloff * (0.85 + random * 0.4)`, with `d = max(8, hypot)`. */
  function KickSpeed(dist: real, strength: real, r: real): real {
    strength * Falloff(Max(8.0, dist)) * (0.85 + r * 0.4)
  }

  /** At distance 160 the speed is the base strength scaled by the random factor alone. */
  lemma KickSpeedAt160(strength: real, r: real)
    requires strength > 0.0 && 0.0 <= r < 1.0
    ensures 0.85 * strength <= KickSpeed(160.0, strength, r) < 1.25 * strength
  {
    FalloffLaw(160.0);
    assert KickSpeed(160.0, strength, r) == strength * (0.85 + r * 0.4);
    assert strength * (0.85 + r * 0.4) == 0.85 * strength + 0.4 * (r * strength);
    if r > 0.0 {
      assert r * strength > 0.0;
      assert (1.0 - r) * strength > 0.0;
    }
  }

  lemma ProductSign(x: real, k: real)
    requires k > 0.0
    ensures x * k > 0.0 <==> x > 0.0
    ensures x * k < 0.0 <==> x < 0.0
  {
    if x < 0.0 {
      assert (-x) * k > 0.0;
      assert x * k == -((-x) * k);
    }
  }

  lemma KickSpeedPositive(dist: real, strength: real, r: real)
    requires strength > 0.0 && r >= 0.0
    ensures KickSpeed(dist, strength, r) > 0.0
  {
    var f := Falloff(Max(8.0, dist));
    ProductSign(strength, f);
    ProductSign(strength * f, 0.85 + r * 0.4);
  }

  /** Scaling by a non-negative factor keeps an order. */
  lemma ScaleMonotone(a: real, b: real, k: real)
    requires a >= b && k >= 0.0
    ensures a * k >= b * k
  {
    assert a * k - b * k == (a - b) * k;
  }

  /** "Closer gets more speed": with the same draw, a nearer body is kicked at least as fast. */
  lemma KickSpeedAntitone(d1: real, d2: real, strength: real, r: real)
    requires d1 <= d2 && strength > 0.0 && r >= 0.0
    ensures KickSpeed(d1, strength, r) >= KickSpeed(d2, strength, r)
  {
    var f1, f2 := Falloff(Max(8.0, d1)), Falloff(Max(8.0, d2));
    FalloffAntitone(Max(8.0, d1), Max(8.0, d2));
    ScaleMonotone(f1, f2, strength);
    assert strength * f1 >= strength * f2;
    ScaleMonotone(strength * f1, strength * f2, 0.85 + r * 0.4);
  }

  /**
   * The vector `(dx / d * magnitude, dy / d * magnitude)` with
   * `d = max(floor, dist)`, pointing from the blast centre `c` to `p`.
   */
  function Outward(p: Point, c: Point, dist: real, floor: real, magnitude: real): Vec
    requires floor > 0.0
  {
    var d := Max(floor, dist);
    Vec((p.x - c.x) as real / d * magnitude, (p.y - c.y) as real / d * magnitude)
  }

  /**
   * An outward vector of positive magnitude has, on each axis, the sign of the
   * offset from the centre; it is zero exactly for a body sitting on the centre.
   */
  lemma OutwardDirection(p: Point, c: Point, dist: real, floor: real, magnitude: real)
    requires floor > 0.0 && magnitude > 0.0
    ensures var v := Outward(p, c, dist, floor, magnitude);
      && (v.x > 0.0 <==> p.x > c.x) && (v.x < 0.0 <==> p.x < c.x)
      && (v.y > 0.0 <==> p.y > c.y) && (v.y < 0.0 <==> p.y < c.y)
      && (v == Vec(0.0, 0.0) <==> p == c)
  {
    var d := Max(floor, dist);
    var dx, dy := (p.x - c.x) as real, (p.y - c.y) as real;
    assert dx / d > 0.0 <==> dx > 0.0;
    assert dx / d < 0.0 <==> dx < 0.0;
    assert dy / d > 0.0 <==> dy > 0.0;
    assert dy / d < 0.0 <==> dy < 0.0;
    ProductSign(dx / d, magnitude);
    ProductSign(dy / d, magnitude);
    assert p == c <==> p.x == c.x && p.y == c.y;
  }

  /** Two `Math.random()` draws per kicked body: one for the speed, one for the spin. */
  datatype KickDraw = KickDraw(speed: real, spin: real)

  /** A body's position and its distance to the blast centre when it is read. */
  datatype Observed = Observed(pos: Point, dist: real)

  /** The velocity and angular velocity the blast sets on one body. */
  datatype Kick = Kick(id: nat, velocity: Vec, spin: real)

  function KickFor(id: nat, o: Observed, c: Point, strength: real, spinMax: real, r: KickDraw): Kick {
    Kick(id, Outward(o.pos, c, o.dist, 8.0, KickSpeed(o.dist, strength, r.speed)), (r.spin - 0.5) * spinMax)
  }

  /**
   * The angular velocity `(random - 0.5) * spin` lies within half the
   * configured spin either way.
   */
  lemma KickSpinBounded(id: nat, o: Observed, c: Point, strength: real, spinMax: real, r: KickDraw)
    requires 0.0 <= r.spin < 1.0 && spinMax >= 0.0
    ensures KickFor(id, o, c, strength, spinMax, r).id == id
    ensures -spinMax / 2.0 <= KickFor(id, o, c, strength, spinMax, r).spin <= spinMax / 2.0
  {
    var u := r.spin - 0.5;
    assert KickFor(id, o, c, strength, spinMax, r).spin == u * spinMax;
    assert u * spinMax == r.spin * spinMax - 0.5 * spinMax;
    ScaleMonotone(1.0, r.spin, spinMax);
    assert r.spin * spinMax <= spinMax;
    ScaleMonotone(r.spin, 0.0, spinMax);
    assert r.spin * spinMax >= 0.0;
    assert u * spinMax <= spinMax / 2.0;
  }

  /** The word bodies the blast acts on: every one but the chosen one, in world order. */
  function Others(words: seq<nat>, chosen: nat): (r: seq<nat>)
    ensures |r| <= |words|
  {
    if |words| == 0 then []
    else
      var last := |words| - 1;
      var rest := Others(words[..last], chosen);
      if words[last] == chosen then rest else rest + [words[last]]
  }

  /** The filter keeps exactly the word bodies other than the chosen one. */
  lemma {:induction false} OthersMembers(words: seq<nat>, chosen: nat)
    ensures forall id :: id in Others(words, chosen) <==> id in words && id != chosen
  {
    if |words| > 0 {
      var last := |words| - 1;
      OthersMembers(words[..last], chosen);
      assert words == words[..last] + [words[last]];
      assert forall id :: id in words <==> id in words[..last] || id == words[last];
    }
  }

  /** Filtering a list that starts with `x`: `x` is kept in front unless it is the chosen one. */
  lemma {:induction false} OthersCons(x: nat, words: seq<nat>, chosen: nat)
    ensures Others([x] + words, chosen) == (if x == chosen then [] else [x]) + Others(words, chosen)
    decreases |words|
  {
    if |words| > 0 {
      var last := |words| - 1;
      assert ([x] + words)[..|words|] == [x] + words[..last];
      OthersCons(x, words[..last], chosen);
    } else {
      assert [x] + words == [x];
      assert [x][..0] == [];
    }
  }

  /** The kicks of the `words.forEach` loop: one per word body but the chosen one, in order. */
  function Kicks(words: seq<nat>, chosen: nat, c: Point, obs: map<nat, Observed>,
                 draws: map<nat, KickDraw>, strength: real, spinMax: real): seq<Kick>
    requires forall id :: id in words ==> id in obs && id in draws
  {
    var ts := Others(words, chosen);
    OthersMembers(words, chosen);
    seq(|ts|, k requires 0 <= k < |ts| => KickFor(ts[k], obs[ts[k]], c, strength, spinMax, draws[ts[k]]))
  }

  /** One more word body adds its kick at the end, unless it is the chosen one. */
  lemma KicksExtend(words: seq<nat>, id: nat, chosen: nat, c: Point, obs: map<nat, Observed>,
                    draws: map<nat, KickDraw>, strength: real, spinMax: real)
    requires forall i :: i in words + [id] ==> i in obs && i in draws
    ensures Kicks(words + [id], chosen, c, obs, draws, strength, spinMax)
         == Kicks(words, chosen, c, obs, draws, strength, spinMax)
            + (if id == chosen then [] else [KickFor(id, obs[id], c, strength, spinMax, draws[id])])
  {
    assert (words + [id])[..|words|] == words;
  }

  /**
   * The kicks go to word bodies other than the chosen one, each computed from
   * that body's own observation and draws, and every other word body gets one.
   */
  lemma KicksCoverOthers(words: seq<nat>, chosen: nat, c: Point, obs: map<nat, Observed>,
                         draws: map<nat, KickDraw>, strength: real, spinMax: real)
    requires forall id :: id in words ==> id in obs && id in draws
    ensures var ks := Kicks(words, chosen, c, obs, draws, strength, spinMax);
      && (forall i :: 0 <= i < |ks| ==>
            ks[i].id in words && ks[i].id != chosen
            && ks[i] == KickFor(ks[i].id, obs[ks[i].id], c, strength, spinMax, draws[ks[i].id]))
      && (forall id :: id in words && id != chosen ==> exists i :: 0 <= i < |ks| && ks[i].id == id)
  {
    var ts := Others(words, chosen);
    OthersMembers(words, chosen);
    var ks := Kicks(words, chosen, c, obs, draws, strength, spinMax);
    forall id | id in words && id != chosen
      ensures exists i :: 0 <= i < |ks| && ks[i].id == id
    {
      var i :| 0 <= i < |ts| && ts[i] == id;
      assert ks[i].id == id;
    }
  }

  /**
   * With a positive base strength and non-negative speed draws, every word body
   * other than the chosen one is kicked, and its velocity is non-zero and
   * points away from the blast centre on each axis unless it sits exactly on
   * the centre.
   */
  lemma EveryOtherBodyKickedOutward(words: seq<nat>, chosen: nat, c: Point, obs: map<nat, Observed>,
                                    draws: map<nat, KickDraw>, strength: real, spinMax: real, id: nat)
    requires forall id :: id in words ==> id in obs && id in draws
    requires id in words && id != chosen
    requires strength > 0.0 && draws[id].speed >= 0.0
    ensures var ks := Kicks(words, chosen, c, obs, draws, strength, spinMax);
      exists i :: 0 <= i < |ks| && ks[i].id == id
        && (ks[i].velocity.x > 0.0 <==> obs[id].pos.x > c.x) && (ks[i].velocity.x < 0.0 <==> obs[id].pos.x < c.x)
        && (ks[i].velocity.y > 0.0 <==> obs[id].pos.y > c.y) && (ks[i].velocity.y < 0.0 <==> obs[id].pos.y < c.y)
        && (ks[i].velocity == Vec(0.0, 0.0) <==> obs[id].pos == c)
  {
    var ks := Kicks(words, chosen, c, obs, draws, strength, spinMax);
    KicksCoverOthers(words, chosen, c, obs, draws, strength, spinMax);
    var i :| 0 <= i < |ks| && ks[i].id == id;
    KickSpeedPositive(obs[id].dist, strength, draws[id].speed);
    OutwardDirection(obs[id].pos, c, obs[id].dist, 8.0, KickSpeed(obs[id].dist, strength, draws[id].speed));
  }

  /**
   * The wind multiplier on a tick at time `now`: none once the window has
   * ended (the handler deregisters), otherwise `t * t` with `t` the fraction
   * of the window still to run.
   */
  function WindMultiplier(now: real, windEnd: real, windMs: real): (m: Option<real>)
    requires windMs > 0.0
    ensures m.None? <==> now >= windEnd
    ensures m.Some? ==> m.value > 0.0
    ensures m.Some? && now >= windEnd - windMs ==> m.value <= 1.0
  {
    if now >= windEnd then None
    else
      var t := (windEnd - now) / windMs;
      Ratio(windEnd - now, windMs);
      SquareBounds(t);
      Some(t * t)
  }

  lemma Ratio(a: real, w: real)
    requires w > 0.0
    ensures a > 0.0 ==> a / w > 0.0
    ensures a <= w ==> a / w <= 1.0
  {
  }

  lemma RatioMonotone(a: real, b: real, w: real)
    requires w > 0.0
    ensures a >= b ==> a / w >= b / w
  {
    assert a / w - b / w == (a - b) / w;
    Ratio(a - b, w);
  }

  lemma SquareBounds(t: real)
    requires t > 0.0
    ensures t * t > 0.0
    ensures t <= 1.0 ==> t * t <= 1.0
  {
    if t < 1.0 {
      assert (1.0 - t) * (1.0 + t) > 0.0;
      assert 1.0 - t * t == (1.0 - t) * (1.0 + t);
    } else if t == 1.0 {
      assert t * t == 1.0;
    }
  }

  lemma Squares(t1: real, t2: real)
    ensures t1 >= t2 > 0.0 ==> t1 * t1 >= t2 * t2 > 0.0
  {
    if t1 > t2 > 0.0 {
      assert (t1 - t2) * (t1 + t2) > 0.0;
      assert t1 * t1 - t2 * t2 == (t1 - t2) * (t1 + t2);
    }
  }

  /** The wind eases out: a later tick never pushes harder than an earlier one. */
  lemma WindDecays(now1: real, now2: real, windEnd: real, windMs: real)
    requires windMs > 0.0 && now1 <= now2 < windEnd
    ensures WindMultiplier(now1, windEnd, windMs).value >= WindMultiplier(now2, windEnd, windMs).value
  {
    var t1, t2 := (windEnd - now1) / windMs, (windEnd - now2) / windMs;
    RatioMonotone(windEnd - now1, windEnd - now2, windMs);
    Ratio(windEnd - now2, windMs);
    Squares(t1, t2);
  }

  /** The outward force on one body during a wind tick. */
  datatype Force = Force(id: nat, force: Vec)

  /** The forces of one wind tick: one per captured word body but the chosen one, with `d = max(20, hypot)`. */
  function WindForces(words: seq<nat>, chosen: nat, c: Point, obs: map<nat, Observed>,
                      windBase: real, mult: real): seq<Force>
    requires forall id :: id in words ==> id in obs
  {
    var ts := Others(words, chosen);
    OthersMembers(words, chosen);
    seq(|ts|, k requires 0 <= k < |ts| => Force(ts[k], Outward(obs[ts[k]].pos, c, obs[ts[k]].dist, 20.0, windBase * mult)))
  }

  /** One more word body adds its force at the end, unless it is the chosen one. */
  lemma WindForcesExtend(words: seq<nat>, id: nat, chosen: nat, c: Point, obs: map<nat, Observed>,
                         windBase: real, mult: real)
    requires forall i :: i in words + [id] ==> i in obs
    ensures WindForces(words + [id], chosen, c, obs, windBase, mult)
         == WindForces(words, chosen, c, obs, windBase, mult)
            + (if id == chosen then [] else [Force(id, Outward(obs[id].pos, c, obs[id].dist, 20.0, windBase * mult))])
  {
    assert (words + [id])[..|words|] == words;
  }

  /** `f` acts on a word body other than the chosen one and points away from the centre on each axis. */
  ghost predicate PushesOutward(f: Force, words: seq<nat>, chosen: nat, c: Point, obs: map<nat, Observed>) {
    && f.id in words && f.id != chosen && f.id in obs
    && (f.force.x > 0.0 <==> obs[f.id].pos.x > c.x) && (f.force.x < 0.0 <==> obs[f.id].pos.x < c.x)
    && (f.force.y > 0.0 <==> obs[f.id].pos.y > c.y) && (f.force.y < 0.0 <==> obs[f.id].pos.y < c.y)
  }

  /**
   * Every wind force acts on a word body other than the chosen one and points
   * away from the blast centre, and every such body receives a force.
   */
  lemma WindForcesOutward(words: seq<nat>, chosen: nat, c: Point, obs: map<nat, Observed>,
                          windBase: real, mult: real)
    requires forall id :: id in words ==> id in obs
    requires windBase > 0.0 && mult > 0.0
    ensures forall f :: f in WindForces(words, chosen, c, obs, windBase, mult) ==>
      PushesOutward(f, words, chosen, c, obs)
    ensures forall id :: id in words && id != chosen ==>
      exists f :: f in WindForces(words, chosen, c, obs, windBase, mult) && f.id == id
  {
    var ts := Others(words, chosen);
    OthersMembers(words, chosen);
    var fs := WindForces(words, chosen, c, obs, windBase, mult);
    ProductSign(windBase, mult);
    forall f | f in fs ensures PushesOutward(f, words, chosen, c, obs) {
      var k :| 0 <= k < |fs| && fs[k] == f;
      OutwardDirection(obs[f.id].pos, c, obs[f.id].dist, 20.0, windBase * mult);
    }
    forall id | id in words && id != chosen
      ensures exists f :: f in fs && f.id == id
    {
      var k :| 0 <= k < |ts| && ts[k] == id;
      assert fs[k] in fs && fs[k].id == id;
    }
  }
}

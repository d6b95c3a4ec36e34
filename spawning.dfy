/**
 * Pure rules of the spawner: the spawn-limit test, the cyclic walk over the
 * word list, the size of the initial burst, where a new word is placed and
 * which live words the cap evicts.
 */
module Spawning {
  import opened Optional
  import opened Settings
  import opened Geometry

  /** `canSpawnMore`: no limit, or fewer words spawned than the limit. */
  function CanSpawnMore(limit: Option<nat>, count: nat): bool {
    limit.None? || count < limit.value
  }

  /**
   * Without a limit the spawner never stops; with one, once it refuses it
   * refuses for every larger count, and it allows exactly `limit` spawns from zero.
   */
  lemma LimitStaysReached(limit: Option<nat>, count: nat, later: nat)
    ensures limit.None? ==> CanSpawnMore(limit, count)
    ensures !CanSpawnMore(limit, count) && count <= later ==> !CanSpawnMore(limit, later)
    ensures limit.Some? ==> (CanSpawnMore(limit, count) <==> count < limit.value)
  {
  }

  /** The text `nextWord` returns when the cyclic index is `index`. */
  function WordAt(words: seq<string>, index: nat): (w: string)
    requires |words| > 0
    ensures w in words
  {
    words[index % |words|]
  }

  /** The texts returned by `n` successive `nextWord` calls from index `start`. */
  function Texts(words: seq<string>, start: nat, n: nat): (r: seq<string>)
    requires |words| > 0
    ensures |r| == n
  {
    seq(n, k requires 0 <= k => WordAt(words, start + k))
  }

  /** Euclidean division is unique: a value written as `q * n + k` with `0 <= k < n` has remainder `k`. */
  lemma DivisionUnique(x: int, n: int, q: int, k: int)
    requires n > 0 && 0 <= k < n && x == q * n + k
    ensures x % n == k
  {
    var q', k' := x / n, x % n;
    assert x == q' * n + k';
    assert (q - q') * n == k' - k;
    MultipleOfPositive(q - q', n);
  }

  lemma MultipleOfPositive(m: int, n: int)
    requires n > 0
    ensures m >= 1 ==> m * n >= n
    ensures m <= -1 ==> m * n <= -n
  {
    assert m * n - n == (m - 1) * n;
    assert m * n + n == (m + 1) * n;
  }

  lemma WholeTurns(n: nat, r: nat, k: nat)
    requires 0 <= k < n
    ensures (r * n + k) % n == k
  {
    DivisionUnique(r * n + k, n, r, k);
  }

  /**
   * Every block of |words| successive calls that starts at a multiple of
   * |words| returns the whole list, in order.
   */
  lemma CycleInOrder(words: seq<string>, r: nat)
    requires |words| > 0
    ensures Texts(words, r * |words|, |words|) == words
  {
    forall k | 0 <= k < |words|
      ensures Texts(words, r * |words|, |words|)[k] == words[k]
    {
      WholeTurns(|words|, r, k);
    }
  }

  /** After `|words|` more calls the cycle repeats itself. */
  lemma {:induction false} CyclePeriodic(words: seq<string>, index: nat)
    requires |words| > 0
    ensures WordAt(words, index + |words|) == WordAt(words, index)
  {
    var n := |words|;
    var q, k := index / n, index % n;
    assert index + n == (q + 1) * n + k;
    DivisionUnique(index + n, n, q + 1, k);
  }

  /**
   * The number of words the initial burst spawns: it calls `spawnOne` up to
   * `burst` times and stops at the first refusal.
   */
  function BurstSpawns(limit: Option<nat>, count: nat, burst: nat): (n: nat)
    requires limit.Some? ==> count <= limit.value
    ensures n <= burst
    ensures limit.Some? ==> count + n <= limit.value
    ensures n < burst ==> !CanSpawnMore(limit, count + n)
  {
    match limit
    case None => burst
    case Some(l) => if burst <= l - count then burst else l - count
  }

  /** The measured box of a new word and the three `Math.random()` draws of `addWord`, in call order. */
  datatype Draw = Draw(rectWidth: real, rectHeight: real, rx: real, ry: real, ra: real)

  /** Where a new word body is created: centre, rotation in degrees and box size. */
  datatype Placement = Placement(x: real, y: real, angleDeg: real, width: real, height: real)

  /** The random horizontal position around the centre, before clamping. */
  function RawSpawnX(viewW: real, spread: real, rx: real): real {
    viewW / 2.0 + (rx - 0.5) * (viewW * spread)
  }

  /** Before clamping, a word lands within half the spread band on either side of the centre. */
  lemma RawSpawnXNearCentre(viewW: real, spread: real, rx: real, band: real)
    requires 0.0 <= rx < 1.0 && band == viewW * spread && band >= 0.0
    ensures viewW / 2.0 - band / 2.0 <= RawSpawnX(viewW, spread, rx) <= viewW / 2.0 + band / 2.0
  {
    Fraction(rx, band);
    var off := (rx - 0.5) * band;
    assert RawSpawnX(viewW, spread, rx) == viewW / 2.0 + off;
    assert off == rx * band - 0.5 * band;
    assert rx * band <= band;
    assert off <= band / 2.0;
  }

  /**
   * The clamp of `addWord`: inside `[width/2 + 4, W - width/2 - 4]` when that
   * range is non-degenerate, the raw value otherwise.
   */
  function ClampSpawnX(raw: real, width: real, viewW: real): (x: real)
    ensures var minX, maxX := width / 2.0 + 4.0, viewW - width / 2.0 - 4.0;
      && (maxX > minX ==> minX <= x <= maxX)
      && (maxX > minX && minX <= raw <= maxX ==> x == raw)
      && (maxX > minX && raw < minX ==> x == minX)
      && (maxX > minX && raw > maxX ==> x == maxX)
      && (maxX <= minX ==> x == raw)
  {
    var minX := width / 2.0 + 4.0;
    var maxX := viewW - width / 2.0 - 4.0;
    if maxX > minX then Min(maxX, Max(minX, raw)) else raw
  }

  /** A random fraction of a non-negative span stays within the span. */
  lemma Fraction(r: real, h: real)
    ensures 0.0 <= r < 1.0 && h >= 0.0 ==> 0.0 <= r * h <= h
  {
    if 0.0 < r < 1.0 && h > 0.0 {
      assert r * h > 0.0;
      assert (1.0 - r) * h > 0.0;
    }
  }

  /** The height above the top edge: `-(spawnHeightMin + random * spawnHeightRand)`. */
  function SpawnY(c: Config, ry: real): (y: real)
    ensures 0.0 <= ry < 1.0 && c.spawnHeightRand >= 0.0 ==>
      -(c.spawnHeightMin + c.spawnHeightRand) <= y <= -c.spawnHeightMin
  {
    Fraction(ry, c.spawnHeightRand);
    -(c.spawnHeightMin + ry * c.spawnHeightRand)
  }

  /** The initial rotation in degrees, drawn in `[rotationMinDeg, rotationMaxDeg)`. */
  function SpawnAngleDeg(c: Config, ra: real): (a: real)
    ensures 0.0 <= ra < 1.0 && c.rotationMinDeg <= c.rotationMaxDeg ==>
      c.rotationMinDeg <= a <= c.rotationMaxDeg
  {
    var span := c.rotationMaxDeg - c.rotationMinDeg;
    Fraction(ra, span);
    c.rotationMinDeg + ra * span
  }

  /** The placement `addWord` computes for a word measured and drawn as `d`. */
  function Place(c: Config, viewW: real, d: Draw): (p: Placement)
    ensures p.width >= c.minWordWidth && p.width >= d.rectWidth
    ensures p.width == c.minWordWidth || p.width == d.rectWidth
    ensures p.height >= c.minWordHeight && p.height >= d.rectHeight
    ensures p.height == c.minWordHeight || p.height == d.rectHeight
    ensures var minX, maxX := p.width / 2.0 + 4.0, viewW - p.width / 2.0 - 4.0;
      maxX > minX ==> minX <= p.x <= maxX
    ensures 0.0 <= d.ry < 1.0 && c.spawnHeightRand >= 0.0 ==>
      -(c.spawnHeightMin + c.spawnHeightRand) <= p.y <= -c.spawnHeightMin
    ensures 0.0 <= d.ra < 1.0 && c.rotationMinDeg <= c.rotationMaxDeg ==>
      c.rotationMinDeg <= p.angleDeg <= c.rotationMaxDeg
  {
    var width := Max(c.minWordWidth, d.rectWidth);
    var height := Max(c.minWordHeight, d.rectHeight);
    var x := ClampSpawnX(RawSpawnX(viewW, c.spawnHorizontalSpread, d.rx), width, viewW);
    Placement(x, SpawnY(c, d.ry), SpawnAngleDeg(c, d.ra), width, height)
  }

  /**
   * What the cap leaves of the live entries `s` (oldest first): all of them
   * when there are at most `cap`, otherwise the newest `cap`.
   */
  function Evicted<T>(s: seq<T>, cap: nat): (r: seq<T>)
    ensures |r| <= cap || r == s
    ensures |r| == if |s| > cap then cap else |s|
    ensures r == s[|s| - |r|..]
  {
    if |s| > cap then s[|s| - cap..] else s
  }
}

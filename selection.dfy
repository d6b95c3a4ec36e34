/**
 * The choice of the body to detonate (`finalizeSelection`): the body nearest
 * to the centre sensor, among the bodies touching the sensor when there are
 * any, otherwise among all word bodies. Positions come from the physics world
 * and the touching list from its collision query; both are inputs here.
 */
module Selection {
  import opened Optional
  import opened Geometry

  /** A word body and its position when the selection runs. */
  datatype Placed = Placed(id: nat, pos: Point)

  /**
   * Index `k` of `bs` is the one a left-to-right scan keeping the strictly
   * nearer candidate ends with: no candidate is nearer, every earlier one is
   * strictly farther.
   */
  ghost predicate IsFirstNearest(bs: seq<Placed>, c: Point, k: nat) {
    && k < |bs|
    && (forall j :: 0 <= j < |bs| ==> SqDist(bs[k].pos, c) <= SqDist(bs[j].pos, c))
    && (forall j :: 0 <= j < k ==> SqDist(bs[j].pos, c) > SqDist(bs[k].pos, c))
  }

  /**
   * The `reduce` over the candidates: a candidate replaces the best so far
   * only when its squared distance is strictly smaller.
   */
  function Nearest(bs: seq<Placed>, c: Point): (r: Option<nat>)
    ensures r.None? <==> |bs| == 0
    ensures r.Some? ==> IsFirstNearest(bs, c, r.value)
  {
    if |bs| == 0 then None
    else
      var last := |bs| - 1;
      match Nearest(bs[..last], c)
      case None => Some(last)
      case Some(k) =>
        if SqDist(bs[last].pos, c) < SqDist(bs[k].pos, c) then Some(last) else Some(k)
  }

  /** There is only one first-nearest index, so `Nearest` is fully determined by it. */
  lemma FirstNearestUnique(bs: seq<Placed>, c: Point, k: nat)
    requires IsFirstNearest(bs, c, k)
    ensures Nearest(bs, c) == Some(k)
  {
  }

  /** The word bodies, in world order, with the positions the world reports. */
  function Locate(ids: seq<nat>, pos: map<nat, Point>): (bs: seq<Placed>)
    requires forall i :: 0 <= i < |ids| ==> ids[i] in pos
    ensures |bs| == |ids|
    ensures forall i :: 0 <= i < |ids| ==> bs[i] == Placed(ids[i], pos[ids[i]])
  {
    seq(|ids|, i requires 0 <= i < |ids| => Placed(ids[i], pos[ids[i]]))
  }

  /**
   * The chosen body: the first nearest of the touching bodies if any touch the
   * sensor, otherwise the first nearest of all word bodies; none when there are
   * no candidates at all.
   */
  function Choose(touching: seq<Placed>, words: seq<Placed>, c: Point): (r: Option<Placed>)
    ensures r.None? <==> |touching| == 0 && |words| == 0
    ensures |touching| > 0 ==>
      exists k: nat :: IsFirstNearest(touching, c, k) && r == Some(touching[k])
    ensures |touching| == 0 && |words| > 0 ==>
      exists k: nat :: IsFirstNearest(words, c, k) && r == Some(words[k])
  {
    var pool := if |touching| > 0 then touching else words;
    match Nearest(pool, c)
    case None => None
    case Some(k) => Some(pool[k])
  }

  /** A single body touching the sensor is the one chosen, wherever the other word bodies lie. */
  lemma SoleToucherChosen(touching: seq<Placed>, words: seq<Placed>, c: Point)
    requires |touching| == 1
    ensures Choose(touching, words, c) == Some(touching[0])
  {
    assert Nearest(touching, c) == Some(0);
  }
}

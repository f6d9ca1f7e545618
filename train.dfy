/** The terrain and scene logic of Train (Train/app.js). The ground is a
    polyline: a list of points, each holding its horizontal step `dx` from the
    previous one, its height `y` and its absolute abscissa `x`, together with
    `startX`, the abscissa the first step starts from. The list is reset from a
    fixed table, grown on the right with random steps, pruned on the left, and
    queried by `terrainAt`, which interpolates linearly inside the segment that
    reaches the queried abscissa. `Math.random()` becomes a parameter
    `random: nat -> real` whose k-th value is the k-th draw. */
module Train {
  import opened Common
  import opened Geometry
  import Scenes
  import CameraDrag

  /** `config.width` and `config.terrain.clearPeriod`. */
  const SceneWidth := 720.0
  const ClearPeriod := 5.0

  datatype Point = Point(dx: real, y: real, x: real)

  /** The `(dx, y)` pairs `resetTerrain` writes. */
  const ResetTable: seq<(real, real)> :=
    [(0.0, 250.0), (100.0, 200.0), (100.0, 150.0), (50.0, 150.0), (100.0, 160.0),
     (50.0, 160.0), (100.0, 50.0), (100.0, 30.0), (100.0, 0.0)]

  /** The abscissa segment i starts from: `startX` for the first point, the
      previous point's `x` for the others. */
  function Before(startX: real, ps: seq<Point>, i: nat): real
    requires i <= |ps|
  {
    if i == 0 then startX else ps[i - 1].x
  }

  /** Every point lies `dx` to the right of where its segment starts. (The
      trigger keeps the solver from walking down the list through `Before`.) */
  predicate Consistent(startX: real, ps: seq<Point>) {
    forall i {:trigger Before(startX, ps, i)} :: 0 <= i < |ps| ==> ps[i].x == Before(startX, ps, i) + ps[i].dx
  }

  /** The sum of the first n steps. */
  function DxSum(ps: seq<Point>, n: nat): real
    requires n <= |ps|
  {
    if n == 0 then 0.0 else DxSum(ps, n - 1) + ps[n - 1].dx
  }

  lemma {:induction false} RunningSumAt(startX: real, ps: seq<Point>, i: nat)
    requires Consistent(startX, ps) && i < |ps|
    ensures ps[i].x == startX + DxSum(ps, i + 1)
    decreases i
  {
    assert ps[i].x == Before(startX, ps, i) + ps[i].dx;
    if i > 0 {
      RunningSumAt(startX, ps, i - 1);
    }
  }

  /** `Consistent` is the running-sum invariant: each point's `x` is `startX`
      plus the steps of that point and all the earlier ones. */
  lemma ConsistentIsRunningSum(startX: real, ps: seq<Point>)
    ensures Consistent(startX, ps) <==> forall i :: 0 <= i < |ps| ==> ps[i].x == startX + DxSum(ps, i + 1)
  {
    if Consistent(startX, ps) {
      forall i | 0 <= i < |ps|
        ensures ps[i].x == startX + DxSum(ps, i + 1)
      {
        RunningSumAt(startX, ps, i);
      }
    }
  }

  /** The points `resetTerrain` leaves: the table's steps and heights, with
      consistent abscissas. */
  predicate IsResetTerrain(startX: real, ps: seq<Point>) {
    && |ps| == |ResetTable|
    && (forall i :: 0 <= i < |ps| ==> ps[i].dx == ResetTable[i].0 && ps[i].y == ResetTable[i].1)
    && Consistent(startX, ps)
  }

  /** The reset terrain runs 700 units to the right of `startX`, its first
      point sitting at `startX` itself. */
  lemma ResetTerrainSpan(startX: real, ps: seq<Point>)
    requires IsResetTerrain(startX, ps)
    ensures ps[0].x == startX && ps[|ps| - 1].x == startX + 700.0
    ensures forall i :: 0 < i < |ps| ==> ps[i - 1].x < ps[i].x
  {
    assert ps[0].x == Before(startX, ps, 0) + 0.0 == startX;
    assert ps[1].x == Before(startX, ps, 1) + 100.0 == startX + 100.0;
    assert ps[2].x == Before(startX, ps, 2) + 100.0 == startX + 200.0;
    assert ps[3].x == Before(startX, ps, 3) + 50.0 == startX + 250.0;
    assert ps[4].x == Before(startX, ps, 4) + 100.0 == startX + 350.0;
    assert ps[5].x == Before(startX, ps, 5) + 50.0 == startX + 400.0;
    assert ps[6].x == Before(startX, ps, 6) + 100.0 == startX + 500.0;
    assert ps[7].x == Before(startX, ps, 7) + 100.0 == startX + 600.0;
    assert ps[8].x == Before(startX, ps, 8) + 100.0 == startX + 700.0;
  }

  /** One point appended by `ensureElevationUntil` after `prev`, from the two
      draws r1 (for the step, `lerp(50, 150, r1)`) and r2 (for the height,
      `lerp(prev.y + 20, prev.y - 80, r2)`). */
  predicate Grown(prev: Point, p: Point, r1: real, r2: real) {
    && p.dx == 50.0 + 100.0 * r1
    && p.y == prev.y + 20.0 - 100.0 * r2
    && p.x == prev.x + p.dx
  }

  /** `Grown` states the two interpolations of the source. */
  lemma GrownIsLerp(prev: Point, p: Point, r1: real, r2: real)
    ensures Grown(prev, p, r1, r2) <==>
      && p.dx == Lerp(50.0, 150.0, r1)
      && p.y == Lerp(prev.y + 20.0, prev.y - 80.0, r2)
      && p.x == prev.x + p.dx
  {
    assert Lerp(50.0, 150.0, r1) - 50.0 == r1 * 100.0;
    assert Lerp(prev.y + 20.0, prev.y - 80.0, r2) - (prev.y + 20.0) == r2 * -100.0;
  }

  /** A grown step is in [50, 150) and the height moves by at most 20 up and
      less than 80 down. */
  lemma GrownBounds(prev: Point, p: Point, r1: real, r2: real)
    requires Grown(prev, p, r1, r2)
    requires 0.0 <= r1 < 1.0 && 0.0 <= r2 < 1.0
    ensures 50.0 <= p.dx < 150.0 && p.x >= prev.x + 50.0
    ensures prev.y - 80.0 < p.y <= prev.y + 20.0
  {
  }

  /** The number of leading points whose `x` is left of `targetX`. */
  function ClearCount(ps: seq<Point>, targetX: real): (k: nat)
    ensures k <= |ps|
    ensures forall j :: 0 <= j < k ==> ps[j].x < targetX
    ensures k < |ps| ==> ps[k].x >= targetX
  {
    if |ps| == 0 || ps[0].x >= targetX then 0 else 1 + ClearCount(ps[1..], targetX)
  }

  /** Dropping a prefix and moving `startX` to the last dropped point keeps
      the terrain consistent. */
  lemma ConsistentSuffix(startX: real, ps: seq<Point>, k: nat)
    requires Consistent(startX, ps) && k <= |ps|
    ensures Consistent(Before(startX, ps, k), ps[k..])
  {
    var qs := ps[k..];
    forall i | 0 <= i < |qs|
      ensures qs[i].x == Before(Before(startX, ps, k), qs, i) + qs[i].dx
    {
      assert qs[i] == ps[k + i];
      assert ps[k + i].x == Before(startX, ps, k + i) + ps[k + i].dx;
      if i > 0 {
        assert qs[i - 1] == ps[k + i - 1];
      }
    }
  }

  /** A JavaScript number: finite, or NaN / an infinity. */
  datatype Num = Finite(v: real) | NonFinite

  /** `identifier` of a hit: the segment index and the fraction along it. */
  datatype Identifier = Identifier(segment: nat, position: Num)

  /** The object `terrainAt` returns; `identifier` is null past the last point. */
  datatype Hit = Hit(identifier: Option<Identifier>, x: real, y: Num)

  /** `(targetX - prevX) / (x - prevX)`: a zero-length segment divides by zero. */
  function Fac(targetX: real, prevX: real, x: real): Num {
    if x == prevX then NonFinite else Finite((targetX - prevX) / (x - prevX))
  }

  /** `lerp` on numbers that may not be finite: any non-finite operand makes
      the result non-finite. */
  function LerpNum(a: Num, b: real, t: Num): (r: Num)
    ensures r.Finite? <==> a.Finite? && t.Finite?
    ensures r.Finite? && t.v == 0.0 ==> r.v == a.v
  {
    if a.Finite? && t.Finite? then Finite(Lerp(a.v, b, t.v)) else NonFinite
  }

  /** The hit in segment k entered at `prevX` with previous height `prevY`. */
  function SegmentHit(ps: seq<Point>, k: nat, prevX: real, prevY: Num, targetX: real): Hit
    requires k < |ps|
  {
    var fac := Fac(targetX, prevX, prevX + ps[k].dx);
    Hit(Some(Identifier(k, fac)), targetX, LerpNum(prevY, ps[k].y, fac))
  }

  /** The loop of `terrainAt` from point i on, with the running `x` and the
      previous height. */
  function Scan(ps: seq<Point>, i: nat, prevX: real, prevY: Num, targetX: real): (h: Hit)
    requires i <= |ps|
    ensures h.x == targetX
    ensures h.identifier.Some? ==> i <= h.identifier.value.segment < |ps|
    decreases |ps| - i
  {
    if i == |ps| then Hit(None, targetX, prevY)
    else if prevX + ps[i].dx >= targetX then SegmentHit(ps, i, prevX, prevY, targetX)
    else Scan(ps, i + 1, prevX + ps[i].dx, Finite(ps[i].y), targetX)
  }

  /** `terrainAt` with `firstY` as the initial previous height: null for a
      negative abscissa or an empty terrain, otherwise the scan's hit. */
  function TerrainAtSpec(startX: real, ps: seq<Point>, targetX: real, firstY: Num): (r: Option<Hit>)
    ensures r.None? <==> targetX < 0.0 || |ps| == 0
    ensures r.Some? ==> r.value.x == targetX
  {
    if targetX < 0.0 || |ps| == 0 then None else Some(Scan(ps, 0, startX, firstY, targetX))
  }

  /** The initial previous height as written at Train/app.js:855: the first
      point object itself, which arithmetic turns into NaN. */
  const AsWrittenFirstY := NonFinite

  /** The evidently intended initial previous height: the first point's `y`. */
  function FirstY(ps: seq<Point>): Num {
    if |ps| == 0 then NonFinite else Finite(ps[0].y)
  }

  /** On a consistent terrain the scan stops at the first point at or right
      of `targetX`, entering its segment from the previous point. */
  lemma {:induction false} ScanStopsAtFirstReaching(startX: real, ps: seq<Point>, i: nat, prevY: Num, targetX: real, k: nat)
    requires Consistent(startX, ps)
    requires i <= k < |ps| && ps[k].x >= targetX
    requires forall j :: i <= j < k ==> ps[j].x < targetX
    ensures Scan(ps, i, Before(startX, ps, i), prevY, targetX)
         == SegmentHit(ps, k, Before(startX, ps, k), if k == i then prevY else Finite(ps[k - 1].y), targetX)
    decreases k - i
  {
    if i < k {
      assert Before(startX, ps, i) + ps[i].dx == ps[i].x == Before(startX, ps, i + 1);
      ScanStopsAtFirstReaching(startX, ps, i + 1, Finite(ps[i].y), targetX, k);
    }
  }

  /** On a consistent terrain whose points are all left of `targetX`, the
      scan runs off the end with the last height. */
  lemma {:induction false} ScanRunsOffTheEnd(startX: real, ps: seq<Point>, i: nat, prevY: Num, targetX: real)
    requires Consistent(startX, ps) && i <= |ps|
    requires forall j :: i <= j < |ps| ==> ps[j].x < targetX
    ensures Scan(ps, i, Before(startX, ps, i), prevY, targetX)
         == Hit(None, targetX, if i == |ps| then prevY else Finite(ps[|ps| - 1].y))
    decreases |ps| - i
  {
    if i < |ps| {
      assert Before(startX, ps, i) + ps[i].dx == ps[i].x == Before(startX, ps, i + 1);
      ScanRunsOffTheEnd(startX, ps, i + 1, Finite(ps[i].y), targetX);
    }
  }

  /** Past the last point `terrainAt` returns the last height with a null
      identifier, whichever initial height is used. */
  lemma TerrainAtPastTheEnd(startX: real, ps: seq<Point>, targetX: real, firstY: Num)
    requires Consistent(startX, ps) && targetX >= 0.0 && |ps| > 0
    requires forall j :: 0 <= j < |ps| ==> ps[j].x < targetX
    ensures TerrainAtSpec(startX, ps, targetX, firstY) == Some(Hit(None, targetX, Finite(ps[|ps| - 1].y)))
  {
    ScanRunsOffTheEnd(startX, ps, 0, firstY, targetX);
  }

  /** Inside a segment k > 0 of positive length reached first by `targetX`,
      `terrainAt` names segment k, its fraction lies in (0, 1], and the height
      lies between the segment's end heights; the initial height plays no
      part, so the as-written lookup agrees. */
  lemma TerrainAtInSegment(startX: real, ps: seq<Point>, targetX: real, k: nat)
    requires Consistent(startX, ps) && targetX >= 0.0
    requires 0 < k < |ps| && ps[k].dx > 0.0 && ps[k].x >= targetX
    requires forall j :: 0 <= j < k ==> ps[j].x < targetX
    ensures var r := TerrainAtSpec(startX, ps, targetX, FirstY(ps));
      && r == TerrainAtSpec(startX, ps, targetX, AsWrittenFirstY)
      && r.Some? && r.value.identifier.Some?
      && r.value.identifier.value.segment == k
      && r.value.identifier.value.position.Finite?
      && 0.0 < r.value.identifier.value.position.v <= 1.0
      && r.value.y.Finite?
      && Min(ps[k - 1].y, ps[k].y) <= r.value.y.v <= Max(ps[k - 1].y, ps[k].y)
  {
    ScanStopsAtFirstReaching(startX, ps, 0, FirstY(ps), targetX, k);
    ScanStopsAtFirstReaching(startX, ps, 0, AsWrittenFirstY, targetX, k);
    var prevX := ps[k - 1].x;
    assert ps[k].x == prevX + ps[k].dx;
    var f := (targetX - prevX) / ps[k].dx;
    assert f * ps[k].dx == targetX - prevX;
    FractionInUnit(targetX - prevX, ps[k].dx);
    LerpBetween(ps[k - 1].y, ps[k].y, f);
  }

  /** In the first segment the as-written lookup always yields NaN for the
      height, while the intended one yields the first point's height when
      that segment has positive length. */
  lemma TerrainAtFirstSegment(startX: real, ps: seq<Point>, targetX: real)
    requires Consistent(startX, ps) && targetX >= 0.0
    requires |ps| > 0 && ps[0].x >= targetX
    ensures TerrainAtSpec(startX, ps, targetX, AsWrittenFirstY).value.y == NonFinite
    ensures ps[0].dx != 0.0 ==> TerrainAtSpec(startX, ps, targetX, FirstY(ps)).value.y == Finite(ps[0].y)
  {
    ScanStopsAtFirstReaching(startX, ps, 0, AsWrittenFirstY, targetX, 0);
    ScanStopsAtFirstReaching(startX, ps, 0, FirstY(ps), targetX, 0);
    if ps[0].dx != 0.0 {
      var t := (targetX - startX) / ps[0].dx;
      assert Lerp(ps[0].y, ps[0].y, t) == ps[0].y;
    }
  }

  /** A terrain just pruned to start at 100, with one step of 100 up to
      height 200: the as-written lookup at 150 gives NaN, the intended one
      gives 200. */
  lemma AsWrittenFirstSegmentIsNaN()
    ensures var ps := [Point(100.0, 200.0, 200.0)];
      && TerrainAtSpec(100.0, ps, 150.0, AsWrittenFirstY) == Some(Hit(Some(Identifier(0, Finite(0.5))), 150.0, NonFinite))
      && TerrainAtSpec(100.0, ps, 150.0, FirstY(ps)) == Some(Hit(Some(Identifier(0, Finite(0.5))), 150.0, Finite(200.0)))
  {
  }

  /** The Train application's state that this model keeps: the scene, the
      terrain and the camera drag. */
  class TrainGame {
    var scene: string
    var needRedraw: bool
    var startX: real
    var elevation: seq<Point>
    var lastClear: real
    var transitionToGameStartTime: Option<real>
    const drag: CameraDrag.CameraDrag

    /** The constructor's state: the start scene, an empty terrain starting
        at 0 and no drag; `now` is the clock reading taken for `lastClear`. */
    constructor (now: real)
      ensures scene == Scenes.Menu && needRedraw && startX == 0.0 && elevation == []
      ensures lastClear == now && transitionToGameStartTime == None
      ensures fresh(drag) && drag.Valid() && !drag.active
    {
      scene := Scenes.Menu;
      needRedraw := true;
      startX := 0.0;
      elevation := [];
      lastClear := now;
      transitionToGameStartTime := None;
      drag := new CameraDrag.CameraDrag();
    }

    /** `resetTerrain`: the table's points, each `x` accumulated from
        `startX`, which itself is kept. */
    method ResetTerrain()
      modifies this
      ensures IsResetTerrain(startX, elevation)
      ensures startX == old(startX) && scene == old(scene) && needRedraw == old(needRedraw)
      ensures lastClear == old(lastClear) && transitionToGameStartTime == old(transitionToGameStartTime)
    {
      var ps := seq(|ResetTable|, i requires 0 <= i < |ResetTable| => Point(ResetTable[i].0, ResetTable[i].1, 0.0));
      var x := startX;
      var i := 0;
      while i < |ps|
        invariant 0 <= i <= |ps| == |ResetTable|
        invariant forall j :: 0 <= j < |ps| ==> ps[j].dx == ResetTable[j].0 && ps[j].y == ResetTable[j].1
        invariant forall j :: 0 <= j < i ==> ps[j].x == Before(startX, ps, j) + ps[j].dx
        invariant x == Before(startX, ps, i)
      {
        x := x + ps[i].dx;
        ps := ps[i := ps[i].(x := x)];
        i := i + 1;
      }
      elevation := ps;
    }

    /** `ensureElevationUntil`: appends random points until the last one is
        at or right of `targetX`; the j-th new point uses draws 2j and 2j+1.
        The source reads the last point, so the terrain must not be empty. */
    method EnsureElevationUntil(targetX: real, random: nat -> real)
      requires |elevation| > 0 && Consistent(startX, elevation)
      requires forall k :: 0.0 <= random(k) < 1.0
      modifies this
      ensures Consistent(startX, elevation)
      ensures |elevation| >= |old(elevation)| && elevation[..|old(elevation)|] == old(elevation)
      ensures elevation[|elevation| - 1].x >= targetX
      ensures forall i :: |old(elevation)| - 1 <= i < |elevation| - 1 ==> elevation[i].x < targetX
      ensures forall i :: |old(elevation)| <= i < |elevation| ==>
        Grown(elevation[i - 1], elevation[i], random(2 * (i - |old(elevation)|)), random(2 * (i - |old(elevation)|) + 1))
      ensures startX == old(startX) && scene == old(scene) && needRedraw == old(needRedraw)
      ensures lastClear == old(lastClear) && transitionToGameStartTime == old(transitionToGameStartTime)
    {
      var e0 := elevation;
      var n := |e0|;
      var ps := e0;
      ghost var bound := ((targetX - e0[n - 1].x) / 50.0).Floor;
      while ps[|ps| - 1].x < targetX
        invariant unchanged(this)
        invariant |ps| >= n && ps[..n] == e0
        invariant Consistent(startX, ps)
        invariant ps[|ps| - 1].x >= e0[n - 1].x + 50.0 * (|ps| - n) as real
        invariant forall i :: n - 1 <= i < |ps| - 1 ==> ps[i].x < targetX
        invariant forall i :: n <= i < |ps| ==> Grown(ps[i - 1], ps[i], random(2 * (i - n)), random(2 * (i - n) + 1))
        decreases bound - (|ps| - n)
      {
        StepsBelowBound(targetX, e0[n - 1].x, ps[|ps| - 1].x, |ps| - n);
        var prev := ps[|ps| - 1];
        var m := |ps| - n;
        var dx := Lerp(50.0, 150.0, random(2 * m));
        var y := Lerp(prev.y + 20.0, prev.y - 80.0, random(2 * m + 1));
        var p := Point(dx, y, prev.x + dx);
        GrownIsLerp(prev, p, random(2 * m), random(2 * m + 1));
        GrownBounds(prev, p, random(2 * m), random(2 * m + 1));
        GrowKeepsConsistent(startX, ps, p, random(2 * m), random(2 * m + 1));
        ghost var before := ps;
        ps := ps + [p];
        assert forall i :: 0 <= i < |before| ==> ps[i] == before[i];
      }
      elevation := ps;
    }

    /** `clearElevationUntil`: drops the longest prefix of points left of
        `targetX` and moves `startX` to the last dropped point. */
    method ClearElevationUntil(targetX: real)
      requires Consistent(startX, elevation)
      modifies this
      ensures var k := ClearCount(old(elevation), targetX);
        && elevation == old(elevation)[k..]
        && startX == Before(old(startX), old(elevation), k)
      ensures ClearCount(old(elevation), targetX) == 0 ==> startX == old(startX) && elevation == old(elevation)
      ensures Consistent(startX, elevation)
      ensures |old(elevation)| > 0 && old(elevation)[|old(elevation)| - 1].x >= targetX ==> |elevation| > 0
      ensures scene == old(scene) && needRedraw == old(needRedraw)
      ensures lastClear == old(lastClear) && transitionToGameStartTime == old(transitionToGameStartTime)
    {
      var ps := elevation;
      var clearIdx := 0;
      while clearIdx < |ps| && ps[clearIdx].x < targetX
        invariant 0 <= clearIdx <= |ps|
        invariant forall j :: 0 <= j < clearIdx ==> ps[j].x < targetX
      {
        clearIdx := clearIdx + 1;
      }
      ClearCountIsFirstReaching(ps, targetX, clearIdx);
      ConsistentSuffix(startX, ps, clearIdx);
      if clearIdx > 0 {
        var prev := ps[clearIdx - 1];
        elevation := ps[clearIdx..];
        startX := prev.x;
      }
    }

    /** The lookup loop of `terrainAt`, started from height `firstY`. */
    method Lookup(targetX: real, firstY: Num) returns (r: Option<Hit>)
      ensures r == TerrainAtSpec(startX, elevation, targetX, firstY)
    {
      if targetX < 0.0 || |elevation| == 0 {
        return None;
      }
      var x := startX;
      var prevY := firstY;
      var segmentIdx := 0;
      while segmentIdx < |elevation|
        invariant 0 <= segmentIdx <= |elevation|
        invariant Scan(elevation, segmentIdx, x, prevY, targetX) == Scan(elevation, 0, startX, firstY, targetX)
      {
        var point := elevation[segmentIdx];
        var prevX := x;
        x := x + point.dx;
        if x >= targetX {
          var fac := if x == prevX then NonFinite else Finite((targetX - prevX) / (x - prevX));
          return Some(Hit(Some(Identifier(segmentIdx, fac)), targetX, LerpNum(prevY, point.y, fac)));
        }
        prevY := Finite(point.y);
        segmentIdx := segmentIdx + 1;
      }
      return Some(Hit(None, targetX, prevY));
    }

    /** `terrainAt` as written: the first `prevY` is the point object. */
    method TerrainAtAsWritten(targetX: real) returns (r: Option<Hit>)
      ensures r == TerrainAtSpec(startX, elevation, targetX, AsWrittenFirstY)
    {
      r := Lookup(targetX, AsWrittenFirstY);
    }

    /** `terrainAt` with the first `prevY` being the first point's height. */
    method TerrainAt(targetX: real) returns (r: Option<Hit>)
      ensures r == TerrainAtSpec(startX, elevation, targetX, FirstY(elevation))
    {
      r := Lookup(targetX, FirstY(elevation));
    }

    /** The terrain upkeep of `draw` in MENU and GAME at time `t` with the
        camera at `cameraX`: grow to the right edge of the screen and, once
        per clear period, prune what lies half a screen left of it. The
        terrain stays non-empty and reaches the right edge. */
    method KeepTerrain(cameraX: real, t: real, random: nat -> real)
      requires |elevation| > 0 && Consistent(startX, elevation)
      requires forall k :: 0.0 <= random(k) < 1.0
      modifies this
      ensures |elevation| > 0 && Consistent(startX, elevation)
      ensures elevation[|elevation| - 1].x >= -cameraX + SceneWidth
      ensures lastClear == if t - old(lastClear) > ClearPeriod then t else old(lastClear)
      ensures scene == old(scene) && needRedraw == old(needRedraw)
      ensures transitionToGameStartTime == old(transitionToGameStartTime)
    {
      EnsureElevationUntil(-cameraX + SceneWidth, random);
      PruneWhenDue(-cameraX - SceneWidth / 2.0, -cameraX + SceneWidth, t);
    }

    /** The pruning half of the upkeep: every clear period, clear up to
        `targetX`, which lies left of `rightX`, the end the terrain reaches. */
    method PruneWhenDue(targetX: real, rightX: real, t: real)
      requires |elevation| > 0 && Consistent(startX, elevation)
      requires targetX <= rightX <= elevation[|elevation| - 1].x
      modifies this
      ensures |elevation| > 0 && Consistent(startX, elevation)
      ensures elevation[|elevation| - 1].x >= rightX
      ensures lastClear == if t - old(lastClear) > ClearPeriod then t else old(lastClear)
      ensures scene == old(scene) && needRedraw == old(needRedraw)
      ensures transitionToGameStartTime == old(transitionToGameStartTime)
    {
      if t - lastClear > ClearPeriod {
        ghost var before := elevation;
        ClearElevationUntil(targetX);
        assert elevation[|elevation| - 1] == before[|before| - 1];
        lastClear := t;
      }
    }

    /** `startMenu`: no transition under way and a fresh terrain. */
    method StartMenu()
      modifies this
      ensures IsResetTerrain(startX, elevation) && transitionToGameStartTime == None
      ensures startX == old(startX) && scene == old(scene) && needRedraw == old(needRedraw)
      ensures lastClear == old(lastClear)
    {
      transitionToGameStartTime := None;
      ResetTerrain();
    }

    /** `startTransitionToGame` at clock reading `now`; the `GAME` scene is
        entered later by `SetScene(Scenes.Game)`. */
    method StartTransitionToGame(now: real)
      modifies this
      ensures transitionToGameStartTime == Some(now)
      ensures scene == old(scene) && needRedraw == old(needRedraw) && startX == old(startX)
      ensures elevation == old(elevation) && lastClear == old(lastClear)
    {
      transitionToGameStartTime := Some(now);
    }

    /** `setScene`, which writes the scene before running the enter hook;
        entering `MENU` resets the terrain. */
    method SetScene(next: string)
      modifies this
      ensures var t := Scenes.SetScene(Scenes.WriteFirst, Scenes.ThreeScenes, old(scene), next, old(needRedraw));
        scene == t.scene && needRedraw == t.needRedraw
      ensures old(scene) in Scenes.ThreeScenes && next == Scenes.Menu ==>
        IsResetTerrain(startX, elevation) && transitionToGameStartTime == None
      ensures !(old(scene) in Scenes.ThreeScenes && next == Scenes.Menu) ==>
        elevation == old(elevation) && transitionToGameStartTime == old(transitionToGameStartTime)
      ensures startX == old(startX) && lastClear == old(lastClear)
    {
      if scene !in Scenes.ThreeScenes {
        return;
      }
      scene := next;
      if scene == Scenes.Menu {
        StartMenu();
      } else if scene != Scenes.Game && scene != Scenes.End {
        return;
      }
      needRedraw := true;
    }

    /** `onMouseDown`: the left button starts a drag, in `GAME` only. */
    method MouseDown(button: int, pos: Vec)
      requires drag.Valid()
      modifies drag
      ensures drag.Valid()
      ensures !(button == 0 && scene == Scenes.Game) || old(drag.active) ==> unchanged(drag)
      ensures button == 0 && scene == Scenes.Game && !old(drag.active) ==>
        drag.active && !drag.moved && drag.startMouse == pos && drag.startCamera == old(drag.camera)
    {
      if button == 0 && scene == Scenes.Game {
        drag.StartDragging(pos);
      }
    }

    /** `onMouseUp`: only the left button ends a drag; the release is a click
        when it ended no drag that moved (Train's `onClick` does nothing). */
    method MouseUp(button: int) returns (isClick: bool)
      requires drag.Valid()
      modifies drag
      ensures drag.Valid()
      ensures button != 0 ==> unchanged(drag) && !isClick
      ensures button == 0 ==> !drag.active && drag.camera == old(drag.camera)
      ensures button == 0 ==>
        (isClick <==> !old(drag.active) || forall i :: 0 <= i < |old(drag.trail)| ==> !CameraDrag.Far(old(drag.startMouse), old(drag.trail)[i]))
    {
      isClick := false;
      if button == 0 {
        isClick := drag.PointerUp();
      }
    }
  }

  /** Appending a grown point keeps the terrain consistent. */
  lemma GrowKeepsConsistent(startX: real, ps: seq<Point>, p: Point, r1: real, r2: real)
    requires |ps| > 0 && Consistent(startX, ps) && Grown(ps[|ps| - 1], p, r1, r2)
    ensures Consistent(startX, ps + [p])
  {
    var qs := ps + [p];
    forall i | 0 <= i < |qs|
      ensures qs[i].x == Before(startX, qs, i) + qs[i].dx
    {
      if i < |ps| {
        assert qs[i] == ps[i];
        assert ps[i].x == Before(startX, ps, i) + ps[i].dx;
        if i > 0 {
          assert qs[i - 1] == ps[i - 1];
        }
      }
    }
  }

  /** After m steps of at least 50 from x0 that stay left of `targetX`, m is
      below the number of whole steps of 50 between x0 and `targetX`. */
  lemma StepsBelowBound(targetX: real, x0: real, x: real, m: nat)
    requires x < targetX && x >= x0 + 50.0 * m as real
    ensures m <= ((targetX - x0) / 50.0).Floor
  {
    assert m as real <= (targetX - x0) / 50.0;
  }

  lemma {:induction false} ClearCountIsFirstReaching(ps: seq<Point>, targetX: real, k: nat)
    requires k <= |ps|
    requires forall j :: 0 <= j < k ==> ps[j].x < targetX
    requires k == |ps| || ps[k].x >= targetX
    ensures ClearCount(ps, targetX) == k
    decreases k
  {
    if k > 0 {
      ClearCountIsFirstReaching(ps[1..], targetX, k - 1);
    }
  }
}

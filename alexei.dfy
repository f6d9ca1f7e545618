/** Alexei/app.js: a shield (moved up and down by keys or a vertical drag)
    deflects the coins Putin throws at Europe. Each coin that reaches Europe
    adds to the corruption level and the game ends when it reaches the
    maximum; a coin thrown back at Putin puts him to sleep for a while. */
module Alexei {
  import opened Common
  import opened Geometry
  import opened Pixels
  import Scenes

  const SceneWidth := 720.0
  const SceneHeight := 380.0
  const ShieldSpeed := 0.75
  const MaximumCorruption := 9
  const CorruptionPerProjectile := 1
  const BounceY := 0.6
  const Gravity := 0.0025
  /** Where Putin's hand releases a coin. */
  const LaunchPosition := Vec(600.0, 270.0)
  /** Where `restartGameAfterHit` puts the shield. */
  const RestartShieldPosition := Vec(280.0, SceneHeight / 2.0)

  datatype Projectile = Projectile(position: Vec, velocity: Vec, isDestroyed: bool, corruption: nat)

  datatype Shield = Shield(position: Vec, movingUp: bool, movingDown: bool)

  /** `state.drag`: whether a drag is under way, and the shield and pointer
      heights when it began. */
  datatype Drag = Drag(active: bool, startShieldY: real, startY: real)

  /** An image's size together with the box of its visible pixels. */
  datatype Sprite = Sprite(width: real, height: real, bbox: Box)

  /** The images the collision tests read: the coin, the shield, and the
      Europe and Putin masks. */
  datatype Assets = Assets(coin: Sprite, shield: Sprite, europe: Image, putin: Image)

  predicate AssetsValid(a: Assets) {
    WellFormed(a.europe) && WellFormed(a.putin)
  }

  /** The coin's content box in scene coordinates (the sprite is centred on the position). */
  function ProjectileBox(a: Assets, p: Projectile): Box {
    Offset(a.coin.bbox, p.position.x - a.coin.width / 2.0, p.position.y - a.coin.height / 2.0)
  }

  function ShieldBox(a: Assets, s: Vec): Box {
    Offset(a.shield.bbox, s.x, s.y - a.shield.height / 2.0)
  }

  predicate CollidesShield(a: Assets, p: Projectile, s: Vec) {
    !IsEmpty(Intersection(ProjectileBox(a, p), ShieldBox(a, s)))
  }

  /** The shield test holds exactly when some point lies in both the coin's
      and the shield's box. */
  lemma ShieldHitIsOverlap(a: Assets, p: Projectile, s: Vec)
    ensures CollidesShield(a, p, s) <==>
      exists px, py :: Inside(ProjectileBox(a, p), px, py) && Inside(ShieldBox(a, s), px, py)
  {
    OverlapIff(ProjectileBox(a, p), ShieldBox(a, s));
  }

  /** The lower-left corner of the coin's box is over an opaque pixel of Europe. */
  function HitsEurope(a: Assets, p: Projectile): (r: bool)
    requires AssetsValid(a)
    ensures r ==> 0.0 <= ProjectileBox(a, p).minx < a.europe.width as real
                  && 0.0 <= ProjectileBox(a, p).maxy < a.europe.height as real
  {
    var b := ProjectileBox(a, p);
    IsOpaqueAt(a.europe, b.minx, b.maxy)
  }

  /** The lower-right corner of the coin's box is over an opaque pixel of Putin. */
  function HitsPutin(a: Assets, p: Projectile): (r: bool)
    requires AssetsValid(a)
    ensures r ==> 0.0 <= ProjectileBox(a, p).maxx < a.putin.width as real
                  && 0.0 <= ProjectileBox(a, p).maxy < a.putin.height as real
  {
    var b := ProjectileBox(a, p);
    IsOpaqueAt(a.putin, b.maxx, b.maxy)
  }

  /** The sweep keeps coins that are neither destroyed nor below the screen. */
  predicate Keep(p: Projectile) {
    !p.isDestroyed && p.position.y < SceneHeight
  }

  /** One step of the projectile integration: move by the velocity, then let gravity act. */
  function Integrated(p: Projectile, dt: real): (r: Projectile)
    ensures r.isDestroyed == p.isDestroyed && r.corruption == p.corruption
    ensures r.velocity.x == p.velocity.x && r.velocity.y - p.velocity.y == Gravity * dt
    ensures r.position.x - p.position.x == p.velocity.x * dt
    ensures r.position.y - p.position.y == p.velocity.y * dt
  {
    p.(position := Vec(p.position.x + p.velocity.x * dt, p.position.y + p.velocity.y * dt),
       velocity := Vec(p.velocity.x, p.velocity.y + Gravity * dt))
  }

  /** The shield height after the key-driven move of one frame, before clamping. */
  function MovedShieldY(s: Shield, dt: real): (y: real)
    ensures s.movingDown == s.movingUp ==> y == s.position.y
    ensures s.movingDown && !s.movingUp ==> y == s.position.y + ShieldSpeed * dt
    ensures s.movingUp && !s.movingDown ==> y == s.position.y - ShieldSpeed * dt
  {
    var down := if s.movingDown then s.position.y + ShieldSpeed * dt else s.position.y;
    if s.movingUp then down - ShieldSpeed * dt else down
  }

  /** `onShieldHit`'s effect on the coin: it now flies right, away from Europe,
      and its vertical speed is pushed away from the shield's centre in
      proportion to their distance. */
  function Bounced(p: Projectile, shieldY: real, coinHeight: real): (r: Projectile)
    ensures r.position == p.position && r.isDestroyed == p.isDestroyed && r.corruption == p.corruption
    ensures r.velocity.x >= 0.0 && r.velocity.x == Abs(p.velocity.x)
    ensures shieldY > p.position.y - coinHeight / 2.0 ==> r.velocity.y < p.velocity.y
    ensures shieldY < p.position.y - coinHeight / 2.0 ==> r.velocity.y > p.velocity.y
    ensures shieldY == p.position.y - coinHeight / 2.0 ==> r.velocity.y == p.velocity.y
  {
    var centerY := p.position.y - coinHeight / 2.0;
    var deltaY := shieldY - centerY;
    p.(velocity := Vec(Abs(p.velocity.x), p.velocity.y + -BounceY * deltaY * 0.02))
  }

  /** All coins after one integration step. */
  function IntegrateAll(ps: seq<Projectile>, dt: real): seq<Projectile> {
    seq(|ps|, k requires 0 <= k < |ps| => Integrated(ps[k], dt))
  }

  /** The outcomes of the three collision tests for one coin. */
  datatype Tests = Tests(shield: bool, europe: bool, putin: bool)

  /** The three tests of the collision loop for coin p with the shield at s:
      the boxes overlap, the coin box's lower-left corner is over Europe, its
      lower-right corner is over Putin. */
  function TestsOf(a: Assets, p: Projectile, s: Vec): (t: Tests)
    requires AssetsValid(a)
    ensures t.shield <==> !IsEmpty(Intersection(ProjectileBox(a, p), ShieldBox(a, s)))
    ensures t.europe <==> IsOpaqueAt(a.europe, ProjectileBox(a, p).minx, ProjectileBox(a, p).maxy)
    ensures t.putin <==> IsOpaqueAt(a.putin, ProjectileBox(a, p).maxx, ProjectileBox(a, p).maxy)
  {
    Tests(CollidesShield(a, p, s), HitsEurope(a, p), HitsPutin(a, p))
  }

  /** What the collision block does with one coin: the coin afterwards, the
      corruption it adds, and whether Putin is asleep after it. */
  datatype Impact = Impact(coin: Projectile, gained: nat, asleep: bool)

  /** The body of the collision loop for coin p, given the outcomes t of its
      three tests, the shield height, the coin image's height and whether
      Putin is asleep when the coin is reached: the shield bounce, then the
      Europe hit, then the Putin hit. */
  function Collide(p: Projectile, t: Tests, shieldY: real, coinHeight: real, asleep: bool): (r: Impact)
    ensures r.coin.position == p.position && r.coin.corruption == p.corruption
    ensures r.coin.velocity == if t.shield then Bounced(p, shieldY, coinHeight).velocity else p.velocity
    ensures r.coin.isDestroyed <==> p.isDestroyed || t.europe || (t.putin && !asleep)
    ensures r.gained == if t.europe then p.corruption else 0
    ensures r.asleep <==> asleep || t.putin
  {
    var p1 := if t.shield then Bounced(p, shieldY, coinHeight) else p;
    var p2 := if t.europe then p1.(isDestroyed := true) else p1;
    var p3 := if t.putin && !asleep then p2.(isDestroyed := true) else p2;
    Impact(p3, if t.europe then p1.corruption else 0, asleep || t.putin)
  }

  /** Coin p in the collision loop with the shield at s. */
  function CollideAt(a: Assets, p: Projectile, s: Vec, asleep: bool): Impact
    requires AssetsValid(a)
  {
    Collide(p, TestsOf(a, p, s), s.y, a.coin.height, asleep)
  }

  /** The corruption the coins over Europe carry, summed over the list. */
  function EuropeGain(a: Assets, ps: seq<Projectile>): nat
    requires AssetsValid(a)
  {
    if ps == [] then 0
    else EuropeGain(a, ps[..|ps| - 1]) + (if HitsEurope(a, ps[|ps| - 1]) then ps[|ps| - 1].corruption else 0)
  }

  /** Some coin before position k hits Putin. */
  ghost predicate PutinHitBefore(a: Assets, ps: seq<Projectile>, k: nat)
    requires AssetsValid(a) && k <= |ps|
  {
    exists j :: 0 <= j < k && HitsPutin(a, ps[j])
  }

  /** The collision loop's result: the coins, the corruption level, whether
      Putin sleeps, and whether a Europe hit has asked for the game over. */
  datatype Collisions = Collisions(coins: seq<Projectile>, corruption: int, asleep: bool, over: bool)

  /** The collision loop over ps, in order, from corruption c0 and Putin's
      state asleep0. */
  function CollideAll(a: Assets, ps: seq<Projectile>, s: Vec, c0: int, asleep0: bool): (r: Collisions)
    requires AssetsValid(a)
    ensures |r.coins| == |ps|
    ensures r.corruption == c0 + EuropeGain(a, ps)
    ensures r.over ==> r.corruption >= MaximumCorruption
  {
    if ps == [] then Collisions([], c0, asleep0, false)
    else
      var r := CollideAll(a, ps[..|ps| - 1], s, c0, asleep0);
      var o := CollideAt(a, ps[|ps| - 1], s, r.asleep);
      var c := r.corruption + o.gained;
      Collisions(r.coins + [o.coin], c, o.asleep, r.over || (HitsEurope(a, ps[|ps| - 1]) && c >= MaximumCorruption))
  }

  /** The collision loop over the first i + 1 coins is the loop over the first
      i followed by coin i. */
  lemma CollideAllSnoc(a: Assets, ps: seq<Projectile>, i: nat, s: Vec, c0: int, asleep0: bool)
    requires AssetsValid(a) && i < |ps|
    ensures var r := CollideAll(a, ps[..i], s, c0, asleep0);
      var o := CollideAt(a, ps[i], s, r.asleep);
      CollideAll(a, ps[..i + 1], s, c0, asleep0)
        == Collisions(r.coins + [o.coin], r.corruption + o.gained, o.asleep,
                      r.over || (HitsEurope(a, ps[i]) && r.corruption + o.gained >= MaximumCorruption))
  {
    assert ps[..i + 1][..i] == ps[..i];
  }

  /** Whether a coin before k hits Putin does not depend on the coins after k. */
  lemma PutinHitBeforePrefix(a: Assets, ps: seq<Projectile>, n: nat, k: nat)
    requires AssetsValid(a) && k <= n <= |ps|
    ensures PutinHitBefore(a, ps[..n], k) == PutinHitBefore(a, ps, k)
  {
    if PutinHitBefore(a, ps, k) {
      var j :| 0 <= j < k && HitsPutin(a, ps[j]);
      assert ps[..n][j] == ps[j];
    }
  }

  /** Putin ends up asleep iff he was, or some coin reached him. */
  lemma {:induction false} CollideAllAsleep(a: Assets, ps: seq<Projectile>, s: Vec, c0: int, asleep0: bool)
    requires AssetsValid(a)
    ensures CollideAll(a, ps, s, c0, asleep0).asleep <==> asleep0 || PutinHitBefore(a, ps, |ps|)
  {
    if ps != [] {
      var n := |ps| - 1;
      CollideAllAsleep(a, ps[..n], s, c0, asleep0);
      PutinHitBeforePrefix(a, ps, n, n);
      if PutinHitBefore(a, ps, n + 1) && !HitsPutin(a, ps[n]) {
        var j :| 0 <= j < n + 1 && HitsPutin(a, ps[j]);
        assert PutinHitBefore(a, ps, n);
      }
    }
  }

  /** Each coin is treated on its own: it meets the shield, Europe and Putin
      as if alone, except that it is destroyed by Putin only when no earlier
      coin has already put him to sleep. */
  lemma {:induction false} CollideAllPerCoin(a: Assets, ps: seq<Projectile>, s: Vec, c0: int, asleep0: bool)
    requires AssetsValid(a)
    ensures var r := CollideAll(a, ps, s, c0, asleep0);
      forall k :: 0 <= k < |ps| ==> r.coins[k] == CollideAt(a, ps[k], s, asleep0 || PutinHitBefore(a, ps, k)).coin
  {
    if ps != [] {
      var n := |ps| - 1;
      var init := ps[..n];
      CollideAllPerCoin(a, init, s, c0, asleep0);
      CollideAllAsleep(a, init, s, c0, asleep0);
      var r := CollideAll(a, ps, s, c0, asleep0);
      var ri := CollideAll(a, init, s, c0, asleep0);
      assert r.coins == ri.coins + [CollideAt(a, ps[n], s, ri.asleep).coin];
      forall k | 0 <= k < |ps|
        ensures r.coins[k] == CollideAt(a, ps[k], s, asleep0 || PutinHitBefore(a, ps, k)).coin
      {
        PutinHitBeforePrefix(a, ps, n, k);
        if k < n {
          assert r.coins[k] == ri.coins[k] && init[k] == ps[k];
        }
      }
    }
  }

  /** The game-over request is made exactly when some Europe hit has raised
      corruption to the maximum: if the level ends above where it started and
      at or above the maximum, the request was made. */
  lemma {:induction false} CollideAllEndsGame(a: Assets, ps: seq<Projectile>, s: Vec, c0: int, asleep0: bool)
    requires AssetsValid(a)
    ensures var r := CollideAll(a, ps, s, c0, asleep0);
      r.corruption > c0 && r.corruption >= MaximumCorruption ==> r.over
  {
    if ps != [] {
      CollideAllEndsGame(a, ps[..|ps| - 1], s, c0, asleep0);
    }
  }

  class AlexeiGame {
    var scene: string
    var needRedraw: bool
    var corruption: int
    var shield: Shield
    var projectiles: seq<Projectile>
    var countDown: int
    var drag: Drag
    var isPutinAsleep: bool
    /** `transitionToGameStartTime != null`: the menu's walk-out is running. */
    var transitionPending: bool

    /** The state the constructor builds. */
    constructor ()
      ensures scene == Scenes.Menu && needRedraw && corruption == 0
      ensures shield == Shield(Vec(360.0, SceneHeight / 2.0), false, false)
      ensures projectiles == [] && countDown == 0 && drag == Drag(false, 0.0, 0.0)
      ensures !isPutinAsleep && !transitionPending
    {
      scene := Scenes.Menu;
      needRedraw := true;
      corruption := 0;
      shield := Shield(Vec(360.0, SceneHeight / 2.0), false, false);
      projectiles := [];
      countDown := 0;
      drag := Drag(false, 0.0, 0.0);
      isPutinAsleep := false;
      transitionPending := false;
    }

    /** `startDragging`: not guarded, a second press restarts the drag from
        the current shield and pointer heights. */
    method StartDragging(pointer: Vec)
      modifies this
      ensures drag == Drag(true, old(shield.position.y), pointer.y)
      ensures shield == old(shield) && projectiles == old(projectiles) && corruption == old(corruption)
      ensures scene == old(scene) && needRedraw == old(needRedraw) && countDown == old(countDown)
      ensures isPutinAsleep == old(isPutinAsleep) && transitionPending == old(transitionPending)
    {
      drag := Drag(true, shield.position.y, pointer.y);
    }

    /** `updateDragging`: without a drag nothing happens; otherwise the shield
        follows the vertical pointer delta, clamped to the play area. */
    method UpdateDragging(pointer: Vec)
      modifies this
      ensures !old(drag.active) ==> shield == old(shield)
      ensures old(drag.active) ==>
        shield == old(shield).(position := old(shield.position).(y :=
          Clamp(drag.startShieldY + (pointer.y - drag.startY), 0.0, SceneHeight)))
      ensures 0.0 <= old(shield.position.y) <= SceneHeight ==> 0.0 <= shield.position.y <= SceneHeight
      ensures drag == old(drag) && projectiles == old(projectiles) && corruption == old(corruption)
      ensures scene == old(scene) && needRedraw == old(needRedraw) && countDown == old(countDown)
      ensures isPutinAsleep == old(isPutinAsleep) && transitionPending == old(transitionPending)
    {
      if !drag.active {
        return;
      }
      var deltaY := pointer.y - drag.startY;
      var y := drag.startShieldY + deltaY;
      y := Clamp(y, 0.0, SceneHeight);
      shield := shield.(position := shield.position.(y := y));
    }

    /** `stopDragging`: ends the drag where the shield is. */
    method StopDragging()
      modifies this
      ensures drag == old(drag).(active := false) && shield == old(shield)
      ensures projectiles == old(projectiles) && corruption == old(corruption)
      ensures scene == old(scene) && needRedraw == old(needRedraw) && countDown == old(countDown)
      ensures isPutinAsleep == old(isPutinAsleep) && transitionPending == old(transitionPending)
    {
      drag := drag.(active := false);
    }

    /** `cancelDragging`: not guarded, puts the shield back at the height the
        last drag started from. */
    method CancelDragging()
      modifies this
      ensures drag == old(drag).(active := false)
      ensures shield == old(shield).(position := old(shield.position).(y := old(drag.startShieldY)))
      ensures projectiles == old(projectiles) && corruption == old(corruption)
      ensures scene == old(scene) && needRedraw == old(needRedraw) && countDown == old(countDown)
      ensures isPutinAsleep == old(isPutinAsleep) && transitionPending == old(transitionPending)
    {
      drag := drag.(active := false);
      shield := shield.(position := shield.position.(y := drag.startShieldY));
    }

    /** `startMenu`: clears the pending walk-out (the buttons and the music are left out). */
    method StartMenu()
      modifies this
      ensures !transitionPending
      ensures scene == old(scene) && needRedraw == old(needRedraw) && corruption == old(corruption)
      ensures shield == old(shield) && projectiles == old(projectiles) && countDown == old(countDown)
      ensures drag == old(drag) && isPutinAsleep == old(isPutinAsleep)
    {
      transitionPending := false;
    }

    /** `restartGameAfterHit`: no corruption, no coin, the shield back at its start. */
    method RestartGameAfterHit()
      modifies this
      ensures corruption == 0 && projectiles == []
      ensures shield == old(shield).(position := RestartShieldPosition)
      ensures scene == old(scene) && needRedraw == old(needRedraw) && countDown == old(countDown)
      ensures drag == old(drag) && isPutinAsleep == old(isPutinAsleep) && transitionPending == old(transitionPending)
    {
      corruption := 0;
      projectiles := [];
      shield := shield.(position := RestartShieldPosition);
    }

    /** The synchronous part of `startCountDown`: the count starts at 3. */
    method StartCountDown()
      modifies this
      ensures countDown == 3 && needRedraw
      ensures scene == old(scene) && corruption == old(corruption) && shield == old(shield)
      ensures projectiles == old(projectiles) && drag == old(drag)
      ensures isPutinAsleep == old(isPutinAsleep) && transitionPending == old(transitionPending)
    {
      countDown := 3;
      needRedraw := true;
    }

    /** One of the timer steps of `startCountDown`: after each delay the
        count is set to the next value, 2, then 1, then 0. */
    method CountDownStep(value: int)
      requires 0 <= value <= 2
      modifies this
      ensures countDown == value && needRedraw
      ensures scene == old(scene) && corruption == old(corruption) && shield == old(shield)
      ensures projectiles == old(projectiles) && drag == old(drag)
      ensures isPutinAsleep == old(isPutinAsleep) && transitionPending == old(transitionPending)
    {
      countDown := value;
      needRedraw := true;
    }

    /** `startGame`: restart, then count down; the coin-throwing timer loop is left out. */
    method StartGame()
      modifies this
      ensures corruption == 0 && projectiles == [] && countDown == 3 && needRedraw
      ensures shield == old(shield).(position := RestartShieldPosition)
      ensures scene == old(scene) && drag == old(drag)
      ensures isPutinAsleep == old(isPutinAsleep) && transitionPending == old(transitionPending)
    {
      RestartGameAfterHit();
      StartCountDown();
    }

    /** `setScene` (the variant that stores the new name before its enter
        hook). The exit hooks and `startEnd` only show and hide buttons. */
    method SetScene(next: string)
      modifies this
      ensures var t := Scenes.SetScene(Scenes.WriteFirst, Scenes.ThreeScenes, old(scene), next, old(needRedraw));
        scene == t.scene && needRedraw == t.needRedraw
      ensures old(scene) in Scenes.ThreeScenes && next == Scenes.Game ==>
        corruption == 0 && projectiles == [] && countDown == 3
        && shield == old(shield).(position := RestartShieldPosition)
      ensures !(old(scene) in Scenes.ThreeScenes && next == Scenes.Game) ==>
        corruption == old(corruption) && projectiles == old(projectiles)
        && countDown == old(countDown) && shield == old(shield)
      ensures transitionPending == (if old(scene) in Scenes.ThreeScenes && next == Scenes.Menu then false
                                    else old(transitionPending))
      ensures drag == old(drag) && isPutinAsleep == old(isPutinAsleep)
    {
      if scene !in Scenes.ThreeScenes {
        return;
      }
      scene := next;
      if scene == Scenes.Menu {
        StartMenu();
      } else if scene == Scenes.Game {
        StartGame();
      } else if scene != Scenes.End {
        return;
      }
      needRedraw := true;
    }

    /** `startGameOver`. */
    method StartGameOver()
      modifies this
      ensures var t := Scenes.SetScene(Scenes.WriteFirst, Scenes.ThreeScenes, old(scene), Scenes.End, old(needRedraw));
        scene == t.scene && needRedraw == t.needRedraw
      ensures corruption == old(corruption) && projectiles == old(projectiles) && countDown == old(countDown)
      ensures shield == old(shield) && drag == old(drag) && isPutinAsleep == old(isPutinAsleep)
      ensures transitionPending == old(transitionPending)
    {
      SetScene(Scenes.End);
    }

    /** `triggerPoutineFire` with the launch velocity (drawn at random and
        turned into components with cos and sin) as a parameter. */
    method TriggerPoutineFire(velocity: Vec)
      modifies this
      ensures projectiles == old(projectiles) + [Projectile(LaunchPosition, velocity, false, CorruptionPerProjectile)]
      ensures scene == old(scene) && needRedraw == old(needRedraw) && corruption == old(corruption)
      ensures shield == old(shield) && isPutinAsleep == old(isPutinAsleep) && drag == old(drag)
      ensures countDown == old(countDown) && transitionPending == old(transitionPending)
    {
      projectiles := projectiles + [Projectile(LaunchPosition, velocity, false, CorruptionPerProjectile)];
    }

    /** `onShieldHit` on coin i. */
    method OnShieldHit(i: nat, coinHeight: real)
      requires i < |projectiles|
      modifies this
      ensures projectiles == old(projectiles)[i := Bounced(old(projectiles)[i], shield.position.y, coinHeight)]
      ensures scene == old(scene) && needRedraw == old(needRedraw) && corruption == old(corruption)
      ensures shield == old(shield) && countDown == old(countDown) && drag == old(drag)
      ensures isPutinAsleep == old(isPutinAsleep) && transitionPending == old(transitionPending)
    {
      projectiles := projectiles[i := Bounced(projectiles[i], shield.position.y, coinHeight)];
    }

    /** `onEuropeHit` on coin i: its corruption is added and it is destroyed;
        reaching the maximum ends the game. */
    method OnEuropeHit(i: nat)
      requires i < |projectiles|
      modifies this
      ensures corruption == old(corruption) + old(projectiles)[i].corruption
      ensures projectiles == old(projectiles)[i := old(projectiles)[i].(isDestroyed := true)]
      ensures corruption >= MaximumCorruption ==>
        var t := Scenes.SetScene(Scenes.WriteFirst, Scenes.ThreeScenes, old(scene), Scenes.End, old(needRedraw));
        scene == t.scene && needRedraw == t.needRedraw
      ensures corruption < MaximumCorruption ==> scene == old(scene) && needRedraw == old(needRedraw)
      ensures shield == old(shield) && countDown == old(countDown) && drag == old(drag)
      ensures isPutinAsleep == old(isPutinAsleep) && transitionPending == old(transitionPending)
    {
      corruption := corruption + projectiles[i].corruption;
      projectiles := projectiles[i := projectiles[i].(isDestroyed := true)];
      if corruption >= MaximumCorruption {
        StartGameOver();
      }
    }

    /** The synchronous part of `onPutinHit` on coin i: nothing while Putin
        sleeps; otherwise the coin is destroyed and Putin falls asleep. */
    method OnPutinHit(i: nat)
      requires i < |projectiles|
      modifies this
      ensures old(isPutinAsleep) ==> projectiles == old(projectiles) && isPutinAsleep
      ensures !old(isPutinAsleep) ==>
        projectiles == old(projectiles)[i := old(projectiles)[i].(isDestroyed := true)] && isPutinAsleep
      ensures scene == old(scene) && needRedraw == old(needRedraw) && corruption == old(corruption)
      ensures shield == old(shield) && countDown == old(countDown) && drag == old(drag)
      ensures transitionPending == old(transitionPending)
    {
      if isPutinAsleep {
        return;
      }
      projectiles := projectiles[i := projectiles[i].(isDestroyed := true)];
      isPutinAsleep := true;
    }

    /** The step of `onPutinHit` that runs once the sleep duration has passed. */
    method WakePutin()
      modifies this
      ensures !isPutinAsleep
      ensures projectiles == old(projectiles) && scene == old(scene) && needRedraw == old(needRedraw)
      ensures corruption == old(corruption) && shield == old(shield) && drag == old(drag)
      ensures countDown == old(countDown) && transitionPending == old(transitionPending)
    {
      isPutinAsleep := false;
    }

    /** The "character update" block of `updateGame`: keys move the shield,
        which is then clamped to [0, height]. */
    method MoveShield(dt: real)
      modifies this
      ensures shield == old(shield).(position := old(shield.position).(y := Clamp(MovedShieldY(old(shield), dt), 0.0, SceneHeight)))
      ensures 0.0 <= shield.position.y <= SceneHeight
      ensures projectiles == old(projectiles) && scene == old(scene) && needRedraw == old(needRedraw)
      ensures corruption == old(corruption) && countDown == old(countDown) && drag == old(drag)
      ensures isPutinAsleep == old(isPutinAsleep) && transitionPending == old(transitionPending)
    {
      var y := shield.position.y;
      if shield.movingDown {
        y := y + ShieldSpeed * dt;
      }
      if shield.movingUp {
        y := y - ShieldSpeed * dt;
      }
      y := Clamp(y, 0.0, SceneHeight);
      shield := shield.(position := shield.position.(y := y));
    }

    /** The "projectile update" loop of `updateGame`. */
    method IntegrateProjectiles(dt: real)
      modifies this
      ensures |projectiles| == |old(projectiles)|
      ensures forall i :: 0 <= i < |projectiles| ==> projectiles[i] == Integrated(old(projectiles)[i], dt)
      ensures scene == old(scene) && needRedraw == old(needRedraw) && corruption == old(corruption)
      ensures shield == old(shield) && countDown == old(countDown) && drag == old(drag)
      ensures isPutinAsleep == old(isPutinAsleep) && transitionPending == old(transitionPending)
    {
      var i := 0;
      while i < |projectiles|
        invariant 0 <= i <= |projectiles| == |old(projectiles)|
        invariant forall j :: 0 <= j < i ==> projectiles[j] == Integrated(old(projectiles)[j], dt)
        invariant forall j :: i <= j < |projectiles| ==> projectiles[j] == old(projectiles)[j]
        invariant scene == old(scene) && needRedraw == old(needRedraw) && corruption == old(corruption)
        invariant shield == old(shield) && countDown == old(countDown) && drag == old(drag)
        invariant isPutinAsleep == old(isPutinAsleep) && transitionPending == old(transitionPending)
      {
        var p := projectiles[i];
        var position := Vec(p.position.x + p.velocity.x * dt, p.position.y + p.velocity.y * dt);
        var velocity := Vec(p.velocity.x, p.velocity.y + Gravity * dt);
        projectiles := projectiles[i := p.(position := position, velocity := velocity)];
        i := i + 1;
      }
    }

    /** The body of the "collision detection" loop of `updateGame` for coin
        i: the shield test, the Europe test at the lower-left corner of the
        coin's box and the Putin test at its lower-right corner, in that order.
        A Europe hit that brings corruption to the maximum ends the game. */
    method HandleCollisions(a: Assets, i: nat)
      requires AssetsValid(a)
      requires i < |projectiles|
      requires scene == Scenes.Game || scene == Scenes.End
      modifies this
      ensures var o := CollideAt(a, old(projectiles)[i], shield.position, old(isPutinAsleep));
        && projectiles == old(projectiles)[i := o.coin]
        && corruption == old(corruption) + o.gained
        && isPutinAsleep == o.asleep
      ensures var over := HitsEurope(a, old(projectiles)[i]) && corruption >= MaximumCorruption;
        scene == (if over then Scenes.End else old(scene)) && needRedraw == (old(needRedraw) || over)
      ensures shield == old(shield) && countDown == old(countDown) && drag == old(drag)
      ensures transitionPending == old(transitionPending)
    {
      var box := ProjectileBox(a, projectiles[i]);
      var collidesShield := !IsEmpty(Intersection(box, ShieldBox(a, shield.position)));
      if collidesShield {
        OnShieldHit(i, a.coin.height);
      }
      var collidesEurope := IsOpaqueAt(a.europe, box.minx, box.maxy);
      if collidesEurope {
        OnEuropeHit(i);
      }
      var collidesPutin := IsOpaqueAt(a.putin, box.maxx, box.maxy);
      if collidesPutin {
        OnPutinHit(i);
      }
    }

    /** After the collision loop has handled the first i of the coins ps,
        starting from corruption c0, Putin's state asleep0 and the redraw flag
        redraw0: the handled coins, the corruption, Putin's sleep, the scene
        and the flag are those of the collision loop over them, and the other
        coins are untouched. */
    ghost predicate CollidedUpTo(a: Assets, ps: seq<Projectile>, i: nat, c0: int, asleep0: bool, redraw0: bool)
      reads this
      requires AssetsValid(a) && i <= |ps|
    {
      var r := CollideAll(a, ps[..i], shield.position, c0, asleep0);
      && |projectiles| == |ps|
      && projectiles[..i] == r.coins && corruption == r.corruption && isPutinAsleep == r.asleep
      && scene == (if r.over then Scenes.End else Scenes.Game) && needRedraw == (redraw0 || r.over)
      && (forall j :: i <= j < |ps| ==> projectiles[j] == ps[j])
    }

    /** One pass of the collision loop, on coin i. */
    method CollideNext(a: Assets, ghost ps: seq<Projectile>, i: nat, ghost c0: int, ghost asleep0: bool, ghost redraw0: bool)
      requires AssetsValid(a) && i < |ps| && CollidedUpTo(a, ps, i, c0, asleep0, redraw0)
      modifies this
      ensures CollidedUpTo(a, ps, i + 1, c0, asleep0, redraw0)
      ensures shield == old(shield) && countDown == old(countDown) && drag == old(drag)
      ensures transitionPending == old(transitionPending)
    {
      CollideAllSnoc(a, ps, i, shield.position, c0, asleep0);
      assert projectiles[i] == ps[i];
      ghost var before := projectiles;
      HandleCollisions(a, i);
      assert projectiles[..i + 1] == before[..i] + [projectiles[i]];
    }

    /** The "collision detection" loop of `updateGame`: the coins, the
        corruption level and Putin's sleep become those of the collision loop
        run over the coins in order, and the game is over when that run asked
        for it. */
    method DetectCollisions(a: Assets)
      requires AssetsValid(a)
      requires scene == Scenes.Game
      modifies this
      ensures var r := CollideAll(a, old(projectiles), shield.position, old(corruption), old(isPutinAsleep));
        && projectiles == r.coins && corruption == r.corruption && isPutinAsleep == r.asleep
        && scene == (if r.over then Scenes.End else Scenes.Game) && needRedraw == (old(needRedraw) || r.over)
      ensures shield == old(shield) && countDown == old(countDown) && drag == old(drag)
      ensures transitionPending == old(transitionPending)
    {
      ghost var ps := projectiles;
      var i := 0;
      while i < |projectiles|
        invariant 0 <= i <= |projectiles| == |ps|
        invariant CollidedUpTo(a, ps, i, old(corruption), old(isPutinAsleep), old(needRedraw))
        invariant shield == old(shield) && countDown == old(countDown) && drag == old(drag)
        invariant transitionPending == old(transitionPending)
      {
        CollideNext(a, ps, i, old(corruption), old(isPutinAsleep), old(needRedraw));
        i := i + 1;
      }
      assert ps[..i] == ps && projectiles[..i] == projectiles;
    }

    /** The closing sweep of `updateGame`. */
    method SweepProjectiles()
      modifies this
      ensures projectiles == Filter(old(projectiles), Keep)
      ensures forall i :: 0 <= i < |projectiles| ==> Keep(projectiles[i])
      ensures scene == old(scene) && needRedraw == old(needRedraw) && corruption == old(corruption)
      ensures shield == old(shield) && countDown == old(countDown) && drag == old(drag)
      ensures isPutinAsleep == old(isPutinAsleep) && transitionPending == old(transitionPending)
    {
      projectiles := Filter(projectiles, Keep);
    }

    /** `updateGame(dt)`, which the frame loop runs only in the GAME scene:
        the shield moves, every coin moves, the collision loop runs over the
        moved coins in order, and the coins destroyed or below the screen are
        dropped. */
    method UpdateGame(dt: real, a: Assets)
      requires AssetsValid(a)
      requires scene == Scenes.Game
      modifies this
      ensures shield == old(shield).(position := old(shield.position).(y := Clamp(MovedShieldY(old(shield), dt), 0.0, SceneHeight)))
      ensures var r := CollideAll(a, IntegrateAll(old(projectiles), dt), shield.position, old(corruption), old(isPutinAsleep));
        && projectiles == Filter(r.coins, Keep) && corruption == r.corruption && isPutinAsleep == r.asleep
        && scene == (if r.over then Scenes.End else Scenes.Game)
      ensures forall i :: 0 <= i < |projectiles| ==> Keep(projectiles[i])
      ensures needRedraw && countDown == old(countDown) && drag == old(drag)
      ensures transitionPending == old(transitionPending)
    {
      MoveShield(dt);
      IntegrateProjectiles(dt);
      assert projectiles == IntegrateAll(old(projectiles), dt);
      DetectCollisions(a);
      SweepProjectiles();
      needRedraw := true;
    }
  }

  /** A coin survives the sweep exactly when it was in the list, is not
      destroyed and is above the bottom of the screen; survivors keep their order. */
  lemma SweepKeepsExactlyLive(ps: seq<Projectile>, p: Projectile, qs: seq<Projectile>)
    ensures p in Filter(ps, Keep) <==> p in ps && !p.isDestroyed && p.position.y < SceneHeight
    ensures Filter(ps + qs, Keep) == Filter(ps, Keep) + Filter(qs, Keep)
  {
    FilterMembership(ps, Keep, p);
    FilterAppend(ps, qs, Keep);
  }
}

/** Robert/app.js: the character walks left and right at the bottom of the
    screen (keys or a horizontal drag) while guillotines fall from the top. A
    guillotine that touches the character costs a life; losing the last one
    ends the game. */
module Robert {
  import opened Common
  import opened Geometry
  import opened Pixels
  import Scenes
  import Patterns

  const SceneWidth := 380.0
  const SceneHeight := 720.0
  const CharacterSpeed := 0.75
  const FallSpeed := 0.2
  /** A new guillotine appears once the last one has fallen this far. */
  const SpawnDistance := 120.0
  const DeathVelocity := Vec(0.25, -0.5)
  const RotationVelocity := 2.0
  const Gravity := 0.0025
  const DefaultLives := 3
  /** Where `restartGameAfterHit` puts the character. */
  const StartPosition := Vec(SceneWidth / 2.0, 600.0)

  /** A falling guillotine: the top-left corner of its image. */
  datatype Enemy = Enemy(x: real, y: real)

  datatype Character = Character(position: Vec, velocity: Vec, rotation: real, movingRight: bool, movingLeft: bool)

  /** `state.drag`: whether a drag is under way, and the character and
      pointer abscissas when it began. */
  datatype Drag = Drag(active: bool, startCharacterX: real, startX: real)

  /** The images the update reads: the guillotine's size and content box,
      and the character's opacity mask (whose size is the character's). */
  datatype Assets = Assets(guillotineWidth: nat, guillotineHeight: nat, guillotineBox: Box, character: Image)

  /** Every guillotine moves down by `fallSpeed * dt`. */
  function Fallen(es: seq<Enemy>, dt: real): (r: seq<Enemy>)
    ensures |r| == |es|
    ensures forall i :: 0 <= i < |es| ==> r[i].x == es[i].x && r[i].y - es[i].y == FallSpeed * dt
  {
    seq(|es|, i requires 0 <= i < |es| => es[i].(y := es[i].y + FallSpeed * dt))
  }

  /** `Math.floor(Math.random() * (config.width - img.width))` for the draw u. */
  function SpawnX(u: real, guillotineWidth: nat): (x: int)
    requires 0.0 <= u < 1.0
    ensures guillotineWidth < 380 ==> 0 <= x < 380 - guillotineWidth
  {
    if guillotineWidth < 380 then
      Patterns.Draw(u, 380 - guillotineWidth)
    else (u * (SceneWidth - guillotineWidth as real)).Floor
  }

  /** The spawn rule: a guillotine is appended, just above the screen, when
      there is none or the last one has fallen past the spawn distance. */
  function Spawned(es: seq<Enemy>, u: real, a: Assets): (r: seq<Enemy>)
    requires 0.0 <= u < 1.0
    ensures |r| == |es| + 1 <==> es == [] || es[|es| - 1].y > SpawnDistance
    ensures |r| == |es| || |r| == |es| + 1
    ensures r[..|es|] == es
    ensures |r| > |es| ==> r[|es|] == Enemy(SpawnX(u, a.guillotineWidth) as real, -(a.guillotineHeight as real))
  {
    if es == [] || es[|es| - 1].y > SpawnDistance then
      es + [Enemy(SpawnX(u, a.guillotineWidth) as real, -(a.guillotineHeight as real))]
    else es
  }

  /** The sweep keeps the guillotines that are still above the bottom of the screen. */
  predicate OnScreen(e: Enemy) {
    e.y < SceneHeight
  }

  /** The character's abscissa after the key-driven move of one frame, before clamping. */
  function WalkedX(c: Character, dt: real): (x: real)
    ensures c.movingRight == c.movingLeft ==> x == c.position.x
    ensures c.movingRight && !c.movingLeft ==> x == c.position.x + CharacterSpeed * dt
    ensures c.movingLeft && !c.movingRight ==> x == c.position.x - CharacterSpeed * dt
  {
    var right := if c.movingRight then c.position.x + CharacterSpeed * dt else c.position.x;
    if c.movingLeft then right - CharacterSpeed * dt else right
  }

  /** The dead character's fall for one frame: ballistic flight and a spin. */
  function Falling(c: Character, dt: real): (r: Character)
    ensures r.movingRight == c.movingRight && r.movingLeft == c.movingLeft
    ensures r.position == Vec(c.position.x + c.velocity.x * dt, c.position.y + c.velocity.y * dt)
    ensures r.velocity.x == c.velocity.x && r.velocity.y - c.velocity.y == Gravity * dt
    ensures r.rotation == c.rotation + RotationVelocity
  {
    c.(position := Vec(c.position.x + c.velocity.x * dt, c.position.y + c.velocity.y * dt),
       velocity := c.velocity.(y := c.velocity.y + Gravity * dt),
       rotation := c.rotation + RotationVelocity)
  }

  /** The velocity `playCharacterDepthAnimation` gives the character: sideways
      in the direction it was walking, and upward. */
  function DeathKick(c: Character): (v: Vec)
    ensures v.y == DeathVelocity.y
    ensures c.movingRight ==> v.x == DeathVelocity.x
    ensures !c.movingRight && c.movingLeft ==> v.x == -DeathVelocity.x
    ensures !c.movingRight && !c.movingLeft ==> v.x == 0.0
  {
    var dir := if c.movingRight then 1.0 else if c.movingLeft then -1.0 else 0.0;
    Vec(dir * DeathVelocity.x, DeathVelocity.y)
  }

  /** The character image drawn centred on its abscissa, its top at its ordinate. */
  function CharacterBox(a: Assets, c: Vec): Box {
    FromImage(a.character.width as real, a.character.height as real, c.x - a.character.width as real / 2.0, c.y)
  }

  function EnemyBox(a: Assets, e: Enemy): Box {
    Offset(a.guillotineBox, e.x, e.y)
  }

  /** A scene point, taken relative to the character image's top-left corner,
      lies on an opaque pixel of the character. */
  predicate OpaqueOnCharacter(a: Assets, c: Vec, px: real, py: real)
    requires WellFormed(a.character)
  {
    IsOpaqueAt(a.character, px - (c.x - a.character.width as real / 2.0), py - c.y)
  }

  /** The hit test: the boxes overlap and one of four points of the blade
      (lower left, lower middle, lower right, upper middle) is on the character. */
  predicate Hits(a: Assets, e: Enemy, c: Vec)
    requires WellFormed(a.character)
  {
    var g := a.guillotineBox;
    var midx := e.x + (g.minx + g.maxx) / 2.0;
    && !IsEmpty(Intersection(EnemyBox(a, e), CharacterBox(a, c)))
    && (|| OpaqueOnCharacter(a, c, e.x + g.minx, e.y + g.maxy)
        || OpaqueOnCharacter(a, c, midx, e.y + g.maxy)
        || OpaqueOnCharacter(a, c, e.x + g.maxx, e.y + g.maxy)
        || OpaqueOnCharacter(a, c, midx, e.y + g.miny))
  }

  /** A point that passes the opacity test lies inside the character's box:
      the mask test never reports a hit away from the character. */
  lemma OpaquePointIsOnCharacter(a: Assets, c: Vec, px: real, py: real)
    requires WellFormed(a.character)
    requires OpaqueOnCharacter(a, c, px, py)
    ensures Inside(CharacterBox(a, c), px, py)
  {
  }

  /** A guillotine that hits shares a point with the character's box. */
  lemma HitMeansOverlap(a: Assets, e: Enemy, c: Vec)
    requires WellFormed(a.character) && Hits(a, e, c)
    ensures exists px, py :: Inside(EnemyBox(a, e), px, py) && Inside(CharacterBox(a, c), px, py)
  {
    OverlapIff(EnemyBox(a, e), CharacterBox(a, c));
  }

  /** How many of the guillotines hit the character at c: at most one per
      guillotine, and none exactly when no guillotine hits. */
  function HitCount(a: Assets, es: seq<Enemy>, c: Vec): (n: nat)
    requires WellFormed(a.character)
    ensures n <= |es|
    ensures n == 0 <==> forall i :: 0 <= i < |es| ==> !Hits(a, es[i], c)
  {
    if es == [] then 0
    else HitCount(a, es[..|es| - 1], c) + (if Hits(a, es[|es| - 1], c) then 1 else 0)
  }

  /** Extending the prefix by one guillotine adds one to the count exactly when it hits. */
  lemma HitCountStep(a: Assets, es: seq<Enemy>, i: nat, c: Vec)
    requires WellFormed(a.character) && i < |es|
    ensures HitCount(a, es[..i + 1], c) == HitCount(a, es[..i], c) + (if Hits(a, es[i], c) then 1 else 0)
  {
    assert es[..i + 1][..i] == es[..i];
  }

  class RobertGame {
    var scene: string
    var needRedraw: bool
    var ennemies: seq<Enemy>
    var character: Character
    var countDown: int
    var isDead: bool
    var isInvicible: bool
    var lives: int
    var drag: Drag
    var lastLifeSkin: string
    /** `transitionToGameStartTime != null`: the menu's walk-out is running. */
    var transitionPending: bool
    /** Heart-break animations started by a hit whose last frame, which takes
        the life, has not been shown yet. */
    var pendingHeartBreaks: nat

    /** The state the constructor builds (its `idDead` typo leaves `isDead`
        undefined, which reads as false). */
    constructor ()
      ensures scene == Scenes.Menu && needRedraw && ennemies == []
      ensures character == Character(StartPosition, Vec(0.0, 0.0), 0.0, false, false)
      ensures countDown == 0 && !isDead && !isInvicible && lives == DefaultLives
      ensures drag == Drag(false, 0.0, 0.0) && lastLifeSkin == "heart"
      ensures !transitionPending && pendingHeartBreaks == 0
    {
      scene := Scenes.Menu;
      needRedraw := true;
      ennemies := [];
      character := Character(StartPosition, Vec(0.0, 0.0), 0.0, false, false);
      countDown := 0;
      isDead := false;
      isInvicible := false;
      lives := DefaultLives;
      drag := Drag(false, 0.0, 0.0);
      lastLifeSkin := "heart";
      transitionPending := false;
      pendingHeartBreaks := 0;
    }

    /** `startDragging`: not guarded, a second press restarts the drag. */
    method StartDragging(pointer: Vec)
      modifies this
      ensures drag == Drag(true, old(character.position.x), pointer.x)
      ensures character == old(character) && ennemies == old(ennemies) && lives == old(lives)
      ensures scene == old(scene) && needRedraw == old(needRedraw) && isDead == old(isDead)
      ensures isInvicible == old(isInvicible) && countDown == old(countDown) && lastLifeSkin == old(lastLifeSkin)
      ensures transitionPending == old(transitionPending) && pendingHeartBreaks == old(pendingHeartBreaks)
    {
      drag := Drag(true, character.position.x, pointer.x);
    }

    /** `updateDragging`: without a drag nothing happens; otherwise the
        character follows the horizontal pointer delta, clamped to the screen. */
    method UpdateDragging(pointer: Vec)
      modifies this
      ensures !old(drag.active) ==> character == old(character)
      ensures old(drag.active) ==>
        character == old(character).(position := old(character.position).(x :=
          Clamp(drag.startCharacterX + (pointer.x - drag.startX), 0.0, SceneWidth)))
      ensures 0.0 <= old(character.position.x) <= SceneWidth ==> 0.0 <= character.position.x <= SceneWidth
      ensures drag == old(drag) && ennemies == old(ennemies) && lives == old(lives)
      ensures scene == old(scene) && needRedraw == old(needRedraw) && isDead == old(isDead)
      ensures isInvicible == old(isInvicible) && countDown == old(countDown) && lastLifeSkin == old(lastLifeSkin)
      ensures transitionPending == old(transitionPending) && pendingHeartBreaks == old(pendingHeartBreaks)
    {
      if !drag.active {
        return;
      }
      var deltaX := pointer.x - drag.startX;
      var x := drag.startCharacterX + deltaX;
      x := Clamp(x, 0.0, SceneWidth);
      character := character.(position := character.position.(x := x));
    }

    /** `stopDragging`. */
    method StopDragging()
      modifies this
      ensures drag == old(drag).(active := false) && character == old(character)
      ensures ennemies == old(ennemies) && lives == old(lives) && scene == old(scene)
      ensures needRedraw == old(needRedraw) && isDead == old(isDead) && isInvicible == old(isInvicible)
      ensures countDown == old(countDown) && lastLifeSkin == old(lastLifeSkin)
      ensures transitionPending == old(transitionPending) && pendingHeartBreaks == old(pendingHeartBreaks)
    {
      drag := drag.(active := false);
    }

    /** `cancelDragging`: not guarded, puts the character back where the last drag started. */
    method CancelDragging()
      modifies this
      ensures drag == old(drag).(active := false)
      ensures character == old(character).(position := old(character.position).(x := old(drag.startCharacterX)))
      ensures ennemies == old(ennemies) && lives == old(lives) && scene == old(scene)
      ensures needRedraw == old(needRedraw) && isDead == old(isDead) && isInvicible == old(isInvicible)
      ensures countDown == old(countDown) && lastLifeSkin == old(lastLifeSkin)
      ensures transitionPending == old(transitionPending) && pendingHeartBreaks == old(pendingHeartBreaks)
    {
      drag := drag.(active := false);
      character := character.(position := character.position.(x := drag.startCharacterX));
    }

    /** `startMenu`: clears the pending walk-out (the buttons are left out). */
    method StartMenu()
      modifies this
      ensures !transitionPending
      ensures scene == old(scene) && needRedraw == old(needRedraw) && ennemies == old(ennemies)
      ensures character == old(character) && countDown == old(countDown) && isDead == old(isDead)
      ensures isInvicible == old(isInvicible) && lives == old(lives) && drag == old(drag)
      ensures lastLifeSkin == old(lastLifeSkin) && pendingHeartBreaks == old(pendingHeartBreaks)
    {
      transitionPending := false;
    }

    /** `restartGameAfterHit`: alive again, back at the start, upright. */
    method RestartGameAfterHit()
      modifies this
      ensures !isDead
      ensures character == old(character).(position := StartPosition, rotation := 0.0)
      ensures scene == old(scene) && needRedraw == old(needRedraw) && ennemies == old(ennemies)
      ensures countDown == old(countDown) && isInvicible == old(isInvicible) && lives == old(lives)
      ensures drag == old(drag) && lastLifeSkin == old(lastLifeSkin)
      ensures transitionPending == old(transitionPending) && pendingHeartBreaks == old(pendingHeartBreaks)
    {
      isDead := false;
      character := character.(position := StartPosition, rotation := 0.0);
    }

    /** The synchronous part of `startCountDown`. */
    method StartCountDown()
      modifies this
      ensures countDown == 3 && needRedraw
      ensures scene == old(scene) && ennemies == old(ennemies) && character == old(character)
      ensures isDead == old(isDead) && isInvicible == old(isInvicible) && lives == old(lives)
      ensures drag == old(drag) && lastLifeSkin == old(lastLifeSkin)
      ensures transitionPending == old(transitionPending) && pendingHeartBreaks == old(pendingHeartBreaks)
    {
      countDown := 3;
      needRedraw := true;
    }

    /** One of the later steps of `startCountDown`, each after a delay: the
        count-down shows value (2, then 1, then 0, which starts the game). */
    method CountDownStep(value: int)
      requires 0 <= value <= 2
      modifies this
      ensures countDown == value && needRedraw
      ensures scene == old(scene) && ennemies == old(ennemies) && character == old(character)
      ensures isDead == old(isDead) && isInvicible == old(isInvicible) && lives == old(lives)
      ensures drag == old(drag) && lastLifeSkin == old(lastLifeSkin)
      ensures transitionPending == old(transitionPending) && pendingHeartBreaks == old(pendingHeartBreaks)
    {
      countDown := value;
      needRedraw := true;
    }

    /** `startGame`: no guillotine, full lives, the character restarted, and the count-down. */
    method StartGame()
      modifies this
      ensures ennemies == [] && lives == DefaultLives && !isDead
      ensures character == old(character).(position := StartPosition, rotation := 0.0)
      ensures countDown == 3 && needRedraw
      ensures scene == old(scene) && isInvicible == old(isInvicible) && drag == old(drag)
      ensures lastLifeSkin == old(lastLifeSkin)
      ensures transitionPending == old(transitionPending) && pendingHeartBreaks == old(pendingHeartBreaks)
    {
      ennemies := [];
      lives := DefaultLives;
      RestartGameAfterHit();
      StartCountDown();
    }

    /** `setScene`, the variant that stores the new name only after its enter
        hook has run. `stopGame` is empty; the other exit hooks and `startEnd`
        only show and hide buttons. */
    method SetScene(next: string)
      modifies this
      ensures var t := Scenes.SetScene(Scenes.CommitLast, Scenes.ThreeScenes, old(scene), next, old(needRedraw));
        scene == t.scene && needRedraw == t.needRedraw
      ensures old(scene) in Scenes.ThreeScenes && next == Scenes.Game ==>
        ennemies == [] && lives == DefaultLives && !isDead && countDown == 3
        && character == old(character).(position := StartPosition, rotation := 0.0)
      ensures !(old(scene) in Scenes.ThreeScenes && next == Scenes.Game) ==>
        ennemies == old(ennemies) && lives == old(lives) && isDead == old(isDead)
        && countDown == old(countDown) && character == old(character)
      ensures transitionPending == (if old(scene) in Scenes.ThreeScenes && next == Scenes.Menu then false
                                    else old(transitionPending))
      ensures isInvicible == old(isInvicible) && drag == old(drag) && lastLifeSkin == old(lastLifeSkin)
      ensures pendingHeartBreaks == old(pendingHeartBreaks)
    {
      if scene !in Scenes.ThreeScenes {
        return;
      }
      if next == Scenes.Menu {
        StartMenu();
      } else if next == Scenes.Game {
        StartGame();
      } else if next != Scenes.End {
        return;
      }
      scene := next;
      needRedraw := true;
    }

    /** `startGameOver`. */
    method StartGameOver()
      modifies this
      ensures var t := Scenes.SetScene(Scenes.CommitLast, Scenes.ThreeScenes, old(scene), Scenes.End, old(needRedraw));
        scene == t.scene && needRedraw == t.needRedraw
      ensures ennemies == old(ennemies) && lives == old(lives) && isDead == old(isDead)
      ensures countDown == old(countDown) && character == old(character) && isInvicible == old(isInvicible)
      ensures drag == old(drag) && lastLifeSkin == old(lastLifeSkin)
      ensures transitionPending == old(transitionPending) && pendingHeartBreaks == old(pendingHeartBreaks)
    {
      SetScene(Scenes.End);
    }

    /** The synchronous part of `onCharacterHit`: the heart-break animation
        shows its first frame, and the death animation marks the character
        dead and kicks it up and sideways. */
    method OnCharacterHit()
      modifies this
      ensures isDead && lastLifeSkin == "heartBroken01"
      ensures character == old(character).(velocity := DeathKick(old(character)))
      ensures pendingHeartBreaks == old(pendingHeartBreaks) + 1
      ensures scene == old(scene) && needRedraw == old(needRedraw) && ennemies == old(ennemies)
      ensures countDown == old(countDown) && isInvicible == old(isInvicible) && lives == old(lives)
      ensures drag == old(drag) && transitionPending == old(transitionPending)
    {
      lastLifeSkin := "heartBroken01";
      pendingHeartBreaks := pendingHeartBreaks + 1;
      isDead := true;
      character := character.(velocity := DeathKick(character));
    }

    /** The last step of `playHeartBreakAnimation`: exactly one life is taken. */
    method FinishHeartBreak()
      requires pendingHeartBreaks > 0
      modifies this
      ensures lives == old(lives) - 1 && lastLifeSkin == "heart"
      ensures pendingHeartBreaks == old(pendingHeartBreaks) - 1
      ensures scene == old(scene) && needRedraw == old(needRedraw) && ennemies == old(ennemies)
      ensures character == old(character) && countDown == old(countDown) && isDead == old(isDead)
      ensures isInvicible == old(isInvicible) && drag == old(drag) && transitionPending == old(transitionPending)
    {
      lastLifeSkin := "heart";
      lives := lives - 1;
      pendingHeartBreaks := pendingHeartBreaks - 1;
    }

    /** The step of `onCharacterHit` that runs once both animations are over:
        with no life left the game ends, otherwise the character restarts and
        becomes invincible (the first step of `playCharacterInvicible`). */
    method AfterHitAnimations()
      modifies this
      ensures old(lives) <= 0 ==>
        var t := Scenes.SetScene(Scenes.CommitLast, Scenes.ThreeScenes, old(scene), Scenes.End, old(needRedraw));
        scene == t.scene && needRedraw == t.needRedraw
        && isDead == old(isDead) && character == old(character) && isInvicible == old(isInvicible)
      ensures old(lives) > 0 ==>
        scene == old(scene) && needRedraw == old(needRedraw)
        && !isDead && isInvicible && character == old(character).(position := StartPosition, rotation := 0.0)
      ensures lives == old(lives) && ennemies == old(ennemies) && countDown == old(countDown)
      ensures drag == old(drag) && lastLifeSkin == old(lastLifeSkin) && pendingHeartBreaks == old(pendingHeartBreaks)
    {
      if lives <= 0 {
        StartGameOver();
      } else {
        RestartGameAfterHit();
        isInvicible := true;
      }
    }

    /** The last step of `playCharacterInvicible`. */
    method EndInvincibility()
      modifies this
      ensures !isInvicible
      ensures scene == old(scene) && ennemies == old(ennemies) && character == old(character)
      ensures isDead == old(isDead) && lives == old(lives) && pendingHeartBreaks == old(pendingHeartBreaks)
      ensures needRedraw == old(needRedraw) && countDown == old(countDown) && drag == old(drag)
      ensures lastLifeSkin == old(lastLifeSkin) && transitionPending == old(transitionPending)
    {
      isInvicible := false;
    }

    /** The "ennemy update" block of `updateGame`: nothing moves during the
        count-down; afterwards every guillotine falls, one may be spawned with
        the draw u, and those below the screen are dropped, in order. The
        list before the sweep, which the block's local `ennemies` still
        names afterwards, is returned as es. */
    method UpdateEnnemies(dt: real, u: real, a: Assets) returns (es: seq<Enemy>)
      requires 0.0 <= u < 1.0
      modifies this
      ensures es == if countDown == 0 then Spawned(Fallen(old(ennemies), dt), u, a) else old(ennemies)
      ensures ennemies == if countDown == 0 then Filter(es, OnScreen) else es
      ensures countDown == 0 ==> forall i :: 0 <= i < |ennemies| ==> ennemies[i].y < SceneHeight
      ensures scene == old(scene) && needRedraw == old(needRedraw) && character == old(character)
      ensures countDown == old(countDown) && isDead == old(isDead) && isInvicible == old(isInvicible)
      ensures lives == old(lives) && drag == old(drag) && lastLifeSkin == old(lastLifeSkin)
      ensures transitionPending == old(transitionPending) && pendingHeartBreaks == old(pendingHeartBreaks)
    {
      es := ennemies;
      if countDown != 0 {
        return;
      }
      var i := 0;
      while i < |es|
        invariant 0 <= i <= |es| == |ennemies|
        invariant forall j :: 0 <= j < i ==> es[j] == Fallen(ennemies, dt)[j]
        invariant forall j :: i <= j < |es| ==> es[j] == ennemies[j]
      {
        es := es[i := es[i].(y := es[i].y + FallSpeed * dt)];
        i := i + 1;
      }
      assert es == Fallen(ennemies, dt);
      if |es| == 0 || es[|es| - 1].y > SpawnDistance {
        var x := SpawnX(u, a.guillotineWidth);
        var y := -(a.guillotineHeight as real);
        es := es + [Enemy(x as real, y)];
      }
      ennemies := Filter(es, OnScreen);
    }

    /** The "character update" block of `updateGame`: a dead character falls;
        a live one walks with the keys and is clamped to the screen. */
    method UpdateCharacter(dt: real)
      modifies this
      ensures isDead ==> character == Falling(old(character), dt)
      ensures !isDead ==>
        character == old(character).(position := old(character.position).(x :=
          Clamp(WalkedX(old(character), dt), 0.0, SceneWidth)))
      ensures !isDead ==> 0.0 <= character.position.x <= SceneWidth
      ensures scene == old(scene) && needRedraw == old(needRedraw) && ennemies == old(ennemies)
      ensures countDown == old(countDown) && isDead == old(isDead) && isInvicible == old(isInvicible)
      ensures lives == old(lives) && drag == old(drag) && lastLifeSkin == old(lastLifeSkin)
      ensures transitionPending == old(transitionPending) && pendingHeartBreaks == old(pendingHeartBreaks)
    {
      if isDead {
        character := Falling(character, dt);
      } else {
        var x := character.position.x;
        if character.movingRight {
          x := x + CharacterSpeed * dt;
        }
        if character.movingLeft {
          x := x - CharacterSpeed * dt;
        }
        x := Clamp(x, 0.0, SceneWidth);
        character := character.(position := character.position.(x := x));
      }
    }

    /** The loop invariant of the collision block: after the first i
        guillotines of es, the hits so far, counted from the state (c0, skin0,
        pending0), have taken effect. */
    ghost predicate HitsTakenUpTo(a: Assets, es: seq<Enemy>, i: nat, c0: Character, skin0: string, pending0: nat)
      requires WellFormed(a.character) && i <= |es|
      reads this
    {
      var n := HitCount(a, es[..i], c0.position);
      && pendingHeartBreaks == pending0 + n
      && (isDead <==> n > 0)
      && character == (if n > 0 then c0.(velocity := DeathKick(c0)) else c0)
      && lastLifeSkin == (if n > 0 then "heartBroken01" else skin0)
    }

    /** One pass of the collision loop: guillotine i is tested against the
        character and, when it hits, `onCharacterHit` runs. */
    method TestHit(a: Assets, es: seq<Enemy>, i: nat, ghost c0: Character, ghost skin0: string, ghost pending0: nat)
      requires WellFormed(a.character) && i < |es|
      requires HitsTakenUpTo(a, es, i, c0, skin0, pending0)
      modifies this
      ensures HitsTakenUpTo(a, es, i + 1, c0, skin0, pending0)
      ensures scene == old(scene) && needRedraw == old(needRedraw) && ennemies == old(ennemies)
      ensures countDown == old(countDown) && isInvicible == old(isInvicible) && lives == old(lives)
      ensures drag == old(drag) && transitionPending == old(transitionPending)
    {
      HitCountStep(a, es, i, c0.position);
      if Hits(a, es[i], character.position) {
        OnCharacterHit();
      }
    }

    /** The "collision detection" block of `updateGame`, over es: the list
        the block's local `ennemies` names, that is the one from before the
        sweep. Nothing is tested while the character is dead or invincible;
        otherwise every guillotine that hits starts one hit, even after an
        earlier one this frame, and a hit kicks the character and breaks a heart. */
    method DetectHits(a: Assets, es: seq<Enemy>)
      requires WellFormed(a.character)
      modifies this
      ensures old(isDead) || old(isInvicible) ==>
        pendingHeartBreaks == old(pendingHeartBreaks) && isDead == old(isDead)
        && character == old(character) && lastLifeSkin == old(lastLifeSkin)
      ensures !(old(isDead) || old(isInvicible)) ==>
        var n := HitCount(a, es, old(character.position));
        && pendingHeartBreaks == old(pendingHeartBreaks) + n
        && (isDead <==> n > 0)
        && character == (if n > 0 then old(character).(velocity := DeathKick(old(character))) else old(character))
        && lastLifeSkin == (if n > 0 then "heartBroken01" else old(lastLifeSkin))
      ensures scene == old(scene) && needRedraw == old(needRedraw) && ennemies == old(ennemies)
      ensures countDown == old(countDown) && isInvicible == old(isInvicible) && lives == old(lives)
      ensures drag == old(drag) && transitionPending == old(transitionPending)
    {
      if isDead || isInvicible {
        return;
      }
      ghost var c0, skin0, pending0 := character, lastLifeSkin, pendingHeartBreaks;
      var i := 0;
      while i < |es|
        invariant 0 <= i <= |es| && HitsTakenUpTo(a, es, i, c0, skin0, pending0)
        invariant scene == old(scene) && needRedraw == old(needRedraw) && ennemies == old(ennemies)
        invariant countDown == old(countDown) && isInvicible == old(isInvicible) && lives == old(lives)
        invariant drag == old(drag) && transitionPending == old(transitionPending)
      {
        TestHit(a, es, i, c0, skin0, pending0);
        i := i + 1;
      }
      assert es[..i] == es;
    }

    /** `updateGame(dt)`, with the spawn draw u: the three blocks in order,
        the hit test using the character as the second block left it and the
        guillotines from before the sweep. */
    method UpdateGame(dt: real, u: real, a: Assets)
      requires 0.0 <= u < 1.0 && WellFormed(a.character)
      modifies this
      ensures var es := if old(countDown) == 0 then Spawned(Fallen(old(ennemies), dt), u, a) else old(ennemies);
        ennemies == if old(countDown) == 0 then Filter(es, OnScreen) else es
      ensures var c1 := if old(isDead) then Falling(old(character), dt)
                        else old(character).(position := old(character.position).(x :=
                               Clamp(WalkedX(old(character), dt), 0.0, SceneWidth)));
        var es := if old(countDown) == 0 then Spawned(Fallen(old(ennemies), dt), u, a) else old(ennemies);
        var n := if old(isDead) || old(isInvicible) then 0 else HitCount(a, es, c1.position);
        && pendingHeartBreaks == old(pendingHeartBreaks) + n
        && isDead == (old(isDead) || n > 0)
        && character == (if n > 0 then c1.(velocity := DeathKick(c1)) else c1)
        && lastLifeSkin == (if n > 0 then "heartBroken01" else old(lastLifeSkin))
      ensures !old(isDead) ==> 0.0 <= character.position.x <= SceneWidth
      ensures old(countDown) == 0 ==> forall i :: 0 <= i < |ennemies| ==> ennemies[i].y < SceneHeight
      ensures lives == old(lives) && scene == old(scene) && needRedraw && countDown == old(countDown)
      ensures isInvicible == old(isInvicible) && drag == old(drag) && transitionPending == old(transitionPending)
    {
      var es := UpdateEnnemies(dt, u, a);
      UpdateCharacter(dt);
      DetectHits(a, es);
      needRedraw := true;
    }
  }

  /** A guillotine stays in the list exactly while it is above the bottom of
      the screen, and the survivors keep their relative order. */
  lemma SweepKeepsOnScreen(es: seq<Enemy>, e: Enemy, fs: seq<Enemy>)
    ensures e in Filter(es, OnScreen) <==> e in es && e.y < SceneHeight
    ensures Filter(es + fs, OnScreen) == Filter(es, OnScreen) + Filter(fs, OnScreen)
  {
    FilterMembership(es, OnScreen, e);
    FilterAppend(es, fs, OnScreen);
  }
}

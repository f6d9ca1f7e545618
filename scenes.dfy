/** The `setScene` scene switch every game uses. A scene is a string; each
    game knows a fixed set of them and has an exit hook and an enter hook per
    known scene. The five copies differ in one place only: Train, Alexei, Test
    and Eiffel write `state.scene` between the exit hook and the enter hook,
    while Robert writes it after the enter hook has run. */
module Scenes {

  const Menu := "MENU"
  const Game := "GAME"
  const End := "END"

  /** The scenes of Train, Alexei, Robert and Test. */
  const ThreeScenes: set<string> := {Menu, Game, End}

  /** Eiffel's switch knows only these two, although its back button asks for MENU. */
  const EiffelScenes: set<string> := {Game, End}

  /** Where the new scene name is stored. */
  datatype Commit = WriteFirst | CommitLast

  /** A hook call, in the order the switch makes them. */
  datatype Hook = Exit(scene: string) | Enter(scene: string)

  /** What one `setScene(next)` call does: the hooks it runs, the scene it
      leaves in `state.scene`, and the `needRedraw` flag afterwards. */
  datatype Step = Step(hooks: seq<Hook>, scene: string, needRedraw: bool)

  /** `setScene(next)` from scene `cur` with the redraw flag `redraw`. An
      unknown current scene logs an error and returns before anything runs.
      Otherwise the exit hook of `cur` runs; an unknown `next` then logs and
      returns, and only a known one gets its enter hook and the redraw flag. */
  function SetScene(c: Commit, known: set<string>, cur: string, next: string, redraw: bool): (t: Step)
    ensures cur !in known ==> t == Step([], cur, redraw)
    ensures cur in known ==> |t.hooks| > 0 && t.hooks[0] == Exit(cur)
    ensures cur in known && next in known ==> t == Step([Exit(cur), Enter(next)], next, true)
    ensures next !in known ==> t.needRedraw == redraw && |t.hooks| <= 1
    ensures cur in known && next !in known ==> t.scene == (if c == WriteFirst then next else cur)
  {
    if cur !in known then Step([], cur, redraw)
    else if next !in known then Step([Exit(cur)], if c == WriteFirst then next else cur, redraw)
    else Step([Exit(cur), Enter(next)], next, true)
  }

  /** Every exit hook that runs belongs to the scene being left, and every
      enter hook to the scene being entered; each runs at most once. */
  lemma HooksMatchScenes(c: Commit, known: set<string>, cur: string, next: string, redraw: bool)
    ensures var t := SetScene(c, known, cur, next, redraw);
      && |t.hooks| <= 2
      && (forall i :: 0 <= i < |t.hooks| && t.hooks[i].Exit? ==> i == 0 && t.hooks[i].scene == cur && cur in known)
      && (forall i :: 0 <= i < |t.hooks| && t.hooks[i].Enter? ==> i == 1 && t.hooks[i].scene == next && next in known)
  {
  }

  /** Robert's order keeps `state.scene` inside the known set whatever is asked. */
  lemma CommitLastStaysKnown(known: set<string>, cur: string, next: string, redraw: bool)
    requires cur in known
    ensures SetScene(CommitLast, known, cur, next, redraw).scene in known
  {
  }

  /** The other order stores an unknown request and so can leave the known set. */
  lemma WriteFirstStoresUnknown(known: set<string>, cur: string, next: string, redraw: bool)
    requires cur in known && next !in known
    ensures SetScene(WriteFirst, known, cur, next, redraw).scene !in known
    ensures SetScene(WriteFirst, known, cur, next, redraw).hooks == [Exit(cur)]
  {
  }

  /** The two orders agree whenever the requested scene is known. */
  lemma OrdersAgreeOnKnown(known: set<string>, cur: string, next: string, redraw: bool)
    requires next in known
    ensures SetScene(WriteFirst, known, cur, next, redraw) == SetScene(CommitLast, known, cur, next, redraw)
  {
  }

  /** A sequence of `setScene` requests: the hooks of all calls in order, the
      final scene and the final redraw flag. */
  function Run(c: Commit, known: set<string>, cur: string, reqs: seq<string>, redraw: bool): (t: Step)
    ensures reqs == [] ==> t == Step([], cur, redraw)
    ensures |t.hooks| <= 2 * |reqs|
    decreases |reqs|
  {
    if reqs == [] then Step([], cur, redraw)
    else
      var first := SetScene(c, known, cur, reqs[0], redraw);
      var rest := Run(c, known, first.scene, reqs[1..], first.needRedraw);
      Step(first.hooks + rest.hooks, rest.scene, rest.needRedraw)
  }

  /** Once `state.scene` holds an unknown name, every later request returns at
      the first switch: no hook runs and nothing changes. */
  lemma {:induction false} UnknownSceneIsStuck(c: Commit, known: set<string>, cur: string, reqs: seq<string>, redraw: bool)
    requires cur !in known
    ensures Run(c, known, cur, reqs, redraw) == Step([], cur, redraw)
    decreases |reqs|
  {
    if reqs != [] {
      UnknownSceneIsStuck(c, known, cur, reqs[1..], redraw);
    }
  }

  /** Under Robert's order a game that starts in a known scene stays in known
      scenes through any sequence of requests. */
  lemma {:induction false} CommitLastRunStaysKnown(known: set<string>, cur: string, reqs: seq<string>, redraw: bool)
    requires cur in known
    ensures Run(CommitLast, known, cur, reqs, redraw).scene in known
    decreases |reqs|
  {
    if reqs != [] {
      var first := SetScene(CommitLast, known, cur, reqs[0], redraw);
      CommitLastStaysKnown(known, cur, reqs[0], redraw);
      CommitLastRunStaysKnown(known, first.scene, reqs[1..], first.needRedraw);
    }
  }

  /** Eiffel's back button: from GAME, `setScene('MENU')` runs `stopGame`,
      stores MENU and leaves the redraw flag alone; after that no request,
      not even GAME, runs a hook or changes the scene again. */
  lemma EiffelBackButtonLocksScene(redraw: bool, later: seq<string>)
    ensures var t := Run(WriteFirst, EiffelScenes, Game, [Menu] + later, redraw);
      t.hooks == [Exit(Game)] && t.scene == Menu && t.needRedraw == redraw
  {
    var first := SetScene(WriteFirst, EiffelScenes, Game, Menu, redraw);
    assert first == Step([Exit(Game)], Menu, redraw);
    assert ([Menu] + later)[1..] == later;
    UnknownSceneIsStuck(WriteFirst, EiffelScenes, Menu, later, redraw);
  }
}

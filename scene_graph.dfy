/**
 * ASceneGraph: the frame controller. Each frame it reads the real clock, handles the
 * Escape key (restart after game over, pause toggle otherwise), advances the virtual
 * clock only while running, updates and renders the tree, and prepares resources.
 */
module SceneGraph {
  import opened Wrappers
  import opened Events
  import opened Behavior
  import opened RenderObject
  import opened RenderObjectCollection
  import opened Resource

  /** After an accepted Escape, further presses are ignored for this many milliseconds. */
  const EventResetTimeEscape: int := 300

  /** Environment.NewLine on the platform the game targets. */
  const NewLine: string := "\r\n"

  // ---------------------------------------------------------------------------
  // The Escape debounce gate.

  /** IsEscapePressed: (accepted, the new nextAcceptTime_Escape). */
  function EscapeGate(pressed: bool, now: int, nextAccept: int): (r: (bool, int))
    ensures r.0 <==> pressed && now >= nextAccept
    ensures r.0 ==> r.1 == now + EventResetTimeEscape
    ensures !pressed ==> r.1 == 0
    ensures pressed && now < nextAccept ==> r.1 == nextAccept
  {
    if pressed then
      if now >= nextAccept then (true, now + EventResetTimeEscape) else (false, nextAccept)
    else (false, 0)
  }

  /** Holding Escape down is accepted at most once per 300 ms. */
  lemma HeldEscapeIsDebounced(t1: int, t2: int, nextAccept: int)
    requires EscapeGate(true, t1, nextAccept).0 && t1 <= t2 < t1 + EventResetTimeEscape
    ensures !EscapeGate(true, t2, EscapeGate(true, t1, nextAccept).1).0
  {
  }

  /** A frame without Escape re-arms the gate: the next press is accepted at once. */
  lemma ReleaseRearmsEscape(t1: int, t2: int, nextAccept: int)
    requires t2 >= 0
    ensures EscapeGate(true, t2, EscapeGate(false, t1, nextAccept).1).0
  {
  }

  // ---------------------------------------------------------------------------
  // The clock and pause state machine of RenderOneFrame.

  datatype Clock = Clock(lastTimestamp: int, virtualTimestamp: int, nextAcceptEscape: int,
                         pauseByEscape: bool, pauseByFocus: bool, gameOver: bool)

  /** One frame's inputs: the real clock, the keys pressed, whether the window has focus. */
  datatype Input = Input(now: int, pressed: set<EventType>, hasFocus: bool)

  datatype Overlay = NoOverlay | PauseOverlay | GameOverOverlay

  /**
   * What a frame did: restarted the game, or rendered (after updating, when it
   * advanced); paused is the frame's isNowPause.
   */
  datatype Outcome = Restarted | Rendered(advanced: bool, elapsed: int, paused: bool)

  /** The overlay drawn over the tree, chosen from the flags as they are after the update. */
  function OverlayFor(gameOver: bool, paused: bool): (o: Overlay)
    ensures o == GameOverOverlay <==> gameOver
    ensures o == PauseOverlay <==> !gameOver && paused
  {
    if gameOver then GameOverOverlay else if paused then PauseOverlay else NoOverlay
  }

  /** CalcPause: an accepted Escape toggles the Escape pause; focus loss pauses too. */
  function CalcPause(c: Clock, input: Input): (r: (Clock, bool))
    ensures r.1 <==> r.0.pauseByEscape || !input.hasFocus
    ensures r.0.pauseByFocus == !input.hasFocus
    ensures r.0.pauseByEscape == (c.pauseByEscape != EscapeGate(Escape in input.pressed, input.now, c.nextAcceptEscape).0)
    ensures r.0.lastTimestamp == c.lastTimestamp && r.0.virtualTimestamp == c.virtualTimestamp && r.0.gameOver == c.gameOver
  {
    var gate := EscapeGate(Escape in input.pressed, input.now, c.nextAcceptEscape);
    var c1 := c.(nextAcceptEscape := gate.1, pauseByEscape := if gate.0 then !c.pauseByEscape else c.pauseByEscape);
    var c2 := c1.(pauseByFocus := !input.hasFocus);
    (c2, c2.pauseByEscape || c2.pauseByFocus)
  }

  /** The state change of one RenderOneFrame, and what it does with the tree. */
  function ClockStep(c: Clock, input: Input): (r: (Clock, Outcome))
  {
    var elapsed := input.now - c.lastTimestamp;
    var c1 := c.(lastTimestamp := input.now);
    if c1.gameOver then
      var gate := EscapeGate(Escape in input.pressed, input.now, c1.nextAcceptEscape);
      var c2 := c1.(nextAcceptEscape := gate.1);
      if gate.0 then (c2.(gameOver := false), Restarted)
      else (c2, Rendered(false, elapsed, false))
    else
      var paused := CalcPause(c1, input);
      if paused.1 then (paused.0, Rendered(false, elapsed, true))
      else (paused.0.(virtualTimestamp := c.virtualTimestamp + elapsed), Rendered(true, elapsed, false))
  }

  /** Every frame records the real timestamp, whatever the state. */
  lemma FrameRecordsRealTime(c: Clock, input: Input)
    ensures ClockStep(c, input).0.lastTimestamp == input.now
  {
  }

  /**
   * Virtual time grows by exactly the real time elapsed on frames that are neither paused
   * nor in game over, and stands still otherwise; only such frames update the tree.
   */
  lemma VirtualTimeAdvancesOnlyWhileRunning(c: Clock, input: Input)
    ensures var r := ClockStep(c, input);
            && (r.1.Rendered? && r.1.advanced <==>
                  !c.gameOver && !(CalcPause(c.(lastTimestamp := input.now), input).1))
            && r.0.virtualTimestamp ==
                 if r.1.Rendered? && r.1.advanced then c.virtualTimestamp + (input.now - c.lastTimestamp)
                 else c.virtualTimestamp
  {
  }

  /** A game-over frame restarts exactly when the Escape gate accepts, and the game-over flag is then cleared. */
  lemma RestartOnlyFromGameOver(c: Clock, input: Input)
    ensures ClockStep(c, input).1.Restarted? <==>
            c.gameOver && EscapeGate(Escape in input.pressed, input.now, c.nextAcceptEscape).0
    ensures ClockStep(c, input).1.Restarted? ==> !ClockStep(c, input).0.gameOver
    ensures !c.gameOver ==> ClockStep(c, input).0.gameOver == false
  {
  }

  /** In game over the pause flags are not evaluated: they keep their values. */
  lemma GameOverFreezesPause(c: Clock, input: Input)
    requires c.gameOver
    ensures ClockStep(c, input).0.pauseByEscape == c.pauseByEscape
    ensures ClockStep(c, input).0.pauseByFocus == c.pauseByFocus
  {
  }

  /** Losing focus pauses the game whatever Escape did. */
  lemma FocusLossPauses(c: Clock, input: Input)
    requires !c.gameOver && !input.hasFocus
    ensures ClockStep(c, input).1 == Rendered(false, input.now - c.lastTimestamp, true)
  {
  }

  // ---------------------------------------------------------------------------
  // The game-over text.

  datatype Stat = Stat(key: string, value: int)

  const ReachedLevel: string := "Reached Level"
  const EarnedPoints: string := "Earned Points"
  const Header: string := "Press ESCAPE to restart" + NewLine + NewLine

  function DigitChar(d: nat): char
    requires d < 10
  {
    "0123456789"[d]
  }

  function NatToString(n: nat): (s: string)
    ensures |s| > 0 && forall i :: 0 <= i < |s| ==> '0' <= s[i] <= '9'
    decreases n
  {
    if n < 10 then [DigitChar(n)] else NatToString(n / 10) + [DigitChar(n % 10)]
  }

  /** Int32.ToString: a minus sign for negative values, then the decimal digits. */
  function IntToString(i: int): (s: string)
    ensures |s| > 0 && (s[0] == '-' <==> i < 0)
  {
    if i < 0 then "-" + NatToString(-i) else NatToString(i)
  }

  function Spaces(n: nat): (s: string)
    ensures |s| == n && forall i :: 0 <= i < n ==> s[i] == ' '
  {
    seq(n, _ => ' ')
  }

  predicate DistinctKeys(stats: seq<Stat>)
  {
    forall i, j {:trigger KeyAt(stats, i), KeyAt(stats, j)} :: 0 <= i < j < |stats| ==> KeyAt(stats, i) != KeyAt(stats, j)
  }

  /** stats[i].key, named so that DistinctKeys is used only where a proof asks for it. */
  function KeyAt(stats: seq<Stat>, i: int): string
    requires 0 <= i < |stats|
  {
    stats[i].key
  }

  /** The dictionary GameOver fills: level, points, then the extra statistics in order. */
  function Statistics(level: int, points: int, extras: Option<seq<Stat>>): seq<Stat>
  {
    [Stat(ReachedLevel, level), Stat(EarnedPoints, points)] + (if extras.Some? then extras.value else [])
  }

  function MaxKeyLength(stats: seq<Stat>): (m: nat)
    ensures forall i :: 0 <= i < |stats| ==> |stats[i].key| <= m
    ensures |stats| > 0 ==> exists i :: 0 <= i < |stats| && |stats[i].key| == m
    decreases |stats|
  {
    if |stats| == 0 then 0
    else
      var rest := MaxKeyLength(stats[..|stats| - 1]);
      var last := |stats[|stats| - 1].key|;
      assert forall i :: 0 <= i < |stats| - 1 ==> stats[i] == stats[..|stats| - 1][i];
      if last > rest then last else rest
  }

  /** One statistic: key, ": ", padding to the widest key, the value, a line break. */
  function StatLine(s: Stat, width: nat): string
    requires |s.key| <= width
  {
    s.key + ": " + Spaces(width - |s.key|) + IntToString(s.value) + NewLine
  }

  function StatLines(stats: seq<Stat>, width: nat): string
    requires forall i :: 0 <= i < |stats| ==> |stats[i].key| <= width
    decreases |stats|
  {
    if |stats| == 0 then ""
    else StatLines(stats[..|stats| - 1], width) + StatLine(stats[|stats| - 1], width)
  }

  /**
   * The text GameOver builds. Adding a second entry with the same key to the
   * dictionary throws, which happens when an extra statistic reuses one of the
   * two fixed keys; the extras themselves come from a dictionary, so their keys differ.
   */
  function GameOverText(level: int, points: int, extras: Option<seq<Stat>>): (r: Result<string>)
    requires extras.Some? ==> DistinctKeys(extras.value)
    ensures r.Failure? <==> ClashesWithFixedKey(extras)
    ensures r.Success? ==> |r.value| >= |Header| && r.value[..|Header|] == Header
  {
    var stats := Statistics(level, points, extras);
    StatisticsDistinct(level, points, extras);
    if !DistinctKeys(stats) then
      Failure("An item with the same key has already been added.")
    else
      Success(Header + StatLines(stats, MaxKeyLength(stats)))
  }

  /** A GameOver call: the level, the points and the extra statistics passed. */
  datatype GameOverCall = GameOverCall(level: int, points: int, extras: Option<seq<Stat>>)

  /** What GameOver asks of its caller: the extra statistics come from a dictionary. */
  predicate CallOk(call: GameOverCall)
  {
    call.extras.Some? ==> DistinctKeys(call.extras.value)
  }

  /**
   * The exception the hook's GameOver call throws, if it makes one: the dictionary
   * refuses a statistic key that is already there.
   */
  function HookError(call: Option<GameOverCall>): (e: Option<string>)
    requires call.Some? ==> CallOk(call.value)
    ensures e.Some? <==> call.Some? && GameOverText(call.value.level, call.value.points, call.value.extras).Failure?
  {
    if call.None? then None
    else match GameOverText(call.value.level, call.value.points, call.value.extras)
         case Success(_) => None
         case Failure(msg) => Some(msg)
  }

  /** The game-over text after the hook's GameOver call, if it made one. */
  function TextAfter(text: Option<string>, call: Option<GameOverCall>): Option<string>
    requires call.Some? ==> CallOk(call.value)
  {
    if call.None? then text
    else match GameOverText(call.value.level, call.value.points, call.value.extras)
         case Success(t) => Some(t)
         case Failure(_) => text
  }

  /** Some extra statistic uses "Reached Level" or "Earned Points" as its key. */
  predicate ClashesWithFixedKey(extras: Option<seq<Stat>>)
  {
    extras.Some? && exists i :: 0 <= i < |extras.value| && extras.value[i].key in {ReachedLevel, EarnedPoints}
  }

  lemma StatisticsDistinct(level: int, points: int, extras: Option<seq<Stat>>)
    requires extras.Some? ==> DistinctKeys(extras.value)
    ensures DistinctKeys(Statistics(level, points, extras)) <==> !ClashesWithFixedKey(extras)
  {
    if ClashesWithFixedKey(extras) {
      ClashRepeatsKey(level, points, extras);
    } else {
      NoClashDistinct(level, points, extras);
    }
  }

  /** An extra statistic under a fixed key repeats that key in the dictionary. */
  lemma ClashRepeatsKey(level: int, points: int, extras: Option<seq<Stat>>)
    requires ClashesWithFixedKey(extras)
    ensures !DistinctKeys(Statistics(level, points, extras))
  {
    var stats := Statistics(level, points, extras);
    var xs := extras.value;
    var i :| 0 <= i < |xs| && xs[i].key in {ReachedLevel, EarnedPoints};
    assert stats[i + 2] == xs[i];
    if xs[i].key == ReachedLevel {
      assert KeyAt(stats, 0) == KeyAt(stats, i + 2);
    } else {
      assert KeyAt(stats, 1) == KeyAt(stats, i + 2);
    }
  }

  /** Extras with keys of their own, none of them fixed, give a dictionary without a repeated key. */
  lemma NoClashDistinct(level: int, points: int, extras: Option<seq<Stat>>)
    requires extras.Some? ==> DistinctKeys(extras.value)
    requires !ClashesWithFixedKey(extras)
    ensures DistinctKeys(Statistics(level, points, extras))
  {
    var stats := Statistics(level, points, extras);
    var xs := if extras.Some? then extras.value else [];
    assert ReachedLevel != EarnedPoints by { assert ReachedLevel[0] != EarnedPoints[0]; }
    forall i, j | 0 <= i < j < |stats|
      ensures KeyAt(stats, i) != KeyAt(stats, j)
    {
      if i >= 2 {
        assert stats[i] == xs[i - 2] && stats[j] == xs[j - 2];
        assert KeyAt(xs, i - 2) != KeyAt(xs, j - 2);
      } else if j >= 2 {
        assert stats[j] == xs[j - 2];
        assert xs[j - 2].key !in {ReachedLevel, EarnedPoints};
      }
    }
  }

  /** Every value starts in the same column: two past the widest key. */
  lemma ValuesStartAtCommonColumn(s: Stat, width: nat)
    requires |s.key| <= width
    ensures StatLine(s, width)[..width + 2] == s.key + ": " + Spaces(width - |s.key|)
    ensures StatLine(s, width)[width + 2..] == IntToString(s.value) + NewLine
  {
    var pre := s.key + ": " + Spaces(width - |s.key|);
    assert |pre| == width + 2;
    assert StatLine(s, width) == pre + (IntToString(s.value) + NewLine);
  }

  /** The widest key is as wide as "Reached Level", or wider. */
  lemma WidthCoversFixedKeys(level: int, points: int, extras: Option<seq<Stat>>)
    ensures MaxKeyLength(Statistics(level, points, extras)) >= 13
  {
    assert Statistics(level, points, extras)[0].key == ReachedLevel;
  }

  lemma StatLinesSnoc(stats: seq<Stat>, i: nat, width: nat)
    requires i < |stats| && forall k :: 0 <= k < |stats| ==> |stats[k].key| <= width
    ensures StatLines(stats[..i + 1], width) == StatLines(stats[..i], width) + StatLine(stats[i], width)
  {
    assert stats[..i + 1][..i] == stats[..i];
  }

  /** The StringBuilder loop of GameOver. */
  method BuildGameOverText(stats: seq<Stat>) returns (text: string)
    requires DistinctKeys(stats)
    ensures text == Header + StatLines(stats, MaxKeyLength(stats))
  {
    var width := MaxKeyLength(stats);
    var lines := "";
    var i := 0;
    while i < |stats|
      invariant 0 <= i <= |stats|
      invariant forall k :: 0 <= k < i ==> |stats[..i][k].key| <= width
      invariant lines == StatLines(stats[..i], width)
    {
      assert |stats[i].key| <= width;
      assert StatLines(stats[..i + 1], width) == lines + StatLine(stats[i], width) by {
        StatLinesSnoc(stats, i, width);
      }
      lines := lines + StatLine(stats[i], width);
      i := i + 1;
    }
    assert stats[..i] == stats;
    text := Header + lines;
  }

  // ---------------------------------------------------------------------------
  // The scene graph object.

  class SceneGraph {
    const sceneId: nat
    var lastTimestamp: int
    var virtualTimestamp: int
    var nextAcceptTimeEscape: int
    var isPauseByEscape: bool
    var isPauseByFocus: bool
    var isGameOver: bool
    var gameOverText: Option<string>
    /** The top RenderObjectCollection; its Root is this scene graph. */
    var renderObjects: Entity
    /** The AfterUpdate slot of the top collection. */
    var afterUpdate: seq<Id>
    /** The callbacks behaviours have invoked. */
    var invoked: seq<nat>
    /** Calls of the virtual Init(context) made on restart. */
    var initCalls: nat
    /** Calls of the subclass hook UpdateOneFrame: (virtual timestamp, elapsed). */
    var hookCalls: seq<(int, int)>
    const resources: ResourceCollection
    const gameOverImage: ImageResource
    const pauseImage: ImageResource

    /**
     * The tree invariant, and the collection's own prepared flag being clear: nothing
     * ever sets it, so every frame runs the collection's Prepare loop.
     */
    ghost predicate Valid()
      reads this, resources
    {
      RenderObject.Valid(renderObjects) && renderObjects.root == Some(sceneId) && !resources.isPrepared
    }

    function ClockState(): Clock
      reads this`lastTimestamp, this`virtualTimestamp, this`nextAcceptTimeEscape, this`isPauseByEscape,
            this`isPauseByFocus, this`isGameOver
    {
      Clock(lastTimestamp, virtualTimestamp, nextAcceptTimeEscape, isPauseByEscape, isPauseByFocus, isGameOver)
    }

    /** The constructor: an empty top collection rooted here, and the two overlay images as resources. */
    constructor(sceneId: nat, topId: Id, gameOverData: nat, pauseData: nat)
      ensures Valid() && this.sceneId == sceneId
      ensures ClockState() == Clock(0, 0, 0, false, false, false) && gameOverText.None?
      ensures renderObjects.children == [] && afterUpdate == [] && invoked == [] && hookCalls == []
      ensures fresh(resources) && fresh(gameOverImage) && fresh(pauseImage)
      ensures resources.resources == [gameOverImage, pauseImage] && !resources.isPrepared
      ensures !gameOverImage.isPrepared && !pauseImage.isPrepared
    {
      this.sceneId := sceneId;
      lastTimestamp, virtualTimestamp, nextAcceptTimeEscape := 0, 0, 0;
      isPauseByEscape, isPauseByFocus, isGameOver := false, false, false;
      gameOverText := None;
      var top := EmptyCollection(topId);
      SetRootProperties(top, Some(sceneId));
      SameIdsSameSet(SetRoot(top, Some(sceneId)), top);
      renderObjects := SetRoot(top, Some(sceneId));
      afterUpdate, invoked, initCalls, hookCalls := [], [], 0, [];
      var rc := new ResourceCollection();
      var gameOverImg := new ImageResource(0, gameOverData);
      var pauseImg := new ImageResource(1, pauseData);
      var added := rc.Add(gameOverImg);
      added := rc.Add(pauseImg);
      resources, gameOverImage, pauseImage := rc, gameOverImg, pauseImg;
    }

    /** AddObject: the object becomes a child of the top collection and gets this Root. */
    method AddObject(obj: Entity) returns (added: Entity)
      requires Valid() && RenderObject.Valid(obj) && IdSet(obj) !! IdSet(renderObjects)
      modifies this
      ensures Valid()
      ensures renderObjects == RenderObject.Add(old(renderObjects), obj).0 && added == RenderObject.Add(old(renderObjects), obj).1
      ensures ClockState() == old(ClockState()) && afterUpdate == old(afterUpdate)
    {
      AddKeepsValid(renderObjects, obj);
      var r := RenderObject.Add(renderObjects, obj);
      renderObjects := r.0;
      added := r.1;
    }

    /** RemoveObject: removes the object from the top collection. */
    method RemoveObject(obj: Entity) returns (removed: Entity)
      requires Valid()
      modifies this
      ensures Valid()
      ensures renderObjects == Remove(old(renderObjects), obj).0 && removed == Remove(old(renderObjects), obj).1
      ensures ClockState() == old(ClockState()) && afterUpdate == old(afterUpdate)
    {
      RemoveKeepsValid(renderObjects, obj);
      var r := Remove(renderObjects, obj);
      renderObjects := r.0;
      removed := r.1;
    }

    method AddResource(resource: ImageResource) returns (same: ImageResource)
      requires Valid()
      modifies resources
      ensures Valid()
      ensures resources.resources == old(resources.resources) + [resource] && !resources.isPrepared && same == resource
    {
      same := resources.Add(resource);
    }

    method RemoveResource(resource: ImageResource) returns (same: ImageResource)
      requires Valid()
      modifies resources
      ensures Valid()
      ensures resources.resources == Removed(old(resources.resources), resource)
      ensures resources.isPrepared == old(resources.isPrepared) && same == resource
    {
      same := resources.Remove(resource);
    }

    method IsEscapePressed(now: int, pressed: set<EventType>) returns (accepted: bool)
      modifies this`nextAcceptTimeEscape
      ensures (accepted, nextAcceptTimeEscape) == EscapeGate(Escape in pressed, now, old(nextAcceptTimeEscape))
    {
      accepted := false;
      if Escape in pressed {
        if now >= nextAcceptTimeEscape {
          nextAcceptTimeEscape := now + EventResetTimeEscape;
          accepted := true;
        }
      } else {
        nextAcceptTimeEscape := 0;
      }
    }

    method CalcPauseState(input: Input) returns (isNowPause: bool)
      modifies this`nextAcceptTimeEscape, this`isPauseByEscape, this`isPauseByFocus
      ensures (ClockState(), isNowPause) == CalcPause(old(ClockState()), input)
    {
      var escapePressed := IsEscapePressed(input.now, input.pressed);
      if escapePressed {
        isPauseByEscape := !isPauseByEscape;
      }
      isPauseByFocus := !input.hasFocus;
      isNowPause := isPauseByEscape || isPauseByFocus;
    }

    method ResetGameOver()
      modifies this`isGameOver, this`gameOverText
      ensures !isGameOver && gameOverText.None?
    {
      isGameOver := false;
      gameOverText := None;
    }

    /**
     * GameOver: sets the flag first, then builds the text; when the dictionary
     * throws, the flag stays set and the text is left as it was.
     */
    method GameOver(level: int, points: int, extras: Option<seq<Stat>>) returns (error: Option<string>)
      requires extras.Some? ==> DistinctKeys(extras.value)
      modifies this`isGameOver, this`gameOverText
      ensures isGameOver
      ensures match GameOverText(level, points, extras)
              case Success(t) => gameOverText == Some(t) && error.None?
              case Failure(msg) => gameOverText == old(gameOverText) && error == Some(msg)
    {
      isGameOver := true;
      var stats := Statistics(level, points, extras);
      if !DistinctKeys(stats) {
        error := Some("An item with the same key has already been added.");
      } else {
        var text := BuildGameOverText(stats);
        gameOverText := Some(text);
        error := None;
      }
    }

    /**
     * The clock part of RenderOneFrame: records the real time, handles Escape in game
     * over (restart, then Init) or the pause state otherwise, and advances the virtual
     * clock when the game runs.
     */
    method AdvanceClock(input: Input) returns (outcome: Outcome)
      modifies this`lastTimestamp, this`virtualTimestamp, this`nextAcceptTimeEscape, this`isPauseByEscape,
               this`isPauseByFocus, this`isGameOver, this`gameOverText, this`initCalls
      ensures (ClockState(), outcome) == ClockStep(old(ClockState()), input)
      ensures outcome.Restarted? ==> initCalls == old(initCalls) + 1 && gameOverText.None?
      ensures outcome.Rendered? ==> initCalls == old(initCalls) && gameOverText == old(gameOverText)
    {
      var elapsed := input.now - lastTimestamp;
      lastTimestamp := input.now;
      var isNowPause := false;
      if isGameOver {
        var escapePressed := IsEscapePressed(input.now, input.pressed);
        if escapePressed {
          ResetGameOver();
          initCalls := initCalls + 1;
          outcome := Restarted;
          return;
        }
      } else {
        isNowPause := CalcPauseState(input);
      }
      var advanced := !isNowPause && !isGameOver;
      if advanced {
        virtualTimestamp := virtualTimestamp + elapsed;
      }
      outcome := Rendered(advanced, elapsed, isNowPause);
    }

    /**
     * The subclass hook UpdateOneFrame as the scene graph sees it: the call is
     * recorded, and the GameOver call the hook makes in this frame, if any, is made.
     * An exception out of GameOver leaves the hook, and is handed on as the error.
     */
    method RunHook(elapsed: int, hookGameOver: Option<GameOverCall>) returns (error: Option<string>)
      requires hookGameOver.Some? ==> CallOk(hookGameOver.value)
      modifies this`hookCalls, this`isGameOver, this`gameOverText
      ensures hookCalls == old(hookCalls) + [(virtualTimestamp, elapsed)]
      ensures ClockState() == old(ClockState()).(gameOver := old(isGameOver) || hookGameOver.Some?)
      ensures gameOverText == TextAfter(old(gameOverText), hookGameOver)
      ensures error == HookError(hookGameOver)
    {
      hookCalls := hookCalls + [(virtualTimestamp, elapsed)];
      error := None;
      if hookGameOver.Some? {
        var call := hookGameOver.value;
        error := GameOver(call.level, call.points, call.extras);
      }
    }

    /** The tree's update pass of a running frame, at the virtual time. */
    method UpdateObjects(pressed: set<EventType>, ease: real -> real)
      requires RenderObject.Valid(renderObjects) && renderObjects.root == Some(sceneId)
      modifies this`renderObjects, this`afterUpdate, this`invoked
      ensures RenderObject.Valid(renderObjects) && renderObjects.root == Some(sceneId)
      ensures var u := UpdateCollection(old(renderObjects), Frame(virtualTimestamp, pressed, ease),
                                        old(afterUpdate), old(invoked));
              renderObjects == u.0 && afterUpdate == [] && invoked == u.1.invoked
    {
      var f := Frame(virtualTimestamp, pressed, ease);
      var u := UpdateCollection(renderObjects, f, afterUpdate, invoked);
      assert RenderObject.Valid(u.0) && u.0.root == renderObjects.root by {
        UpdateCollectionRemovesScheduled(renderObjects, f, afterUpdate, invoked);
      }
      renderObjects := u.0;
      afterUpdate := [];
      invoked := u.1.invoked;
    }

    /**
     * The state part of RenderOneFrame: the clock, then, on a running frame, the
     * subclass hook and the tree's update pass. An exception out of the hook ends
     * the frame before the update.
     */
    method StepFrame(input: Input, ease: real -> real, hookGameOver: Option<GameOverCall>)
      returns (outcome: Outcome, error: Option<string>)
      requires RenderObject.Valid(renderObjects) && renderObjects.root == Some(sceneId)
      requires hookGameOver.Some? ==> CallOk(hookGameOver.value)
      modifies this`lastTimestamp, this`virtualTimestamp, this`nextAcceptTimeEscape, this`isPauseByEscape,
               this`isPauseByFocus, this`isGameOver, this`gameOverText, this`initCalls,
               this`hookCalls, this`renderObjects, this`afterUpdate, this`invoked
      ensures RenderObject.Valid(renderObjects) && renderObjects.root == Some(sceneId)
      ensures outcome == ClockStep(old(ClockState()), input).1
      ensures var c := ClockStep(old(ClockState()), input).0;
              var ended := outcome.Rendered? && outcome.advanced && hookGameOver.Some?;
              ClockState() == c.(gameOver := c.gameOver || ended)
      ensures outcome.Restarted? ==> initCalls == old(initCalls) + 1 && gameOverText.None?
      ensures outcome.Restarted? ==> renderObjects == old(renderObjects) && hookCalls == old(hookCalls)
      ensures error == if outcome.Rendered? && outcome.advanced then HookError(hookGameOver) else None
      ensures outcome.Rendered? && outcome.advanced ==>
                && hookCalls == old(hookCalls) + [(virtualTimestamp, outcome.elapsed)]
                && gameOverText == TextAfter(old(gameOverText), hookGameOver)
      ensures outcome.Rendered? && outcome.advanced && error.None? ==>
                var u := UpdateCollection(old(renderObjects), Frame(virtualTimestamp, input.pressed, ease),
                                          old(afterUpdate), old(invoked));
                renderObjects == u.0 && afterUpdate == [] && invoked == u.1.invoked
      ensures error.Some? || (outcome.Rendered? && !outcome.advanced) ==>
                renderObjects == old(renderObjects) && afterUpdate == old(afterUpdate) && invoked == old(invoked)
      ensures outcome.Rendered? && !outcome.advanced ==> hookCalls == old(hookCalls) && gameOverText == old(gameOverText)
    {
      outcome := AdvanceClock(input);
      error := None;
      if outcome.Rendered? && outcome.advanced {
        error := RunningFrame(outcome.elapsed, input.pressed, ease, hookGameOver);
      }
    }

    /**
     * A running frame after the clock: the subclass hook, then the tree's update pass,
     * which an exception out of the hook skips.
     */
    method RunningFrame(elapsed: int, pressed: set<EventType>, ease: real -> real, hookGameOver: Option<GameOverCall>)
      returns (error: Option<string>)
      requires RenderObject.Valid(renderObjects) && renderObjects.root == Some(sceneId)
      requires hookGameOver.Some? ==> CallOk(hookGameOver.value)
      modifies this`isGameOver, this`gameOverText, this`hookCalls, this`renderObjects, this`afterUpdate, this`invoked
      ensures RenderObject.Valid(renderObjects) && renderObjects.root == Some(sceneId)
      ensures ClockState() == old(ClockState()).(gameOver := old(isGameOver) || hookGameOver.Some?)
      ensures error == HookError(hookGameOver)
      ensures hookCalls == old(hookCalls) + [(virtualTimestamp, elapsed)]
      ensures gameOverText == TextAfter(old(gameOverText), hookGameOver)
      ensures error.None? ==>
                var u := UpdateCollection(old(renderObjects), Frame(virtualTimestamp, pressed, ease),
                                          old(afterUpdate), old(invoked));
                renderObjects == u.0 && afterUpdate == [] && invoked == u.1.invoked
      ensures error.Some? ==>
                renderObjects == old(renderObjects) && afterUpdate == old(afterUpdate) && invoked == old(invoked)
    {
      error := RunHook(elapsed, hookGameOver);
      if error.None? {
        ghost var clock := ClockState();
        UpdateObjects(pressed, ease);
        assert ClockState() == clock;
      }
    }

    /**
     * The drawing part of RenderOneFrame: the resources not prepared yet are prepared,
     * the tree is rendered, then the overlay the flags call for.
     */
    method DrawFrame(context: RenderContext, pushes: PropertyAccess.Properties -> bool, paused: bool)
      returns (drawn: seq<Command>, overlay: Overlay)
      requires Valid()
      modifies context, set r | r in resources.resources
      ensures drawn == RenderLog(renderObjects, pushes)
      ensures overlay == OverlayFor(isGameOver, paused)
      ensures forall r :: r in resources.resources ==> r.isPrepared
    {
      if !resources.isPrepared {
        resources.Prepare(context);
      }
      drawn := Render(renderObjects, pushes);
      overlay := NoOverlay;
      if isGameOver {
        overlay := GameOverOverlay;
      } else if paused {
        overlay := PauseOverlay;
      }
    }

    /**
     * RenderOneFrame. The real clock, key state and focus are the frame's inputs, the
     * easing and the context's Transform decision are parameters, and so is the
     * GameOver call the subclass hook makes, if any. The overlay is chosen after the
     * update, so a frame whose hook ends the game already shows the game-over overlay.
     * An exception out of the hook ends the frame: nothing is updated or drawn.
     */
    method RenderOneFrame(context: RenderContext, input: Input, ease: real -> real,
                          pushes: PropertyAccess.Properties -> bool, hookGameOver: Option<GameOverCall>)
      returns (outcome: Outcome, error: Option<string>, drawn: seq<Command>, overlay: Overlay)
      requires Valid()
      requires hookGameOver.Some? ==> CallOk(hookGameOver.value)
      modifies this, context, set r | r in resources.resources
      ensures Valid()
      ensures outcome == ClockStep(old(ClockState()), input).1
      ensures var c := ClockStep(old(ClockState()), input).0;
              var ended := outcome.Rendered? && outcome.advanced && hookGameOver.Some?;
              ClockState() == c.(gameOver := c.gameOver || ended)
      ensures outcome.Restarted? ==> initCalls == old(initCalls) + 1 && gameOverText.None? && drawn == []
      ensures outcome.Restarted? ==> renderObjects == old(renderObjects) && hookCalls == old(hookCalls)
      ensures error == if outcome.Rendered? && outcome.advanced then HookError(hookGameOver) else None
      ensures outcome.Rendered? && outcome.advanced ==>
                && hookCalls == old(hookCalls) + [(virtualTimestamp, outcome.elapsed)]
                && gameOverText == TextAfter(old(gameOverText), hookGameOver)
      ensures outcome.Rendered? && outcome.advanced && error.None? ==>
                var u := UpdateCollection(old(renderObjects), Frame(virtualTimestamp, input.pressed, ease),
                                          old(afterUpdate), old(invoked));
                renderObjects == u.0 && afterUpdate == [] && invoked == u.1.invoked
      ensures error.Some? || (outcome.Rendered? && !outcome.advanced) ==>
                renderObjects == old(renderObjects) && afterUpdate == old(afterUpdate) && invoked == old(invoked)
      ensures outcome.Rendered? && !outcome.advanced ==> hookCalls == old(hookCalls) && gameOverText == old(gameOverText)
      ensures error.Some? ==> drawn == [] && overlay == NoOverlay
      ensures outcome.Rendered? && error.None? ==> drawn == RenderLog(renderObjects, pushes)
      ensures outcome.Rendered? && error.None? ==> overlay == OverlayFor(isGameOver, outcome.paused)
      ensures outcome.Rendered? && outcome.advanced && hookGameOver.Some? && error.None? ==> overlay == GameOverOverlay
      ensures outcome.Rendered? && error.None? ==> forall r :: r in resources.resources ==> r.isPrepared
    {
      drawn, overlay := [], NoOverlay;
      outcome, error := StepFrame(input, ease, hookGameOver);
      if outcome.Rendered? && error.None? {
        drawn, overlay := DrawFrame(context, pushes, outcome.paused);
      }
    }
  }
}

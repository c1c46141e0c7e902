/** One playthrough of a level: the static geometry parsed at load time, the
    two characters, the shared gems and the completion state machine, with
    the restart transition and the frame that drives them. */
module LevelSession {
  import opened Geometry
  import opened LevelGrid
  import opened Physics

  /** Where a character is put when the level has no spawn marker for it. */
  const FIRE_FALLBACK: Vec := Vec(TILE_SIZE as real + 4.0, TILE_SIZE as real + 4.0)
  const WATER_FALLBACK: Vec := Vec(2.0 * TILE_SIZE as real + 8.0, TILE_SIZE as real + 4.0)

  /** A spawn the parse left at (0, 0) is replaced by the fallback. */
  function SpawnOrFallback(parsed: Vec, fallback: Vec): Vec
  {
    if parsed.x == 0.0 && parsed.y == 0.0 then fallback else parsed
  }

  /** A character spawns on its marker when the level has one, and at the
      fixed fallback position exactly when it has none. */
  lemma SpawnChoice(grid: seq<string>)
    ensures (!exists c :: IsCode(grid, c, {SpawnFire})) ==>
      SpawnOrFallback(Parsed(grid).fireSpawn, FIRE_FALLBACK) == Vec(36.0, 36.0)
    ensures (exists c :: IsCode(grid, c, {SpawnFire})) ==>
      exists c :: IsCode(grid, c, {SpawnFire}) && SpawnOrFallback(Parsed(grid).fireSpawn, FIRE_FALLBACK) == SpawnPoint(c)
    ensures (!exists c :: IsCode(grid, c, {SpawnWater})) ==>
      SpawnOrFallback(Parsed(grid).waterSpawn, WATER_FALLBACK) == Vec(72.0, 36.0)
    ensures (exists c :: IsCode(grid, c, {SpawnWater})) ==>
      exists c :: IsCode(grid, c, {SpawnWater}) && SpawnOrFallback(Parsed(grid).waterSpawn, WATER_FALLBACK) == SpawnPoint(c)
  {
    ParsedSpawns(grid);
  }

  /** A character is in its exit when the level has that exit and the
      character's body overlaps it; an absent exit is never reached. */
  function InExit(present: bool, exit: Rect, body: Rect): (r: bool)
    ensures r ==> present
    ensures present ==> (r <==> Overlaps(body, exit))
  {
    present && Overlaps(body, exit)
  }

  // ---------------------------------------------------------------------
  // Completion state machine
  // ---------------------------------------------------------------------

  /** One frame of the completion flag and its timer. */
  function Advance(complete: bool, timer: real, bothInExits: bool, dt: real): (r: (bool, real))
    ensures r.0 == (complete || bothInExits)
    ensures complete ==> r.1 == timer + dt
    ensures !complete && bothInExits ==> r.1 == dt
    ensures !r.0 ==> r.1 == timer
  {
    var (c, t) := if bothInExits && !complete then (true, 0.0) else (complete, timer);
    (c, if c then t + dt else t)
  }

  /** What the exit check sees in one frame. */
  datatype ExitSample = ExitSample(bothInExits: bool, dt: real)

  /** The completion state after a run of frames with no restart. */
  function Run(complete: bool, timer: real, frames: seq<ExitSample>): (bool, real)
    decreases |frames|
  {
    if |frames| == 0 then (complete, timer)
    else
      var next := Advance(complete, timer, frames[0].bothInExits, frames[0].dt);
      Run(next.0, next.1, frames[1..])
  }

  function TotalDt(frames: seq<ExitSample>): real
  {
    if |frames| == 0 then 0.0 else frames[0].dt + TotalDt(frames[1..])
  }

  /** Completion is sticky, and once complete the timer grows by each
      frame's dt. */
  lemma {:induction false} RunSticky(complete: bool, timer: real, frames: seq<ExitSample>)
    requires complete
    ensures Run(complete, timer, frames) == (true, timer + TotalDt(frames))
    decreases |frames|
  {
    if |frames| > 0 {
      RunSticky(true, timer + frames[0].dt, frames[1..]);
    }
  }

  /** The level completes only on a frame where both characters are in
      their exits. */
  lemma {:induction false} RunNeedsBoth(complete: bool, timer: real, frames: seq<ExitSample>)
    requires Run(complete, timer, frames).0
    ensures complete || exists i :: 0 <= i < |frames| && frames[i].bothInExits
    decreases |frames|
  {
    if |frames| > 0 && !complete && !frames[0].bothInExits {
      RunNeedsBoth(false, timer, frames[1..]);
      var i :| 0 <= i < |frames[1..]| && frames[1..][i].bothInExits;
      assert frames[i + 1].bothInExits;
    }
  }

  /** From the transition on, the timer holds the time spent complete: it
      restarts at zero on the transition frame and adds every dt after. */
  lemma RunFromTransition(timer: real, frames: seq<ExitSample>)
    requires |frames| > 0 && frames[0].bothInExits
    ensures Run(false, timer, frames) == (true, TotalDt(frames))
  {
    RunSticky(true, frames[0].dt, frames[1..]);
  }

  // ---------------------------------------------------------------------
  // The session
  // ---------------------------------------------------------------------

  class Session {
    const level: Level
    const fireSpawn: Vec
    const waterSpawn: Vec
    var gems: seq<Gem>
    var fireboy: Player
    var watergirl: Player
    var levelComplete: bool
    var finishTimer: real

    /** Spawns and body sizes never change, gems keep their place and colour
        and only their flag varies, and each character's counter is the
        number of collected gems of its colour. */
    ghost predicate Valid()
      reads this
    {
      && fireboy.spawn == fireSpawn && watergirl.spawn == waterSpawn
      && fireboy.rect.width == PLAYER_WIDTH && fireboy.rect.height == PLAYER_HEIGHT
      && watergirl.rect.width == PLAYER_WIDTH && watergirl.rect.height == PLAYER_HEIGHT
      && (forall i :: 0 <= i < |level.gems| ==> !level.gems[i].collected)
      && |gems| == |level.gems|
      && (forall i :: 0 <= i < |gems| ==> gems[i] == level.gems[i].(collected := gems[i].collected))
      && fireboy.gemsCollected == CollectedCount(gems, true)
      && watergirl.gemsCollected == CollectedCount(gems, false)
    }

    /** The state a level starts in and a restart returns to. */
    ghost predicate Initial()
      reads this
    {
      && fireboy == AtSpawn(fireSpawn)
      && watergirl == AtSpawn(waterSpawn)
      && gems == level.gems
      && !levelComplete
      && finishTimer == 0.0
    }

    /** Normalises the raw level in place, parses it, and places both
        characters at their spawns. */
    constructor (rawLevel: array<string>)
      requires rawLevel.Length > 0
      modifies rawLevel
      ensures rawLevel[..] == Normalized(old(rawLevel[..]))
      ensures level == Parsed(rawLevel[..])
      ensures fireSpawn == SpawnOrFallback(level.fireSpawn, FIRE_FALLBACK)
      ensures waterSpawn == SpawnOrFallback(level.waterSpawn, WATER_FALLBACK)
      ensures Valid() && Initial()
    {
      var maxCols := Normalize(rawLevel);
      NormalizedShape(old(rawLevel[..]));
      var lv := ParseLevel(rawLevel[..], maxCols);
      var fire := Player(Rect(lv.fireSpawn.x, lv.fireSpawn.y, PLAYER_WIDTH, PLAYER_HEIGHT),
                         Vec(0.0, 0.0), lv.fireSpawn, false, true, 0);
      var water := Player(Rect(lv.waterSpawn.x, lv.waterSpawn.y, PLAYER_WIDTH, PLAYER_HEIGHT),
                          Vec(0.0, 0.0), lv.waterSpawn, false, true, 0);
      if fire.spawn.x == 0.0 && fire.spawn.y == 0.0 {
        fire := fire.(spawn := FIRE_FALLBACK);
        fire := fire.(rect := fire.rect.(x := fire.spawn.x, y := fire.spawn.y));
      }
      if water.spawn.x == 0.0 && water.spawn.y == 0.0 {
        water := water.(spawn := WATER_FALLBACK);
        water := water.(rect := water.rect.(x := water.spawn.x, y := water.spawn.y));
      }
      level := lv;
      fireSpawn := fire.spawn;
      waterSpawn := water.spawn;
      gems := lv.gems;
      fireboy := fire;
      watergirl := water;
      levelComplete := false;
      finishTimer := 0.0;
      NoneCollected(lv.gems, true);
      NoneCollected(lv.gems, false);
    }

    /** The restart transition: total, whatever the state before it. */
    method Restart()
      requires Valid()
      modifies this
      ensures Valid() && Initial()
    {
      fireboy := fireboy.(rect := fireboy.rect.(x := fireboy.spawn.x, y := fireboy.spawn.y),
                          vel := Vec(0.0, 0.0), alive := true, onGround := false, gemsCollected := 0);
      watergirl := watergirl.(rect := watergirl.rect.(x := watergirl.spawn.x, y := watergirl.spawn.y),
                              vel := Vec(0.0, 0.0), alive := true, onGround := false, gemsCollected := 0);
      var gs := gems;
      for i := 0 to |gs|
        invariant |gs| == |level.gems|
        invariant forall j :: 0 <= j < i ==> gs[j] == level.gems[j]
        invariant forall j :: i <= j < |gs| ==> gs[j] == level.gems[j].(collected := gs[j].collected)
      {
        gs := gs[i := gs[i].(collected := false)];
      }
      gems := gs;
      levelComplete := false;
      finishTimer := 0.0;
      NoneCollected(gems, true);
      NoneCollected(gems, false);
    }

    /** One character's frame, in the source's order: respawn, steering,
        jump, gravity, the X pass, the Y pass, the hazard check (which ends
        the update with the character dead) and gem collection. A fire
        character dies in water, a water character in lava. */
    method UpdatePlayer(isFire: bool, input: Input, dt: real)
      requires Valid()
      modifies this
      ensures Valid()
      ensures var r := Step(if isFire then old(fireboy) else old(watergirl), isFire, input, dt,
                            level.solids, if isFire then level.waterTiles else level.lavaTiles, old(gems));
        (if isFire then fireboy else watergirl) == r.0 && gems == r.1
      ensures isFire ==> watergirl == old(watergirl)
      ensures !isFire ==> fireboy == old(fireboy)
      ensures levelComplete == old(levelComplete) && finishTimer == old(finishTimer)
    {
      var p, gs := StepPlayer(if isFire then fireboy else watergirl, isFire, input, dt, level.solids,
                              if isFire then level.waterTiles else level.lavaTiles, gems);
      gems := gs;
      if isFire {
        fireboy := p;
      } else {
        watergirl := p;
      }
    }

    /** Both characters are in their own present exits. */
    function BothInExits(): bool
      reads this
    {
      InExit(level.hasExitRed, level.exitRed, fireboy.rect) &&
      InExit(level.hasExitBlue, level.exitBlue, watergirl.rect)
    }

    /** The exit check and the completion state machine of one frame. */
    method CheckExits(dt: real)
      modifies this`levelComplete, this`finishTimer
      ensures (levelComplete, finishTimer) == Advance(old(levelComplete), old(finishTimer), BothInExits(), dt)
    {
      var fireInExit, waterInExit := false, false;
      if level.hasExitRed {
        if Overlaps(fireboy.rect, level.exitRed) {
          fireInExit := true;
        }
      }
      if level.hasExitBlue {
        if Overlaps(watergirl.rect, level.exitBlue) {
          waterInExit := true;
        }
      }
      if fireInExit && waterInExit {
        if !levelComplete {
          levelComplete := true;
          finishTimer := 0.0;
        }
      }
      if levelComplete {
        finishTimer := finishTimer + dt;
      }
    }

    /** One frame of the session: clamp the frame time, restart if asked,
        update the fire character and then the water character, then check
        the exits. */
    method Frame(frameTime: real, restartPressed: bool, fireInput: Input, waterInput: Input)
      requires Valid()
      modifies this
      ensures Valid()
      ensures var dt := ClampDt(frameTime);
        var f0 := if restartPressed then AtSpawn(fireSpawn) else old(fireboy);
        var w0 := if restartPressed then AtSpawn(waterSpawn) else old(watergirl);
        var g0 := if restartPressed then level.gems else old(gems);
        var c0 := !restartPressed && old(levelComplete);
        var t0 := if restartPressed then 0.0 else old(finishTimer);
        var f1 := Step(f0, true, fireInput, dt, level.solids, level.waterTiles, g0);
        var w1 := Step(w0, false, waterInput, dt, level.solids, level.lavaTiles, f1.1);
        && fireboy == f1.0 && watergirl == w1.0 && gems == w1.1
        && (levelComplete, finishTimer) == Advance(c0, t0, BothInExits(), dt)
      ensures old(levelComplete) && !restartPressed ==> levelComplete
      ensures levelComplete && !old(levelComplete) ==> BothInExits()
    {
      var dt := ClampDt(frameTime);
      if restartPressed {
        Restart();
      }
      UpdatePlayer(true, fireInput, dt);
      UpdatePlayer(false, waterInput, dt);
      CheckExits(dt);
    }
  }
}

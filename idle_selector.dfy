/** The idle-sprite selector of the player (`Game_Player#update_idle_logic`
    and the three sheet switches it calls). After a few still frames the
    player shows its standing sheet; after IDLE_TIMER_FRAMES still frames it
    shows an idle sheet chosen by weather and map temperature; moving or
    pressing a direction returns it to its movement sheet. */
module IdleSelector {
  import opened Text
  import opened Wrappers
  import opened SpriteNames
  import opened StepAnimation
  import opened MovementSpeed

  /** Still frames before the idle sheet is shown. */
  const IDLE_TIMER_FRAMES := 1800
  /** Still frames the standing sheet waits for: it is shown from the frame
      after this many on. */
  const STAND_DELAY := 8
  /** Factor the frame time is divided by while a slowed sheet is shown. */
  const IDLE_ANIMATION_SPEED: real := 0.5

  /** Everything the selector reads and writes on the player: the sheet name,
      the shown-sheet marker, the still-frame timer, last frame's movement and
      direction input, the step-animation flag, the frame time and the frame
      time saved for restoring. */
  datatype PlayerState = PlayerState(
    name: string,
    currentSprite: string,
    idleTimer: int,
    wasMoving: bool,
    lastDirection: int,
    stepAnime: bool,
    moveTime: real,
    originalMoveTime: Option<real>)

  /** What the selector reads from the rest of the game: message window and
      menu state, vehicle flags, the weather's category, the map's TempCold
      and TempHot flags, and the sheet files that exist. */
  datatype Env = Env(
    messageShowing: bool,
    inMenu: bool,
    surfing: bool,
    diving: bool,
    bicycle: bool,
    weather: WeatherCategory,
    tempCold: bool,
    tempHot: bool,
    assets: set<string>)

  /** Slows the animation of a newly shown sheet, saving the frame time to
      restore; a frame time already saved is kept. */
  function SlowDown(s: PlayerState): (r: PlayerState)
    ensures r.originalMoveTime.Some?
    ensures s.originalMoveTime.None? ==>
              r == s.(originalMoveTime := Some(s.moveTime), moveTime := 2.0 * s.moveTime)
    ensures s.originalMoveTime.Some? ==> r == s
  {
    if IDLE_ANIMATION_SPEED != 1.0 && s.originalMoveTime.None? then
      s.(originalMoveTime := Some(s.moveTime), moveTime := s.moveTime / IDLE_ANIMATION_SPEED)
    else s
  }

  /** `switch_to_normal_sprite`: outside menus, strip idle and standing tags
      from a non-empty name, resetting the sprite state when a tag was
      stripped, and restore any saved frame time. */
  function NormalSprite(s: PlayerState, inMenu: bool): (r: PlayerState)
    ensures s.name == "" || inMenu ==> r == s
    ensures s.name != "" && !inMenu ==>
              && r.name == NormalName(s.name)
              && r.originalMoveTime == None
              && r.moveTime == (if s.originalMoveTime.Some? then s.originalMoveTime.value else s.moveTime)
              && (RevertsTag(s.name) ==> r.currentSprite == "" && !r.stepAnime && r.idleTimer == 0)
              && (!RevertsTag(s.name) ==>
                    r.currentSprite == s.currentSprite && r.stepAnime == s.stepAnime && r.idleTimer == s.idleTimer)
              && r.wasMoving == s.wasMoving && r.lastDirection == s.lastDirection
  {
    if s.name == "" || inMenu then s
    else
      var afterIdle :=
        if Contains(s.name, IDLE) then
          s.(name := StripEach(s.name, STRIP_ORDER), currentSprite := "", stepAnime := false, idleTimer := 0)
        else s;
      var afterStand :=
        if Contains(afterIdle.name, STAND) then
          afterIdle.(name := Gsub(afterIdle.name, STAND), currentSprite := "", stepAnime := false, idleTimer := 0)
        else afterIdle;
      if afterStand.originalMoveTime.Some? then
        afterStand.(moveTime := afterStand.originalMoveTime.value, originalMoveTime := None)
      else afterStand
  }

  /** `switch_to_stand_sprite`: when the name has no "_stand" yet and its
      standing sheet exists, show it, stop stepping and slow the animation. */
  function StandSprite(s: PlayerState, assets: set<string>): (r: PlayerState)
    ensures s.name == "" || Contains(s.name, STAND) || SheetPath(s.name + STAND) !in assets ==> r == s
    ensures s.name != "" && !Contains(s.name, STAND) && SheetPath(s.name + STAND) in assets ==>
              && r.name == s.name + STAND && r.currentSprite == STAND && !r.stepAnime
              && r.idleTimer == s.idleTimer && r.wasMoving == s.wasMoving && r.lastDirection == s.lastDirection
              && r.originalMoveTime == (if s.originalMoveTime.Some? then s.originalMoveTime else Some(s.moveTime))
              && r.moveTime == (if s.originalMoveTime.Some? then s.moveTime else 2.0 * s.moveTime)
  {
    if s.name == "" || Contains(s.name, STAND) then s
    else if SheetPath(s.name + STAND) in assets then
      SlowDown(s.(name := s.name + STAND, currentSprite := STAND, stepAnime := false))
    else s
  }

  /** The name `switch_to_idle_sprite` builds on: without "_stand". */
  function Unstood(name: string): string
  {
    if Contains(name, STAND) then Gsub(name, STAND) else name
  }

  /** Whether `switch_to_idle_sprite` goes past its guards. */
  predicate IdleAllowed(s: PlayerState, env: Env)
  {
    s.name != "" && !Contains(s.name, IDLE) && !(env.surfing || env.diving || env.bicycle)
  }

  /** `switch_to_idle_sprite`: off vehicles and on a name without "_idle",
      drop "_stand" from the name, then show the idle sheet of the family the
      weather selects if it exists; otherwise, if the generic idle file
      exists, append "_idle" and slow the animation; otherwise keep the name
      without "_stand" and leave everything else as it was. */
  function IdleSprite(s: PlayerState, env: Env): (r: PlayerState)
    ensures !IdleAllowed(s, env) ==> r == s
    ensures IdleAllowed(s, env) ==>
              var base, tag := Unstood(s.name), IdleKindFor(env.weather, env.tempCold, env.tempHot).Tag();
              && r.idleTimer == s.idleTimer && r.wasMoving == s.wasMoving && r.lastDirection == s.lastDirection
              && (SheetPath(base + tag) in env.assets ==>
                    r == s.(name := base + tag, currentSprite := IDLE, stepAnime := true))
              && (SheetPath(base + tag) !in env.assets && GENERIC_IDLE_PATH in env.assets ==>
                    r == SlowDown(s.(name := base + IDLE, currentSprite := IDLE, stepAnime := true)))
              && (SheetPath(base + tag) !in env.assets && GENERIC_IDLE_PATH !in env.assets ==>
                    r == s.(name := base))
  {
    if s.name == "" || Contains(s.name, IDLE) then s
    else if env.surfing || env.diving || env.bicycle then s
    else
      var base := Unstood(s.name);
      var idleName := base + IdleKindFor(env.weather, env.tempCold, env.tempHot).Tag();
      if SheetPath(idleName) in env.assets then
        s.(name := idleName, currentSprite := IDLE, stepAnime := true)
      else if GENERIC_IDLE_PATH in env.assets then
        SlowDown(s.(name := base + IDLE, currentSprite := IDLE, stepAnime := true))
      else s.(name := base)
  }

  /** The first block of `update_idle_logic`: remember this frame's movement
      and input; starting to move or turning while moving clears the timer
      (and returns to the movement sheet when another is shown); every still
      frame counts. */
  function TrackInput(s: PlayerState, isMoving: bool, input: int, inMenu: bool): (r: PlayerState)
    ensures r.wasMoving == isMoving && r.lastDirection == input
    ensures !isMoving ==> r == s.(wasMoving := isMoving, lastDirection := input, idleTimer := s.idleTimer + 1)
    ensures isMoving && (s.wasMoving != isMoving || s.lastDirection != input) ==> r.idleTimer == 0
    ensures isMoving && s.wasMoving == isMoving && s.lastDirection == input ==> r == s
  {
    if isMoving != s.wasMoving || input != s.lastDirection then
      var t := s.(wasMoving := isMoving, lastDirection := input);
      if isMoving then
        var u := t.(idleTimer := 0);
        if u.currentSprite != "" then NormalSprite(u, inMenu) else u
      else t.(idleTimer := t.idleTimer + 1)
    else if !isMoving then s.(idleTimer := s.idleTimer + 1)
    else s
  }

  /** The second block: standing still with no input, the standing sheet is
      shown strictly between STAND_DELAY and IDLE_TIMER_FRAMES still frames,
      and the idle sheet from IDLE_TIMER_FRAMES on unless a message shows. */
  function ApplyThresholds(s: PlayerState, env: Env, isMoving: bool, input: int): (r: PlayerState)
    ensures isMoving || input != 0 ==> r == s
    ensures !isMoving && input == 0 && s.idleTimer <= STAND_DELAY ==> r == s
    ensures !isMoving && input == 0 && STAND_DELAY < s.idleTimer < IDLE_TIMER_FRAMES ==> r == StandSprite(s, env.assets)
    ensures !isMoving && input == 0 && IDLE_TIMER_FRAMES <= s.idleTimer ==>
              r == if env.messageShowing then s else IdleSprite(s, env)
  {
    if !isMoving && input == 0 then
      var t := if s.idleTimer < IDLE_TIMER_FRAMES && s.idleTimer > STAND_DELAY then StandSprite(s, env.assets) else s;
      if t.idleTimer >= IDLE_TIMER_FRAMES && !env.messageShowing then IdleSprite(t, env) else t
    else s
  }

  /** `update_idle_logic`: one frame of the selector. */
  function IdleTick(s: PlayerState, env: Env, isMoving: bool, input: int): (r: PlayerState)
    ensures s.name == "" ==> r == s
    ensures s.name != "" ==> r.wasMoving == isMoving && r.lastDirection == input
    // starting to move or turning while moving clears the timer
    ensures s.name != "" && isMoving && (isMoving != s.wasMoving || input != s.lastDirection) ==> r.idleTimer == 0
    // a still frame counts, unless a key press returns to the movement sheet
    ensures s.name != "" && !isMoving ==> r.idleTimer == s.idleTimer + 1 || (input != 0 && r.idleTimer == 0)
    // in a menu, a held direction changes neither the sheet nor the speed
    ensures s.name != "" && env.inMenu && input != 0 ==>
              r.name == s.name && r.currentSprite == s.currentSprite && r.moveTime == s.moveTime
    // a still frame without input counts; the thresholds do not touch the timer
    ensures s.name != "" && !isMoving && input == 0 ==> r.idleTimer == s.idleTimer + 1
    // up to the stand delay nothing but the bookkeeping changes
    ensures s.name != "" && !isMoving && input == 0 && s.idleTimer < STAND_DELAY ==>
              r == s.(wasMoving := false, lastDirection := 0, idleTimer := s.idleTimer + 1)
  {
    if s.name == "" then s
    else
      var t := TrackInput(s, isMoving, input, env.inMenu);
      var u := ApplyThresholds(t, env, isMoving, input);
      if u.currentSprite != "" && input != 0 && !env.messageShowing then NormalSprite(u, env.inMenu) else u
  }

  /** The selector's invariant for a player whose movement sheet is `base`:
      the name is the movement sheet (marked as normal or, after a failed
      idle switch, as standing), its standing sheet (slowed) or one of its
      idle sheets (after IDLE_TIMER_FRAMES still frames); the timer is not
      negative; and a saved frame time is the one the shown time was slowed
      from. */
  predicate Tracks(s: PlayerState, base: string)
  {
    && PlainName(base)
    && 0 <= s.idleTimer
    && (s.originalMoveTime.Some? ==> s.moveTime == s.originalMoveTime.value / IDLE_ANIMATION_SPEED)
    && (|| (s.name == base && (s.currentSprite == "" || s.currentSprite == STAND))
        || (s.name == base + STAND && s.currentSprite == STAND && s.originalMoveTime.Some?)
        || (IsIdleSheetOf(s.name, base) && s.currentSprite == IDLE && IDLE_TIMER_FRAMES <= s.idleTimer))
  }

  /** The name is base followed by one of the six idle tags. */
  predicate IsIdleSheetOf(name: string, base: string)
  {
    exists k: IdleKind :: name == base + k.Tag()
  }

  /** Returning to the movement sheet from any sheet of `base` gives `base`
      with the unslowed frame time, and clears the marker unless it was left
      over from a failed idle switch. */
  lemma NormalFromTracked(s: PlayerState, base: string)
    requires PlainName(base) && s.name != ""
    requires s.originalMoveTime.Some? ==> s.moveTime == s.originalMoveTime.value / IDLE_ANIMATION_SPEED
    requires || (s.name == base && (s.currentSprite == "" || s.currentSprite == STAND))
             || (s.name == base + STAND && s.currentSprite == STAND)
             || (IsIdleSheetOf(s.name, base) && s.currentSprite == IDLE)
    ensures var r := NormalSprite(s, false);
            && r.name == base && r.originalMoveTime == None
            && r.moveTime == (if s.originalMoveTime.Some? then s.originalMoveTime.value else s.moveTime)
            && (s.name != base ==> r.currentSprite == "" && r.idleTimer == 0 && !r.stepAnime)
            && (s.name == base ==> r.currentSprite == s.currentSprite && r.idleTimer == s.idleTimer)
  {
    if s.name == base {
      RevertPlain(base);
    } else if s.name == base + STAND {
      RevertStand(base);
    } else {
      var k: IdleKind :| s.name == base + k.Tag();
      RevertIdleTag(base, k);
    }
  }

  /** The standing switch keeps the invariant for a name that is not idle. */
  lemma StandKeepsTracks(s: PlayerState, base: string, assets: set<string>)
    requires Tracks(s, base) && s.idleTimer < IDLE_TIMER_FRAMES
    ensures Tracks(StandSprite(s, assets), base)
  {
    assert StartsWith(STAND, STAND);
    ContainsInRight(base, STAND, STAND);
  }

  /** The idle switch builds on `base` from both `base` and its standing sheet. */
  lemma UnstoodBase(base: string)
    requires !Contains(base, STAND)
    ensures Contains(base + STAND, STAND)
    ensures Unstood(base) == base && Unstood(base + STAND) == base
  {
    StandChars();
    assert StartsWith(STAND, STAND);
    ContainsInRight(base, STAND, STAND);
    CompletesOnlyAt(STAND, STAND, 0);
    GsubAppended(base, STAND);
  }

  /** Dropping "_stand" from a tracked, non-idle name gives `base`. */
  lemma UnstoodTracked(s: PlayerState, base: string)
    requires Tracks(s, base) && !IsIdleSheetOf(s.name, base)
    ensures Unstood(s.name) == base
  {
    UnstoodBase(base);
  }

  /** An idle name contains "_idle", so the idle switch leaves it alone. */
  lemma IdleSheetHasIdle(name: string, base: string)
    requires IsIdleSheetOf(name, base)
    ensures Contains(name, IDLE)
  {
    var k: IdleKind :| name == base + k.Tag();
    TagFacts(k);
    ContainsInRight(base, k.Tag(), IDLE);
  }

  /** The idle switch keeps the invariant once the timer has reached
      IDLE_TIMER_FRAMES. */
  lemma IdleKeepsTracks(s: PlayerState, base: string, env: Env)
    requires Tracks(s, base) && IDLE_TIMER_FRAMES <= s.idleTimer
    ensures Tracks(IdleSprite(s, env), base)
  {
    if IsIdleSheetOf(s.name, base) {
      IdleSheetHasIdle(s.name, base);
    } else if IdleAllowed(s, env) {
      UnstoodTracked(s, base);
      var k := IdleKindFor(env.weather, env.tempCold, env.tempHot);
      var r := IdleSprite(s, env);
      if SheetPath(base + k.Tag()) in env.assets {
        assert r.name == base + k.Tag();
      } else if GENERIC_IDLE_PATH in env.assets {
        assert r.name == base + PlainIdle.Tag();
      }
    }
  }

  /** Outside menus, one frame of the selector keeps the invariant. */
  lemma IdleTickKeepsTracks(s: PlayerState, base: string, env: Env, isMoving: bool, input: int)
    requires Tracks(s, base) && !env.inMenu
    ensures Tracks(IdleTick(s, env, isMoving, input), base)
  {
    if s.name != "" {
      var t := TrackInput(s, isMoving, input, env.inMenu);
      TrackInputKeepsTracks(s, base, isMoving, input);
      var u := ApplyThresholds(t, env, isMoving, input);
      if !isMoving && input == 0 {
        if STAND_DELAY < t.idleTimer < IDLE_TIMER_FRAMES {
          if IsIdleSheetOf(t.name, base) {
            assert false;
          }
          StandKeepsTracks(t, base, env.assets);
        } else if IDLE_TIMER_FRAMES <= t.idleTimer && !env.messageShowing {
          IdleKeepsTracks(t, base, env);
        }
      }
      assert Tracks(u, base);
      if u.name != "" && u.currentSprite != "" && input != 0 && !env.messageShowing {
        NormalFromTracked(u, base);
      }
    }
  }

  /** The first block keeps the invariant outside menus. */
  lemma TrackInputKeepsTracks(s: PlayerState, base: string, isMoving: bool, input: int)
    requires Tracks(s, base) && s.name != ""
    ensures Tracks(TrackInput(s, isMoving, input, false), base)
  {
    if isMoving && (s.wasMoving != isMoving || s.lastDirection != input) {
      var u := s.(wasMoving := isMoving, lastDirection := input, idleTimer := 0);
      if u.currentSprite != "" {
        NormalFromTracked(u, base);
      } else if IsIdleSheetOf(s.name, base) {
        assert false;
      }
    }
  }

  /** Standing and then returning to the movement sheet gives back the
      name, the unslowed frame time and a cleared sprite state. */
  lemma StandThenNormal(s: PlayerState, assets: set<string>)
    requires s.name != "" && !Contains(s.name, STAND) && !Contains(s.name, IDLE)
    requires SheetPath(s.name + STAND) in assets && s.originalMoveTime == None
    ensures var r := NormalSprite(StandSprite(s, assets), false);
            && r.name == s.name && r.moveTime == s.moveTime && r.originalMoveTime == None
            && r.currentSprite == "" && !r.stepAnime && r.idleTimer == 0
  {
    RevertStand(s.name);
  }

  /** Going idle from the movement or the standing sheet of a plain name and
      then returning gives back the plain name and the frame time it had
      before any slowing; the weather's own idle sheet is not slowed. */
  lemma IdleThenNormal(s: PlayerState, base: string, env: Env)
    requires PlainName(base) && base != "" && (s.name == base || s.name == base + STAND)
    requires !(env.surfing || env.diving || env.bicycle)
    requires s.originalMoveTime.Some? ==> s.moveTime == s.originalMoveTime.value / IDLE_ANIMATION_SPEED
    ensures var k := IdleKindFor(env.weather, env.tempCold, env.tempHot);
            var i := IdleSprite(s, env);
            var r := NormalSprite(i, false);
            && (SheetPath(base + k.Tag()) in env.assets ==> i.name == base + k.Tag() && i.moveTime == s.moveTime)
            && (SheetPath(base + k.Tag()) !in env.assets && GENERIC_IDLE_PATH in env.assets ==>
                  i.name == base + IDLE && i.originalMoveTime.Some?)
            && r.name == base && r.originalMoveTime == None
            && r.moveTime == (if s.originalMoveTime.Some? then s.originalMoveTime.value else s.moveTime)
  {
    StandChars();
    IdleChars();
    if s.name == base + STAND {
      StandHasNoIdle(base);
    }
    UnstoodBase(base);
    var k := IdleKindFor(env.weather, env.tempCold, env.tempHot);
    var i := IdleSprite(s, env);
    if SheetPath(base + k.Tag()) in env.assets {
      RevertIdleTag(base, k);
    } else if GENERIC_IDLE_PATH in env.assets {
      assert i.name == base + PlainIdle.Tag();
      RevertIdleTag(base, PlainIdle);
    } else {
      RevertPlain(base);
    }
  }

  /** When neither idle file exists, the idle switch from the standing sheet
      still drops "_stand" from the name but leaves the marker saying the
      standing sheet is shown, with the animation still slowed. */
  lemma FailedIdleKeepsStandMarker(s: PlayerState, base: string, env: Env)
    requires !Contains(base, STAND) && !Contains(base, IDLE)
    requires s.name == base + STAND && s.currentSprite == STAND
    requires !(env.surfing || env.diving || env.bicycle)
    requires SheetPath(base + IdleKindFor(env.weather, env.tempCold, env.tempHot).Tag()) !in env.assets
    requires GENERIC_IDLE_PATH !in env.assets
    ensures var r := IdleSprite(s, env);
            r.name == base && r.currentSprite == STAND && r.moveTime == s.moveTime
            && r.originalMoveTime == s.originalMoveTime
  {
    StandHasNoIdle(base);
    UnstoodBase(base);
  }

  /** The generic fallback checks only the fixed file "_idle.png", so it can
      switch a non-empty name to an idle sheet whose own file does not exist. */
  lemma FallbackSheetUnchecked(s: PlayerState, env: Env)
    requires s.name != "" && !Contains(s.name, STAND) && !Contains(s.name, IDLE)
    requires !(env.surfing || env.diving || env.bicycle)
    requires env.assets == {GENERIC_IDLE_PATH}
    ensures var r := IdleSprite(s, env);
            r.name == s.name + IDLE && r.currentSprite == IDLE && SheetPath(r.name) !in env.assets
  {
    var k := IdleKindFor(env.weather, env.tempCold, env.tempHot);
    assert |SheetPath(s.name + k.Tag())| > |GENERIC_IDLE_PATH|;
    assert |SheetPath(s.name + IDLE)| > |GENERIC_IDLE_PATH|;
  }

  /** A still player on its movement sheet, on the frame after STAND_DELAY
      still frames, shows its standing sheet if it exists. */
  lemma StandAfterDelay(s: PlayerState, env: Env)
    requires s.name != "" && !Contains(s.name, STAND) && !Contains(s.name, IDLE)
    requires s.idleTimer == STAND_DELAY && SheetPath(s.name + STAND) in env.assets
    ensures var r := IdleTick(s, env, false, 0);
            r.name == s.name + STAND && r.currentSprite == STAND && r.idleTimer == STAND_DELAY + 1
  {
  }

  /** At IDLE_TIMER_FRAMES still frames the standing sheet gives way to the
      idle sheet of the weather's family, when no message shows and the
      sheet exists. */
  lemma IdleAtThreshold(s: PlayerState, base: string, env: Env)
    requires !Contains(base, STAND) && !Contains(base, IDLE)
    requires s.name == base + STAND && s.idleTimer == IDLE_TIMER_FRAMES - 1
    requires !env.messageShowing && !(env.surfing || env.diving || env.bicycle)
    requires SheetPath(base + IdleKindFor(env.weather, env.tempCold, env.tempHot).Tag()) in env.assets
    ensures var r := IdleTick(s, env, false, 0);
            r.name == base + IdleKindFor(env.weather, env.tempCold, env.tempHot).Tag()
            && r.currentSprite == IDLE && r.stepAnime && r.idleTimer == IDLE_TIMER_FRAMES
  {
    StandHasNoIdle(base);
    UnstoodBase(base);
  }

  /** Outside menus and message windows, pressing a direction while another
      sheet shows returns the player to its movement sheet at its unslowed
      speed. */
  lemma KeyPressRestores(s: PlayerState, base: string, env: Env, isMoving: bool, input: int)
    requires Tracks(s, base) && s.name != "" && s.currentSprite != ""
    requires input != 0 && !env.messageShowing && !env.inMenu
    ensures var r := IdleTick(s, env, isMoving, input);
            r.name == base && r.originalMoveTime == None
  {
    var t := TrackInput(s, isMoving, input, false);
    TrackInputKeepsTracks(s, base, isMoving, input);
    if t.name != "" && t.currentSprite != "" {
      NormalFromTracked(t, base);
    }
  }

  /** Starting to move (or turning while moving) outside menus clears the
      timer and returns the player to its movement sheet. */
  lemma MovingRestores(s: PlayerState, base: string, env: Env, input: int)
    requires Tracks(s, base) && s.name != "" && !env.inMenu
    requires !s.wasMoving || s.lastDirection != input
    ensures var r := IdleTick(s, env, true, input);
            r.name == base && r.idleTimer == 0
  {
    var u := s.(wasMoving := true, lastDirection := input, idleTimer := 0);
    if u.currentSprite != "" {
      NormalFromTracked(u, base);
      var t := NormalSprite(u, false);
      if t.name != "" && t.currentSprite != "" && input != 0 && !env.messageShowing {
        NormalFromTracked(t, base);
      }
    }
  }

  /** The idle-selector part of `Game_Player`; the map-character part it
      extends is `character`. */
  class Player {
    const character: Character
    var currentSprite: string
    var idleTimer: int
    var wasMoving: bool
    var lastDirection: int
    var originalMoveTime: Option<real>
    var bumping: bool

    /** The selector's fields start cleared on a new player. */
    constructor(character: Character)
      ensures this.character == character
      ensures currentSprite == "" && idleTimer == 0 && !wasMoving && lastDirection == 0 && originalMoveTime == None
    {
      this.character := character;
      currentSprite := "";
      idleTimer := 0;
      wasMoving := false;
      lastDirection := 0;
      originalMoveTime := None;
    }

    function State(): PlayerState
      reads this, character
    {
      PlayerState(character.characterName, currentSprite, idleTimer, wasMoving, lastDirection,
                  character.stepAnime, character.moveTime, originalMoveTime)
    }

    /** The six `gsub` lines of `switch_to_normal_sprite`: each idle tag, in
        turn, is cut out of the name if the name still includes it. */
    static method StripIdleTags(name: string) returns (r: string)
      ensures r == StripEach(name, STRIP_ORDER)
    {
      r := name;
      if Contains(r, RainIdle.Tag()) { r := Gsub(r, RainIdle.Tag()); }
      ghost var n1 := r;
      if Contains(r, SandstormIdle.Tag()) { r := Gsub(r, SandstormIdle.Tag()); }
      ghost var n2 := r;
      if Contains(r, ColdIdle.Tag()) { r := Gsub(r, ColdIdle.Tag()); }
      ghost var n3 := r;
      if Contains(r, HotIdle.Tag()) { r := Gsub(r, HotIdle.Tag()); }
      ghost var n4 := r;
      if Contains(r, WindIdle.Tag()) { r := Gsub(r, WindIdle.Tag()); }
      ghost var n5 := r;
      assert PlainIdle.Tag() == IDLE;
      if Contains(r, IDLE) { r := Gsub(r, IDLE); }
      assert StripEach(n5, STRIP_ORDER[5..]) == r;
      assert StripEach(n4, STRIP_ORDER[4..]) == StripEach(n5, STRIP_ORDER[5..]);
      assert StripEach(n3, STRIP_ORDER[3..]) == StripEach(n4, STRIP_ORDER[4..]);
      assert StripEach(n2, STRIP_ORDER[2..]) == StripEach(n3, STRIP_ORDER[3..]);
      assert StripEach(n1, STRIP_ORDER[1..]) == StripEach(n2, STRIP_ORDER[2..]);
    }

    /** `switch_to_normal_sprite` */
    method SwitchToNormalSprite(inMenu: bool)
      modifies this`currentSprite, this`idleTimer, this`wasMoving, this`lastDirection, this`originalMoveTime
      modifies character`characterName, character`stepAnime, character`moveTime
      ensures State() == NormalSprite(old(State()), inMenu)
    {
      if character.characterName == "" || inMenu {
        return;
      }
      if Contains(character.characterName, IDLE) {
        var name := StripIdleTags(character.characterName);
        character.characterName := name;
        currentSprite := "";
        character.stepAnime := false;
        idleTimer := 0;
      }
      if Contains(character.characterName, STAND) {
        character.characterName := Gsub(character.characterName, STAND);
        currentSprite := "";
        character.stepAnime := false;
        idleTimer := 0;
      }
      if originalMoveTime.Some? {
        character.moveTime := originalMoveTime.value;
        originalMoveTime := None;
      }
    }

    /** Saves the frame time and slows the animation, unless a frame time is
        saved already. */
    method SlowAnimation()
      modifies this`originalMoveTime, character`moveTime
      ensures State() == SlowDown(old(State()))
    {
      if IDLE_ANIMATION_SPEED != 1.0 && originalMoveTime.None? {
        originalMoveTime := Some(character.moveTime);
        character.moveTime := character.moveTime / IDLE_ANIMATION_SPEED;
      }
    }

    /** `switch_to_stand_sprite`; the sheet files that exist are passed in. */
    method SwitchToStandSprite(assets: set<string>)
      modifies this`currentSprite, this`idleTimer, this`wasMoving, this`lastDirection, this`originalMoveTime
      modifies character`characterName, character`stepAnime, character`moveTime
      ensures State() == StandSprite(old(State()), assets)
    {
      if character.characterName == "" || Contains(character.characterName, STAND) {
        return;
      }
      var idleName := character.characterName + STAND;
      if SheetPath(idleName) in assets {
        character.characterName := idleName;
        currentSprite := STAND;
        character.stepAnime := false;
        SlowAnimation();
      }
    }

    /** `switch_to_idle_sprite` */
    method SwitchToIdleSprite(env: Env)
      modifies this`currentSprite, this`idleTimer, this`wasMoving, this`lastDirection, this`originalMoveTime
      modifies character`characterName, character`stepAnime, character`moveTime
      ensures State() == IdleSprite(old(State()), env)
    {
      if character.characterName == "" || Contains(character.characterName, IDLE) {
        return;
      }
      if env.surfing || env.diving || env.bicycle {
        return;
      }
      if Contains(character.characterName, STAND) {
        character.characterName := Gsub(character.characterName, STAND);
      }
      var idleType := IdleKindFor(env.weather, env.tempCold, env.tempHot).Tag();
      var idleName := character.characterName + idleType;
      if SheetPath(idleName) in env.assets {
        character.characterName := idleName;
        currentSprite := IDLE;
        character.stepAnime := true;
      } else if GENERIC_IDLE_PATH in env.assets {
        character.characterName := character.characterName + IDLE;
        currentSprite := IDLE;
        character.stepAnime := true;
        SlowAnimation();
      }
    }

    /** `update_idle_logic`: this frame's movement (`moving?`) and direction
        input (`Input.dir4`) are passed in. */
    method UpdateIdleLogic(env: Env, isMoving: bool, input: int)
      modifies this`currentSprite, this`idleTimer, this`wasMoving, this`lastDirection, this`originalMoveTime
      modifies character`characterName, character`stepAnime, character`moveTime
      ensures State() == IdleTick(old(State()), env, isMoving, input)
    {
      if character.characterName == "" {
        return;
      }
      ghost var start := State();
      if isMoving != wasMoving || input != lastDirection {
        wasMoving := isMoving;
        lastDirection := input;
        if isMoving {
          idleTimer := 0;
          if currentSprite != "" {
            SwitchToNormalSprite(env.inMenu);
          }
        } else {
          idleTimer := idleTimer + 1;
        }
      } else if !isMoving {
        idleTimer := idleTimer + 1;
      }
      ghost var tracked := State();
      assert tracked == TrackInput(start, isMoving, input, env.inMenu);
      if !isMoving && input == 0 {
        if idleTimer < IDLE_TIMER_FRAMES && idleTimer > STAND_DELAY {
          SwitchToStandSprite(env.assets);
        }
        if idleTimer >= IDLE_TIMER_FRAMES && !env.messageShowing {
          SwitchToIdleSprite(env);
        }
      }
      assert State() == ApplyThresholds(tracked, env, isMoving, input);
      if currentSprite != "" && input != 0 && !env.messageShowing {
        SwitchToNormalSprite(env.inMenu);
      }
    }
  
    /** `set_movement_type`: sets the move speed for the movement type (see
        `SpeedFor`) and switches to the type's charset when the player's
        metadata names one; `charsets` holds the charsets it names. */
    method SetMovementType(t: MovementType, charsets: map<CharsetKind, string>)
      modifies character`moveSpeed, character`characterName
      ensures character.moveSpeed == SpeedFor(t, character.moveRouteForcing, bumping, old(character.moveSpeed))
      ensures character.characterName ==
                if CharsetFor(t) in charsets then charsets[CharsetFor(t)] else old(character.characterName)
    {
      var kind: CharsetKind;
      match t {
        case Fishing =>
          kind := FishCharset;
        case SurfFishing =>
          kind := SurfFishCharset;
        case Diving | DivingFast | DivingJumping | DivingStopped =>
          if !character.moveRouteForcing { character.moveSpeed := 3; }
          kind := DiveCharset;
        case Surfing | SurfingFast | SurfingJumping | SurfingStopped =>
          if !character.moveRouteForcing { character.moveSpeed := if t == SurfingJumping then 3 else 4; }
          kind := SurfCharset;
        case DescendingWaterfall | AscendingWaterfall =>
          if !character.moveRouteForcing { character.moveSpeed := 2; }
          kind := SurfCharset;
        case Cycling | CyclingFast | CyclingJumping | CyclingStopped =>
          if !character.moveRouteForcing { character.moveSpeed := if t == CyclingJumping then 3 else 5; }
          kind := CycleCharset;
        case Running =>
          if !character.moveRouteForcing { character.moveSpeed := 4; }
          kind := RunCharset;
        case IceSliding =>
          if !character.moveRouteForcing { character.moveSpeed := 4; }
          kind := SlideCharset;
        case _ =>
          if !character.moveRouteForcing { character.moveSpeed := 3; }
          kind := WalkCharset;
      }
      if bumping {
        character.moveSpeed := 3;
      }
      if kind in charsets {
        character.characterName := charsets[kind];
      }
    }
  }
}

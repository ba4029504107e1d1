# Idle sprites and 8-frame walking: a Dafny model

This project models the animation core of the "8 Frame walking animations /
Idle Sprites" script for Pokémon Essentials (`Script.rb`):

- **Sprite names** (`SpriteNames`, `Text`). A character keeps its base name
  for its movement sheet. It appends `_stand` for a standing sheet with one
  frame per direction. It appends one of six idle tags (`_rain_idle`,
  `_sandstorm_idle`, `_cold_idle`, `_hot_idle`, `_wind_idle`, `_idle`) for a
  40-frame idle sheet. Ruby's `include?` and `gsub(t, '')` are modelled
  exactly, including left-to-right, non-overlapping removal.
- **Frame geometry** (`FrameGeometry`). The column count a name declares
  (1, 40 or 8). Frame width and height as `refresh_graphic` computes them.
  The row a facing direction selects. The source rectangle `update` shows,
  and the sprite's origin.
- **Step animation** (`StepAnimation`). `Game_Character#update_pattern` as
  the class method `Character.UpdatePattern`, proved against the pure
  function `NextFrame`. Runs of ticks (`Run`) are proved to keep the pattern
  on the sheet, to lose no elapsed time, and to advance the pattern once per
  timer step.
- **Idle selector** (`IdleSelector`). `Game_Player#update_idle_logic`,
  `switch_to_normal_sprite`, `switch_to_stand_sprite` and
  `switch_to_idle_sprite` as methods of the class `Player`. Each method is
  proved against a pure function over a snapshot `PlayerState`. The
  invariant `Tracks(s, base)` says the player always shows its movement,
  standing or idle sheet for the same base name. Outside menus, one frame of
  the selector preserves it. Round trips back to the movement sheet restore
  the base name and the unslowed frame time, for base names that hold
  neither `_stand` nor `_idle` and do not end in `_rain`, `_sandstorm`,
  `_cold`, `_hot` or `_wind` (`PlainName`). A base name ending in a weather
  word is not given back: "a_hot" idles as "a_hot_idle", and reverting cuts
  out `_hot_idle`, leaving "a" (`WeatherWordBaseLost`).
- **Movement types** (`MovementSpeed`, `Player.SetMovementType`). The speed
  table of `set_movement_type` and the charset family each movement type
  uses.

Inputs from the rest of the engine are parameters:

| engine call | parameter |
|---|---|
| `moving?` | `isMoving` |
| `Input.dir4` | `input` |
| `$game_temp.message_window_showing` | `Env.messageShowing` |
| `$game_temp.in_menu` | `Env.inMenu` |
| vehicle flags | `Env.surfing`, `Env.diving`, `Env.bicycle` |
| weather category | `Env.weather` |
| map `TempCold` / `TempHot` flags | `Env.tempCold`, `Env.tempHot` |
| `pattern_update_speed` | `patternUpdateSpeed` |
| files that exist for `file_exists?` | the set `Env.assets` |
| charsets the player metadata names | the map `charsets` |

Behaviour of the code that is easy to miss:

- The standing sheet is shown only when the timer is strictly above 8, not
  from the first still frame.
- Switching to the standing sheet slows the animation. This is stated in
  `StandSprite`.
- Switching to the weather family's own idle sheet, including the plain
  `_idle` sheet found by the first probe, does not slow the animation. Only
  the generic fallback does. See `IdleThenNormal`.
- The fallback probes the fixed file `Graphics/Characters/_idle.png` and
  then switches to `name + "_idle"` without checking that sheet. See
  `FallbackSheetUnchecked`.
- Reversion resets the marker, the step flag and the timer only when it
  actually strips a tag. A saved frame time is restored either way.
- The weather symbol is spelled `:SandStorm`, as the code spells it.
- Reverting to the movement sheet does not reset the pattern. A pattern
  from 8 to 39 reached on a 40-column idle sheet points past the right edge
  of the 8-column movement sheet until the step animation wraps it or a
  stop resets it (`PatternCarriedOffSheet`).

## Model

| member | source | states |
|---|---|---|
| Text.Gsub | Script.rb:239-244 | Cutting a tag out never lengthens a name, and a cut of the same length changed nothing |
| Text.ContainsIffOccurs | Script.rb:238 | `include?` holds exactly when the tag occurs at some position of the name |
| Text.GsubAbsent | Script.rb:239-244 | `gsub` of a tag the name does not contain leaves the name unchanged |
| Text.GsubAppended | Script.rb:251 | Appending a tag that cannot overlap itself to a name without it, then cutting it out, gives the name back |
| Text.GsubKeepsPrefix | Script.rb:251 | A prefix in which no occurrence of the tag starts passes through `gsub` unchanged |
| SpriteNames.IdleKindFor | Script.rb:308-319 | The idle family chosen is rain, then sandstorm, then cold (weather or TempCold), then hot (weather or TempHot), then wind, then plain; each outcome holds exactly when its conditions hold |
| SpriteNames.TagFacts | Script.rb:239-244 | Every idle tag contains "_idle" and cannot overlap itself |
| SpriteNames.NoOtherTag | Script.rb:239-244 | Appending one idle tag to a plain name creates no other idle tag, so the earlier strip lines do not fire |
| SpriteNames.StripEachAppended | Script.rb:239-244 | When the strip lines before a tag do not fire, stripping a plain name followed by that tag gives the plain name back |
| SpriteNames.RevertIdleTag | Script.rb:238-248 | Reverting a plain name followed by any idle tag gives the plain name back and resets the sprite state |
| SpriteNames.StandHasNoIdle | Script.rb:238 | Appending "_stand" to a name without "_idle" does not create one, so reversion of a standing sheet skips the idle block |
| SpriteNames.RevertStand | Script.rb:250-255 | Reverting a plain name followed by "_stand" gives the plain name back and resets the sprite state |
| SpriteNames.RevertPlain | Script.rb:238-255 | Reversion leaves a name without tags unchanged and resets nothing |
| SpriteNames.SplicedNameGsub | Script.rb:251 | `gsub` can splice a new "_stand" out of the pieces around a removed one ("a_st_standand" becomes "a_stand") |
| SpriteNames.WeatherWordBaseLost | Script.rb:238-247 | A base name ending in a weather word is not a plain name, and "a_hot" with the plain idle tag reverts to "a", not "a_hot" |
| SpriteNames.RevertNotIdempotent | Script.rb:250-251 | Reversion is not idempotent: "a_st_standand" reverts to "a_stand", which reverts again to "a" |
| SpriteNames.TagHasNoStand | Script.rb:308-321 | Appending an idle tag to a name without "_stand" does not create one |
| FrameGeometry.FrameDivisor | Script.rb:48 | A name declares one column exactly when it contains "_stand", forty exactly when it has "_idle" but no "_stand", and eight otherwise |
| FrameGeometry.RefreshFrameSize | Script.rb:31-55 | A tile graphic's frame is its tile size; a charset frame is the floor of the sheet width over the column count and of the height over four; a character without graphic has an empty frame |
| FrameGeometry.Row | Script.rb:75 | Directions 2, 4, 6 and 8 select rows 0 to 3, and each row covers its direction code |
| FrameGeometry.SrcRect | Script.rb:74-76 | The source rectangle has the frame's size and lies right of the sheet's left edge |
| FrameGeometry.SrcRectInsideSheet | Script.rb:48-76 | For any sheet size, a pattern below the declared column count and any direction select a rectangle inside the sheet |
| FrameGeometry.FramesDisjoint | Script.rb:74-76 | Two different pattern/direction pairs select non-overlapping rectangles |
| FrameGeometry.ShownRect | Script.rb:31-76 | A tile graphic shows its whole frame; a charset character with tile id 0 and a sheet shows its current frame; any other tile id, or a character with no tile graphic and no sheet, keeps the rectangle it had |
| FrameGeometry.ShownRectInsideSheet | Script.rb:31-76 | What is shown lies on its bitmap: a tile graphic's whole bitmap, or a charset frame whose pattern is below the sheet's column count |
| FrameGeometry.Origin | Script.rb:31-78 | A tile graphic pivots on the middle of its bottom edge; a charset character on the middle of its frame, and with tile id 0 on its bottom edge (16 pixels higher for "offset" names) raised by the bob height; a character with neither keeps its pivot |
| FrameGeometry.DivisorOfEachSheet | Script.rb:48 | The movement, standing and idle sheets of one base name are cut into 8, 1 and 40 columns |
| FrameGeometry.WrapMatchesColumns | Script.rb:48 | Off the standing sheet the pattern wraps at the sheet's column count; the standing sheet has one column while the pattern wraps at eight or more |
| FrameGeometry.PatternCarriedOffSheet | Script.rb:234-263 | Reversion from an idle sheet gives back the base name but keeps the pattern, and for sheets at least 64 pixels wide every pattern from 8 to 39 is on the idle sheet and off the movement sheet |
| FrameGeometry.AnimatedFrameInsideSheet | Script.rb:107-130 | After any run of `update_pattern` ticks on a sheet that is not a standing sheet, the frame shown lies inside the sheet |
| StepAnimation.FrameCount | Script.rb:128 | The pattern wraps at forty exactly when the name contains "_idle", and at eight otherwise |
| StepAnimation.PatternTime | Script.rb:125 | A frame lasts the update speed divided by 4.25 on an idle sheet and by 8 otherwise |
| StepAnimation.NextFrame | Script.rb:107-130 | Locked patterns never change; stopping returns to the resting pattern; starting steps once (mod 8) with walk animation; on the timer one step is taken once a frame's time is up, wrapping at the frame count and keeping the remainder; the pattern stays on the sheet and the counter never grows or turns negative |
| StepAnimation.Character.UpdatePattern | Script.rb:107-130 | One `update_pattern` updates the pattern and counter to `NextFrame` of the old frame and changes nothing else |
| StepAnimation.RunStaysOnSheet | Script.rb:109-129 | For any number of ticks and any flags, a pattern that starts on the sheet stays on it |
| StepAnimation.CyclingRunIsTimerRun | Script.rb:125-129 | While no tick is locked, stopping or starting, a run of `update_pattern` is the pure timer run for the name's frame time and frame count |
| StepAnimation.TimerKeepsRemainder | Script.rb:126-129 | On the timer no time is lost: the counter left over plus one frame time per advance equals the starting counter plus all time added |
| StepAnimation.TimerCountsAdvances | Script.rb:128 | On the timer the pattern moves on by the number of advances, wrapping at the frame count |
| StepAnimation.CyclingKeepsTime | Script.rb:125-129 | Timer-driven runs of `update_pattern` lose no time (as `TimerKeepsRemainder`) |
| StepAnimation.CyclingCountsFrames | Script.rb:125-129 | Timer-driven runs of `update_pattern` move the pattern on once per advance, wrapping at the sheet's frame count |
| IdleSelector.SlowDown | Script.rb:285-288 | Slowing saves the frame time and doubles it; a frame time already saved is neither overwritten nor slowed again |
| IdleSelector.NormalSprite | Script.rb:234-263 | In a menu or with an empty name nothing changes; otherwise the name loses its tags, a saved frame time is restored and cleared, and the marker, step flag and timer are reset exactly when a tag was stripped |
| IdleSelector.StandSprite | Script.rb:268-290 | With a non-empty name without "_stand" whose standing sheet exists, the standing sheet is shown, stepping stops and the animation is slowed once; otherwise nothing changes |
| IdleSelector.IdleSprite | Script.rb:295-339 | Off vehicles, with a name without "_idle": the weather family's sheet if it exists (not slowed); else, if the generic file exists, name plus "_idle", slowed; else only "_stand" is dropped. Otherwise nothing changes |
| IdleSelector.TrackInput | Script.rb:199-216 | Movement and input are remembered; a still frame counts; starting to move or turning while moving clears the timer |
| IdleSelector.ApplyThresholds | Script.rb:219-223 | Still and without input, the standing sheet is tried strictly between 8 and 1800 still frames, and the idle sheet from 1800 on unless a message shows |
| IdleSelector.IdleTick | Script.rb:189-229 | An empty name changes nothing; moving clears the timer; a still frame counts unless a key press reverts; in a menu a held direction changes neither sheet nor speed; below 8 still frames only the bookkeeping changes |
| IdleSelector.NormalFromTracked | Script.rb:234-263 | From any sheet of a plain base name, reversion gives the base name with the unslowed frame time, and clears the marker whenever the name carried a tag |
| IdleSelector.StandKeepsTracks | Script.rb:268-290 | The standing switch keeps the selector invariant before the idle threshold |
| IdleSelector.UnstoodBase | Script.rb:304-306 | The idle switch builds on the base name from both the movement and the standing sheet |
| IdleSelector.UnstoodTracked | Script.rb:304-306 | For a tracked non-idle name, dropping "_stand" gives the base name |
| IdleSelector.IdleSheetHasIdle | Script.rb:297 | Every idle sheet name contains "_idle", so the idle switch leaves it alone |
| IdleSelector.IdleKeepsTracks | Script.rb:295-339 | From the idle threshold on, the idle switch keeps the selector invariant |
| IdleSelector.TrackInputKeepsTracks | Script.rb:199-216 | Outside menus the input-tracking block keeps the selector invariant |
| IdleSelector.IdleTickKeepsTracks | Script.rb:189-229 | Outside menus, one frame of `update_idle_logic` keeps the selector invariant: the name is always the base name, its standing sheet or one of its idle sheets, with a consistent saved frame time |
| IdleSelector.StandThenNormal | Script.rb:234-290 | Standing and then reverting gives back the name and the unslowed frame time, with a cleared marker, step flag and timer |
| IdleSelector.IdleThenNormal | Script.rb:234-339 | Going idle from the movement or standing sheet and reverting gives back the plain name and the frame time from before any slowing; only the generic fallback slows |
| IdleSelector.FailedIdleKeepsStandMarker | Script.rb:304-338 | When no idle file exists, the idle switch from the standing sheet drops "_stand" but the marker still says "_stand", and the animation stays slowed |
| IdleSelector.FallbackSheetUnchecked | Script.rb:328-331 | The fallback checks only the fixed "_idle.png", so it switches to a sheet whose own file does not exist |
| IdleSelector.StandAfterDelay | Script.rb:219-221 | On the frame after 8 still frames without input, the standing sheet is shown if it exists |
| IdleSelector.IdleAtThreshold | Script.rb:219-222 | At exactly 1800 still frames, with no message showing, the standing sheet gives way to the weather family's idle sheet, with stepping on |
| IdleSelector.KeyPressRestores | Script.rb:226-228 | Outside menus and messages, pressing a direction while another sheet shows returns to the movement sheet with no saved frame time |
| IdleSelector.MovingRestores | Script.rb:199-208 | Outside menus, starting to move or turning while moving clears the timer and returns to the movement sheet |
| IdleSelector.Player.constructor | Script.rb:158-165 | A new player starts with no marker, a zero timer, not moving, no input and no saved frame time |
| IdleSelector.Player.StripIdleTags | Script.rb:239-244 | The six conditional `gsub` lines strip the idle tags in order, as `StripEach` over the strip order |
| IdleSelector.Player.SwitchToNormalSprite | Script.rb:234-263 | The player's state becomes `NormalSprite` of the old state; no other field of the player or its character changes, so the pattern and `bumping` stay as they were |
| IdleSelector.Player.SlowAnimation | Script.rb:285-288 | The player's frame time and saved frame time become `SlowDown` of the old state |
| IdleSelector.Player.SwitchToStandSprite | Script.rb:268-290 | The player's state becomes `StandSprite` of the old state for the existing files; no other field of the player or its character changes |
| IdleSelector.Player.SwitchToIdleSprite | Script.rb:295-339 | The player's state becomes `IdleSprite` of the old state for the environment; no other field of the player or its character changes |
| IdleSelector.Player.UpdateIdleLogic | Script.rb:189-229 | The player's state becomes `IdleTick` of the old state, so every property proved of `IdleTick` holds of the method; no other field of the player or its character changes |
| IdleSelector.Player.SetMovementType | Script.rb:372-409 | The move speed becomes the type's speed (3 when bumping, unchanged under a forced route or when fishing); the name becomes the type's charset when the metadata names one, and is otherwise unchanged |
| MovementSpeed.CharsetFor | Script.rb:375-406 | Surfing and waterfalls use the surf charset, diving the dive charset, cycling the cycle charset, and exactly the walking types the walk charset |
| MovementSpeed.SpeedFor | Script.rb:375-407 | Bumping gives 3; a forced route or fishing keeps the speed; otherwise the speed is between 2 and 5 |
| MovementSpeed.CyclingIsFastest | Script.rb:392-395 | Unforced, speed 5 is reached exactly by cycling other than jumping |
| MovementSpeed.WaterfallIsSlowest | Script.rb:389-391 | Unforced, speed 2 is reached exactly on waterfalls |
| MovementSpeed.WalkingPaceTypes | Script.rb:378-405 | Unforced, speed 3 is reached exactly by diving, walking, and jumping while surfing or cycling |
| MovementSpeed.RunningPaceTypes | Script.rb:383-402 | Unforced, speed 4 is reached exactly by running, ice sliding and surfing other than jumping |

## Left out

- Bitmaps are not modelled: `AnimatedBitmap`, the tile bitmap, `BushBitmap`, hue, tone, disposal and cache retention. Neither are screen position, zoom, z order, opacity, blend type, the animation trigger, reflections and the surf base (`Sprite_SurfBase`). These are rendering side effects; the model keeps only the frame size, the source rectangle and the origin.
- The identity check at the top of `refresh_graphic` is left out. It only skips recomputing values the model computes from scratch.
- The `Game_Event` update gate and `regulartone` tint are left out. Visibility is left out too. They concern events and rendering, not the player's animation.
- `file_exists?` (its `pbResolveBitmap` / `FileTest` probing and `rescue`) becomes membership in the set of existing files.
- `Game_Player#update` is left out: its `Graphics.frame_count % IDLE_UPDATE_FREQUENCY` gate never skips with the frequency 1, and its `rescue` only swallows engine faults the model does not have.
- `can_run?` is left out. It reads input, terrain and global state to decide the movement type, which the model takes as a parameter of `SetMovementType`.
- `pbSlideOnIce` is left out. On ice it sets the sliding flag and straightens the player (`straighten` is engine code); otherwise it sets `walk_anime`. The step animation takes `walkAnime` as an input flag (`Flags`), so every value it can set is covered.
- `pbGetPlayerCharset` and the player metadata lookup become the `charsets` map.
- Global state (`$game_temp`, `$PokemonGlobal`, `$game_screen`, `$game_map`, `Input`, `moving?`) is passed in as parameters. The weather lookup becomes its category. `Unlisted` stands for categories the script does not name.
- A `nil` character name is not represented: names are strings, and the script's `nil` guard is modelled by its empty-name half.
- Player.SetMovementType: the engine's `move_speed=` setter also recomputes the move time; that setter is engine code, so the model sets only the speed.
- StepAnimation.PatternTime: floats are modelled as exact reals, so rounding in `/ 4.25` and in the counter subtraction is not modelled. If the engine's update speed were an Integer, Ruby's `/ 8` would truncate; the model divides exactly.
- IdleSelector.IdleTickKeepsTracks: does not cover frames with a menu open. There, reverting is refused while the timer is still cleared, so an idle sheet can stay with a timer below 1800.
- StepAnimation.RunStaysOnSheet: `anime_count` growing between ticks is engine code; each tick's added time is a parameter.
- A tile graphic's tile size and its width and height in tiles are parameters, not looked up on the map.
- FrameGeometry.OffsetMarked: lower-cases ASCII letters only; Ruby's case-insensitive `/offset/i` also matches some non-ASCII case folds (such as "ſ" for "s"), which the model does not.

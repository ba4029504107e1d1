/** The player's movement types (`Game_Player#set_movement_type`): the speed
    each type moves at and the charset family it is drawn with. */
module MovementSpeed {

  /** The movement type symbols `set_movement_type` distinguishes; `OtherType`
      stands for every symbol it does not name, which it treats as walking. */
  datatype MovementType =
    | Fishing | SurfFishing
    | Diving | DivingFast | DivingJumping | DivingStopped
    | Surfing | SurfingFast | SurfingJumping | SurfingStopped
    | DescendingWaterfall | AscendingWaterfall
    | Cycling | CyclingFast | CyclingJumping | CyclingStopped
    | Running | IceSliding
    | Walking | Jumping | WalkingStopped | OtherType
  {
    predicate IsFishing() { this == Fishing || this == SurfFishing }
    predicate IsDiving() { this == Diving || this == DivingFast || this == DivingJumping || this == DivingStopped }
    predicate IsSurfing() { this == Surfing || this == SurfingFast || this == SurfingJumping || this == SurfingStopped }
    predicate IsWaterfall() { this == DescendingWaterfall || this == AscendingWaterfall }
    predicate IsCycling() { this == Cycling || this == CyclingFast || this == CyclingJumping || this == CyclingStopped }
    predicate IsWalking() { !IsFishing() && !IsDiving() && !IsSurfing() && !IsWaterfall() && !IsCycling()
                            && this != Running && this != IceSliding }
  }

  /** The player metadata's charset fields. */
  datatype CharsetKind =
    | FishCharset | SurfFishCharset | DiveCharset | SurfCharset
    | CycleCharset | RunCharset | SlideCharset | WalkCharset

  /** The charset family a movement type is drawn with: waterfalls use the
      surfing charset; every unnamed type uses the walking one. */
  function CharsetFor(t: MovementType): (k: CharsetKind)
    ensures k == SurfCharset <==> t.IsSurfing() || t.IsWaterfall()
    ensures k == DiveCharset <==> t.IsDiving()
    ensures k == CycleCharset <==> t.IsCycling()
    ensures k == WalkCharset <==> t.IsWalking()
  {
    match t
    case Fishing => FishCharset
    case SurfFishing => SurfFishCharset
    case Diving | DivingFast | DivingJumping | DivingStopped => DiveCharset
    case Surfing | SurfingFast | SurfingJumping | SurfingStopped => SurfCharset
    case DescendingWaterfall | AscendingWaterfall => SurfCharset
    case Cycling | CyclingFast | CyclingJumping | CyclingStopped => CycleCharset
    case Running => RunCharset
    case IceSliding => SlideCharset
    case _ => WalkCharset
  }

  /** The move speed after `set_movement_type`: the type's speed unless a
      move route is forcing the player (fishing keeps the speed anyway), and
      3 whenever the player is bumping into something. */
  function SpeedFor(t: MovementType, forcing: bool, bumping: bool, current: int): (speed: int)
    ensures bumping ==> speed == 3
    ensures !bumping && (forcing || t.IsFishing()) ==> speed == current
    ensures !bumping && !forcing && !t.IsFishing() ==> 2 <= speed <= 5
  {
    var typeSpeed :=
      match t
      case Fishing | SurfFishing => current
      case Diving | DivingFast | DivingJumping | DivingStopped => if forcing then current else 3
      case Surfing | SurfingFast | SurfingJumping | SurfingStopped =>
        if forcing then current else if t == SurfingJumping then 3 else 4
      case DescendingWaterfall | AscendingWaterfall => if forcing then current else 2
      case Cycling | CyclingFast | CyclingJumping | CyclingStopped =>
        if forcing then current else if t == CyclingJumping then 3 else 5
      case Running | IceSliding => if forcing then current else 4
      case _ => if forcing then current else 3;
    if bumping then 3 else typeSpeed
  }

  /** Unforced, the bicycle is the one fastest type: speed 5 exactly when
      cycling other than jumping. */
  lemma CyclingIsFastest(t: MovementType, current: int)
    requires !t.IsFishing()
    ensures SpeedFor(t, false, false, current) == 5 <==> t.IsCycling() && t != CyclingJumping
  {
  }

  /** Unforced, waterfalls are the one slowest type, at speed 2. */
  lemma WaterfallIsSlowest(t: MovementType, current: int)
    requires !t.IsFishing()
    ensures SpeedFor(t, false, false, current) == 2 <==> t.IsWaterfall()
  {
  }

  /** Unforced, jumping on a surface or a bicycle moves at walking speed 3,
      as do diving and walking. */
  lemma WalkingPaceTypes(t: MovementType, current: int)
    requires !t.IsFishing()
    ensures SpeedFor(t, false, false, current) == 3 <==>
              t == SurfingJumping || t == CyclingJumping || t.IsDiving() || t.IsWalking()
  {
  }

  /** Running and sliding on ice are as fast as surfing. */
  lemma RunningPaceTypes(t: MovementType, current: int)
    requires !t.IsFishing()
    ensures SpeedFor(t, false, false, current) == 4 <==>
              t == Running || t == IceSliding || (t.IsSurfing() && t != SurfingJumping)
  {
  }
}

/** The sprite-sheet naming convention: a character's movement sheet keeps its
    base name, the standing sheet appends "_stand" and the idle sheets append
    one of six idle tags chosen by weather and map temperature. Reverting to
    the movement sheet cuts the tags out again with `gsub`. */
module SpriteNames {
  import opened Text

  const CHARACTERS_DIR := "Graphics/Characters/"
  const STAND := "_stand"
  const IDLE := "_idle"

  /** The six idle sheet families. Each family's tag is a word (empty for the
      plain family) followed by "_idle": "_rain_idle", "_sandstorm_idle",
      "_cold_idle", "_hot_idle", "_wind_idle" and "_idle". */
  datatype IdleKind = RainIdle | SandstormIdle | ColdIdle | HotIdle | WindIdle | PlainIdle
  {
    function Word(): string
    {
      match this
      case RainIdle => "_rain"
      case SandstormIdle => "_sandstorm"
      case ColdIdle => "_cold"
      case HotIdle => "_hot"
      case WindIdle => "_wind"
      case PlainIdle => ""
    }

    function Tag(): string
    {
      Word() + IDLE
    }
  }

  /** The order in which reversion strips idle tags: weather tags first, the
      plain tag last. */
  const STRIP_ORDER := [RainIdle, SandstormIdle, ColdIdle, HotIdle, WindIdle, PlainIdle]

  /** The file probed for a sheet called `name`. */
  function SheetPath(name: string): string
  {
    CHARACTERS_DIR + name + ".png"
  }

  /** The fixed file the generic idle fallback probes; it does not depend on
      the character's name. */
  const GENERIC_IDLE_PATH := CHARACTERS_DIR + IDLE + ".png"

  /** The weather category symbols the idle selector tests; `Unlisted` stands
      for every category it does not mention. */
  datatype WeatherCategory =
    | NoWeather | Rain | HeavyRain | Storm | SandStorm | Snow | Blizzard | Hail
    | Sun | HarshSun | Wind | StrongWinds | Unlisted
  {
    predicate IsRainy() { this == Rain || this == HeavyRain || this == Storm }
    predicate IsCold() { this == Snow || this == Blizzard || this == Hail }
    predicate IsHot() { this == Sun || this == HarshSun }
    predicate IsWindy() { this == Wind || this == StrongWinds }
  }

  /** The idle family chosen for the current weather and the map's TempCold
      and TempHot flags: rain > sandstorm > cold > hot > wind > plain idle. */
  function IdleKindFor(weather: WeatherCategory, tempCold: bool, tempHot: bool): (k: IdleKind)
    ensures k == RainIdle <==> weather.IsRainy()
    ensures k == SandstormIdle <==> weather == SandStorm
    ensures k == ColdIdle <==>
              !weather.IsRainy() && weather != SandStorm && (tempCold || weather.IsCold())
    ensures k == HotIdle <==>
              !weather.IsRainy() && weather != SandStorm && !tempCold && !weather.IsCold()
              && (tempHot || weather.IsHot())
    ensures k == WindIdle <==>
              !tempCold && !tempHot && weather.IsWindy()
    ensures k == PlainIdle <==>
              !tempCold && !tempHot && !weather.IsRainy() && weather != SandStorm
              && !weather.IsCold() && !weather.IsHot() && !weather.IsWindy()
  {
    if weather.IsRainy() then RainIdle
    else if weather == SandStorm then SandstormIdle
    else if tempCold || weather.IsCold() then ColdIdle
    else if tempHot || weather.IsHot() then HotIdle
    else if weather.IsWindy() then WindIdle
    else PlainIdle
  }

  /** Each tag in turn is cut out with `gsub`, but only when the name still
      includes it. */
  function StripEach(name: string, order: seq<IdleKind>): string
    decreases |order|
  {
    if order == [] then name
    else
      var tag := order[0].Tag();
      StripEach(if Contains(name, tag) then Gsub(name, tag) else name, order[1..])
  }

  /** The name after the idle block of reversion: stripped of idle tags only
      when it includes "_idle". */
  function AfterIdleStrip(name: string): string
  {
    if Contains(name, IDLE) then StripEach(name, STRIP_ORDER) else name
  }

  /** The name reversion to the movement sheet leaves: idle tags first, then "_stand". */
  function NormalName(name: string): string
  {
    var n := AfterIdleStrip(name);
    if Contains(n, STAND) then Gsub(n, STAND) else n
  }

  /** Reversion resets the sprite state exactly when one of its two blocks fires. */
  predicate RevertsTag(name: string)
  {
    Contains(name, IDLE) || Contains(AfterIdleStrip(name), STAND)
  }

  /** A base name that reversion gives back unchanged after any tag is
      appended: it holds neither "_stand" nor "_idle" and does not end in a
      weather word that, followed by "_idle", would spell a weather tag. */
  predicate PlainName(base: string)
  {
    && !Contains(base, STAND) && !Contains(base, IDLE)
    && !EndsWith(base, RainIdle.Word()) && !EndsWith(base, SandstormIdle.Word())
    && !EndsWith(base, ColdIdle.Word()) && !EndsWith(base, HotIdle.Word())
    && !EndsWith(base, WindIdle.Word())
  }

  /** The shape of a weather word: an underscore, then at least one character,
      none an underscore, the first not an "i". */
  predicate IsWord(w: string)
  {
    |w| >= 2 && w[0] == '_' && w[1] != 'i' && forall j :: 0 < j < |w| ==> w[j] != '_'
  }

  lemma IdleChars()
    ensures |IDLE| == 5 && IDLE[0] == '_' && IDLE[1] == 'i'
    ensures forall j :: 0 < j < |IDLE| ==> IDLE[j] != '_'
  {
  }

  lemma StandChars()
    ensures |STAND| == 6 && STAND[0] == '_'
    ensures forall j :: 0 < j < |STAND| ==> STAND[j] != '_'
  {
  }

  /** Weather words have the shape of a word and distinct second characters. */
  lemma WordFacts(k1: IdleKind, k2: IdleKind)
    requires k1 != PlainIdle && k2 != PlainIdle
    ensures IsWord(k1.Word())
    ensures k1 != k2 ==> k1.Word()[1] != k2.Word()[1]
  {
  }

  /** Where the underscores of a weather tag are. */
  lemma TagChars(w: string)
    requires IsWord(w)
    ensures (w + IDLE)[0] == '_' && (w + IDLE)[1] == w[1]
    ensures forall j :: 0 < j < |w + IDLE| && j != |w| ==> (w + IDLE)[j] != '_'
  {
    IdleChars();
    forall j | |w| < j < |w + IDLE|
      ensures (w + IDLE)[j] != '_'
    {
      assert (w + IDLE)[j] == IDLE[j - |w|];
    }
  }

  /** Each idle tag includes "_idle" and itself, and no two copies of it can overlap. */
  lemma TagFacts(k: IdleKind)
    ensures |k.Tag()| >= 5
    ensures Contains(k.Tag(), IDLE) && Contains(k.Tag(), k.Tag()) && Unbordered(k.Tag())
  {
    var t := k.Tag();
    assert StartsWith(t, t);
    IdleChars();
    if k == PlainIdle {
      assert t == IDLE;
      CompletesOnlyAt(IDLE, IDLE, 0);
    } else {
      var w := k.Word();
      WordFacts(k, k);
      TagChars(w);
      assert StartsWith(IDLE, IDLE);
      ContainsInRight(w, IDLE, IDLE);
      CompletesOnlyAt(t, t, |w|);
      assert t[..5][1] != t[|t| - 5..][1];
    }
  }

  /** A name without "_idle" holds no idle tag. */
  lemma NoTagWithoutIdle(name: string, k: IdleKind)
    requires !Contains(name, IDLE)
    ensures !Contains(name, k.Tag())
  {
    TagFacts(k);
    if Contains(name, k.Tag()) {
      ContainsTransitive(name, k.Tag(), IDLE);
    }
  }

  /** Appending "_idle" to a plain name does not create a weather tag. */
  lemma NoWeatherTagAfterIdle(base: string, k: IdleKind)
    requires PlainName(base) && k != PlainIdle
    ensures !Contains(base + IDLE, k.Tag())
  {
    var w, t := k.Word(), k.Tag();
    NoTagWithoutIdle(base, k);
    if Contains(IDLE, t) {
      ContainsLength(IDLE, t);
    }
    WordFacts(k, k);
    TagChars(w);
    IdleChars();
    CompletesOnlyAt(IDLE, t, |w|);
    assert t[..|t| - 5] == w;
    NotContainsConcat(base, IDLE, t);
  }

  /** Appending one weather tag to a name without "_idle" does not create another. */
  lemma NoOtherWeatherTag(base: string, k1: IdleKind, k2: IdleKind)
    requires !Contains(base, IDLE) && k1 != PlainIdle && k2 != PlainIdle && k1 != k2
    ensures !Contains(base + k1.Tag(), k2.Tag())
  {
    var w1, w2 := k1.Word(), k2.Word();
    var t1, t2 := k1.Tag(), k2.Tag();
    NoTagWithoutIdle(base, k2);
    WordFacts(k1, k2);
    WordFacts(k2, k1);
    TagChars(w1);
    TagChars(w2);
    IdleChars();
    if |t2| <= |t1| {
      assert t1[..|t2|][1] != t2[1];
    }
    NotContainsByAnchor(t1, t2, |w1|);
    CompletesOnlyAt(t1, t2, |w2|);
    assert t1[..5][1] != t2[|t2| - 5..][1];
    NotContainsConcat(base, t1, t2);
  }

  /** Appending an idle tag to a plain name does not create any weather tag
      other than itself. */
  lemma NoOtherTag(base: string, k1: IdleKind, k2: IdleKind)
    requires PlainName(base) && k2 != PlainIdle && k1 != k2
    ensures !Contains(base + k1.Tag(), k2.Tag())
  {
    if k1 == PlainIdle {
      assert k1.Tag() == IDLE;
      NoWeatherTagAfterIdle(base, k2);
    } else {
      NoOtherWeatherTag(base, k1, k2);
    }
  }

  /** Stripping tags none of which occur leaves the name alone. */
  lemma {:induction false} StripEachAbsent(name: string, order: seq<IdleKind>)
    requires forall k :: k in order ==> !Contains(name, k.Tag())
    ensures StripEach(name, order) == name
  {
    if order != [] {
      StripEachAbsent(name, order[1..]);
    }
  }

  /** Stripping, in order, tags of which only the one at position i occurs in
      base + that tag, and none in base, gives base back. */
  lemma {:induction false} StripEachAppended(base: string, order: seq<IdleKind>, i: nat)
    requires i < |order|
    requires forall j :: 0 <= j < i ==> !Contains(base + order[i].Tag(), order[j].Tag())
    requires forall k :: k in order ==> !Contains(base, k.Tag())
    ensures StripEach(base + order[i].Tag(), order) == base
  {
    var t := order[i].Tag();
    TagFacts(order[i]);
    if i == 0 {
      ContainsInRight(base, t, t);
      GsubAppended(base, t);
      StripEachAbsent(base, order[1..]);
    } else {
      assert !Contains(base + t, order[0].Tag());
      StripEachAppended(base, order[1..], i - 1);
    }
  }

  /** Reverting a plain name followed by an idle tag gives the plain name
      back, and resets the sprite state. */
  lemma RevertIdleTag(base: string, k: IdleKind)
    requires PlainName(base)
    ensures RevertsTag(base + k.Tag())
    ensures NormalName(base + k.Tag()) == base
  {
    TagFacts(k);
    ContainsInRight(base, k.Tag(), IDLE);
    var i := match k
      case RainIdle => 0 case SandstormIdle => 1 case ColdIdle => 2
      case HotIdle => 3 case WindIdle => 4 case PlainIdle => 5;
    assert STRIP_ORDER[i] == k;
    forall j | 0 <= j < i
      ensures !Contains(base + k.Tag(), STRIP_ORDER[j].Tag())
    {
      NoOtherTag(base, k, STRIP_ORDER[j]);
    }
    forall k' | k' in STRIP_ORDER
      ensures !Contains(base, k'.Tag())
    {
      NoTagWithoutIdle(base, k');
    }
    StripEachAppended(base, STRIP_ORDER, i);
  }

  /** Appending "_stand" to a name without "_idle" does not create one. */
  lemma StandHasNoIdle(base: string)
    requires !Contains(base, IDLE)
    ensures !Contains(base + STAND, IDLE)
  {
    IdleChars();
    StandChars();
    CompletesOnlyAt(STAND, IDLE, 0);
    NotContainsConcat(base, STAND, IDLE);
  }

  /** Reverting a plain name followed by "_stand" gives the plain name back,
      and resets the sprite state. */
  lemma RevertStand(base: string)
    requires !Contains(base, STAND) && !Contains(base, IDLE)
    ensures RevertsTag(base + STAND)
    ensures NormalName(base + STAND) == base
  {
    StandHasNoIdle(base);
    assert StartsWith(STAND, STAND);
    ContainsInRight(base, STAND, STAND);
    StandChars();
    CompletesOnlyAt(STAND, STAND, 0);
    GsubAppended(base, STAND);
  }

  /** Reversion leaves a name without tags alone and resets nothing. */
  lemma RevertPlain(base: string)
    requires !Contains(base, STAND) && !Contains(base, IDLE)
    ensures !RevertsTag(base)
    ensures NormalName(base) == base
  {
  }

  /** "a_st_standand": a name whose "_stand" sits between "a_st" and "and". */
  function SplicedName(): string
  {
    "a_st" + STAND + "and"
  }

  /** "a_st_standand" holds no "_idle" (it has no 'i'). */
  lemma SplicedNameHasNoIdle()
    ensures !Contains(SplicedName(), IDLE)
  {
    IdleChars();
    StandChars();
    var s := SplicedName();
    forall i | 0 <= i < |s|
      ensures s[i] != IDLE[1]
    {
      if i < 4 {
        assert s[i] == "a_st"[i];
      } else if i < 10 {
        assert s[i] == STAND[i - 4];
      } else {
        assert s[i] == "and"[i - 10];
      }
    }
    NotContainsMissingChar(s, IDLE, 1);
  }

  /** Cutting "_stand" out of "a_st_standand" splices a new "_stand" together. */
  lemma SplicedNameGsub()
    ensures Contains(SplicedName(), STAND)
    ensures Gsub(SplicedName(), STAND) == "a" + STAND
  {
    var p, r := "a_st", STAND + "and";
    var s := p + r;
    assert s == SplicedName();
    StandChars();
    assert StartsWith(r, STAND);
    ContainsInRight(p, r, STAND);
    forall i | 0 <= i < |p|
      ensures !StartsWith(s[i..], STAND)
    {
      assert s[i..][0] == p[i];
      assert i == 1 ==> s[i..][3] == r[0];
    }
    GsubKeepsPrefix(p, r, STAND);
    assert r[|STAND|..] == "and";
    GsubAbsentShort("and", STAND);
    assert p + "and" == "a" + STAND;
  }

  /** Because `gsub` can splice a new tag together out of the pieces around a
      removed one, reversion is not idempotent on every name: "a_st_standand"
      reverts to "a_stand", which reverts further to "a". */
  lemma RevertNotIdempotent()
    ensures NormalName(SplicedName()) == "a" + STAND
    ensures NormalName("a" + STAND) == "a"
  {
    SplicedNameHasNoIdle();
    SplicedNameGsub();
    RevertStandOnly(SplicedName());
    RevertStand("a");
  }

  /** A base name ending in a weather word is not given back: "a_hot" with
      the plain idle tag is "a_hot_idle", whose "_hot_idle" the strip lines
      cut out whole, leaving "a". */
  lemma WeatherWordBaseLost()
    ensures !PlainName("a_hot")
    ensures NormalName("a_hot" + IDLE) == "a"
  {
    assert EndsWith("a_hot", HotIdle.Word());
    assert "a_hot" + IDLE == "a" + HotIdle.Tag();
    RevertIdleTag("a", HotIdle);
  }

  /** On a name with "_stand" but no "_idle", reversion is the one `gsub`. */
  lemma RevertStandOnly(name: string)
    requires !Contains(name, IDLE) && Contains(name, STAND)
    ensures NormalName(name) == Gsub(name, STAND)
  {
  }

  /** Appending an idle tag to a name without "_stand" does not create one. */
  lemma TagHasNoStand(base: string, k: IdleKind)
    requires !Contains(base, STAND)
    ensures !Contains(base + k.Tag(), STAND)
  {
    var t := k.Tag();
    StandChars();
    IdleChars();
    if k == PlainIdle {
      assert t == IDLE;
      if Contains(IDLE, STAND) {
        ContainsLength(IDLE, STAND);
      }
    } else {
      var w := k.Word();
      WordFacts(k, k);
      TagChars(w);
      if |t| >= |STAND| {
        assert t[..|STAND|][2] != STAND[2];
      }
      NotContainsByAnchor(t, STAND, |w|);
    }
    CompletesOnlyAt(t, STAND, 0);
    NotContainsConcat(base, t, STAND);
  }
}

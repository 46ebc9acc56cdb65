/** Fading of sonar discoveries (sonar_chart.c): a point's age in milliseconds,
    taken modulo 2^32 like the tick counter, picks one of five stages of 15 s each;
    the last stage removes the point and each earlier one has a fixed opacity. */
module SonarFade {
  import opened CInt

  const FadeStages: int := 4
  const FadeDurationMs: int := 15000

  /** `SonarFadeState`, in the order of its enumeration values 0..4. */
  datatype FadeState = Full | Bright | Dim | Faint | Gone

  /** The enumeration value of a stage. */
  function Stage(f: FadeState): (k: nat)
    ensures k <= FadeStages
    ensures k == FadeStages <==> f == Gone
  {
    match f
    case Full => 0
    case Bright => 1
    case Dim => 2
    case Faint => 3
    case Gone => 4
  }

  /** The stage of a point of the given age: stage k covers ages from 15000 k up to
      15000 (k + 1), and every age from 60000 on is gone. */
  function FadeOfAge(age: nat): (f: FadeState)
    ensures FadeDurationMs * Stage(f) <= age
    ensures f != Gone ==> age < FadeDurationMs * (Stage(f) + 1)
    ensures f == Gone <==> age >= FadeDurationMs * FadeStages
  {
    var stage := age / FadeDurationMs;
    if stage >= FadeStages then Gone
    else if stage == 0 then Full
    else if stage == 1 then Bright
    else if stage == 2 then Dim
    else Faint
  }

  /** `sonar_chart_get_fade_state`: the age is `current_time - discovery_time` on
      uint32, so a discovery time ahead of the clock reads as a very old point. */
  function FadeStateAt(discoveryTime: int, now: int): (f: FadeState)
    ensures IsU32(discoveryTime) && discoveryTime <= now < discoveryTime + FadeDurationMs ==> f == Full
    ensures IsU32(discoveryTime) && IsU32(now) && now < discoveryTime <= now + U32 - FadeDurationMs * FadeStages
            ==> f == Gone
  {
    FadeOfAge(ToU32(now - discoveryTime))
  }

  /** Fading only moves forward: an older point is never in an earlier stage. */
  lemma FadeMonotone(a: nat, b: nat)
    requires a <= b
    ensures Stage(FadeOfAge(a)) <= Stage(FadeOfAge(b))
  {
  }

  /** `sonar_fade_state_opacity`. */
  function Opacity(f: FadeState): (o: int)
    ensures 0 <= o <= 255
    ensures o == 0 <==> f == Gone
    ensures f == Full ==> o == 255
    ensures f != Full ==> o == 64 * (FadeStages - Stage(f))
  {
    match f
    case Full => 255
    case Bright => 192
    case Dim => 128
    case Faint => 64
    case Gone => 0
  }

  /** Each later stage is strictly fainter. */
  lemma OpacityFalls(f: FadeState, g: FadeState)
    requires Stage(f) < Stage(g)
    ensures Opacity(f) > Opacity(g)
  {
  }
}

/** The time-of-day background: the seven-phase schedule over the decimal hour
    (`calcolaGradiente`) and the object holding the gradient on screen with its
    eased transition (`CURRENT_GRADIENT`, `transitionGradient`). Sunrise and
    sunset are inputs, in decimal hours. */
module Sky {
  import opened Colors

  /** A pair of CSS colours: a `#RRGGBB` phase colour or an `rgb(...)` blend. */
  datatype Gradient = Gradient(top: string, bottom: string)

  // The phase colours of COLORI (the unused `notteIniziale` entry is omitted).
  const Night := Gradient("#0f0c29", "#302b63")     // notte
  const Dawn := Gradient("#FF512F", "#F09819")      // alba
  const Morning := Gradient("#56CCF2", "#2F80ED")   // mattino
  const Day := Gradient("#56CCF2", "#87CEEB")       // giorno
  const Dusk := Gradient("#FF512F", "#DD2476")      // tramonto
  const Twilight := Gradient("#2C3E50", "#4CA1AF")  // crepuscolo

  /** The guard of branch `k` (1 to 7) of the phase chain, in source order:
      night, before dawn, dawn, day, before sunset, sunset, twilight. */
  predicate InBranch(k: int, h: real, sunrise: real, sunset: real) {
    var beforeDawn := sunrise - 1.0;
    var afterDawn := sunrise + 1.0;
    var beforeSunset := sunset - 1.0;
    var afterSunset := sunset + 1.0;
    if k == 1 then h < beforeDawn || h >= afterSunset + 1.0
    else if k == 2 then h >= beforeDawn && h < sunrise
    else if k == 3 then h >= sunrise && h < afterDawn
    else if k == 4 then h >= afterDawn && h < beforeSunset
    else if k == 5 then h >= beforeSunset && h < sunset
    else if k == 6 then h >= sunset && h < afterSunset
    else if k == 7 then h >= afterSunset && h < afterSunset + 1.0
    else false
  }

  /** The branch the `if`/`else if` chain takes. The chain has no final `else`,
      yet some guard always holds, whatever sunrise and sunset are: the
      gradient is always assigned. */
  function FirstBranch(h: real, sunrise: real, sunset: real): (k: int)
    ensures 1 <= k <= 7 && InBranch(k, h, sunrise, sunset)
    ensures forall j :: 1 <= j < k ==> !InBranch(j, h, sunrise, sunset)
  {
    if InBranch(1, h, sunrise, sunset) then 1
    else if InBranch(2, h, sunrise, sunset) then 2
    else if InBranch(3, h, sunrise, sunset) then 3
    else if InBranch(4, h, sunrise, sunset) then 4
    else if InBranch(5, h, sunrise, sunset) then 5
    else if InBranch(6, h, sunrise, sunset) then 6
    else if InBranch(7, h, sunrise, sunset) then 7
    else 0
  }

  /** What a branch produces: a phase colour as it is, or two phases blended by a factor. */
  datatype Segment = Flat(phase: Gradient) | Blend(from: Gradient, to: Gradient, factor: real)

  /** The branch taken and its factor `(h - start) / (end - start)`; in every
      blending branch the factor lies in [0, 1). Every colour involved is one
      of the phase colours. */
  function Schedule(h: real, sunrise: real, sunset: real): (s: Segment)
    ensures s.Blend? ==> 0.0 <= s.factor < 1.0
    ensures s.Flat? ==> IsPhase(s.phase)
    ensures s.Blend? ==> IsPhase(s.from) && IsPhase(s.to)
  {
    var beforeDawn := sunrise - 1.0;
    var afterDawn := sunrise + 1.0;
    var beforeSunset := sunset - 1.0;
    var afterSunset := sunset + 1.0;
    var k := FirstBranch(h, sunrise, sunset);
    if k == 1 then Flat(Night)
    else if k == 2 then Blend(Night, Dawn, (h - beforeDawn) / (sunrise - beforeDawn))
    else if k == 3 then Blend(Dawn, Morning, (h - sunrise) / (afterDawn - sunrise))
    else if k == 4 then Flat(Day)
    else if k == 5 then Blend(Day, Dusk, (h - beforeSunset) / (sunset - beforeSunset))
    else if k == 6 then Blend(Dusk, Twilight, (h - sunset) / (afterSunset - sunset))
    else Blend(Twilight, Night, (h - afterSunset) / 1.0)
  }

  /** `interpolaColore` on both colours of a blend: a blend is always written
      as `rgb(...)` text, never as the `#` phase colour itself. */
  function Render(s: Segment): (g: Gradient)
    ensures s.Flat? ==> g == s.phase
    ensures s.Blend? ==> |g.top| > 4 && g.top[..4] == "rgb(" && |g.bottom| > 4 && g.bottom[..4] == "rgb("
  {
    match s
    case Flat(g) => g
    case Blend(a, b, f) => Gradient(Interpolate(a.top, b.top, f), Interpolate(a.bottom, b.bottom, f))
  }

  /** `calcolaGradiente` with the decimal hour, sunrise and sunset as inputs.
      Both colours are always set, so the start-up fallbacks for an empty colour
      never apply. */
  function ComputeGradient(h: real, sunrise: real, sunset: real): (g: Gradient)
    ensures g.top != "" && g.bottom != ""
  {
    Render(Schedule(h, sunrise, sunset))
  }

  /** Each blending branch starts from its first phase: when sunrise + 1 <=
      sunset - 1, at one hour before dawn, one hour before sunset, at sunset and
      one hour after it the factor is 0. (Sunrise itself is `AtSunrise`.) */
  lemma BranchStarts(sunrise: real, sunset: real)
    requires sunrise + 1.0 <= sunset - 1.0
    ensures Schedule(sunrise - 1.0, sunrise, sunset) == Blend(Night, Dawn, 0.0)
    ensures Schedule(sunset - 1.0, sunrise, sunset) == Blend(Day, Dusk, 0.0)
    ensures Schedule(sunset, sunrise, sunset) == Blend(Dusk, Twilight, 0.0)
    ensures Schedule(sunset + 1.0, sunrise, sunset) == Blend(Twilight, Night, 0.0)
  {
    assert FirstBranch(sunrise - 1.0, sunrise, sunset) == 2;
    assert FirstBranch(sunset - 1.0, sunrise, sunset) == 5;
    assert FirstBranch(sunset, sunrise, sunset) == 6;
    assert FirstBranch(sunset + 1.0, sunrise, sunset) == 7;
  }

  /** When sunrise + 1 <= sunset - 1 the seven guards are mutually exclusive, so
      the branch taken is the only one whose guard holds. */
  lemma BranchesExclusive(h: real, sunrise: real, sunset: real, j: int)
    requires sunrise + 1.0 <= sunset - 1.0
    requires 1 <= j <= 7 && InBranch(j, h, sunrise, sunset)
    ensures j == FirstBranch(h, sunrise, sunset)
  {
  }

  /** At exactly sunrise the dawn branch is taken with factor 0, so the result
      is the dawn colours themselves, written as `rgb(...)`. */
  lemma AtSunrise(sunrise: real, sunset: real)
    requires sunrise <= sunset
    ensures Schedule(sunrise, sunrise, sunset) == Blend(Dawn, Morning, 0.0)
    ensures ComputeGradient(sunrise, sunrise, sunset)
            == Gradient(RgbToCss(ParseColor(Dawn.top)), RgbToCss(ParseColor(Dawn.bottom)))
  {
    assert FirstBranch(sunrise, sunrise, sunset) == 3;
    PhaseHex(Dawn);
    PhaseHex(Morning);
    InterpolateEndpoints(Dawn.top, Morning.top, 0.0);
    InterpolateEndpoints(Dawn.bottom, Morning.bottom, 0.0);
  }

  /** Unfolds `IsHexColor` for one literal, which keeps `PhaseHex` small. */
  lemma HexColorOf(s: string)
    requires |s| == 7 && s[0] == '#'
    requires IsHexDigit(s[1]) && IsHexDigit(s[2]) && IsHexDigit(s[3])
    requires IsHexDigit(s[4]) && IsHexDigit(s[5]) && IsHexDigit(s[6])
    ensures IsHexColor(s)
  {
  }

  predicate IsPhase(g: Gradient) {
    g == Night || g == Dawn || g == Morning || g == Day || g == Dusk || g == Twilight
  }

  /** Every phase colour is a well-formed `#RRGGBB`. */
  lemma PhaseHex(g: Gradient)
    requires IsPhase(g)
    ensures IsHexColor(g.top) && IsHexColor(g.bottom)
  {
    if g == Night {
      HexColorOf(Night.top); HexColorOf(Night.bottom);
    } else if g == Dawn {
      HexColorOf(Dawn.top); HexColorOf(Dawn.bottom);
    } else if g == Morning {
      HexColorOf(Morning.top); HexColorOf(Morning.bottom);
    } else if g == Day {
      HexColorOf(Day.top); HexColorOf(Day.bottom);
    } else if g == Dusk {
      HexColorOf(Dusk.top); HexColorOf(Dusk.bottom);
    } else {
      HexColorOf(Twilight.top); HexColorOf(Twilight.bottom);
    }
  }

  /** Whatever the hour, both colours of the computed gradient parse back to
      integer channels in [0, 255]: the transition reads its targets with the
      parser, and never meets a malformed one. */
  lemma TargetParses(h: real, sunrise: real, sunset: real)
    ensures IsByteColor(ParseColor(ComputeGradient(h, sunrise, sunset).top))
    ensures IsByteColor(ParseColor(ComputeGradient(h, sunrise, sunset).bottom))
  {
    match Schedule(h, sunrise, sunset)
    case Flat(g) =>
      PhaseHex(g);
      ParseHexColor(g.top);
      ParseHexColor(g.bottom);
    case Blend(a, b, f) =>
      PhaseHex(a);
      PhaseHex(b);
      InterpolateEndpoints(a.top, b.top, f);
      InterpolateEndpoints(a.bottom, b.bottom, f);
  }

  // ---------------------------------------------------------------------------
  // CURRENT_GRADIENT and the steps of transitionGradient
  // ---------------------------------------------------------------------------

  /** A colour handed to the transition: `#` colours go through the parser and
      the serialiser, anything else is kept. A non-empty colour stays non-empty,
      and a `#RRGGBB` colour is rewritten as `rgb(...)` text of the same colour. */
  function Normalise(s: string): (r: string)
    ensures s != "" ==> r != ""
    ensures IsHexColor(s) ==> ParseColor(r) == ParseColor(s) && IsByteColor(ParseColor(r))
  {
    HexRoundTrip(s);
    if |s| > 0 && s[0] == '#' then RgbToCss(ParseColor(s)) else s
  }

  /** A `#RRGGBB` colour survives parsing, serialising and parsing again. */
  lemma HexRoundTrip(s: string)
    ensures IsHexColor(s) ==>
              ParseColor(RgbToCss(ParseColor(s))) == ParseColor(s) && IsByteColor(ParseColor(s))
  {
    if IsHexColor(s) {
      ParseHexColor(s);
      CssRoundTripBytes(ParseColor(s));
    }
  }

  /** The four colours a transition runs between, read once when it starts. */
  datatype Plan = Plan(fromTop: Rgb, fromBottom: Rgb, toTop: Rgb, toBottom: Rgb)

  /** Elapsed fraction of the transition, `Math.min(1, (ts - start) / duration)`. */
  function Progress(start: real, ts: real, duration: real): (t: real)
    requires duration > 0.0
    ensures t <= 1.0
    ensures start <= ts ==> 0.0 <= t
    ensures t == 1.0 <==> ts - start >= duration
  {
    var q := (ts - start) / duration;
    assert q * duration == ts - start;
    assert q >= 1.0 ==> q * duration >= duration;
    assert q < 1.0 ==> q * duration < duration;
    Min(1.0, q)
  }

  /** The colour one animation frame writes: the start colour at fraction 0, the
      target at fraction 1, and in between each channel between the two. */
  function Frame(from: Rgb, to: Rgb, t: real): (c: Rgb)
    ensures t == 0.0 && IsFiniteColor(from) && IsFiniteColor(to) ==> c == from
    ensures t == 1.0 && IsFiniteColor(from) ==> c == to
    ensures 0.0 <= t <= 1.0 && IsFiniteColor(from) && IsFiniteColor(to) ==>
              Between(c.r, from.r, to.r) && Between(c.g, from.g, to.g) && Between(c.b, from.b, to.b)
  {
    LerpRgb(from, to, Ease(t))
  }

  /** Between byte colours, every frame is written as text that parses back to
      a byte colour, which is what the next transition starts from. */
  lemma FrameParses(from: Rgb, to: Rgb, t: real)
    requires IsByteColor(from) && IsByteColor(to) && 0.0 <= t <= 1.0
    ensures IsByteColor(ParseColor(RgbToCss(Frame(from, to, t))))
    ensures ParseColor(RgbToCss(Frame(from, to, t))) == RoundRgb(Frame(from, to, t))
  {
    RoundedLerpBytes(from, to, Ease(t));
    CssRoundTrip(Frame(from, to, t));
  }

  /** `CURRENT_GRADIENT`: the two colours currently painted. */
  class CurrentGradient {
    var top: string
    var bottom: string

    /** Both colours are set; from start-up on this always holds, so the
        immediate-write branch of `Begin` is never taken. */
    predicate Painted()
      reads this
    {
      top != "" && bottom != ""
    }

    /** The start-up assignment from the first computed gradient: the painted
        colours are never empty, and a `#` colour is painted as the same colour. */
    constructor (init: Gradient)
      ensures top == (if init.top == "" then "rgb(0,0,0)" else Normalise(init.top))
      ensures bottom == (if init.bottom == "" then "rgb(20,20,20)" else Normalise(init.bottom))
      ensures Painted()
      ensures IsHexColor(init.top) ==> ParseColor(top) == ParseColor(init.top)
      ensures IsHexColor(init.bottom) ==> ParseColor(bottom) == ParseColor(init.bottom)
    {
      top := if init.top == "" then "rgb(0,0,0)" else Normalise(init.top);
      bottom := if init.bottom == "" then "rgb(20,20,20)" else Normalise(init.bottom);
    }

    /** The synchronous part of `transitionGradient`: with nothing painted yet
        the target is written at once; otherwise the four colours are parsed
        into a plan and nothing is written. */
    method Begin(toTop: string, toBottom: string) returns (plan: Option<Plan>)
      modifies this
      ensures old(top) == "" ==> plan.None? && top == Normalise(toTop) && bottom == Normalise(toBottom)
      ensures old(top) != "" ==>
                plan == Some(Plan(ParseColor(old(top)), ParseColor(old(bottom)), ParseColor(toTop), ParseColor(toBottom)))
                && top == old(top) && bottom == old(bottom)
      ensures old(Painted()) ==> plan.Some? && Painted()
    {
      if top == "" {
        top := Normalise(toTop);
        bottom := Normalise(toBottom);
        plan := None;
      } else {
        plan := Some(Plan(ParseColor(top), ParseColor(bottom), ParseColor(toTop), ParseColor(toBottom)));
      }
    }

    /** One animation frame of the transition started at `start`, seen at `ts`.
        A cancelled transition writes nothing; otherwise both colours are set
        to the eased blend, and another frame is requested while the elapsed
        fraction is below 1. The last frame writes the target colours. */
    method Step(plan: Plan, cancelled: bool, start: real, ts: real, duration: real) returns (more: bool)
      requires duration > 0.0
      modifies this
      ensures cancelled ==> !more && top == old(top) && bottom == old(bottom)
      ensures !cancelled ==>
                top == RgbToCss(Frame(plan.fromTop, plan.toTop, Progress(start, ts, duration)))
                && bottom == RgbToCss(Frame(plan.fromBottom, plan.toBottom, Progress(start, ts, duration)))
                && (more <==> ts - start < duration)
      ensures !cancelled && !more && IsFiniteColor(plan.fromTop) && IsFiniteColor(plan.fromBottom) ==>
                top == RgbToCss(plan.toTop) && bottom == RgbToCss(plan.toBottom)
      ensures old(Painted()) || !cancelled ==> Painted()
    {
      if cancelled {
        return false;
      }
      var t := Progress(start, ts, duration);
      top := RgbToCss(Frame(plan.fromTop, plan.toTop, t));
      bottom := RgbToCss(Frame(plan.fromBottom, plan.toBottom, t));
      more := t < 1.0;
    }
  }
}

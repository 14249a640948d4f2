/** The counter of `ScreenFade.fade`; the drawing it drives is not modelled. */
module Fading {
  import opened Geometry

  /** A screen transition; `direction` 1 is the whole-screen wipe, 2 the downward one. */
  datatype ScreenFade = ScreenFade(direction: int, speed: int, counter: int)

  /** `fade`: advance the counter by the speed; the transition is complete once it reaches the screen width. */
  function Fade(f: ScreenFade): (r: (ScreenFade, bool))
    ensures r.0 == f.(counter := f.counter + f.speed)
    ensures r.1 <==> r.0.counter >= SCREEN_WIDTH
  {
    var c := f.counter + f.speed;
    (f.(counter := c), c >= SCREEN_WIDTH)
  }

  /** The fade after `n` calls. */
  function Fades(f: ScreenFade, n: nat): (r: ScreenFade)
    ensures r.counter == f.counter + n * f.speed
    ensures r.direction == f.direction && r.speed == f.speed
    decreases n
  {
    if n == 0 then f else Fades(Fade(f).0, n - 1)
  }

  /** With a non-negative speed a completed fade stays complete on every later call. */
  lemma {:induction false} FadeStaysComplete(f: ScreenFade, n: nat)
    requires f.speed >= 0 && Fade(f).1
    ensures Fade(Fades(f, n)).1
    decreases n
  {
    if n > 0 {
      FadeStaysComplete(Fade(f).0, n - 1);
    }
  }

  /** The intro transition (speed 4 from 0) first reports completion on its 200th call. */
  lemma FadeTakes200Calls(direction: int, k: nat)
    requires k >= 1
    ensures Fade(Fades(ScreenFade(direction, 4, 0), k - 1)).1 <==> k >= 200
  {
  }
}

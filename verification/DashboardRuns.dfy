/** Every history of mode frames, value updates, page flips and renders. */
module DashboardRuns {
  import opened Ints
  import opened Framebuffer
  import opened Digits
  import opened Dashboard
  import opened DashboardPicture

  /** Frame handlers and the touch handler write any of the values; a mode frame goes through SetMode. */
  datatype Event =
    | SetMode(mode: u8)
    | Update(page: u8, speed: u8, torque: i8, soc: u8, current: u8, ota: u8)
    | Render

  datatype Display = Display(dash: Dash, fb: Buffer)

  function Rendered(s: Display): Display {
    Display(s.dash.(prev := s.dash.mode), Painted(Drawn(s.dash), s.fb))
  }

  function Step(s: Display, e: Event): Display {
    match e
    case SetMode(m) => s.(dash := WithMode(s.dash, m))
    case Update(page, speed, torque, soc, current, ota) =>
      s.(dash := s.dash.(page := page, speed := speed, torque := torque, soc := soc, current := current, ota := ota))
    case Render => Rendered(s)
  }

  /** The display after a history, from initialisation over a framebuffer of any content. */
  function Run(fb: Buffer, es: seq<Event>): Display {
    if es == [] then Display(INITIAL, fb) else Step(Run(fb, es[..|es| - 1]), es[|es| - 1])
  }

  ghost predicate Sound(s: Display) {
    Settled(s.dash) && (s.dash.prev == UNSET || Cached(s.dash.prev, s.fb))
  }

  /** A render of a sound display keeps it sound and, unless the page hides the values, completes the picture. */
  lemma RenderFromSound(s: Display)
    requires Sound(s)
    ensures Sound(Rendered(s))
    ensures Refreshes(s.dash) ==> Rendered(s).fb == Screen(s.dash)
  {
    hide Painted, Body, Cached, Screen;
    var d := s.dash;
    if d.mode != d.prev {
      RedrawIsScreen(d, s.fb);
      ScreenIsCached(d);
    } else {
      assert Drawn(d) == Body(d);
      if d.mode == UNSET {
        BootScreen(d, s.fb);
      } else {
        BodyOnCache(d, s.fb);
      }
    }
  }

  lemma ScreenIsCached(d: Dash)
    ensures Cached(d.mode, Screen(d))
  {
    hide Foreground, Backdrop, Changing;
  }

  /** The boot screen overwrites everything. */
  lemma BootScreen(d: Dash, fb: Buffer)
    requires d.mode == UNSET
    ensures Painted(Body(d), fb) == Screen(d)
  {
    forall i | 0 <= i < PIXELS
      ensures Painted(Body(d), fb)[i] == Screen(d)[i]
    {
      PaintTwo(Fill(FULL, BLACK), Fill(LOGO, WHITE), i % WIDTH, i / WIDTH, fb[i]);
      hide PaintAll;
    }
  }

  lemma {:induction false} RunsAreSound(fb: Buffer, es: seq<Event>)
    ensures Sound(Run(fb, es))
  {
    hide Painted, Cached;
    if es != [] {
      var s := Run(fb, es[..|es| - 1]);
      RunsAreSound(fb, es[..|es| - 1]);
      if es[|es| - 1] == Render {
        RenderFromSound(s);
      }
    }
  }

  /**
   * After any history, a render that shows the values leaves exactly what clearing the
   * screen and drawing everything would leave.
   */
  lemma IncrementalIsRedraw(fb: Buffer, es: seq<Event>)
    requires Refreshes(Run(fb, es).dash)
    ensures var s := Rendered(Run(fb, es)); s.fb == Screen(s.dash) && s.fb == Painted(Redraw(s.dash), fb)
  {
    hide Painted, Screen, Run, Cached;
    var s := Run(fb, es);
    RunsAreSound(fb, es);
    RenderFromSound(s);
    SamePicture(s.dash, s.dash.(prev := s.dash.mode));
    RedrawIsScreen(s.dash.(prev := s.dash.mode), fb);
  }

  /** The picture does not depend on the mode rendered before. */
  lemma SamePicture(d: Dash, e: Dash)
    requires e == d.(prev := e.prev)
    ensures Screen(d) == Screen(e)
  {
    forall px, py
      ensures Picture(d, px, py) == Picture(e, px, py)
    {
      hide Backdrop, Changing, Shows, BarColor;
    }
  }

  // ----- other pages -----

  /** A history that draws the values on page 0 and then turns the page without a clear. */
  function Hiding(d: Dash): seq<Event> {
    ([SetMode(d.mode)] + [Update(0, 0, 0, 0, 0, 0)]) + [Render] +
    [Update(d.page, d.speed, d.torque, d.soc, d.current, d.ota)]
  }

  lemma RunLast(fb: Buffer, es: seq<Event>, e: Event)
    ensures Run(fb, es + [e]) == Step(Run(fb, es), e)
  {
    assert (es + [e])[..|es|] == es;
  }

  /** A pixel that is white whenever the values of a paged screen are shown. */
  function Witness(mode: u8): (int, int) { if mode == 5 then (20, 90) else (125, 91) }

  lemma WitnessIsWhite(d: Dash)
    requires Paged(d.mode) && d.page == 0 && d.speed == 0
    ensures var (px, py) := Witness(d.mode);
            Pixel(px, py) && Changing(d.mode, px, py) && Picture(d, px, py) == WHITE &&
            Backdrop(d.mode, px, py) != WHITE
  {
    if d.mode != 5 {
      assert Shape(0, A) && Covers(Place(A), 15, 4);
      assert Lit(0, 15, 4);
      assert StartY(SPEED) == 87;
      hide Lit;
      assert Shows(SPEED, 0, 125, 91);
    }
  }

  /** Every render that ends in this state leaves the picture of this state. */
  ghost predicate AlwaysCurrent(d: Dash) {
    forall fb, es :: Rendered(Run(fb, es)).dash == d ==> Rendered(Run(fb, es)).fb == Screen(d)
  }

  /** Before the last update of a hiding history the screen shows a speed of zero or two empty bars. */
  lemma HidingRun(d: Dash, fb: Buffer)
    requires Settled(d) && Paged(d.mode)
    ensures var shown := Dash(d.mode, d.mode, 0, d.bg, 0, 0, 0, 0, 0);
            Run(fb, Hiding(d)) == Display(d.(prev := d.mode), Screen(shown))
  {
    hide Painted, Screen, Drawn, Cached, Run, Background;
    var first := [SetMode(d.mode)];
    var second := first + [Update(0, 0, 0, 0, 0, 0)];
    var third := second + [Render];
    assert Run(fb, []) == Display(INITIAL, fb) by { Empty(fb); }
    assert [] + first == first;
    RunLast(fb, [], SetMode(d.mode));
    RunLast(fb, first, Update(0, 0, 0, 0, 0, 0));
    RunLast(fb, second, Render);
    RunLast(fb, third, Update(d.page, d.speed, d.torque, d.soc, d.current, d.ota));
    RunsAreSound(fb, second);
    RenderFromSound(Run(fb, second));
    SamePicture(Run(fb, second).dash, Dash(d.mode, d.mode, 0, d.bg, 0, 0, 0, 0, 0));
  }

  lemma Empty(fb: Buffer)
    ensures Run(fb, []) == Display(INITIAL, fb)
  {
  }

  /** On another page the values of page 0 stay visible where a redraw would show none. */
  lemma HiddenValuesStay(d: Dash, fb: Buffer)
    requires Settled(d) && d.prev == d.mode && !Refreshes(d)
    ensures var s := Rendered(Run(fb, Hiding(d))); s.dash == d && s.fb != Screen(d)
  {
    hide Painted, Run, Hiding, Body, Foreground, Backdrop, Changing, Cached;
    var shown := Dash(d.mode, d.mode, 0, d.bg, 0, 0, 0, 0, 0);
    HidingRun(d, fb);
    ScreenIsCached(shown);
    BodyOnCache(d, Screen(shown));
    assert Drawn(d) == Body(d);
    WitnessIsWhite(shown);
    var (px, py) := Witness(d.mode);
    Position(px, py);
    var i := py * WIDTH + px;
    assert Painted(Body(d), Screen(shown))[i] == Screen(shown)[i] == WHITE;
    assert Screen(d)[i] != WHITE;
  }

  /** The screen is current after every history exactly in the states whose render shows the values. */
  lemma AlwaysCurrentIff(d: Dash)
    requires Settled(d) && d.prev == d.mode
    ensures AlwaysCurrent(d) <==> Refreshes(d)
  {
    hide Painted, Run, Screen, Hiding;
    if Refreshes(d) {
      forall fb, es | Rendered(Run(fb, es)).dash == d
        ensures Rendered(Run(fb, es)).fb == Screen(d)
      {
        IncrementalIsRedraw(fb, es);
      }
    } else {
      var fb := Screen(d);
      HiddenValuesStay(d, fb);
      assert Rendered(Run(fb, Hiding(d))).fb != Screen(d);
    }
  }
}

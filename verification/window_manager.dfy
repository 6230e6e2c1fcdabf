// The window manager of the laptop desktop (js/laptop-screen.js): five named
// windows that open, close, minimise, maximise, come to the front, scroll and
// are dragged. Animations, redraw flags and drawing are not modelled.

module WindowManager {
  import opened Wrappers

  const CanvasWidth: real := 1920.0
  const CanvasHeight: real := 1200.0

  /** The keys of the window dictionary. */
  datatype WindowName = FileManager | About | Projects | Skills | Contact

  /** The windows in the order their entries are declared. */
  const Names: seq<WindowName> := [FileManager, About, Projects, Skills, Contact]

  /** Where a window comes in the declaration order; every window is listed. */
  function IndexOf(n: WindowName): (i: int)
    ensures 0 <= i < |Names| && Names[i] == n
  {
    match n
    case FileManager => 0
    case About => 1
    case Projects => 2
    case Skills => 3
    case Contact => 4
  }

  datatype Rect = Rect(x: real, y: real, w: real, h: real)

  /** One entry of the window dictionary. */
  datatype Window = Window(open: bool, x: real, y: real, w: real, h: real, title: string,
                           zIndex: int, maximized: bool, minimized: bool,
                           scrollY: real, maxScrollY: real)

  function Geometry(win: Window): Rect
  {
    Rect(win.x, win.y, win.w, win.h)
  }

  /** The area a maximised window covers: the whole canvas below the 100-pixel top bar. */
  const FullScreen: Rect := Rect(0.0, 100.0, CanvasWidth, CanvasHeight - 100.0)

  function Min(a: real, b: real): real { if a <= b then a else b }
  function Max(a: real, b: real): real { if a >= b then a else b }

  /** `Math.max(lo, Math.min(hi, v))`. */
  function Clamp(lo: real, hi: real, v: real): (r: real)
    ensures lo <= hi ==> lo <= r <= hi
    ensures lo <= v <= hi ==> r == v
    ensures hi < lo ==> r == lo
  {
    Max(lo, Min(hi, v))
  }

  /** Clamping a clamped value changes nothing. */
  lemma ClampIdempotent(lo: real, hi: real, v: real)
    requires lo <= hi
    ensures Clamp(lo, hi, Clamp(lo, hi, v)) == Clamp(lo, hi, v)
  {
  }

  function MaxInt(a: int, b: int): int { if a >= b then a else b }

  /** bringToFront's `maxZ`: the largest zIndex of the five windows. */
  function MaxZ(ws: map<WindowName, Window>): int
    requires forall n: WindowName :: n in ws
  {
    MaxInt(ws[FileManager].zIndex, MaxInt(ws[About].zIndex,
      MaxInt(ws[Projects].zIndex, MaxInt(ws[Skills].zIndex, ws[Contact].zIndex))))
  }

  /** No window lies above the maximum. */
  lemma MaxZIsMax(ws: map<WindowName, Window>)
    requires forall n: WindowName :: n in ws
    ensures forall n: WindowName :: ws[n].zIndex <= MaxZ(ws)
  {
    forall n: WindowName
      ensures ws[n].zIndex <= MaxZ(ws)
    {
      match n
      case FileManager =>
      case About =>
      case Projects =>
      case Skills =>
      case Contact =>
    }
  }

  /** The maximum is the zIndex of one of the windows. */
  lemma MaxZAttained(ws: map<WindowName, Window>)
    requires forall n: WindowName :: n in ws
    ensures exists n: WindowName :: ws[n].zIndex == MaxZ(ws)
  {
    var m := MaxZ(ws);
    if ws[FileManager].zIndex == m {
    } else if ws[About].zIndex == m {
    } else if ws[Projects].zIndex == m {
    } else if ws[Skills].zIndex == m {
    } else {
      assert ws[Contact].zIndex == m;
    }
  }

  /** toggleMaximize on one window, given the geometry saved for it: returns the window
    * and the saved geometry afterwards. Maximising saves the current geometry and
    * fills the screen; restoring brings the saved geometry back. */
  function ToggleMax(win: Window, saved: Rect): (r: (Window, Rect))
    ensures r.0.maximized == !win.maximized
    ensures r.0.maximized ==> Geometry(r.0) == FullScreen && r.1 == Geometry(win)
    ensures !r.0.maximized ==> Geometry(r.0) == saved && r.1 == saved
    ensures r.0.open == win.open && r.0.minimized == win.minimized && r.0.zIndex == win.zIndex
    ensures r.0.scrollY == win.scrollY && r.0.maxScrollY == win.maxScrollY && r.0.title == win.title
  {
    if !win.maximized then
      (win.(maximized := true, x := FullScreen.x, y := FullScreen.y, w := FullScreen.w, h := FullScreen.h),
       Geometry(win))
    else
      (win.(maximized := false, x := saved.x, y := saved.y, w := saved.w, h := saved.h), saved)
  }

  /** Maximising and then restoring gives back the window exactly. */
  lemma MaximizeThenRestore(win: Window, saved: Rect)
    requires !win.maximized
    ensures var t := ToggleMax(win, saved); ToggleMax(t.0, t.1).0 == win
  {
  }

  /** Restoring and then maximising again gives back a maximised window exactly, as long
    * as it covered the full screen, and the saved geometry is kept. */
  lemma RestoreThenMaximize(win: Window, saved: Rect)
    requires win.maximized && Geometry(win) == FullScreen
    ensures var t := ToggleMax(win, saved); ToggleMax(t.0, t.1) == (win, saved)
  {
  }

  predicate Visible(win: Window)
  {
    win.open && !win.minimized
  }

  /** The pointer is inside the window (edges included). */
  predicate Under(win: Window, px: real, py: real)
  {
    px >= win.x && px <= win.x + win.w && py >= win.y && py <= win.y + win.h
  }

  /** `name` is the window the wheel acts on: visible, under the pointer, and above
    * every other visible window under the pointer. */
  ghost predicate IsTopmostUnder(ws: map<WindowName, Window>, name: WindowName, px: real, py: real)
  {
    name in ws && Visible(ws[name]) && Under(ws[name], px, py) &&
    forall n | n in ws && n != name && Visible(ws[n]) && Under(ws[n], px, py) :: ws[n].zIndex < ws[name].zIndex
  }

  /** There is at most one such window. */
  lemma TopmostUnique(ws: map<WindowName, Window>, a: WindowName, b: WindowName, px: real, py: real)
    requires IsTopmostUnder(ws, a, px, py) && IsTopmostUnder(ws, b, px, py)
    ensures a == b
  {
  }

  /** Open windows never share a zIndex, so "the topmost window" is always one window. */
  ghost predicate OpenZDistinct(ws: map<WindowName, Window>)
  {
    forall a, b | a in ws && b in ws && a != b && ws[a].open && ws[b].open :: ws[a].zIndex != ws[b].zIndex
  }

  /** The same, except for pairs involving `name`. */
  ghost predicate OpenZDistinctBut(ws: map<WindowName, Window>, name: WindowName)
  {
    forall a, b | a in ws && b in ws && a != b && a != name && b != name && ws[a].open && ws[b].open ::
      ws[a].zIndex != ws[b].zIndex
  }

  /** A maximised window covers the full screen; scroll offsets are not negative. */
  predicate WindowOk(win: Window)
  {
    (win.maximized ==> Geometry(win) == FullScreen) && win.scrollY >= 0.0 && win.maxScrollY >= 0.0
  }

  /** Both dictionaries hold all five windows, and each window is in order. */
  ghost predicate WellShaped(ws: map<WindowName, Window>, originals: map<WindowName, Rect>)
  {
    (forall n: WindowName :: n in ws) && (forall n: WindowName :: n in originals) &&
    (forall n | n in ws :: WindowOk(ws[n]))
  }

  /** The dictionary after bringToFront(name). */
  function Fronted(ws: map<WindowName, Window>, name: WindowName): map<WindowName, Window>
    requires forall n: WindowName :: n in ws
  {
    ws[name := ws[name].(zIndex := MaxZ(ws) + 1)]
  }

  /** bringToFront puts the window strictly above every other one and touches no other window. */
  lemma FrontedAbove(ws: map<WindowName, Window>, name: WindowName)
    requires forall n: WindowName :: n in ws
    ensures forall n | n != name :: Fronted(ws, name)[n] == ws[n]
    ensures forall n | n != name :: ws[n].zIndex < Fronted(ws, name)[name].zIndex
  {
    MaxZIsMax(ws);
  }

  /** ... which restores the zIndex distinctness of open windows ... */
  lemma FrontedDistinct(ws: map<WindowName, Window>, name: WindowName)
    requires (forall n: WindowName :: n in ws) && OpenZDistinctBut(ws, name)
    ensures OpenZDistinct(Fronted(ws, name))
  {
    FrontedAbove(ws, name);
    var r := Fronted(ws, name);
    forall a, b | a in r && b in r && a != b && r[a].open && r[b].open
      ensures r[a].zIndex != r[b].zIndex
    {
      if a != name && b != name {
        assert r[a] == ws[a] && r[b] == ws[b];
      }
    }
  }

  /** ... and keeps the dictionaries in shape. */
  lemma FrontedShaped(ws: map<WindowName, Window>, originals: map<WindowName, Rect>, name: WindowName)
    requires WellShaped(ws, originals)
    ensures WellShaped(Fronted(ws, name), originals)
  {
    var r := Fronted(ws, name);
    assert WindowOk(r[name]) by {
      assert Geometry(r[name]) == Geometry(ws[name]);
    }
    forall n: WindowName
      ensures n in r && WindowOk(r[n])
    {
    }
  }

  /** Replacing one window by a window in order keeps the dictionaries in shape, and keeps
    * the open windows' zIndex values distinct as long as the window is closed, or was
    * already open with the same zIndex. */
  lemma ReplaceWindow(ws: map<WindowName, Window>, originals: map<WindowName, Rect>,
                      name: WindowName, win: Window)
    requires WellShaped(ws, originals) && OpenZDistinct(ws) && WindowOk(win)
    ensures WellShaped(ws[name := win], originals) && OpenZDistinctBut(ws[name := win], name)
    ensures !win.open || (ws[name].open && win.zIndex == ws[name].zIndex) ==> OpenZDistinct(ws[name := win])
  {
  }

  /** A window as the constructor creates it: closed, at the back, not scrolled. */
  function Initial(title: string, x: real, y: real, w: real, h: real): Window
  {
    Window(false, x, y, w, h, title, 1, false, false, 0.0, 0.0)
  }

  /** The window dictionary as the constructor declares it. */
  const InitialWindows: map<WindowName, Window> := map[
    FileManager := Initial("File Manager", 200.0, 150.0, 1500.0, 900.0),
    About := Initial("About", 220.0, 160.0, 1480.0, 880.0),
    Projects := Initial("Projects", 210.0, 155.0, 1490.0, 890.0),
    Skills := Initial("Skills", 230.0, 170.0, 1460.0, 860.0),
    Contact := Initial("Contact", 240.0, 180.0, 1440.0, 840.0)]

  class Desktop {
    var windows: map<WindowName, Window>
    /** originalWindowSizes: the geometry each window returns to when restored. */
    var originals: map<WindowName, Rect>

    ghost predicate Valid()
      reads this
    {
      WellShaped(windows, originals) && OpenZDistinct(windows)
    }

    constructor ()
      ensures Valid()
      ensures windows == InitialWindows
      ensures forall n: WindowName :: !windows[n].open && windows[n].zIndex == 1
      ensures forall n: WindowName :: !windows[n].maximized && !windows[n].minimized
      ensures forall n: WindowName :: windows[n].scrollY == 0.0 && windows[n].maxScrollY == 0.0
      ensures forall n: WindowName :: originals[n] == Geometry(windows[n])
    {
      var ws := InitialWindows;
      forall n: WindowName
        ensures n in ws && !ws[n].open && ws[n].zIndex == 1 && WindowOk(ws[n])
        ensures !ws[n].maximized && !ws[n].minimized && ws[n].scrollY == 0.0 && ws[n].maxScrollY == 0.0
      {
        match n
        case FileManager =>
        case About =>
        case Projects =>
        case Skills =>
        case Contact =>
      }
      windows := ws;
      originals := map n | n in ws :: Geometry(ws[n]);
    }

    /** bringToFront: the window gets the largest zIndex plus one. */
    method BringToFront(name: WindowName)
      requires WellShaped(windows, originals) && OpenZDistinctBut(windows, name)
      modifies this
      ensures Valid() && originals == old(originals)
      ensures windows == Fronted(old(windows), name)
    {
      FrontedShaped(windows, originals, name);
      FrontedDistinct(windows, name);
      var maxZ := MaxZ(windows);
      windows := windows[name := windows[name].(zIndex := maxZ + 1)];
    }

    /** toggleWindow: opens a closed window, restores a minimised one, and in every case
      * brings it to the front. */
    method ToggleWindow(name: WindowName)
      requires Valid()
      modifies this
      ensures Valid() && originals == old(originals)
      ensures var win := old(windows)[name];
              windows == if !win.open then Fronted(old(windows)[name := win.(open := true, minimized := false, scrollY := 0.0)], name)
                         else if win.minimized then Fronted(old(windows)[name := win.(minimized := false)], name)
                         else Fronted(old(windows), name)
      ensures Visible(windows[name]) && forall n | n != name :: windows[n].zIndex < windows[name].zIndex
    {
      var win := windows[name];
      ghost var before := windows;
      if !win.open {
        win := win.(open := true, minimized := false, scrollY := 0.0);
        ReplaceWindow(windows, originals, name, win);
        windows := windows[name := win];
        before := windows;
        BringToFront(name);
      } else if win.minimized {
        before := windows[name := win.(minimized := false)];
        RestoreWindow(name);
      } else {
        BringToFront(name);
      }
      FrontedAbove(before, name);
    }

    /** The body closeWindow runs after its closing animation: the window is closed and
      * unscrolled, and a maximised window gets its saved geometry back. */
    method FinishClose(name: WindowName)
      requires Valid()
      modifies this
      ensures Valid() && originals == old(originals)
      ensures var win := old(windows)[name];
              var closed := win.(open := false, minimized := false, scrollY := 0.0);
              var o := old(originals)[name];
              windows == old(windows)[name :=
                if win.maximized then closed.(x := o.x, y := o.y, w := o.w, h := o.h, maximized := false)
                else closed]
    {
      var win := windows[name];
      win := win.(open := false, minimized := false, scrollY := 0.0);
      if win.maximized {
        var o := originals[name];
        win := win.(x := o.x, y := o.y, w := o.w, h := o.h, maximized := false);
      }
      ReplaceWindow(windows, originals, name, win);
      windows := windows[name := win];
    }

    /** minimizeWindow. */
    method MinimizeWindow(name: WindowName)
      requires Valid()
      modifies this
      ensures Valid() && originals == old(originals)
      ensures windows == old(windows)[name := old(windows)[name].(minimized := true)]
    {
      var win := windows[name].(minimized := true);
      ReplaceWindow(windows, originals, name, win);
      windows := windows[name := win];
    }

    /** restoreWindow: un-minimises the window and brings it to the front. */
    method RestoreWindow(name: WindowName)
      requires Valid()
      modifies this
      ensures Valid() && originals == old(originals)
      ensures windows == Fronted(old(windows)[name := old(windows)[name].(minimized := false)], name)
    {
      var win := windows[name].(minimized := false);
      ReplaceWindow(windows, originals, name, win);
      windows := windows[name := win];
      BringToFront(name);
    }

    /** toggleMaximize, then bringToFront. */
    method ToggleMaximize(name: WindowName)
      requires Valid()
      modifies this
      ensures Valid()
      ensures var t := ToggleMax(old(windows)[name], old(originals)[name]);
              windows == Fronted(old(windows)[name := t.0], name) &&
              originals == old(originals)[name := t.1]
    {
      var win := windows[name];
      win := win.(maximized := !win.maximized);
      if win.maximized {
        originals := originals[name := Rect(win.x, win.y, win.w, win.h)];
        win := win.(x := 0.0, y := 100.0, w := CanvasWidth, h := CanvasHeight - 100.0);
      } else {
        var o := originals[name];
        win := win.(x := o.x, y := o.y, w := o.w, h := o.h);
      }
      ReplaceWindow(windows, originals, name, win);
      windows := windows[name := win];
      BringToFront(name);
    }

    /** The scroll bound drawWindowContent records for a window whose content is
      * `totalHeight` tall: the part that does not fit below the 140-pixel header, or 0
      * when it all fits. The scroll offset itself is left as it is. */
    method MeasureContent(name: WindowName, totalHeight: real)
      requires Valid()
      modifies this
      ensures Valid() && originals == old(originals)
      ensures var win := old(windows)[name];
              windows == old(windows)[name := win.(maxScrollY := Max(0.0, totalHeight - (win.h - 140.0)))]
      ensures windows[name].maxScrollY >= 0.0
      ensures windows[name].maxScrollY > 0.0 <==> totalHeight > windows[name].h - 140.0
    {
      var win := windows[name];
      var visibleHeight := win.h - 140.0;
      win := win.(maxScrollY := Max(0.0, totalHeight - visibleHeight));
      ReplaceWindow(windows, originals, name, win);
      windows := windows[name := win];
    }

    /** The window onWheel scrolls: of the open, non-minimised windows under the pointer,
      * the one with the largest zIndex, the first in declaration order on a tie (the
      * order a stable sort by decreasing zIndex leaves them in). */
    method TopmostUnder(px: real, py: real) returns (found: Option<WindowName>)
      requires Valid()
      ensures found.Some? ==> IsTopmostUnder(windows, found.value, px, py)
      ensures found.None? <==> forall n: WindowName :: !(Visible(windows[n]) && Under(windows[n], px, py))
    {
      found := None;
      for i := 0 to |Names|
        invariant found.None? <==> forall j | 0 <= j < i :: !(Visible(windows[Names[j]]) && Under(windows[Names[j]], px, py))
        invariant found.Some? ==> Visible(windows[found.value]) && Under(windows[found.value], px, py)
        invariant found.Some? ==> forall j | 0 <= j < i && Visible(windows[Names[j]]) && Under(windows[Names[j]], px, py) ::
                                    windows[Names[j]].zIndex <= windows[found.value].zIndex
      {
        var win := windows[Names[i]];
        if Visible(win) && Under(win, px, py) && (found.None? || win.zIndex > windows[found.value].zIndex) {
          found := Some(Names[i]);
        }
      }
      forall n: WindowName | Visible(windows[n]) && Under(windows[n], px, py)
        ensures found.Some? && (n != found.value ==> windows[n].zIndex < windows[found.value].zIndex)
      {
        assert Names[IndexOf(n)] == n;
      }
    }

    /** onWheel: the topmost window under the pointer scrolls by half the wheel delta,
      * kept within [0, maxScrollY], if it has anything to scroll. */
    method Wheel(px: real, py: real, deltaY: real)
      requires Valid()
      modifies this
      ensures Valid() && originals == old(originals)
      ensures (forall n: WindowName :: !(Visible(old(windows)[n]) && Under(old(windows)[n], px, py))) ==>
                windows == old(windows)
      ensures (exists n: WindowName :: Visible(old(windows)[n]) && Under(old(windows)[n], px, py)) ==>
                exists n: WindowName :: IsTopmostUnder(old(windows), n, px, py)
      ensures forall n | IsTopmostUnder(old(windows), n, px, py) ::
                var win := old(windows)[n];
                windows == if win.maxScrollY > 0.0
                           then old(windows)[n := win.(scrollY := Clamp(0.0, win.maxScrollY, win.scrollY + deltaY * 0.5))]
                           else old(windows)
    {
      var target := TopmostUnder(px, py);
      if target.Some? {
        forall n | IsTopmostUnder(windows, n, px, py)
          ensures n == target.value
        {
          TopmostUnique(windows, n, target.value, px, py);
        }
        var win := windows[target.value];
        if win.maxScrollY > 0.0 {
          var s := win.scrollY + deltaY * 0.5;
          win := win.(scrollY := Max(0.0, Min(win.maxScrollY, s)));
          ReplaceWindow(windows, originals, target.value, win);
          windows := windows[target.value := win];
        }
      }
    }

    /** onMouseMove while a window is dragged: unless it is maximised or minimised, the
      * window follows the pointer, kept within [0, width - 100] x [0, height - 100]. */
    method Drag(name: WindowName, mouseX: real, mouseY: real, offsetX: real, offsetY: real)
      requires Valid()
      modifies this
      ensures Valid() && originals == old(originals)
      ensures var win := old(windows)[name];
              windows == if win.maximized || win.minimized then old(windows)
                         else old(windows)[name := win.(x := Clamp(0.0, CanvasWidth - 100.0, mouseX - offsetX),
                                                       y := Clamp(0.0, CanvasHeight - 100.0, mouseY - offsetY))]
      ensures !windows[name].maximized && !windows[name].minimized ==>
                0.0 <= windows[name].x <= CanvasWidth - 100.0 && 0.0 <= windows[name].y <= CanvasHeight - 100.0
    {
      var win := windows[name];
      if !win.maximized && !win.minimized {
        var x := mouseX - offsetX;
        var y := mouseY - offsetY;
        x := Max(0.0, Min(CanvasWidth - 100.0, x));
        y := Max(0.0, Min(CanvasHeight - 100.0, y));
        win := win.(x := x, y := y);
        ReplaceWindow(windows, originals, name, win);
        windows := windows[name := win];
      }
    }
  }
}

/**
 * What berry's geometry and decoration routines do to one client record,
 * as pure functions: the frame sizes (`get_dec_*`, `left_width`,
 * `top_height`, `get_actual_*`), the `_NET_FRAME_EXTENTS` values, moving,
 * resizing with the minimum-size hint, refreshing, maximizing ("monocle"),
 * snapping, hiding and showing, removing and restoring the frame, and
 * entering and leaving fullscreen. The window manager's methods are proved
 * to apply exactly these functions; the lemmas below state what the
 * functions promise.
 */
module ClientOps {
  import opened Config
  import opened Types
  import opened Geometry

  function Max(a: int, b: int): int { if a < b then b else a }

  /** Horizontal space the frame adds around the application window. */
  function DecWidth(c: Client, conf: Conf): (r: int)
    ensures r == 2 * LeftWidth(c, conf)
  {
    if c.decorated then 2 * conf.iWidth else 0
  }

  /** Vertical space the frame adds: two inner borders, the title bar and the bottom bar. */
  function DecHeight(c: Client, conf: Conf): (r: int)
    ensures r == TopHeight(c, conf) + (if c.decorated then conf.iWidth + conf.bottomHeight else 0)
    ensures r >= TopHeight(c, conf) >= LeftWidth(c, conf) >= 0
  {
    if c.decorated then 2 * conf.iWidth + conf.tHeight + conf.bottomHeight else 0
  }

  /** Offset of the application window from the frame's left edge. */
  function LeftWidth(c: Client, conf: Conf): (r: int)
    ensures r >= 0 && (!c.decorated ==> r == 0)
  {
    if c.decorated then conf.iWidth else 0
  }

  /** Offset of the application window from the frame's top edge. */
  function TopHeight(c: Client, conf: Conf): (r: int)
    ensures r == LeftWidth(c, conf) + (if c.decorated then conf.tHeight else 0)
  {
    if c.decorated then conf.tHeight + conf.iWidth else 0
  }

  /** Outer left edge of the frame, X border included. */
  function ActualX(c: Client, conf: Conf): (r: int)
    ensures r == c.geom.x - LeftWidth(c, conf) - (if c.decorated then conf.bWidth else 0)
    ensures !c.decorated ==> r == c.geom.x
  {
    c.geom.x - (if c.decorated then conf.bWidth else 0) - (if c.decorated then conf.iWidth else 0)
  }

  /** Outer top edge of the frame, X border included. */
  function ActualY(c: Client, conf: Conf): (r: int)
    ensures r == c.geom.y - TopHeight(c, conf) - (if c.decorated then conf.bWidth else 0)
    ensures !c.decorated ==> r == c.geom.y
  {
    c.geom.y - (if c.decorated then conf.bWidth else 0) - (if c.decorated then conf.iWidth else 0)
      - (if c.decorated then conf.tHeight else 0)
  }

  /** Width of the frame window, X border excluded. */
  function ActualWidth(c: Client, conf: Conf): (r: int)
    ensures r == LeftWidth(c, conf) + c.geom.width + LeftWidth(c, conf)
  {
    c.geom.width + DecWidth(c, conf)
  }

  /** Height of the frame window, X border excluded. */
  function ActualHeight(c: Client, conf: Conf): (r: int)
    ensures r == TopHeight(c, conf) + c.geom.height + (if c.decorated then conf.iWidth + conf.bottomHeight else 0)
  {
    c.geom.height + DecHeight(c, conf)
  }

  datatype Extents = Extents(left: int, right: int, top: int, bottom: int)

  /**
   * The four cardinals published as `_NET_FRAME_EXTENTS`: how far the frame,
   * X border included, reaches beyond the application window on each side.
   */
  function FrameExtents(c: Client, conf: Conf): (e: Extents)
    ensures !c.decorated ==> e == Extents(0, 0, 0, 0)
    ensures e.left == e.right
    ensures c.geom.x - e.left == ActualX(c, conf)
    ensures c.geom.y - e.top == ActualY(c, conf)
    ensures e.left + e.right + c.geom.width
         == ActualWidth(c, conf) + 2 * (if c.decorated then conf.bWidth else 0)
    ensures e.top + e.bottom + c.geom.height
         == ActualHeight(c, conf) + 2 * (if c.decorated then conf.bWidth else 0)
  {
    if c.decorated then
      var border := conf.bWidth + conf.iWidth;
      Extents(border, border, border + conf.tHeight, border + conf.bottomHeight)
    else
      Extents(0, 0, 0, 0)
  }

  /** `client_move_absolute`: the window goes to (x, y); any move ends maximized state. */
  function MovedTo(c: Client, x: int, y: int): (r: Client)
    ensures r.geom == Geom(x, y, c.geom.width, c.geom.height) && !r.mono
    ensures r.(geom := c.geom, mono := c.mono) == c
  {
    c.(geom := c.geom.(x := x, y := y), mono := false)
  }

  /** `client_resize_absolute`: the size is raised to the minimum-size hint; any resize ends maximized state. */
  function ResizedTo(c: Client, w: int, h: int): (r: Client)
    ensures r.geom.x == c.geom.x && r.geom.y == c.geom.y && !r.mono
    ensures r.geom.width >= c.minWidth && r.geom.height >= c.minHeight
    ensures r.geom.width >= w && r.geom.height >= h
    ensures w >= c.minWidth ==> r.geom.width == w
    ensures h >= c.minHeight ==> r.geom.height == h
    ensures r.(geom := c.geom, mono := c.mono) == c
  {
    c.(geom := c.geom.(width := Max(c.minWidth, w), height := Max(c.minHeight, h)), mono := false)
  }

  /** `client_refresh`: move and resize in place twice, keeping the maximized flag. */
  function Refreshed(c: Client): (r: Client)
    ensures r.geom.x == c.geom.x && r.geom.y == c.geom.y
    ensures r.geom.width >= c.minWidth && r.geom.height >= c.minHeight
    ensures c.geom.width >= c.minWidth ==> r.geom.width == c.geom.width
    ensures c.geom.height >= c.minHeight ==> r.geom.height == c.geom.height
    ensures r.(geom := c.geom) == c
  {
    c.(geom := c.geom.(width := Max(c.minWidth, c.geom.width), height := Max(c.minHeight, c.geom.height)))
  }

  /** A client whose size already meets its minimum hint. */
  predicate MeetsMinimum(c: Client)
    ensures MeetsMinimum(c) <==> Refreshed(c) == c
  {
    c.geom.width >= c.minWidth && c.geom.height >= c.minHeight
  }

  /** Refreshing only enforces the minimum size: it is idempotent and changes nothing else. */
  lemma RefreshOnlyClamps(c: Client)
    ensures MeetsMinimum(Refreshed(c))
    ensures Refreshed(Refreshed(c)) == Refreshed(c)
    ensures MeetsMinimum(c) ==> Refreshed(c) == c
    ensures Refreshed(c).geom.x == c.geom.x && Refreshed(c).geom.y == c.geom.y
    ensures Refreshed(c).(geom := c.geom) == c
  {
  }

  /** `client_monocle`: toggle between the saved geometry and the monitor inset by the gaps. */
  function Monocled(c: Client, m: Monitor, conf: Conf): (r: Client)
    ensures r.mono == !c.mono
    ensures r.window == c.window && r.ws == c.ws && r.hidden == c.hidden && r.decorated == c.decorated
    ensures c.mono ==> r.geom.x == c.prev.x && r.geom.y == c.prev.y && r.prev == c.prev
    ensures c.mono && c.prev.width >= c.minWidth && c.prev.height >= c.minHeight ==> r.geom == c.prev
    ensures !c.mono ==> r.prev == c.geom
    ensures !c.mono ==> r.geom.x - LeftWidth(c, conf) == m.x + conf.leftGap && r.geom.y - TopHeight(c, conf) == m.y + conf.topGap
  {
    if c.mono then
      ResizedTo(MovedTo(c, c.prev.x, c.prev.y), c.prev.width, c.prev.height).(mono := false)
    else
      var c1 := c.(prev := c.geom);
      var c2 := MovedTo(c1, m.x + LeftWidth(c1, conf) + conf.leftGap, m.y + TopHeight(c1, conf) + conf.topGap);
      ResizedTo(c2, m.width - conf.rightGap - conf.leftGap - DecWidth(c2, conf),
                m.height - conf.topGap - conf.botGap - DecHeight(c2, conf)).(mono := true)
  }

  /**
   * Maximizing saves the geometry and makes the frame fill the monitor less
   * the gaps (when the minimum-size hint does not stand in the way).
   */
  lemma MonocleFillsMonitor(c: Client, m: Monitor, conf: Conf)
    requires !c.mono
    requires m.width - conf.rightGap - conf.leftGap - DecWidth(c, conf) >= c.minWidth
    requires m.height - conf.topGap - conf.botGap - DecHeight(c, conf) >= c.minHeight
    ensures Monocled(c, m, conf).mono && Monocled(c, m, conf).prev == c.geom
    ensures Monocled(c, m, conf).geom.x - LeftWidth(c, conf) == m.x + conf.leftGap
    ensures Monocled(c, m, conf).geom.y - TopHeight(c, conf) == m.y + conf.topGap
    ensures Monocled(c, m, conf).geom.x - LeftWidth(c, conf) + ActualWidth(Monocled(c, m, conf), conf)
         == m.x + m.width - conf.rightGap
    ensures Monocled(c, m, conf).geom.y - TopHeight(c, conf) + ActualHeight(Monocled(c, m, conf), conf)
         == m.y + m.height - conf.botGap
  {
  }

  /** Maximizing twice gives the geometry back and clears the maximized flag. */
  lemma MonocleRoundTrip(c: Client, m: Monitor, conf: Conf)
    requires !c.mono && MeetsMinimum(c)
    ensures Monocled(Monocled(c, m, conf), m, conf).geom == c.geom
    ensures !Monocled(Monocled(c, m, conf), m, conf).mono
    ensures Monocled(Monocled(c, m, conf), m, conf).(geom := c.geom, mono := c.mono, prev := c.prev) == c
  {
  }

  /** `client_snap_left`: fill the left half of the monitor, left and vertical gaps respected. */
  function SnappedLeft(c: Client, m: Monitor, conf: Conf): (r: Client)
    ensures r.geom.x - LeftWidth(c, conf) == m.x + conf.leftGap
    ensures r.geom.y - TopHeight(c, conf) == m.y + conf.topGap
    ensures !r.mono && r.window == c.window && r.ws == c.ws && r.hidden == c.hidden && r.decorated == c.decorated
  {
    var c1 := MovedTo(c, m.x + conf.leftGap + LeftWidth(c, conf), m.y + conf.topGap + TopHeight(c, conf));
    ResizedTo(c1, CDiv(m.width, 2) - conf.leftGap - DecWidth(c1, conf),
              m.height - conf.topGap - conf.botGap - DecHeight(c1, conf))
  }

  /** `client_snap_right`: fill the right half of the monitor, right and vertical gaps respected. */
  function SnappedRight(c: Client, m: Monitor, conf: Conf): (r: Client)
    ensures r.geom.x - LeftWidth(c, conf) == m.x + CDiv(m.width, 2)
    ensures r.geom.y - TopHeight(c, conf) == m.y + conf.topGap
    ensures !r.mono && r.window == c.window && r.ws == c.ws && r.hidden == c.hidden && r.decorated == c.decorated
  {
    var c1 := MovedTo(c, m.x + CDiv(m.width, 2) + LeftWidth(c, conf), m.y + conf.topGap + TopHeight(c, conf));
    ResizedTo(c1, CDiv(m.width, 2) - conf.rightGap - DecWidth(c1, conf),
              m.height - conf.topGap - conf.botGap - DecHeight(c1, conf))
  }

  /**
   * The two halves meet at the monitor's midpoint: the left frame runs from
   * the left gap to the midpoint, the right one from the midpoint to the
   * right gap (one pixel short of it on an odd-width monitor), and both span
   * the same rows.
   */
  lemma SnapHalvesMeet(c: Client, m: Monitor, conf: Conf)
    requires m.width >= 0
    requires CDiv(m.width, 2) - conf.leftGap - DecWidth(c, conf) >= c.minWidth
    requires CDiv(m.width, 2) - conf.rightGap - DecWidth(c, conf) >= c.minWidth
    requires m.height - conf.topGap - conf.botGap - DecHeight(c, conf) >= c.minHeight
    ensures SnappedLeft(c, m, conf).geom.x - LeftWidth(c, conf) == m.x + conf.leftGap
    ensures SnappedLeft(c, m, conf).geom.x - LeftWidth(c, conf) + ActualWidth(SnappedLeft(c, m, conf), conf)
         == SnappedRight(c, m, conf).geom.x - LeftWidth(c, conf)
         == m.x + m.width / 2
    ensures SnappedRight(c, m, conf).geom.x - LeftWidth(c, conf) + ActualWidth(SnappedRight(c, m, conf), conf)
         == m.x + m.width - m.width % 2 - conf.rightGap
    ensures SnappedLeft(c, m, conf).geom.y == SnappedRight(c, m, conf).geom.y
    ensures SnappedLeft(c, m, conf).geom.height == SnappedRight(c, m, conf).geom.height
    ensures SnappedLeft(c, m, conf).geom.y - TopHeight(c, conf) + ActualHeight(SnappedLeft(c, m, conf), conf)
         == m.y + m.height - conf.botGap
  {
  }

  /**
   * `client_center_in_rect` on one record, the gap difference taken as a
   * signed number: the window's centre goes to the centre of the rectangle
   * less the gaps (up to the rounding of `CenterCoord`), and the position is
   * a multiple of 10.
   */
  function CenteredIn(c: Client, x: int, y: int, width: U32, height: U32, conf: Conf): (r: Client)
    ensures r.geom.x % 10 == 0 && r.geom.y % 10 == 0 && MeetsMinimum(r) && !r.mono
    ensures MeetsMinimum(c) ==> r.geom.width == c.geom.width && r.geom.height == c.geom.height
    ensures -3 <= 2 * r.geom.x + c.geom.width - (2 * x + conf.leftGap + width - conf.rightGap) <= 20
    ensures -3 <= 2 * r.geom.y + c.geom.height - (2 * y + conf.topGap + height - conf.botGap) <= 20
  {
    Refreshed(MovedTo(c, CenterCoord(x, conf.leftGap, conf.rightGap, width, c.geom.width),
                      CenterCoord(y, conf.topGap, conf.botGap, height, c.geom.height)))
  }

  /** `client_center_in_rect` on one record exactly as written, with the unsigned gap difference and C's `ceil10`. */
  function CenteredInAsWritten(c: Client, x: int, y: int, width: U32, height: U32, conf: Conf): (r: Client)
    ensures r.geom.x % 10 == 0 && r.geom.y % 10 == 0 && MeetsMinimum(r) && !r.mono
    ensures MeetsMinimum(c) ==> r.geom.width == c.geom.width && r.geom.height == c.geom.height
  {
    Refreshed(MovedTo(c, CenterCoordAsWritten(x, conf.leftGap, conf.rightGap, width, c.geom.width),
                      CenterCoordAsWritten(y, conf.topGap, conf.botGap, height, c.geom.height)))
  }

  /**
   * The placement the model uses is berry's own whenever the left gap is at
   * least the right one, the top gap at least the bottom one, and neither
   * coordinate before rounding is below -9 or beyond the `int` range.
   */
  lemma CenteredInAgrees(c: Client, x: int, y: int, width: U32, height: U32, conf: Conf)
    requires conf.rightGap <= conf.leftGap && conf.botGap <= conf.topGap
    requires -9 <= x + (conf.leftGap - conf.rightGap) / 2 + width / 2 - CDiv(c.geom.width, 2) < 0x8000_0000
    requires -9 <= y + (conf.topGap - conf.botGap) / 2 + height / 2 - CDiv(c.geom.height, 2) < 0x8000_0000
    ensures CenteredInAsWritten(c, x, y, width, height, conf) == CenteredIn(c, x, y, width, height, conf)
  {
    CenterCoordAgrees(x, conf.leftGap, conf.rightGap, width, c.geom.width);
    CenterCoordAgrees(y, conf.topGap, conf.botGap, height, c.geom.height);
  }

  /** `client_hide`: remember x, park the window right of the display, mark it hidden; a hidden client is left alone. */
  function Hidden(c: Client, displayWidth: int): (r: Client)
    ensures r.hidden && r.window == c.window && r.ws == c.ws
    ensures c.hidden ==> r == c
    ensures !c.hidden ==> r.xHide == c.geom.x && r.geom == c.geom.(x := displayWidth + 100)
  {
    if c.hidden then c
    else MovedTo(c.(xHide := c.geom.x), displayWidth + 100, c.geom.y).(hidden := true)
  }

  /** `client_show`: a hidden client returns to the remembered x and is no longer hidden. */
  function Shown(c: Client): (r: Client)
    ensures !r.hidden && r.window == c.window && r.ws == c.ws
    ensures !c.hidden ==> r == c
    ensures c.hidden ==> r.geom == c.geom.(x := c.xHide)
  {
    if !c.hidden then c
    else MovedTo(c, c.xHide, c.geom.y).(hidden := false)
  }

  /**
   * Hiding parks only the x coordinate, hiding twice is hiding once, and
   * showing afterwards brings the geometry back. Both moves clear the
   * maximized flag, so a maximized client comes back unmaximized.
   */
  lemma HideShowRoundTrip(c: Client, displayWidth: int)
    requires !c.hidden
    ensures Hidden(c, displayWidth).hidden && Hidden(c, displayWidth).xHide == c.geom.x
    ensures Hidden(c, displayWidth).geom == c.geom.(x := displayWidth + 100)
    ensures Hidden(Hidden(c, displayWidth), displayWidth) == Hidden(c, displayWidth)
    ensures Shown(Hidden(c, displayWidth)).geom == c.geom
    ensures !Shown(Hidden(c, displayWidth)).hidden && !Shown(Hidden(c, displayWidth)).mono
    ensures Shown(Hidden(c, displayWidth)).(xHide := c.xHide, mono := c.mono) == c
  {
  }

  /** What `switch_ws` does to a client of a workspace it hides: hide, then put the hidden flag back. */
  function Stashed(c: Client, displayWidth: int): (r: Client)
    ensures r.hidden == c.hidden && r.window == c.window && r.ws == c.ws
  {
    Hidden(c, displayWidth).(hidden := c.hidden)
  }

  /** What `switch_ws` does to a client of the workspace it shows: a visible one is marked hidden, then shown. */
  function Revealed(c: Client): (r: Client)
    ensures r.hidden == c.hidden && r.window == c.window && r.ws == c.ws
  {
    if c.hidden then c else Shown(c.(hidden := true))
  }

  /**
   * Switching away and back returns a visible client to where it was, and
   * leaves a hidden one untouched.
   */
  lemma StashRevealRoundTrip(c: Client, displayWidth: int)
    ensures Revealed(Stashed(c, displayWidth)).geom == c.geom
    ensures c.hidden ==> Revealed(Stashed(c, displayWidth)) == c
  {
  }

  /** `client_decorations_destroy`: a maximized or fullscreen client grows into the frame's area. */
  function DecorationsDestroyed(c: Client, conf: Conf): (r: Client)
    ensures !r.decorated && r.window == c.window && r.ws == c.ws && r.hidden == c.hidden && r.mono == c.mono
    ensures c.mono || c.fullscreen ==> r.geom.x == c.geom.x - LeftWidth(c, conf) && r.geom.y == c.geom.y - TopHeight(c, conf)
    ensures c.mono || c.fullscreen ==> r.geom.width >= ActualWidth(c, conf) && r.geom.height >= ActualHeight(c, conf)
    ensures !(c.mono || c.fullscreen) ==> r.geom.x == c.geom.x && r.geom.y == c.geom.y
  {
    var c1 :=
      if c.mono || c.fullscreen then
        c.(geom := Geom(c.geom.x - LeftWidth(c, conf), c.geom.y - TopHeight(c, conf),
                        ActualWidth(c, conf), ActualHeight(c, conf)))
      else c;
    Refreshed(c1.(decorated := false))
  }

  /** `client_decorations_show`: a maximized client shrinks to make room for the new frame. */
  function DecorationsShown(c: Client, conf: Conf): (r: Client)
    ensures r.decorated && r.window == c.window && r.ws == c.ws && r.hidden == c.hidden && r.mono == c.mono
    ensures c.mono ==> r.geom.x - LeftWidth(r, conf) == c.geom.x && r.geom.y - TopHeight(r, conf) == c.geom.y
    ensures !c.mono ==> r.geom.x == c.geom.x && r.geom.y == c.geom.y
  {
    var c1 := c.(decorated := true);
    var c2 :=
      if c1.mono then
        c1.(geom := Geom(c1.geom.x + LeftWidth(c1, conf), c1.geom.y + TopHeight(c1, conf),
                         c1.geom.width - DecWidth(c1, conf), c1.geom.height - DecHeight(c1, conf)))
      else c1;
    Refreshed(c2)
  }

  /**
   * Removing the frame keeps a maximized client's outer rectangle, and
   * toggling decorations twice on a decorated, non-fullscreen client
   * changes nothing.
   */
  lemma DecorationsRoundTrip(c: Client, conf: Conf)
    requires c.decorated && !c.fullscreen && MeetsMinimum(c)
    ensures !DecorationsDestroyed(c, conf).decorated
    ensures c.mono ==> ActualX(DecorationsDestroyed(c, conf), conf) == c.geom.x - LeftWidth(c, conf)
    ensures c.mono ==> ActualWidth(DecorationsDestroyed(c, conf), conf) == ActualWidth(c, conf)
    ensures DecorationsShown(DecorationsDestroyed(c, conf), conf) == c
  {
  }

  /** `client_fullscreen`, entering: drop the frame if configured, save and fill the monitor if configured. */
  function FullscreenEntered(c: Client, m: Monitor, conf: Conf): (r: Client)
    ensures r.fullscreen
    ensures r.ws == c.ws && r.window == c.window && r.hidden == c.hidden
  {
    var c1 := if c.decorated && conf.fsRemoveDec then DecorationsDestroyed(c, conf).(wasFs := true) else c;
    var c2 :=
      if conf.fsMax then ResizedTo(MovedTo(c1.(prev := c1.geom), m.x, m.y), m.width, m.height)
      else c1;
    c2.(fullscreen := true)
  }

  /** The first step of leaving fullscreen: with `max`, back to the geometry saved on entry. */
  function FullscreenRestored(c: Client, max: bool): (r: Client)
    ensures r.window == c.window && r.ws == c.ws && r.hidden == c.hidden
    ensures r.decorated == c.decorated && r.wasFs == c.wasFs && r.fullscreen == c.fullscreen
    ensures max && c.prev.width >= c.minWidth && c.prev.height >= c.minHeight ==> r.geom == c.prev
    ensures !max ==> r == c
  {
    if max then ResizedTo(MovedTo(c, c.prev.x, c.prev.y), c.prev.width, c.prev.height) else c
  }

  /** `client_fullscreen`, leaving: restore the saved geometry when asked, and the frame if entering removed it. */
  function FullscreenLeft(c: Client, conf: Conf, max: bool): (r: Client)
    ensures !r.fullscreen && !r.wasFs
    ensures r.ws == c.ws && r.window == c.window && r.hidden == c.hidden
  {
    var c1 := FullscreenRestored(c, max);
    var c2 := if !c1.decorated && conf.fsRemoveDec && c1.wasFs then DecorationsShown(c1, conf) else c1;
    Refreshed(c2.(fullscreen := false, wasFs := false))
  }

  /** The target state of a fullscreen request: the opposite of the current one for a toggle. */
  function FullscreenTarget(c: Client, toggle: bool, fullscreen: bool): (r: bool)
    ensures toggle ==> r != c.fullscreen
    ensures !toggle ==> r == fullscreen
  {
    if toggle then !c.fullscreen else fullscreen
  }

  /**
   * Leaving fullscreen gives the frame back (and with it raises and
   * focuses the client) exactly when entering removed it.
   */
  predicate Redecorates(c: Client, conf: Conf, toggle: bool, fullscreen: bool)
    ensures Redecorates(c, conf, toggle, fullscreen)
        ==> FullscreenLeft(c, conf, true).decorated && FullscreenLeft(c, conf, false).decorated
  {
    c.fullscreen && !FullscreenTarget(c, toggle, fullscreen) && !c.decorated && conf.fsRemoveDec && c.wasFs
  }

  /** `client_fullscreen` on one record: nothing happens when the client is already in the target state. */
  function Fullscreened(c: Client, m: Monitor, conf: Conf, toggle: bool, fullscreen: bool, max: bool): (r: Client)
    ensures r.fullscreen == FullscreenTarget(c, toggle, fullscreen)
    ensures FullscreenTarget(c, toggle, fullscreen) == c.fullscreen ==> r == c
    ensures r.ws == c.ws && r.window == c.window && r.hidden == c.hidden
  {
    var toFs := FullscreenTarget(c, toggle, fullscreen);
    if toFs == c.fullscreen then c
    else if toFs then FullscreenEntered(c, m, conf)
    else FullscreenLeft(c, conf, max)
  }

  /** Entering fullscreen with `fs_max` saves the geometry and makes the window cover the monitor. */
  lemma FullscreenFillsMonitor(c: Client, m: Monitor, conf: Conf)
    requires !c.fullscreen && !c.mono && conf.fsMax && MeetsMinimum(c)
    requires m.width >= c.minWidth && m.height >= c.minHeight
    ensures FullscreenEntered(c, m, conf).geom == Geom(m.x, m.y, m.width, m.height)
    ensures FullscreenEntered(c, m, conf).prev == c.geom
    ensures conf.fsRemoveDec ==> !FullscreenEntered(c, m, conf).decorated
    ensures conf.fsRemoveDec ==> ActualWidth(FullscreenEntered(c, m, conf), conf) == m.width
  {
  }

  /**
   * Entering and then leaving fullscreen with `max` gives back the geometry
   * and the frame, and clears `fullscreen` and `was_fs`.
   */
  lemma FullscreenRoundTrip(c: Client, m: Monitor, conf: Conf)
    requires !c.fullscreen && !c.mono && !c.wasFs && conf.fsMax && MeetsMinimum(c)
    ensures FullscreenLeft(FullscreenEntered(c, m, conf), conf, true).geom == c.geom
    ensures FullscreenLeft(FullscreenEntered(c, m, conf), conf, true).decorated == c.decorated
    ensures !FullscreenLeft(FullscreenEntered(c, m, conf), conf, true).fullscreen
    ensures !FullscreenLeft(FullscreenEntered(c, m, conf), conf, true).wasFs
  {
  }
}

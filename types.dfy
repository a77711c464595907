/**
 * The records of types.h: a client's geometry, a monitor rectangle and the
 * managed-client record itself. X resource identifiers (windows, atoms) are
 * opaque numbers, 0 standing for `None`.
 */
module Types {

  type Window = nat
  type Atom = nat
  type Byte = x: int | 0 <= x < 256

  /** X11's `None` window. */
  const NoWindow: Window := 0

  datatype Option<T> = None | Some(value: T)

  /** `struct client_geom`: the application window's position and size, inside its frame. */
  datatype Geom = Geom(x: int, y: int, width: int, height: int)

  /** `struct monitor`: one Xinerama screen. */
  datatype Monitor = Monitor(x: int, y: int, width: int, height: int, screen: int)

  /**
   * `struct client`, without its list links (the lists are kept as sequences
   * by the window manager). `dec` is the frame window, `xHide` the x to return
   * to when shown again, `prev` the geometry saved by maximize and fullscreen.
   * `classHint` records whether the window had a WM_CLASS hint, and
   * `minWidth`/`minHeight` are its WM_NORMAL_HINTS minimum size.
   */
  datatype Client = Client(
    window: Window, dec: Window, ws: int, xHide: int,
    decorated: bool, hidden: bool, fullscreen: bool, mono: bool, wasFs: bool,
    geom: Geom, prev: Geom, title: seq<Byte>, classHint: bool,
    minWidth: int, minHeight: int)

  /**
   * The atoms berry interns at start-up and compares against. Their values
   * are opaque: only equality between them matters. (berry interns the
   * tooltip type under the misspelt name `_NET_WM_WINDOW_TYPE_TOOLIP`, which
   * makes `typeTooltip` an atom no client uses, but still a distinct one.)
   */
  datatype Atoms = Atoms(
    netWmState: Atom, stateFullscreen: Atom, stateMaxVert: Atom, stateMaxHorz: Atom,
    activeWindow: Atom, currentDesktop: Atom, moveResize: Atom, wmChangeState: Atom,
    berryWindowConfig: Atom,
    typeMenu: Atom, typeToolbar: Atom, typeDock: Atom, typeDialog: Atom, typeUtility: Atom,
    typeSplash: Atom, typePopupMenu: Atom, typeDropdownMenu: Atom, typeTooltip: Atom,
    typeNotification: Atom, typeCombo: Atom, typeDnd: Atom)
}

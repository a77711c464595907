/**
 * The tests `manage_new_window` applies before it adopts a window: the
 * `_NET_WM_WINDOW_TYPE` filter (only the first atom of the property is
 * consulted) and the Motif "no decorations" hint.
 */
module Admission {
  import opened Config
  import opened Types

  /** How berry classifies a window type atom. */
  datatype Kind =
    | Configurable(t: WindowType)  // a kind with a `conf.manage` entry
    | Unmanageable                 // popup and dropdown menus, tooltips, notifications, combo boxes, drag-and-drop icons
    | Ordinary                     // any other atom, `_NET_WM_WINDOW_TYPE_NORMAL` among them

  /** The classification, independent of the configuration. */
  function KindOf(prop: Atom, a: Atoms): (k: Kind)
    ensures k == Ordinary <==> prop !in {a.typeDock, a.typeToolbar, a.typeUtility, a.typeDialog, a.typeMenu, a.typeSplash,
                                         a.typePopupMenu, a.typeDropdownMenu, a.typeTooltip, a.typeNotification, a.typeCombo, a.typeDnd}
    ensures k == Unmanageable ==> prop in {a.typePopupMenu, a.typeDropdownMenu, a.typeTooltip, a.typeNotification, a.typeCombo, a.typeDnd}
    ensures k.Configurable? ==> prop in {a.typeDock, a.typeToolbar, a.typeUtility, a.typeDialog, a.typeMenu, a.typeSplash}
  {
    if prop == a.typeDock then Configurable(Dock)
    else if prop == a.typeToolbar then Configurable(Toolbar)
    else if prop == a.typeUtility then Configurable(Utility)
    else if prop == a.typeDialog then Configurable(Dialog)
    else if prop == a.typeMenu then Configurable(Menu)
    else if prop == a.typeSplash then Configurable(Splash)
    else if prop in {a.typePopupMenu, a.typeDropdownMenu, a.typeTooltip,
                     a.typeNotification, a.typeCombo, a.typeDnd} then Unmanageable
    else Ordinary
  }

  /**
   * The interned atoms are told apart: each configurable kind's atom is
   * classified as that kind, and each of the six others as unmanageable.
   */
  predicate Recognised(a: Atoms)
  {
    && KindOf(a.typeDock, a) == Configurable(Dock)
    && KindOf(a.typeToolbar, a) == Configurable(Toolbar)
    && KindOf(a.typeUtility, a) == Configurable(Utility)
    && KindOf(a.typeDialog, a) == Configurable(Dialog)
    && KindOf(a.typeMenu, a) == Configurable(Menu)
    && KindOf(a.typeSplash, a) == Configurable(Splash)
    && KindOf(a.typePopupMenu, a) == Unmanageable
    && KindOf(a.typeDropdownMenu, a) == Unmanageable
    && KindOf(a.typeTooltip, a) == Unmanageable
    && KindOf(a.typeNotification, a) == Unmanageable
    && KindOf(a.typeCombo, a) == Unmanageable
    && KindOf(a.typeDnd, a) == Unmanageable
  }

  /**
   * The type filter of `manage_new_window`, on the first atom of the
   * window's `_NET_WM_WINDOW_TYPE`: true means the window is mapped but not
   * managed. Splash screens have no clause of their own, so their
   * `conf.manage` entry is never consulted.
   */
  function TypeRejected(prop: Atom, a: Atoms, conf: Conf): (r: bool)
    ensures Recognised(a) ==>
      (r <==> match KindOf(prop, a)
               case Unmanageable => true
               case Configurable(t) => t != Splash && t !in conf.manage
               case Ordinary => false)
  {
    (prop == a.typeDock && Dock !in conf.manage) ||
    (prop == a.typeToolbar && Toolbar !in conf.manage) ||
    (prop == a.typeUtility && Utility !in conf.manage) ||
    (prop == a.typeDialog && Dialog !in conf.manage) ||
    (prop == a.typeMenu && Menu !in conf.manage) ||
    prop == a.typePopupMenu ||
    prop == a.typeDropdownMenu ||
    prop == a.typeTooltip ||
    prop == a.typeNotification ||
    prop == a.typeCombo ||
    prop == a.typeDnd
  }

  /**
   * The outcome of reading `_NET_WM_WINDOW_TYPE`: the read failed, the
   * property is absent, or the first atom it holds.
   */
  datatype TypeProperty = ReadFailed | Absent | FirstAtom(atom: Atom)

  /** Only a successfully read, present property can keep a window out. */
  function Filtered(p: TypeProperty, a: Atoms, conf: Conf): (r: bool)
    ensures r ==> p.FirstAtom?
    ensures p.FirstAtom? ==> r == TypeRejected(p.atom, a, conf)
  {
    match p
    case FirstAtom(atom) => TypeRejected(atom, a, conf)
    case _ => false
  }

  /** The six unmanageable kinds are turned away whatever the configuration. */
  lemma UnmanageableAlwaysRejected(prop: Atom, a: Atoms, conf: Conf)
    requires Recognised(a) && KindOf(prop, a) == Unmanageable
    ensures TypeRejected(prop, a, conf)
  {
  }

  /** A dock, toolbar, utility, dialog or menu window is turned away exactly when its kind is not managed. */
  lemma ConfigurableFollowsConfig(t: WindowType, prop: Atom, a: Atoms, conf: Conf)
    requires Recognised(a) && KindOf(prop, a) == Configurable(t) && t != Splash
    ensures TypeRejected(prop, a, conf) <==> t !in conf.manage
  {
  }

  /**
   * A splash screen is managed even though the default configuration
   * switches its kind off.
   */
  lemma SplashAlwaysAdmitted(a: Atoms)
    requires Recognised(a)
    ensures Splash !in DefaultConf().manage
    ensures !TypeRejected(a.typeSplash, a, DefaultConf())
  {
  }

  /** `struct MotifWmHints` as read from `_MOTIF_WM_HINTS`. */
  datatype MotifHints = MotifHints(flags: bv64, functions: bv64, decorations: bv64, inputMode: int, status: bv64)

  /** `MWM_HINTS_DECORATIONS`: the `decorations` field is meaningful. */
  const MwmHintsDecorations: bv64 := 1 << 1

  /**
   * `window_is_undecorated`: the window asked for no decorations at all.
   * `None` stands for a failed read or an absent property.
   */
  function Undecorated(hints: Option<MotifHints>): (r: bool)
    ensures r ==> hints.Some? && hints.value.decorations == 0
    ensures hints.Some? && hints.value.decorations == 0 && hints.value.flags & MwmHintsDecorations != 0 ==> r
  {
    hints.Some? && hints.value.flags & MwmHintsDecorations != 0 && hints.value.decorations == 0
  }

  /** Without the decorations flag, the decorations field is ignored; other flag bits never matter. */
  lemma DecorationsFlagGates(h: MotifHints, d: bv64, other: bv64)
    requires other & MwmHintsDecorations == 0
    ensures h.flags & MwmHintsDecorations == 0 ==> !Undecorated(Some(h.(decorations := d)))
    ensures Undecorated(Some(h.(flags := h.flags | other))) == Undecorated(Some(h))
  {
    assert (h.flags | other) & MwmHintsDecorations == h.flags & MwmHintsDecorations;
  }
}

/**
 * Compile-time constants of berry (config.h) and the runtime configuration
 * record `struct config` (types.h), with the defaults `setup` installs.
 */
module Config {

  /** Number of virtual workspaces. */
  const WorkspaceNumber: nat := 2

  const BorderWidth: nat := 0
  const InternalBorderWidth: nat := 4
  const TitleHeight: nat := 28
  const BottomHeight: nat := 8

  const MoveStep: nat := 40
  const ResizeStep: nat := 40
  const TopGap: nat := 0
  const BotGap: nat := 0

  const BorderUnfocusColor: nat := 0x000000
  const BorderFocusColor: nat := 0x000000
  const InnerUnfocusColor: nat := 0x353b3b
  const InnerFocusColor: nat := 0x868c22

  const MoveButton: nat := 1
  const ResizeButton: nat := 3
  /** X11's Mod4Mask, the modifier bound to moving and resizing. */
  const Mod4Mask: nat := 64
  const PointerInterval: nat := 0
  /** Two left-button releases closer than this (in milliseconds) are a double click. */
  const DoubleclickInterval: nat := 200

  /** C's `unsigned int` is 32 bits wide. */
  const U32Modulus: int := 0x1_0000_0000
  type U32 = x: int | 0 <= x < 0x1_0000_0000

  /** `enum WindowType`: the window kinds whose management is configurable. */
  datatype WindowType = Dock | Dialog | Toolbar | Menu | Splash | Utility

  /**
   * `struct config`. The unsigned fields come first, in declaration order,
   * each four bytes wide; `manage` holds the kinds whose `manage[]` entry is true.
   */
  datatype Conf = Conf(
    bWidth: U32, iWidth: U32, tHeight: U32, bottomHeight: U32,
    topGap: U32, botGap: U32, leftGap: U32, rightGap: U32,
    rStep: U32, mStep: U32, moveButton: U32, moveMask: U32,
    resizeButton: U32, resizeMask: U32, pointerInterval: U32,
    bfColor: U32, buColor: U32, ifColor: U32, iuColor: U32,
    focusNew: bool, focusMotion: bool, tCenter: bool, smartPlace: bool,
    drawText: bool, decorate: bool, fsRemoveDec: bool, fsMax: bool,
    followPointer: bool, warpPointer: bool,
    manage: set<WindowType>)

  /** The configuration after start-up: the constants above, zero for everything `setup` leaves alone. */
  function DefaultConf(): (c: Conf)
    ensures c.manage == {Dialog, Menu, Utility}
    ensures c.decorate && c.fsRemoveDec && c.fsMax && c.followPointer && !c.warpPointer
    ensures c.leftGap == c.rightGap == c.topGap == c.botGap == 0
  {
    Conf(
      BorderWidth, InternalBorderWidth, TitleHeight, BottomHeight,
      TopGap, BotGap, 0, 0,
      ResizeStep, MoveStep, MoveButton, Mod4Mask,
      ResizeButton, Mod4Mask, PointerInterval,
      BorderFocusColor, BorderUnfocusColor, InnerFocusColor, InnerUnfocusColor,
      true, false, true, true,
      true, true, true, true,
      true, false,
      {Dialog, Menu, Utility})
  }
}

/**
 * Small decision tables of berry: which X errors are ignored (`xerror`),
 * which configuration fields a client may set by byte offset
 * (`update_config` and its `setters` table), how a window title is read
 * into the 512-byte `title` buffer (`client_set_title`), and when a
 * client's self-move inside its frame is undone (`handle_configure_notify`).
 */
module Tables {
  import opened Config
  import opened Types
  import opened ClientOps

  // ---- xerror ----

  /** X protocol error codes. */
  const BadWindow: int := 3
  const BadMatch: int := 8
  const BadDrawable: int := 9
  const BadAccess: int := 10

  /** X protocol request codes. */
  const XConfigureWindow: int := 12
  const XGrabButton: int := 28
  const XGrabKey: int := 33
  const XSetInputFocus: int := 42
  const XCopyArea: int := 62
  const XPolySegment: int := 66
  const XPolyFillRectangle: int := 70
  const XPolyText8: int := 74

  /** The (request, error) pairs berry tolerates besides `BadWindow`; request 139 is an extension's. */
  const TolerablePairs: set<(int, int)> := {
    (XSetInputFocus, BadMatch), (XPolyText8, BadDrawable), (XPolyFillRectangle, BadDrawable),
    (XPolySegment, BadDrawable), (XConfigureWindow, BadMatch), (XGrabButton, BadAccess),
    (XGrabKey, BadAccess), (XCopyArea, BadDrawable), (139, BadDrawable), (139, 143)
  }

  /**
   * `xerror`: true when the error is ignored, false when it is handed to
   * Xlib's default handler (which ends the program).
   */
  function ErrorIgnored(requestCode: int, errorCode: int): (r: bool)
    ensures r <==> errorCode == BadWindow || (requestCode, errorCode) in TolerablePairs
    ensures errorCode !in {BadWindow, BadMatch, BadDrawable, BadAccess, 143} ==> !r
  {
    if errorCode == BadWindow then true
    else
      (requestCode == XSetInputFocus && errorCode == BadMatch) ||
      (requestCode == XPolyText8 && errorCode == BadDrawable) ||
      (requestCode == XPolyFillRectangle && errorCode == BadDrawable) ||
      (requestCode == XPolySegment && errorCode == BadDrawable) ||
      (requestCode == XConfigureWindow && errorCode == BadMatch) ||
      (requestCode == XGrabButton && errorCode == BadAccess) ||
      (requestCode == XGrabKey && errorCode == BadAccess) ||
      (requestCode == XCopyArea && errorCode == BadDrawable) ||
      (requestCode == 139 && errorCode == BadDrawable) ||
      (requestCode == 139 && errorCode == 143)
  }

  // ---- update_config ----

  /** Byte offset of each unsigned field of `struct config` (four bytes each, in declaration order). */
  predicate IsFieldOffset(offset: int)
  {
    0 <= offset < 76 && offset % 4 == 0
  }

  /** The unsigned field of the configuration stored at a byte offset. */
  function FieldAt(c: Conf, offset: int): U32
    requires IsFieldOffset(offset)
  {
    match offset / 4
    case 0 => c.bWidth
    case 1 => c.iWidth
    case 2 => c.tHeight
    case 3 => c.bottomHeight
    case 4 => c.topGap
    case 5 => c.botGap
    case 6 => c.leftGap
    case 7 => c.rightGap
    case 8 => c.rStep
    case 9 => c.mStep
    case 10 => c.moveButton
    case 11 => c.moveMask
    case 12 => c.resizeButton
    case 13 => c.resizeMask
    case 14 => c.pointerInterval
    case 15 => c.bfColor
    case 16 => c.buColor
    case 17 => c.ifColor
    case _ => c.iuColor
  }

  /** The store `*(unsigned int *)((char *)&conf + offset) = value`. */
  function WithField(c: Conf, offset: int, v: U32): (r: Conf)
    requires IsFieldOffset(offset)
    ensures FieldAt(r, offset) == v
    ensures forall o :: IsFieldOffset(o) && o != offset ==> FieldAt(r, o) == FieldAt(c, o)
    ensures r.manage == c.manage && r.decorate == c.decorate && r.fsMax == c.fsMax
         && r.fsRemoveDec == c.fsRemoveDec && r.focusNew == c.focusNew && r.warpPointer == c.warpPointer
  {
    match offset / 4
    case 0 => c.(bWidth := v)
    case 1 => c.(iWidth := v)
    case 2 => c.(tHeight := v)
    case 3 => c.(bottomHeight := v)
    case 4 => c.(topGap := v)
    case 5 => c.(botGap := v)
    case 6 => c.(leftGap := v)
    case 7 => c.(rightGap := v)
    case 8 => c.(rStep := v)
    case 9 => c.(mStep := v)
    case 10 => c.(moveButton := v)
    case 11 => c.(moveMask := v)
    case 12 => c.(resizeButton := v)
    case 13 => c.(resizeMask := v)
    case 14 => c.(pointerInterval := v)
    case 15 => c.(bfColor := v)
    case 16 => c.(buColor := v)
    case 17 => c.(ifColor := v)
    case _ => c.(iuColor := v)
  }

  /**
   * The `setters` table, in order: the four colours, then `b_width`,
   * `i_width`, `t_height` and `bottom_height`.
   */
  const Setters: seq<int> := [60, 64, 68, 72, 0, 4, 8, 12]

  /** Only the frame colours and sizes are reachable; the gaps, steps, buttons and masks are not. */
  lemma SettersAreFrameFields()
    ensures forall o :: o in Setters ==> IsFieldOffset(o)
    ensures forall o :: o in Setters <==> o in {0, 4, 8, 12, 60, 64, 68, 72}
    ensures forall o :: 16 <= o < 60 ==> o !in Setters
  {
  }

  // ---- client_set_title ----

  /** The C string held in a byte buffer: the bytes before the first NUL. */
  function CString(bytes: seq<Byte>): (r: seq<Byte>)
    ensures |r| <= |bytes| && r == bytes[..|r|] && 0 !in r
    ensures |r| < |bytes| ==> bytes[|r|] == 0
  {
    if |bytes| == 0 || bytes[0] == 0 then []
    else [bytes[0]] + CString(bytes[1..])
  }

  /** `strncpy(title, src, 511)` followed by `title[511] = 0`: at most 511 bytes of the C string. */
  function CopyTitle(src: seq<Byte>): (r: seq<Byte>)
    ensures |r| <= 511 && 0 !in r
  {
    var s := CString(src);
    if |s| <= 511 then s else s[..511]
  }

  /**
   * The outcome of reading `_NET_WM_NAME`: the read failed, the text is
   * `STRING` encoded, or it has another encoding and the conversion to the
   * locale's text gave a first string or nothing.
   */
  datatype TitleRead = TitleFailed | Latin1(value: seq<Byte>) | Converted(first: Option<seq<Byte>>)

  /** The title `client_set_title` leaves in the client: empty unless a string was obtained. */
  function Title(read: TitleRead): (t: seq<Byte>)
    ensures |t| <= 511 && 0 !in t
    ensures read.TitleFailed? || read == Converted(None) ==> t == []
  {
    match read
    case TitleFailed => []
    case Latin1(v) => CopyTitle(v)
    case Converted(first) => if first.Some? then CopyTitle(first.value) else []
  }

  /** A title that fits and holds no NUL is kept exactly; a longer one keeps its first 511 bytes. */
  lemma {:induction false} TitleKeepsShortNames(s: seq<Byte>)
    requires 0 !in s
    ensures Title(Latin1(s)) == Title(Converted(Some(s)))
    ensures |s| <= 511 ==> Title(Latin1(s)) == s
    ensures |s| > 511 ==> Title(Latin1(s)) == s[..511]
  {
    CStringWithoutNul(s);
  }

  lemma {:induction false} CStringWithoutNul(s: seq<Byte>)
    requires 0 !in s
    ensures CString(s) == s
  {
    if |s| > 0 {
      assert 0 !in s[1..];
      CStringWithoutNul(s[1..]);
    }
  }

  // ---- handle_configure_notify ----

  /**
   * A configure notification for the client's own window at a position
   * other than its place inside the frame is answered by moving it back.
   */
  function MustSnapBack(c: Client, conf: Conf, eventWindow: Window, x: int, y: int): (r: bool)
    ensures r ==> eventWindow == c.window
    ensures !r && eventWindow == c.window ==> x == LeftWidth(c, conf) && y == TopHeight(c, conf)
  {
    c.window == eventWindow && (x != LeftWidth(c, conf) || y != TopHeight(c, conf))
  }
}

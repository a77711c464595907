# berry, modelled in Dafny

berry is a small X11 window manager written in C, one file, `wm.c`. Most
of that file issues Xlib requests. Under them sits an in-process state
machine, and that is what this project models and proves things about.

The state is a set of globals:

- `c_list[ws]`: the clients of each workspace in stacking order, linked
  through `next`.
- `f_list[ws]`: the same clients in focus order, linked through `f_next`.
- `f_client` and `f_last_client`: the focused client, and the client that
  had the focus before an alt-tab step.
- `curr_ws`, `ws_m_list` and the monitor rectangles: the current
  workspace, each workspace's monitor, and the monitors.
- `conf`: the gaps, frame sizes and feature switches.
- one `struct client` per managed window.

The model is split into modules:

- `Types` and `Config` hold the client record, the monitor, the
  configuration and the constants of `config.h`. There are two
  workspaces.
- `Lists` holds the four list operations berry performs with pointer
  surgery, on sequences of window ids: push at the head, unlink, move to
  the front, and "unlink X and relink it after Y".
- `Registry` holds the invariant tying the two lists of every workspace to
  the clients placed on it: both lists have the same members, no
  duplicates, and each client is on exactly one workspace.
- `Geometry` holds C's truncating `/` and `%`, 32-bit wrap-around and
  `ceil10`.
- `ClientOps` holds what the geometry operations do to one client record
  as pure functions: move, resize with the minimum-size clamp, refresh,
  maximize (monocle), snap halves, centring, hide and show, and adding and
  removing decorations.
- `Wm` holds the `WindowManager` class. Its fields mirror the globals, and
  each C routine that updates them is a method:
  - the registry: `client_save`, `client_delete`, `client_move_to_front`,
    `reorder_focus`, `focus_next`, `get_client_from_window`;
  - focusing: `client_manage_focus`;
  - visibility and workspaces: `client_hide`, `client_show`, `switch_ws`,
    `safe_to_focus`, `client_send_to_ws`, `toggle_hide_all`;
  - fullscreen and decorations: `client_fullscreen` and the decoration
    routines;
  - admission: `manage_new_window`;
  - configuration: `window_find_struts` and `update_config`;
  - keys: alt-tab.

  Each method states its new state exactly, in terms of the pure
  functions. A ghost `roster` map records the workspace of every client;
  this is what the list invariant is stated over.
- `Admission` holds the window-type filter and the Motif "undecorated"
  test.
- `Ewmh` holds client-message decoding and `client_update_state`'s
  `WM_STATE` and `_NET_WM_STATE` output, the latter on a map from property
  names to atom lists. The message format is the one in
  the `_NET_WM_STATE` and `_NET_WM_MOVERESIZE` sections of the Extended
  Window Manager Hints. `WM_STATE` is section 4.1.3.1 of the ICCCM.
- `Struts` holds the strut fold of `window_find_struts`.
- `Input` holds the super-tap and alt-tab flags, `Time` arithmetic, and the
  arithmetic of a pointer drag: each motion event the throttle lets through
  sets the position from the press.
- `Tables` holds the `xerror` table, the `update_config` setters, title
  truncation and the configure-notify snap-back test.

X requests are dropped, and X replies become inputs:

- the window-type property;
- the strut reads of the top-level windows;
- the class hint;
- the Motif hints;
- the frame window the server creates;
- the title read;
- the minimum-size hint.

Some behaviour of the code is kept as written rather than corrected:

- Hiding every client and then showing them all reverses the stacking
  order. Each shown client is raised in turn, so the list ends up reversed
  (`Wm.WindowManager.ShowWorkspace`).
- `safe_to_focus` looks at the top client of every workspace on the same
  monitor, including workspaces that are not on screen
  (`Wm.SafeIgnoresSwitch`).
- A client sent to an unsafe workspace is moved off-screen and then marked
  not hidden (`Wm.Arrived`).
- The focus search at the end of `switch_ws` starts at the head of the
  stacking list but follows the focus links
  (`Wm.FocusCandidate`, `Wm.CandidateMissesEarlierClient`).
- Splash windows are always admitted: the filter has no clause for them,
  whatever `conf.manage` says (`Admission.SplashAlwaysAdmitted`).
- Window-type atoms are opaque values. The tooltip atom is interned under a
  misspelt name, so the model compares atoms and never their names.
- `decorated` comes from the Motif hint alone. A window without a class
  hint gets no frame but can still count as decorated (`Wm.NewClient`).

Centring is the one computation the window manager uses in corrected form.
The unsigned gap difference and the truncating `ceil10` of
`client_center_in_rect` are modelled as written in
`Geometry.CenterCoordAsWritten` and `ClientOps.CenteredInAsWritten`, and
`ClientOps.CenteredInAgrees` states when they give berry's own placement.
The methods place windows with the corrected `ClientOps.CenteredIn`; see
"## Left out" and "## Findings".

## Model

| member | source | states |
|---|---|---|
| Lists.UniqueIsDistinct | wm.c:1266-1274 | "no window appears twice" stated by indices is the same as stated by pairs of positions |
| Lists.UniqueByCount | wm.c:1266-1274 | a list has no duplicates exactly when every window occurs at most once in its multiset |
| Lists.PermutationKeepsUnique | wm.c:1421-1442 | reordering a duplicate-free list keeps it duplicate-free |
| Lists.IndexOf | wm.c:1434-1436 | the walk for a client stops at its first occurrence |
| Lists.IndexOfUnique | wm.c:1434-1436 | a position holding x with no earlier x is the one the walk finds |
| Lists.IndexOfAt | wm.c:1434-1436 | in a duplicate-free list, the walk for the client at position k stops at k |
| Lists.Locate | wm.c:390-396 | the pointer walk finds the client's position, and unlinking it leaves the list before and after that position |
| Lists.Remove | wm.c:377-402 | unlinking a member shortens the list by one; unlinking a non-member changes nothing |
| Lists.RemoveCounts | wm.c:377-402 | unlinking a member takes exactly one copy of it out of the multiset |
| Lists.RemoveKeepsUnique | wm.c:377-402 | unlinking keeps the list duplicate-free, removes the client, and keeps every other client |
| Lists.RemovePrefix | wm.c:390-396 | the part of the list before the client is not touched by unlinking it |
| Lists.RemoveKeeps | wm.c:377-402 | any other client stays in the list |
| Lists.MoveToFront | wm.c:1421-1442 | the client ends up at the head, and with it unlinked the list is the same as the old list with it unlinked, so the others keep their order |
| Lists.LinkAtFront | wm.c:1421-1442 | the pointer surgery of `client_move_to_front` (the early return at the head, then unlink and push) computes the move to the front |
| Lists.MoveToFrontPermutes | wm.c:1421-1442 | moving to the front keeps the members |
| Lists.MoveToFrontOfHead | wm.c:1430-1431 | moving the head to the front changes nothing |
| Lists.MoveToFrontIdempotent | wm.c:1421-1442 | a second move to the front changes nothing |
| Lists.InsertAfter | wm.c:685-687 | relinking after y adds exactly one element |
| Lists.Successor | wm.c:485 | the next client after x, wrapping to the head after the last one, is in the list |
| Lists.SuccessorDiffers | wm.c:479-486 | with two or more distinct clients, the successor is another client |
| Lists.MoveAfter | wm.c:683-689 | unlinking x and relinking it after y keeps the length |
| Lists.LinkAfter | wm.c:683-689 | the loop of `reorder_focus` that unlinks `f_last_client` and relinks it after `f_client` computes the move-after |
| Lists.InsertAfterCounts | wm.c:685-687 | relinking adds exactly that client to the multiset |
| Lists.MoveAfterPermutes | wm.c:681-694 | the move-after keeps the members |
| Lists.MoveAfterLinksAfter | wm.c:681-694 | after the move, x comes directly after y, the list stays duplicate-free, and without x it is the list it was |
| Lists.MoveAfterPositions | wm.c:685-687 | inserting a new x after y makes x the successor of y, and unlinking x again gives back the list |
| Lists.SecondTabReturns | wm.c:469-487 | after the focus moves from f to its successor s and f is relinked after s, the successor of s is f again |
| Lists.NotBefore | wm.c:1434-1436 | in a duplicate-free list, an element does not occur before its own position |
| Lists.Reverse | wm.c:2162-2166 | reversal keeps the length and mirrors positions |
| Lists.ReversePermutes | wm.c:2162-2166 | reversal keeps the members |
| Lists.ReverseExtends | wm.c:2162-2166 | reversing one more element puts it first |
| Lists.MoveToFrontAt | wm.c:1421-1442 | moving a client found after a prefix it is not in puts it before that prefix, with the rest in order |
| Lists.ReversingStep | wm.c:2163-2165 | raising each shown client in turn builds the reversed list one step at a time |
| Registry.ListedAt | wm.c:1583-1593 | each list of a workspace is duplicate-free and holds only clients placed on that workspace |
| Registry.PlacedMember | wm.c:1583-1593 | a client in a workspace's list is placed on that workspace |
| Registry.PlacedSubset | wm.c:377-409 | a sub-list of a workspace's list still holds only that workspace's clients |
| Registry.ListedOnce | wm.c:1612-1619 | a managed client is in both lists of its own workspace and in no list of another |
| Registry.ListsPermute | wm.c:1583-1593 | both lists of a workspace hold the same clients |
| Registry.PushKeepsUnique | wm.c:1583-1593 | pushing a client that is not there keeps the list duplicate-free |
| Registry.Attach | wm.c:1583-1593 | pushing a newly placed client on both lists of its workspace re-establishes the registry |
| Registry.Detach | wm.c:377-409 | unlinking a client from both lists of its workspace leaves a registry without it |
| Registry.PermuteKeepsRegistry | wm.c:681-694 | reordering the lists of one workspace keeps the registry |
| Registry.PermuteStacking | wm.c:1421-1442 | reordering a stacking list keeps the registry |
| Registry.PermuteFocus | wm.c:681-694 | reordering a focus list keeps the registry |
| Registry.MoveToFrontKeepsRegistry | wm.c:1421-1442 | `client_move_to_front` keeps the registry |
| Registry.MoveAfterKeepsRegistry | wm.c:681-694 | `reorder_focus` keeps the registry |
| Geometry.CDiv | wm.c:272-273 | C's `/`: the remainder left by the quotient has the sign of the dividend and is smaller than the divisor |
| Geometry.CMod | wm.c:268 | C's `%`: the remainder has the sign of the dividend, is smaller than the divisor, and differs from the dividend by a multiple of the divisor, which together fix it |
| Geometry.ToInt32 | wm.c:272-273 | an `unsigned` sum read back as `int` is in the 32-bit range and congruent to it modulo 2^32 |
| Geometry.WrapRoundTrip | wm.c:272-273 | a 32-bit `int` converted to `unsigned` and back is unchanged |
| Geometry.Ceil10AsWritten | wm.c:267-269 | `ceil10` as written yields a multiple of ten, and rounds up to the next one from -9 upwards |
| Geometry.Ceil10 | wm.c:267-269 | rounding up: the least multiple of ten at or above n |
| Geometry.Ceil10AgreesFromMinusNine | wm.c:267-269 | as written and intended agree for n >= -9 |
| Geometry.Ceil10AsWrittenOvershoots | wm.c:268 | for -15 the code returns 0 where -10 is intended |
| Geometry.CenterCoordAsWritten | wm.c:272-273 | the centring coordinate computed in `unsigned` arithmetic is a multiple of ten |
| Geometry.CenterCoord | wm.c:272-273 | the window is centred in the span inset by both gaps, to within the rounding of `ceil10` and of the halvings |
| Geometry.CenterCoordAgrees | wm.c:272-273 | when the near gap is at least the far one and nothing wraps, the code as written centres as intended |
| Geometry.CenterCoordWrapsOnWiderRightGap | wm.c:272 | gaps (0, 30) on a 1080-wide span put a 600-wide window at -2147483410 instead of 230 |
| ClientOps.DecWidth | wm.c:2124-2126 | the frame adds the left inner border on both sides |
| ClientOps.DecHeight | wm.c:2128-2130 | the frame adds the top offset plus an inner border and the bottom bar below the window, and is at least the top offset, which is at least the left one |
| ClientOps.LeftWidth | wm.c:2132-2134 | the window's offset inside the frame is never negative and is 0 without decorations |
| ClientOps.TopHeight | wm.c:2136-2138 | the top offset is the left one plus the title bar |
| ClientOps.ActualX | wm.c:2103-2107 | the frame's outer left edge is the window's x less the left offset and the X border, and is x itself without decorations |
| ClientOps.ActualY | wm.c:2109-2114 | the frame's outer top edge is the window's y less the top offset and the X border, and is y itself without decorations |
| ClientOps.ActualWidth | wm.c:2116-2118 | the frame is as wide as the window plus the left offset on each side |
| ClientOps.ActualHeight | wm.c:2120-2122 | the frame is as tall as the top offset, the window, an inner border and the bottom bar |
| ClientOps.FrameExtents | wm.c:1942-1962 | all zero without decorations; left equals right; the extents are exactly the offsets from the client window to its frame, so frame = window + extents |
| ClientOps.MovedTo | wm.c:1384-1395 | the window is at (x, y) with its size kept, is no longer maximized, and nothing else changes |
| ClientOps.ResizedTo | wm.c:1559-1577 | the position is kept, the size is at least the request and at least the minimum, a request meeting the minimum is granted exactly, maximized state ends, and nothing else changes |
| ClientOps.Refreshed | wm.c:1521-1529 | the position is kept, the minimum size is met, a dimension already meeting it is kept, and only the geometry can change |
| ClientOps.MeetsMinimum | wm.c:1521-1529 | a client meets its minimum size exactly when refreshing leaves it unchanged |
| ClientOps.RefreshOnlyClamps | wm.c:1521-1529 | `client_refresh` keeps x and y, keeps `mono`, enforces the minimum size, changes nothing else, and a second refresh changes nothing |
| ClientOps.Monocled | wm.c:1444-1464 | the maximized flag flips; maximizing saves the geometry and puts the frame at the monitor's corner inset by the gaps; unmaximizing returns to the saved position, and to the saved size when that meets the minimum |
| ClientOps.MonocleFillsMonitor | wm.c:1455-1460 | maximizing saves the geometry in `prev`, sets `mono`, and makes the frame fill the monitor inset by the four gaps |
| ClientOps.MonocleRoundTrip | wm.c:1444-1464 | maximizing twice restores the geometry exactly, clears `mono`, and leaves every other field as it was apart from `prev` |
| ClientOps.SnappedLeft | wm.c:1858-1863 | the frame starts at the monitor's left edge plus the left gap and at its top plus the top gap, and the client is not maximized |
| ClientOps.SnappedRight | wm.c:1865-1870 | the frame starts at the monitor's middle and at its top plus the top gap, and the client is not maximized |
| ClientOps.SnapHalvesMeet | wm.c:1858-1870 | the left half starts at the left gap and ends where the right half starts, at the middle of the monitor; both halves have the same y and height and reach down to the bottom gap |
| ClientOps.CenteredIn | wm.c:271-277 | centring yields coordinates on a multiple of ten, meets the minimum size, keeps the size that met it, and centres the window in the rectangle inset by the gaps to within the rounding |
| ClientOps.CenteredInAsWritten | wm.c:271-277 | the placement exactly as written still lands on multiples of ten, meets the minimum size and keeps a size that met it |
| ClientOps.CenteredInAgrees | wm.c:271-277 | with the left gap at least the right, the top gap at least the bottom, and no coordinate below -9 or past the `int` range, the placement as written is the centring the model uses |
| ClientOps.Hidden | wm.c:1175-1185 | the client ends hidden; a hidden one is left alone; a visible one has its x remembered and is moved to `display_width + 100` with the rest of its geometry kept |
| ClientOps.Shown | wm.c:1846-1856 | the client ends visible; a visible one is left alone; a hidden one goes back to the remembered x |
| ClientOps.HideShowRoundTrip | wm.c:1175-1185 | hiding records x in `x_hide`, moves the client to `display_width + 100` and sets `hidden`; hiding again changes nothing; showing restores the geometry and clears `hidden` |
| ClientOps.Stashed | wm.c:1877-1882 | the hide that `switch_ws` applies to another workspace keeps each client's `hidden` flag |
| ClientOps.Revealed | wm.c:1885-1891 | the re-show `switch_ws` applies to the new workspace keeps each client's `hidden` flag |
| ClientOps.StashRevealRoundTrip | wm.c:1875-1894 | stashing then revealing restores the geometry, and a client marked hidden comes back unchanged |
| ClientOps.DecorationsDestroyed | wm.c:359-372 | the client ends undecorated; a maximized or fullscreen one takes over the frame's position and at least its size; any other keeps its position |
| ClientOps.DecorationsShown | wm.c:342-357 | the client ends decorated; a maximized one is moved inside the new frame, which starts where the window was; any other keeps its position |
| ClientOps.DecorationsRoundTrip | wm.c:342-372 | removing the decorations of a decorated, non-fullscreen client and showing them again gives back the same record; a maximized client keeps its frame position and width |
| ClientOps.FullscreenEntered | wm.c:433-448 | entering fullscreen sets `fullscreen` and keeps the client's identity, workspace and `hidden` flag |
| ClientOps.FullscreenRestored | wm.c:451-454 | with `max`, the saved geometry comes back when it meets the minimum size; without `max` nothing changes |
| ClientOps.FullscreenLeft | wm.c:449-465 | leaving fullscreen clears `fullscreen` and `was_fs` and keeps the identity, workspace and `hidden` flag |
| ClientOps.FullscreenTarget | wm.c:428-429 | a toggle always asks for the opposite of the current state; otherwise the requested state is the target |
| ClientOps.Redecorates | wm.c:451-456 | when the exit re-decorates, the client leaving fullscreen ends decorated, with or without `max` |
| ClientOps.Fullscreened | wm.c:424-466 | the result's `fullscreen` is the target state, and when the target equals the current state the client is unchanged |
| ClientOps.FullscreenFillsMonitor | wm.c:433-448 | with `fs_max`, fullscreen saves the geometry in `prev` and fills the monitor; with `fs_remove_dec` the decorations go and the frame width is the monitor's |
| ClientOps.FullscreenRoundTrip | wm.c:424-466 | entering and then leaving with `max` restores the geometry and the decorations and clears both flags |
| Config.DefaultConf | config.h:36-58 | dialogs, menus and utilities are managed and nothing else is; decorating and fullscreen removal and maximize are on; the gaps start at zero |
| Admission.KindOf | wm.c:1245-1256 | an atom is ordinary exactly when it is none of the twelve window-type atoms; an unmanageable one is one of the six unmanageable types, a configurable one one of the six configurable types |
| Admission.TypeRejected | wm.c:1245-1256 | for told-apart atoms: the six unmanageable kinds are rejected, a configurable kind other than Splash is rejected exactly when its `conf.manage` entry is off, and every other atom is accepted |
| Admission.Filtered | wm.c:1241-1264 | only a successful read with at least one atom can reject a window, and then its first atom decides |
| Admission.UnmanageableAlwaysRejected | wm.c:1251-1256 | popup and dropdown menus, tooltips, notifications, combo boxes and drag-and-drop windows are never managed, whatever the configuration |
| Admission.ConfigurableFollowsConfig | wm.c:1246-1250 | docks, toolbars, utilities, dialogs and menus are rejected exactly when their `conf.manage` entry is off |
| Admission.SplashAlwaysAdmitted | wm.c:1246-1256 | the default configuration turns splash screens off, yet a splash window passes the filter |
| Admission.Undecorated | wm.c:1973-1993 | a window counts as undecorated only if it has Motif hints with zero decorations, and always if in addition the decorations flag is set |
| Admission.DecorationsFlagGates | wm.c:1984 | without the decorations flag the decorations value is ignored, and other flag bits make no difference |
| Ewmh.MaximizeToggles | wm.c:517-531 | add toggles only an unmaximized client, remove only a maximized one, toggle always, and any other action code does nothing |
| Ewmh.FullscreenRequest | wm.c:533-546 | exactly the action codes 0, 1 and 2 produce a request; from windowed, add and toggle go fullscreen; from fullscreen, only add stays fullscreen |
| Ewmh.MoveResizeDrag | wm.c:561-571 | direction MOVE starts a move drag, SIZE_RIGHT, SIZE_BOTTOM and SIZE_BOTTOMRIGHT a resize drag, and no other direction does either |
| Ewmh.WmState | wm.c:885 | `WM_STATE` is Iconic exactly for a hidden client and Normal exactly for a visible one |
| Ewmh.ReadFailedAsWritten | wm.c:899-901 | the misparenthesised test `!r == Success` still returns early exactly when the read fails |
| Ewmh.Kept | wm.c:909-922 | the copy loop keeps at most the atoms it reads, and keeps an atom exactly when the client is maximized and the atom is one of the two maximize atoms |
| Ewmh.Rewritten | wm.c:909-935 | the rewritten list holds the two maximize atoms when the client is maximized and nothing otherwise, and is at most two longer than the old list |
| Ewmh.StateChanged | wm.c:909-935 | the list is written exactly when the old list and the rewritten one disagree about one of the two maximize atoms |
| Ewmh.KeptOthers | wm.c:909-922 | the corrected copy keeps every state that is not a maximize atom, and the maximize atoms when maximized |
| Ewmh.RewrittenKeeping | wm.c:909-935 | the corrected list keeps exactly the old list's other states, and holds each maximize atom exactly when the client is maximized |
| Ewmh.RewriteDropsOtherStates | wm.c:909-922 | as written, a state that is not a maximize atom (fullscreen, say) is dropped from the rewritten list; the corrected list keeps it |
| Ewmh.UnchangedMeansAgreed | wm.c:937-940 | when the list is not written, the old list already agreed with the new one on both maximize atoms |
| Ewmh.RewriteStates | wm.c:906-935 | the buffer filled by `client_update_state` holds the rewritten list, and the changed flag is set exactly when the old list disagrees with it |
| Ewmh.KeepStates | wm.c:909-922 | the copy loop fills the buffer with the kept atoms, records which maximize atoms it saw when maximized, and flags a change when it drops one when not |
| Ewmh.Append | wm.c:926-934 | appending writes one atom after the filled part and keeps that part |
| Ewmh.KeptAppend | wm.c:909-922 | one more state atom adds itself to the kept list exactly when it is kept |
| Ewmh.CapacityAsWritten | wm.c:906 | the allocation of `sizeof(Atom)*num_items + 2` bytes holds `num_items` atoms |
| Ewmh.RewriteOverflowsAsWritten | wm.c:906-934 | a maximized client whose state list holds only the fullscreen atom needs two atoms in a buffer of one |
| Ewmh.RewriteFits | wm.c:906-934 | the rewrite needs at most two atoms more than the old list, and more than the old list only when the client is maximized and an atom is missing |
| Ewmh.UpdateStateTo | wm.c:899-940 | a failed read, a missing `_NET_WM_STATE` or an agreeing list writes nothing; otherwise only the target property is written (with the other states kept or dropped) |
| Ewmh.UpdateState | wm.c:899-940 | written to `_NET_WM_STATE`, the update changes no other property; after a successful read the list holds each maximize atom exactly when the client is maximized and keeps exactly the other states it had |
| Ewmh.UpdateStateSettles | wm.c:937-940 | once written, the list agrees with the client, so a second update writes nothing |
| Ewmh.UpdateStateAsWritten | wm.c:938 | as written, `_NET_WM_STATE` itself is never changed by the update |
| Ewmh.RewriteMissesNetWmState | wm.c:938 | as written, a disagreeing `_NET_WM_STATE` list stays as it was and still disagrees, so every later update writes again, while the rewritten list lands in the vertical-maximize property |
| Struts.Consulted | wm.c:2015-2021 | `_NET_WM_STRUT_PARTIAL` is used when its read succeeds, and `_NET_WM_STRUT` otherwise |
| Struts.StrutOf | wm.c:2023 | a child contributes exactly when its property is CARDINAL, format 32 and at least four items long, and then it contributes its first four items |
| Struts.Combine | wm.c:2024-2027 | one step of the element-wise maximum keeps four entries |
| Struts.Fold | wm.c:2009-2032 | the fold yields four entries |
| Struts.FindStruts | wm.c:2009-2032 | the loop accumulating `max_struts` computes the fold |
| Struts.FoldIsMax | wm.c:2009-2032 | each entry of the result is at least every contribution, and is either 0 or one of the contributions |
| Tables.ErrorIgnored | wm.c:2080-2101 | an error is ignored exactly when it is BadWindow or one of the ten listed request and error pairs; any other error code is fatal |
| Tables.WithField | wm.c:2263-2264 | the store at an offset sets exactly that unsigned field and leaves the other fields and all flags unchanged |
| Tables.SettersAreFrameFields | wm.c:210-219 | the setters reach exactly the four colours and four frame sizes, and never the gaps, steps, buttons, masks or interval |
| Tables.CString | wm.c:1659 | the C string in a buffer is the bytes before the first NUL |
| Tables.CopyTitle | wm.c:1659-1667 | the copied title has at most 511 bytes and no NUL |
| Tables.Title | wm.c:1647-1669 | a title is at most 511 bytes with no NUL, and it is empty when the read fails or converts to nothing |
| Tables.TitleKeepsShortNames | wm.c:1658-1667 | a Latin-1 title and its converted form give the same result: the name itself when it fits in 511 bytes, and its first 511 bytes otherwise |
| Tables.CStringWithoutNul | wm.c:1659 | a byte string without NUL is its own C string |
| Tables.MustSnapBack | wm.c:995-998 | a client is moved back only when the event is about its own window, and is left alone only when it sits at the frame's inner offset |
| Input.PressFlags | wm.c:588-628 | a Super key pressed alone arms its tap flag; a Super combination that runs a launcher, a shortcut or a workspace key disarms both |
| Input.ReleaseFlags | wm.c:655-677 | releasing a Super key reports a tap exactly when its flag was armed, and disarms it; other keys change nothing |
| Input.TapIffNothingRan | wm.c:588-678 | press Super_L, then any presses, then release it: a tap is reported exactly when none of the presses ran anything |
| Input.ArmedUntilSuppressed | wm.c:588-628 | an armed flag stays armed exactly as long as no press runs anything |
| Input.DisarmedStaysDisarmed | wm.c:588-628 | other keys never arm Super_L |
| Input.TimeDiff | wm.c:806 | the difference of two `Time` stamps wraps modulo 2^64 |
| Input.IsDoubleClick | wm.c:773-781 | a release counts as a double click when less than the interval has passed since the last one, with wrap-around |
| Input.MotionSkipped | wm.c:804-810 | with interval 0 no motion is skipped, and one at least the interval later is never skipped |
| Input.DragActionFor | wm.c:812-830 | a drag resizes when it started below the window or with the resize modifier and button, and otherwise moves when it is the move button |
| Input.Dragged | wm.c:822-823 | a pointer that has not moved since the press leaves the value alone |
| Input.DragRun | wm.c:804-830 | after any run of motion events, the position is the starting one or the one some event's pointer gives relative to the press, with that event's time as the last motion |
| Input.DragRunSnoc | wm.c:804-810 | one more event is skipped exactly when it is within the interval of the last motion acted on, and otherwise sets the position from the press |
| Input.DragEndsAtLastHandled | wm.c:804-830 | skipped events lose nothing: whatever came before, when the last event is acted on the window ends where that pointer position puts it relative to the press |
| Input.DragFollowsUnthrottled | wm.c:804-830 | with interval 0 the drag always ends at the last pointer position |
| Wm.Reordered | wm.c:681-694 | `reorder_focus` changes nothing when there is no last client, when it is not in the current focus list, or when it is the focused client; the function also leaves the list alone when the focused client is not on it, a case the source never reaches because the focused client is always on the current workspace when it runs (`Wm.WindowManager.ReorderFocus` requires it) |
| Wm.ReorderedReturnsToLast | wm.c:681-694 | the reorder keeps the members and keeps the list duplicate-free; the last client comes directly after the focused one; the others stay in order |
| Wm.NextFocus | wm.c:469-487 | a next client exists exactly when the focus list is non-empty, and it is on that list |
| Wm.NextFocusReturnsToLast | wm.c:469-487 | after the reorder, `focus_next` from the focused client picks the client focused before it |
| Wm.FirstShown | wm.c:1899-1904 | the walk finds a visible client and none before it on the walked list, or reports that none is visible |
| Wm.FocusCandidate | wm.c:1899-1904 | the walk picks the visible head of the stacking list when the head is on the focus list; what it picks is visible and on the focus list; an empty workspace gives nothing |
| Wm.SwitchFindsTop | wm.c:1872-1904 | after a switch, the workspace's visible top client is what the walk finds |
| Wm.CandidateMissesEarlierClient | wm.c:1899 | because the walk follows focus links from the stacking head, a visible client can be missed: stacking `[a, b]` with focus `[b, a]` and `a` hidden finds nothing |
| Wm.SwitchedRecord | wm.c:1875-1894 | the switch treats one client by keeping its identity, workspace and `hidden` flag |
| Wm.Switched | wm.c:1875-1894 | the switch keeps the managed clients, and keeps each one's workspace, identity and `hidden` flag |
| Wm.PassAgrees | wm.c:1875-1894 | one pass of the workspace loop treats exactly the clients of that workspace |
| Wm.SwitchedBelowStep | wm.c:1875-1894 | the workspace loop performed pass by pass, from nothing done, reaches the whole switch |
| Wm.SwitchBackRestores | wm.c:1872-1906 | switching away to a workspace on the same monitor and back restores every geometry of the first workspace, and each hidden client's whole record |
| Wm.FocusedRecords | wm.c:1202-1219 | focusing keeps the managed clients and leaves the focused one visible; focusing on the current workspace only shows that client |
| Wm.FocusedRecordsKeep | wm.c:1202-1219 | focusing keeps every client's workspace and identity |
| Wm.FocusInPlace | wm.c:1209-1211 | focusing a visible client of the current workspace leaves every record as it was |
| Wm.NewClient | wm.c:1295-1307 | a new record names the window and the current workspace, takes the geometry and `prev` from the attributes, starts with no flags set, and is decorated exactly when the Motif hint does not ask otherwise |
| Wm.Admitted | wm.c:1316-1332 | admission keeps the client's identity, workspace and `hidden` flag |
| Wm.AdmittedRecord | wm.c:1316-1332 | admission creates a frame exactly when decorating is on and there is a class hint, reads the title, keeps the flags and `prev`, and centres the client on its monitor |
| Wm.HiddenAll | wm.c:2148-2155 | hiding every client of a list keeps the clients, their workspaces and identities, and leaves each listed client hidden |
| Wm.ShownAll | wm.c:2162-2166 | showing every client of a list keeps the clients |
| Wm.ShownAllKeeps | wm.c:2162-2166 | showing keeps workspaces and identities and leaves each listed client visible |
| Wm.HiddenAllStep | wm.c:2149-2155 | one more turn of the hiding loop hides one more client |
| Wm.HideStep | wm.c:2149-2155 | one turn of the hiding loop hides the next client, and `something_hid` becomes true exactly when that client was visible |
| Wm.ShownAllStep | wm.c:2163-2165 | one more turn of the showing loop shows one more client |
| Wm.HiddenAllOfHidden | wm.c:2149-2155 | hiding a list whose clients are all hidden changes nothing |
| Wm.ToggleTwice | wm.c:2145-2168 | after a toggle that hides, nothing on the list is visible, and toggling again brings back every visible client at its old geometry |
| Wm.WalkShows | wm.c:2163-2165 | raising the next client of the walk moves it to the head and extends the reversed prefix |
| Wm.WalkPosition | wm.c:2163-2165 | during the walk, a position before the current one holds an already shown client, and the current position holds the next client to show |
| Wm.WalkShowsHidden | wm.c:1846-1856 | showing and raising the next hidden client of the walk keeps the walk's invariant one step further on |
| Wm.SafeFor | wm.c:1598-1610 | with a single monitor no workspace is safe; with several, a workspace alone on its monitor is safe; a safe workspace has no other workspace of its monitor showing a visible client on top |
| Wm.SafeIgnoresSwitch | wm.c:1598-1610 | `safe_to_focus` gives the same answer before and after any workspace switch |
| Wm.SafeIgnoresMoves | wm.c:1598-1610 | moving a client without changing its `hidden` flag does not change the answer |
| Wm.Arrived | wm.c:1626-1631 | the sent client ends up visible on the same workspace: shown when it is safe, and otherwise moved off-screen with its x remembered but not marked hidden |
| Wm.KeyOf | wm.c:1583-1593 | a managed client's record names its own window and a valid workspace, which the roster records |
| Wm.Rekeyed | wm.c:1384-1395 | changing a record without changing its window or workspace keeps the keying |
| Wm.Rehomed | wm.c:1617-1618 | changing a client's workspace in both the record and the roster keeps the keying |
| Wm.RekeyedAll | wm.c:1875-1894 | changing records everywhere without changing windows or workspaces keeps the keying |
| Wm.Enrolled | wm.c:1295-1297 | a new record for an unmanaged window, added to the roster, keeps the keying |
| Wm.WindowManager.constructor | wm.c:1678-1844 | the state `setup` leaves: no clients, workspace 0, no focus, the default configuration, the given monitors and display width, every key and raise flag cleared, and every invariant |
| Wm.WindowManager.Key | wm.c:1583-1593 | a managed client is listed on the workspace its record names |
| Wm.WindowManager.AllKeyed | wm.c:1583-1593 | every managed client is listed on its workspace |
| Wm.WindowManager.Member | wm.c:1583-1593 | a client in either list of a workspace is managed and placed on that workspace |
| Wm.WindowManager.WorkspaceMembers | wm.c:1583-1593 | both lists of a workspace are duplicate-free and hold exactly the managed clients placed on it |
| Wm.WindowManager.ClientSave | wm.c:1583-1593 | the client is pushed on the head of both lists of its workspace, everything else is kept, and the invariant holds again |
| Wm.WindowManager.ClientDelete | wm.c:377-409 | the client is unlinked from both lists of its workspace, the focus is cleared exactly when it was on this client, and what remains is a registry without it |
| Wm.WindowManager.ClientMoveToFront | wm.c:1421-1442 | the client moves to the head of its stacking list, and the registry is kept |
| Wm.WindowManager.ReorderFocus | wm.c:681-694 | with a focused and a last client, the current focus list is reordered; otherwise it is unchanged; the last client is always cleared |
| Wm.WindowManager.GetClientFromWindow | wm.c:490-500 | a client is found exactly when some client's window or frame is `w`, and every managed window is found |
| Wm.WindowManager.IsManaged | wm.c:1266-1274 | the duplicate check answers exactly whether the window is already managed |
| Wm.WindowManager.SetRecord | wm.c:1384-1395 | only the record of `w` changes |
| Wm.WindowManager.ClientMoveAbsolute | wm.c:1384-1395 | the client moves to (x, y) and is no longer maximized |
| Wm.WindowManager.ClientMoveRelative | wm.c:1417-1419 | the client moves by (dx, dy) |
| Wm.WindowManager.ClientResizeAbsolute | wm.c:1559-1577 | the size becomes the request clamped to the minimum size; it is the request when the request meets the minimum; the client is no longer maximized |
| Wm.WindowManager.ClientResizeRelative | wm.c:1579-1581 | the size grows by (dw, dh), clamped to the minimum |
| Wm.WindowManager.ClientRefresh | wm.c:1521-1529 | the record becomes its refresh: same position, minimum size met |
| Wm.WindowManager.ClientMonocle | wm.c:1444-1464 | the record becomes its maximize toggle on its monitor, and `mono` flips |
| Wm.WindowManager.MonocleFill | wm.c:1455-1460 | a client that is not maximized is maximized on its monitor |
| Wm.WindowManager.ClientSnapLeft | wm.c:1858-1863 | the record becomes its left half of its monitor |
| Wm.WindowManager.ClientSnapRight | wm.c:1865-1870 | the record becomes its right half of its monitor |
| Wm.WindowManager.ClientCenterInRect | wm.c:271-277 | the record becomes its centring in the rectangle |
| Wm.WindowManager.ClientCenter | wm.c:261-265 | the record becomes its centring on its workspace's monitor |
| Wm.WindowManager.ClientPlace | wm.c:1466-1469 | placing centres the client on its monitor and keeps the invariant |
| Wm.WindowManager.ClientHide | wm.c:1175-1185 | the record becomes hidden |
| Wm.WindowManager.ClientRaise | wm.c:1471-1477 | raising nothing changes nothing; raising a client moves it to the front of its stacking list |
| Wm.WindowManager.ClientShow | wm.c:1846-1856 | the client becomes visible; it is raised exactly when it was hidden and raising is not suppressed, and otherwise the stacking is unchanged |
| Wm.WindowManager.ClientDecorationsCreate | wm.c:326-339 | the record takes the new frame window |
| Wm.WindowManager.ClientDecorationsShow | wm.c:342-357 | the record becomes decorated, as `DecorationsShown` says |
| Wm.WindowManager.ClientDecorationsDestroy | wm.c:359-372 | the record becomes undecorated, as `DecorationsDestroyed` says |
| Wm.WindowManager.ClientToggleDecorations | wm.c:1912-1917 | a decorated client loses its decorations, an undecorated windowed one gains them, and an undecorated fullscreen one is left alone |
| Wm.WindowManager.FullscreenEnter | wm.c:433-448 | the record becomes its fullscreen form on its monitor |
| Wm.WindowManager.RestoreGeometry | wm.c:451-454 | the saved geometry is moved and resized back |
| Wm.WindowManager.FullscreenClear | wm.c:462-464 | both fullscreen flags are cleared and the client is refreshed |
| Wm.WindowManager.FullscreenLeave | wm.c:449-465 | leaving fullscreen without re-decorating gives the record `FullscreenLeft` |
| Wm.WindowManager.FullscreenRedecorate | wm.c:451-456 | leaving a fullscreen whose entry removed the decorations restores the geometry and re-decorates |
| Wm.WindowManager.FullscreenLeaveRedecorating | wm.c:449-465 | the re-decorating exit also raises and focuses the client, and then clears the flags |
| Wm.WindowManager.FocusAndClear | wm.c:457-464 | raising and focusing the re-decorated client, then clearing its flags, gives the focus move followed by the refresh |
| Wm.WindowManager.ClientFullscreen | wm.c:424-466 | without re-decorating, only the record changes, to `Fullscreened`, which is the client itself when already in the target state; with re-decorating, the client is restored, re-decorated, raised, focused and cleared |
| Wm.WindowManager.ClientSetTitle | wm.c:1647-1669 | the title becomes the truncated read, at most 511 bytes |
| Wm.WindowManager.StashClient | wm.c:1877-1882 | one client is moved off-screen with its `hidden` flag kept |
| Wm.WindowManager.StashClients | wm.c:1877-1882 | every listed client is stashed and the others are untouched |
| Wm.WindowManager.StashWorkspace | wm.c:1876-1882 | every client of the workspace is stashed, the others are untouched, and the invariant is kept |
| Wm.WindowManager.RevealClient | wm.c:1887-1890 | a client is revealed without being raised |
| Wm.WindowManager.RevealClients | wm.c:1885-1891 | every listed client is revealed, the others are untouched, and no stacking changes |
| Wm.WindowManager.RevealWorkspace | wm.c:1883-1892 | every client of the workspace is revealed, and nothing else changes |
| Wm.WindowManager.FindCandidate | wm.c:1899-1904 | the loop finds the focus candidate of the current workspace |
| Wm.WindowManager.SwitchPass | wm.c:1876-1893 | one pass of the workspace loop performs that pass of the switch on the records and keeps the stacking |
| Wm.WindowManager.SwitchRecords | wm.c:1875-1894 | the whole loop performs the switch on the records and keeps the stacking |
| Wm.WindowManager.FocusFirstShown | wm.c:1899-1904 | the candidate found, if any, is focused; otherwise the focus state is unchanged |
| Wm.WindowManager.SwitchWs | wm.c:1872-1906 | switching to the current workspace changes nothing; otherwise the records are switched, the current workspace changes, and the candidate the walk finds takes the focus |
| Wm.WindowManager.ManageFocus | wm.c:1195-1226 | focusing a client raises, shows and focuses it on its workspace (switching to it first) and reorders the focus list; focusing nothing clears the focus and changes nothing else |
| Wm.WindowManager.FocusNext | wm.c:469-487 | the next client of the focus list takes the focus, and an empty list changes nothing |
| Wm.WindowManager.FocusHere | wm.c:1202-1219 | focusing on the current workspace shows and raises the client and reorders the focus list |
| Wm.WindowManager.TakeFocus | wm.c:1218-1219 | the client becomes the focus and the focus list is reordered |
| Wm.WindowManager.FocusAcross | wm.c:1202-1219 | focusing on another workspace shows and raises the client, switches the workspace and reorders the focus list there |
| Wm.WindowManager.SwitchTo | wm.c:1215-1216 | the switch to the client's workspace ends with the client focused |
| Wm.WindowManager.SwitchToTop | wm.c:1872-1906 | switching to the workspace whose visible top client is `w` ends with `w` focused |
| Wm.WindowManager.RaiseAndShow | wm.c:1205-1211 | the client is raised to the front and shown |
| Wm.WindowManager.RaiseAndFocus | wm.c:457-458 | the client is raised and then takes the focus, as a focus move |
| Wm.WindowManager.WindowFindStruts | wm.c:1998-2040 | a failed tree query changes nothing; otherwise the four gaps become the fold of the struts |
| Wm.WindowManager.UpdateConfig | wm.c:2259-2271 | an offset in the setters table stores the value in that field; any other offset changes nothing |
| Wm.WindowManager.ManageNewWindow | wm.c:1235-1354 | a window is managed exactly when the filter accepts it and it is not yet managed; a managed window gets the admitted record, goes to the head of both lists of the current workspace and takes the focus; a rejected one looks for struts again and changes nothing else |
| Wm.WindowManager.Adopt | wm.c:1289-1350 | the new client is admitted, linked at the heads, and focused, with the previously focused client relinked after it |
| Wm.WindowManager.Admit | wm.c:1316-1332 | the record is admitted, the roster is updated, and the client is pushed on both lists |
| Wm.WindowManager.Link | wm.c:1316-1331 | the record is prepared and pushed on both lists |
| Wm.WindowManager.Enter | wm.c:1289-1307 | the new record enters the map and the roster, detached from the lists |
| Wm.WindowManager.PrepareRecord | wm.c:1316-1330 | the frame, the title and the refresh are applied to the record |
| Wm.WindowManager.RememberFocus | wm.c:1348-1349 | the focused client, if any, becomes the last one |
| Wm.WindowManager.FocusNew | wm.c:1348-1350 | the new client takes the focus and the previously focused client is relinked after it |
| Wm.WindowManager.HideClients | wm.c:2147-2155 | the hiding loop hides every listed client and reports whether any was visible |
| Wm.WindowManager.ShowWorkspace | wm.c:2162-2166 | showing every client of the current workspace reverses its stacking list |
| Wm.WindowManager.ShowAt | wm.c:2163-2165 | one turn of the showing loop keeps the walk's invariant and advances it |
| Wm.WindowManager.ShowHiddenAt | wm.c:2163-2165 | a hidden client is shown and raised, and the walk goes on just after the new head |
| Wm.WindowManager.ShowWalked | wm.c:1846-1856 | showing the hidden client at the walk position keeps the walk's invariant one step further on |
| Wm.WindowManager.ShowShownAt | wm.c:2163-2165 | a visible client is skipped |
| Wm.WindowManager.ToggleHideAll | wm.c:2145-2168 | if any client of the current workspace is visible, all of them are hidden; otherwise all are shown and the stacking list is reversed; the focus is cleared |
| Wm.WindowManager.SafeToFocus | wm.c:1598-1610 | the loop answers exactly `SafeFor` |
| Wm.WindowManager.Rehome | wm.c:1616-1619 | the client is unlinked from its old workspace's lists and pushed on the new workspace's lists, and the focus is cleared if it was on this client |
| Wm.WindowManager.Rename | wm.c:1617-1618 | the detached client's workspace changes in the record and the roster |
| Wm.WindowManager.Depart | wm.c:1614-1620 | the client ends up on the new workspace and the focus passes on |
| Wm.WindowManager.SendToWs | wm.c:1612-1634 | the client ends up on the new workspace, never marked hidden, and the invariant is kept |
| Wm.WindowManager.ShowIfSafe | wm.c:1626-1631 | the sent client's record becomes `Arrived` for the safety answer |
| Wm.WindowManager.Relocate | wm.c:1622-1631 | the client keeps its offset from the old monitor's origin on the new monitor, then arrives |
| Wm.WindowManager.AltTab | wm.c:629-637 | the first Tab of a run remembers the focused client; the focus moves to the next client of its workspace, and the remembered client is relinked right after it |
| Wm.WindowManager.AltRelease | wm.c:658-662 | releasing Alt ends a run with `reorder_focus`, and outside a run changes nothing |

## Left out

- Every Xlib, Xft, Xinerama and xcb call is left out. These are the window moves, reparenting, grabs, sent events, input focus, colours and property writes. Only their effect on the state in memory is modelled; replies are inputs.
- `monitors_setup` and the root `ConfigureNotify` handling are not modelled. The monitors and `display_width` are fixed when the manager is created, so the refresh on a screen change is not modelled either.
- `draw_text`, `spawn`, `load_config`, `setup` beyond the state it leaves, `main`, and the sender mode (`check_running`, `send_config`) are left out. They are I/O or process control.
- `refresh_config`, which runs after `update_config` has stored a value, is left out: it only redraws and re-places frames through X. So is `handle_configure_request`.
- The blocking pointer-grab loops of `handle_button_press` and `client_try_drag` are left out, because they read the X event queue. Only the arithmetic of the motion steps (a run of them through the throttle, in `Input.DragRun`) and the double-click test are modelled; the restore of a maximized window's size at the start of a move is not. `last_motion` starts from an uninitialised event in the source, so the model takes it as an input.
- The dispatch of `handle_client_message` onto the operations is not a method. What each message type runs is left out; the decoding of the message data is modelled.
- `client_unmanage`, `client_close` and the unmap and destroy handlers are left out. Their list effect is `client_delete`, which is modelled; the rest is X requests and `free`.
- `malloc` failure in `manage_new_window` is left out: admission is total.
- Wm.NewClient: `x_hide` is never set when a window is admitted, so the model starts it at 0. `dec` starts at 0 (no frame) for a window that gets no frame: decorating is off, or it has no class hint.
- The minimum-size hint is read once, when the window is admitted, and kept in the record (`minWidth`, `minHeight`); `client_resize_absolute` and `client_refresh` re-read it on every call (wm.c:1560-1561), so a client that changes its hint later is clamped to the old one in the model.
- Wm.WindowManager.SendToWs: states the new workspace and visibility only. The lists, focus and geometry are stated by the methods it is built from (`Rehome`, `FocusNext`, `Relocate`); their composition is not restated.
- Wm.WindowManager.Depart: states the new workspace only. The list moves and the focus hand-over are stated by `Rehome` and `FocusNext`.
- Wm.WindowManager.FindCandidate, Wm.WindowManager.SwitchWs, Wm.WindowManager.ManageNewWindow: a desktop number outside the workspace range, as sent in a `_NET_CURRENT_DESKTOP` message, is excluded by the preconditions. The source would index past its arrays.
- Wm.WindowManager.AltTab: a Super+Tab press is not distinguished from a plain Tab. Keys are abstract, and which key codes are Alt and Tab is left out.
- Keysym translation is left out.
- `client_update_state` is modelled on a map from property names to atom lists; the write of `WM_STATE` is `Ewmh.WmState` only.
- ClientOps.CenteredIn: centres with the corrected arithmetic of `Geometry.CenterCoord` (signed gap difference, rounding up to a multiple of ten), not the unsigned wrap and truncating `ceil10` of wm.c:267-273; see Findings. `ClientOps.CenteredInAgrees` states when the two agree.
- Wm.WindowManager.ClientCenterInRect, Wm.WindowManager.ClientCenter, Wm.WindowManager.ClientPlace: place with `ClientOps.CenteredIn`, so with a right gap wider than the left, a bottom gap wider than the top, or a window at least 20 pixels wider than the inset monitor, the position is not berry's.
- Wm.Admitted, Wm.AdmittedRecord: the new client is centred with `ClientOps.CenteredIn`, with the same difference from berry.
- Wm.WindowManager.ManageNewWindow, Wm.WindowManager.Adopt, Wm.WindowManager.Admit: the admitted record is placed by `ClientOps.CenteredIn`, with the same difference from berry.

## Findings

| source | as written | input that shows it | evidently intended | confidence | as-written member | corrected member |
|---|---|---|---|---|---|---|
| wm.c:267-269 | `(n + 9) - (n + 9) % 10` with C's truncating `%` | n = -15 gives 0 | the least multiple of ten at or above n, -10 | not executed | Geometry.Ceil10AsWrittenOvershoots | Geometry.Ceil10 |
| wm.c:272-273 | `(conf.left_gap - conf.right_gap) / 2` on `unsigned` gaps | left gap 0, right gap 30, span 1080, window 600: x = -2147483410 | the signed half-difference: x = 230 | not executed | Geometry.CenterCoordWrapsOnWiderRightGap | Geometry.CenterCoord |
| wm.c:906 | `malloc(sizeof(Atom) * num_items + 2)` holds `num_items` atoms, yet up to `num_items + 2` are written | a maximized client whose `_NET_WM_STATE` is only the fullscreen atom: two atoms into a buffer of one | room for `num_items + 2` atoms | not executed | Ewmh.RewriteOverflowsAsWritten | Ewmh.RewriteStates |
| wm.c:938 | the rewritten list is written to the property named by `_NET_WM_STATE_MAXIMIZED_VERT` | a maximized client whose `_NET_WM_STATE` lacks the maximize atoms: the list is never fixed and is rewritten on every update | the list is written to `_NET_WM_STATE`, after which a second update writes nothing | not executed | Ewmh.RewriteMissesNetWmState | Ewmh.UpdateState |
| wm.c:909-922 | the copy loop copies an atom only inside the maximize-atom branch, so every other state is dropped from the rewritten list | a maximized client whose `_NET_WM_STATE` is only the fullscreen atom: the rewritten list is the two maximize atoms, without fullscreen | keep every other state and add or remove only the maximize atoms | not executed | Ewmh.RewriteDropsOtherStates | Ewmh.RewrittenKeeping |

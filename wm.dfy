/**
 * The window manager's state and the operations of wm.c that change it:
 * the per-workspace draw-order and focus-order lists, the client records,
 * the focused client, the current workspace, and the event handlers and
 * client operations that update them. X requests that only affect the
 * server (drawing, colours, properties, grabs) leave no trace here.
 */
module Wm {
  import opened Config
  import opened Types
  import opened Lists
  import opened Geometry
  import opened ClientOps
  import opened Registry
  import opened Tables
  import opened Input
  import Admission
  import Struts

  /**
   * The focus list after `reorder_focus` moved the focus from `last` to
   * `focused`: `last` is relinked directly after `focused`, when both are
   * in the list and differ.
   */
  function Reordered(f: seq<Window>, focused: Window, last: Option<Window>): (r: seq<Window>)
    ensures last.None? || last.value !in f || last.value == focused || focused !in f ==> r == f
  {
    if last.Some? && last.value != focused && last.value in f && focused in f then MoveAfter(f, last.value, focused)
    else f
  }

  /**
   * After the reorder, the next alt-tab stop from the focused client is the
   * client that had the focus before; the rest of the order is kept.
   */
  lemma ReorderedReturnsToLast(f: seq<Window>, focused: Window, last: Window)
    requires Unique(f) && focused in f && last in f && last != focused
    ensures multiset(Reordered(f, focused, Some(last))) == multiset(f)
    ensures Unique(Reordered(f, focused, Some(last)))
    ensures Successor(Reordered(f, focused, Some(last)), focused) == last
    ensures Remove(Reordered(f, focused, Some(last)), last) == Remove(f, last)
  {
    MoveAfterLinksAfter(f, last, focused);
    MoveAfterPermutes(f, last, focused);
  }

  /**
   * Each record is keyed by its own window, and `roster` copies the
   * workspace of every record.
   */
  ghost predicate KeyedBy(clients: map<Window, Client>, roster: map<Window, int>)
  {
    && clients.Keys == roster.Keys
    && (forall v {:trigger RecordKeyed(clients, roster, v)} :: v in clients ==> RecordKeyed(clients, roster, v))
  }

  /** The record of `v` is keyed by `v`, and the roster copies its workspace, one of the workspaces. */
  ghost predicate RecordKeyed(clients: map<Window, Client>, roster: map<Window, int>, v: Window)
  {
    v in clients && v in roster && clients[v].window == v && clients[v].ws == roster[v] && 0 <= roster[v] < WorkspaceNumber
  }

  /** What keying says about one record. */
  lemma KeyOf(clients: map<Window, Client>, roster: map<Window, int>, v: Window)
    requires KeyedBy(clients, roster) && v in clients
    ensures v in roster && clients[v].window == v && clients[v].ws == roster[v] && 0 <= roster[v] < WorkspaceNumber
  {
    assert RecordKeyed(clients, roster, v);
  }

  /** Rewriting one record without touching its window or workspace keeps the records keyed. */
  lemma Rekeyed(clients: map<Window, Client>, roster: map<Window, int>, w: Window, c: Client)
    requires KeyedBy(clients, roster) && w in clients && c.window == w && c.ws == clients[w].ws
    ensures KeyedBy(clients[w := c], roster)
  {
    var m := clients[w := c];
    forall v | v in m
      ensures RecordKeyed(m, roster, v)
    {
      KeyOf(clients, roster, v);
    }
  }

  /** Naming another workspace in one record and in the roster keeps the records keyed. */
  lemma Rehomed(clients: map<Window, Client>, roster: map<Window, int>, w: Window, ws: int)
    requires KeyedBy(clients, roster) && w in clients && 0 <= ws < WorkspaceNumber
    ensures KeyedBy(clients[w := clients[w].(ws := ws)], roster[w := ws])
  {
    var m, r := clients[w := clients[w].(ws := ws)], roster[w := ws];
    forall v | v in m
      ensures RecordKeyed(m, r, v)
    {
      KeyOf(clients, roster, v);
    }
  }

  /** Rewriting records without touching their windows or workspaces keeps them keyed. */
  lemma RekeyedAll(before: map<Window, Client>, clients: map<Window, Client>, roster: map<Window, int>)
    requires KeyedBy(before, roster) && clients.Keys == before.Keys
    requires forall v :: v in clients ==> clients[v].window == before[v].window && clients[v].ws == before[v].ws
    ensures KeyedBy(clients, roster)
  {
    forall v | v in clients
      ensures RecordKeyed(clients, roster, v)
    {
      KeyOf(before, roster, v);
    }
  }

  /** `v` has a record and is not hidden. */
  predicate Visible(clients: map<Window, Client>, v: Window)
  {
    v in clients && !clients[v].hidden
  }

  /** The first client of `f`, in order, that is not hidden (a window without a record counts as hidden). */
  function FirstShown(f: seq<Window>, clients: map<Window, Client>): (r: Option<Window>)
    ensures r.Some? ==> r.value in f && Visible(clients, r.value)
    ensures r.Some? ==> forall i :: 0 <= i < IndexOf(f, r.value) ==> !Visible(clients, f[i])
    ensures r.None? ==> forall v :: v in f ==> !Visible(clients, v)
    decreases |f|
  {
    if |f| == 0 then None
    else if Visible(clients, f[0]) then Some(f[0])
    else FirstShown(f[1..], clients)
  }

  /**
   * The client `switch_ws` hands the focus to on a workspace with stacking
   * list `cl` and focus list `fl`: the walk starts at the top of the
   * stacking list but follows the focus-order links, so it only sees that
   * client and the ones after it in focus order. (The top of a stacking list
   * is always in the focus list of its workspace; the second test only makes
   * the function total.)
   */
  function FocusCandidate(cl: seq<Window>, fl: seq<Window>, clients: map<Window, Client>): (r: Option<Window>)
    ensures |cl| > 0 && cl[0] in fl && Visible(clients, cl[0]) ==> r == Some(cl[0])
    ensures r.Some? ==> r.value in fl && Visible(clients, r.value)
    ensures |cl| == 0 ==> r.None?
  {
    if |cl| == 0 || cl[0] !in fl then None
    else FirstShown(fl[IndexOf(fl, cl[0])..], clients)
  }

  /** A visible client on top of the stacking list is the one the walk after a switch finds. */
  lemma SwitchFindsTop(cl: seq<Window>, fl: seq<Window>, clients: map<Window, Client>, ws: int, wsMonitor: seq<int>, displayWidth: int)
    requires 0 <= ws < |wsMonitor|
    requires |cl| > 0 && cl[0] in fl && Visible(clients, cl[0])
    ensures FocusCandidate(cl, fl, Switched(clients, ws, wsMonitor, displayWidth)) == Some(cl[0])
  { }

  /**
   * The walk can miss a visible client: one that precedes the top of the
   * stacking list in focus order is never reached, even when every client
   * the walk does reach is hidden.
   */
  lemma CandidateMissesEarlierClient(clients: map<Window, Client>, a: Window, b: Window)
    requires a != b && a in clients && b in clients && clients[a].hidden && !clients[b].hidden
    ensures FocusCandidate([a, b], [b, a], clients).None?
  {
    assert [b, a][1..] == [a];
    assert [a][1..] == [];
  }

  /**
   * What `switch_ws` to workspace `ws` does to one record: a client of `ws`
   * is revealed, a client of another workspace on the same monitor is
   * stashed, and the rest are left alone.
   */
  function SwitchedRecord(c: Client, ws: int, wsMonitor: seq<int>, displayWidth: int): (r: Client)
    requires 0 <= ws < |wsMonitor|
    ensures r.window == c.window && r.ws == c.ws && r.hidden == c.hidden
  {
    if c.ws == ws then Revealed(c)
    else if 0 <= c.ws < |wsMonitor| && wsMonitor[c.ws] == wsMonitor[ws] then Stashed(c, displayWidth)
    else c
  }

  /** The records after `switch_ws` to workspace `ws`: no client's workspace or hidden flag changes. */
  function Switched(clients: map<Window, Client>, ws: int, wsMonitor: seq<int>, displayWidth: int): (r: map<Window, Client>)
    requires 0 <= ws < |wsMonitor|
    ensures r.Keys == clients.Keys
    ensures forall v :: v in r ==> r[v].hidden == clients[v].hidden && r[v].ws == clients[v].ws && r[v].window == clients[v].window
  {
    map v | v in clients :: SwitchedRecord(clients[v], ws, wsMonitor, displayWidth)
  }

  /** The records after the passes of `switch_ws` over workspaces `0 .. i - 1`. */
  function SwitchedBelow(clients: map<Window, Client>, ws: int, wsMonitor: seq<int>, displayWidth: int, i: int): map<Window, Client>
    requires 0 <= ws < |wsMonitor|
  {
    map v | v in clients :: if clients[v].ws < i then SwitchedRecord(clients[v], ws, wsMonitor, displayWidth) else clients[v]
  }

  /** The records after the pass of `switch_ws` over workspace `i` alone. */
  function SwitchedPass(clients: map<Window, Client>, ws: int, wsMonitor: seq<int>, displayWidth: int, i: int): map<Window, Client>
    requires 0 <= ws < |wsMonitor|
  {
    map v | v in clients :: if clients[v].ws == i then SwitchedRecord(clients[v], ws, wsMonitor, displayWidth) else clients[v]
  }

  /** Records rewritten as the pass over workspace `i` rewrites them are the records after that pass. */
  lemma PassAgrees(before: map<Window, Client>, after: map<Window, Client>, ws: int, wsMonitor: seq<int>, displayWidth: int, i: int)
    requires 0 <= ws < |wsMonitor| && after.Keys == before.Keys
    requires forall v :: v in after ==>
      after[v] == if before[v].ws == i then SwitchedRecord(before[v], ws, wsMonitor, displayWidth) else before[v]
    ensures after == SwitchedPass(before, ws, wsMonitor, displayWidth, i)
  { }

  /** The pass over workspace `i` extends the passes over the workspaces before it; after the last one, the switch is done. */
  lemma SwitchedBelowStep(clients: map<Window, Client>, ws: int, wsMonitor: seq<int>, displayWidth: int, i: int)
    requires 0 <= ws < |wsMonitor| && 0 <= i
    ensures SwitchedPass(SwitchedBelow(clients, ws, wsMonitor, displayWidth, i), ws, wsMonitor, displayWidth, i)
         == SwitchedBelow(clients, ws, wsMonitor, displayWidth, i + 1)
    ensures SwitchedBelow(clients, ws, wsMonitor, displayWidth, 0) == clients
    ensures (forall v :: v in clients ==> clients[v].ws < i) ==>
      SwitchedBelow(clients, ws, wsMonitor, displayWidth, i) == Switched(clients, ws, wsMonitor, displayWidth)
  {
    var below := SwitchedBelow(clients, ws, wsMonitor, displayWidth, i);
    assert forall v :: v in below ==> below[v].ws == clients[v].ws;
  }

  /**
   * Switching from workspace `a` to another workspace `b` of the same
   * monitor and back puts every client of `a` back where it was, and leaves
   * its hidden ones untouched.
   */
  lemma SwitchBackRestores(clients: map<Window, Client>, a: int, b: int, wsMonitor: seq<int>, displayWidth: int)
    requires 0 <= a < |wsMonitor| && 0 <= b < |wsMonitor| && a != b && wsMonitor[a] == wsMonitor[b]
    ensures forall v :: v in clients && clients[v].ws == a ==>
      && Switched(Switched(clients, b, wsMonitor, displayWidth), a, wsMonitor, displayWidth)[v].geom == clients[v].geom
      && (clients[v].hidden ==> Switched(Switched(clients, b, wsMonitor, displayWidth), a, wsMonitor, displayWidth)[v] == clients[v])
  {
    var away := Switched(clients, b, wsMonitor, displayWidth);
    forall v | v in clients && clients[v].ws == a
      ensures Switched(away, a, wsMonitor, displayWidth)[v].geom == clients[v].geom
      ensures clients[v].hidden ==> Switched(away, a, wsMonitor, displayWidth)[v] == clients[v]
    {
      assert away[v] == Stashed(clients[v], displayWidth);
      assert Switched(away, a, wsMonitor, displayWidth)[v] == Revealed(away[v]);
      StashRevealRoundTrip(clients[v], displayWidth);
    }
  }

  /**
   * The records after `client_manage_focus(w)` from current workspace
   * `curr`: `w` is shown, and if it lives elsewhere its workspace is
   * switched to.
   */
  function FocusedRecords(clients: map<Window, Client>, w: Window, curr: int, wsMonitor: seq<int>, displayWidth: int): (r: map<Window, Client>)
    requires w in clients && 0 <= clients[w].ws < |wsMonitor|
    ensures r.Keys == clients.Keys && !r[w].hidden
    ensures clients[w].ws == curr ==> r == clients[w := Shown(clients[w])]
  {
    var shown := clients[w := Shown(clients[w])];
    if clients[w].ws == curr then shown else Switched(shown, clients[w].ws, wsMonitor, displayWidth)
  }

  /** Focusing moves no client to another workspace. */
  lemma FocusedRecordsKeep(clients: map<Window, Client>, w: Window, curr: int, wsMonitor: seq<int>, displayWidth: int)
    requires w in clients && 0 <= clients[w].ws < |wsMonitor|
    ensures var r := FocusedRecords(clients, w, curr, wsMonitor, displayWidth);
      forall v :: v in r ==> r[v].ws == clients[v].ws && r[v].window == clients[v].window
  { }

  /**
   * Focusing a visible client of the current workspace leaves every record
   * as it was.
   */
  lemma FocusInPlace(clients: map<Window, Client>, w: Window, curr: int, wsMonitor: seq<int>, displayWidth: int)
    requires w in clients && 0 <= clients[w].ws < |wsMonitor| && clients[w].ws == curr && !clients[w].hidden
    ensures FocusedRecords(clients, w, curr, wsMonitor, displayWidth) == clients
  {
    MapUpdateSame(clients, w);
  }

  /**
   * The record `manage_new_window` fills in for window `w` on workspace
   * `ws`: the geometry of its attributes (also saved as `prev`), no state
   * flags, decorations unless the Motif hints ask for none. berry leaves
   * `x_hide` and, without a frame, `dec` uninitialised; here both are 0.
   */
  function NewClient(w: Window, ws: int, attrs: Geom, classHint: bool, hints: Option<Admission.MotifHints>,
                     minWidth: int, minHeight: int): (r: Client)
    ensures r.window == w && r.ws == ws && r.geom == attrs && r.prev == attrs
    ensures !r.hidden && !r.fullscreen && !r.mono && !r.wasFs
    ensures r.decorated <==> !Admission.Undecorated(hints)
  {
    Client(w, NoWindow, ws, 0, !Admission.Undecorated(hints), false, false, false, false,
           attrs, attrs, [], classHint, minWidth, minHeight)
  }

  /**
   * The record once `manage_new_window` has given it its frame (only to a
   * window with a class hint, when decorating is on), its title, a refresh,
   * and a place in the middle of monitor `m`.
   */
  function Admitted(c: Client, conf: Conf, frame: Window, title: TitleRead, m: Monitor): (r: Client)
    requires 0 <= m.width < U32Modulus && 0 <= m.height < U32Modulus
    ensures r.window == c.window && r.ws == c.ws && r.hidden == c.hidden
  {
    CenteredIn(Prepared(c, conf, frame, title), m.x, m.y, m.width, m.height, conf)
  }

  /**
   * An admitted window keeps its state flags, decoration and saved
   * geometry; it has its frame only with a class hint and decorating on,
   * its title is at most 511 bytes, it meets its minimum size, and it sits
   * on the 10-pixel grid, centred on the monitor.
   */
  lemma AdmittedRecord(c: Client, conf: Conf, frame: Window, title: TitleRead, m: Monitor)
    requires 0 <= m.width < U32Modulus && 0 <= m.height < U32Modulus
    ensures var r := Admitted(c, conf, frame, title, m);
      && r.decorated == c.decorated && r.fullscreen == c.fullscreen && r.wasFs == c.wasFs
      && r.prev == c.prev && r.xHide == c.xHide
      && r.dec == (if conf.decorate && c.classHint then frame else c.dec)
      && r.title == Title(title) && |r.title| <= 511
      && MeetsMinimum(r) && !r.mono && r.geom.x % 10 == 0 && r.geom.y % 10 == 0
      && (MeetsMinimum(c) ==> r.geom.width == c.geom.width && r.geom.height == c.geom.height)
      && -3 <= 2 * r.geom.x + r.geom.width - (2 * m.x + conf.leftGap + m.width - conf.rightGap) <= 20
  {
    var p := Prepared(c, conf, frame, title);
    RefreshOnlyClamps(p);
  }

  /** The record before it is placed: frame, title and refresh. */
  function Prepared(c: Client, conf: Conf, frame: Window, title: TitleRead): Client
  {
    var c1 := if conf.decorate && c.classHint then c.(dec := frame) else c;
    Refreshed(c1.(title := Title(title)))
  }

  /** A new record keyed by its own window, entered in the roster, keeps the records keyed. */
  lemma Enrolled(clients: map<Window, Client>, roster: map<Window, int>, w: Window, c: Client)
    requires KeyedBy(clients, roster) && w !in clients && c.window == w && 0 <= c.ws < WorkspaceNumber
    ensures KeyedBy(clients[w := c], roster[w := c.ws])
  {
    var m, r := clients[w := c], roster[w := c.ws];
    forall v | v in m
      ensures RecordKeyed(m, r, v)
    {
      if v != w {
        KeyOf(clients, roster, v);
      }
    }
  }

  /**
   * The client `focus_next` hands the focus to, from focus list `fl`: the
   * one after `c`, or after the head when there is no `c`, wrapping round at
   * the end; a lone client keeps the focus.
   */
  function NextFocus(fl: seq<Window>, c: Option<Window>): (r: Option<Window>)
    ensures r.Some? <==> |fl| > 0
    ensures r.Some? ==> r.value in fl
  {
    if |fl| == 0 then None
    else Some(Successor(fl, if c.Some? && c.value in fl then c.value else fl[0]))
  }

  /**
   * Alt-tab after a focus change: `focus_next` from the newly focused
   * client hands the focus back to the client that had it before.
   */
  lemma NextFocusReturnsToLast(f: seq<Window>, focused: Window, last: Window)
    requires Unique(f) && focused in f && last in f && last != focused
    ensures NextFocus(Reordered(f, focused, Some(last)), Some(focused)) == Some(last)
  {
    ReorderedReturnsToLast(f, focused, last);
    assert focused in multiset(Reordered(f, focused, Some(last)));
  }

  /** Some client of `l` is visible: `toggle_hide_all` then hides, and otherwise shows. */
  ghost predicate AnyShown(l: seq<Window>, clients: map<Window, Client>)
  {
    exists v :: v in l && Visible(clients, v)
  }

  /** The records after `client_hide` on every client of `l`. */
  function HiddenAll(clients: map<Window, Client>, l: seq<Window>, displayWidth: int): (r: map<Window, Client>)
    ensures r.Keys == clients.Keys
    ensures forall v :: v in r ==> r[v].window == clients[v].window && r[v].ws == clients[v].ws
    ensures forall v :: v in r && v in l ==> r[v].hidden
  {
    map v | v in clients :: if v in l then Hidden(clients[v], displayWidth) else clients[v]
  }

  /** The records after `client_show` on every client of `l`. */
  function ShownAll(clients: map<Window, Client>, l: seq<Window>): (r: map<Window, Client>)
    ensures r.Keys == clients.Keys
  {
    map v | v in clients :: if v in l then Shown(clients[v]) else clients[v]
  }

  /** Showing keeps every client on its workspace, and leaves every client of `l` visible. */
  lemma ShownAllKeeps(clients: map<Window, Client>, l: seq<Window>)
    ensures var r := ShownAll(clients, l);
      && (forall v :: v in r ==> r[v].window == clients[v].window && r[v].ws == clients[v].ws)
      && (forall v :: v in r && v in l ==> !r[v].hidden)
  { }

  /** Hiding one more client of `l` extends the hiding of the ones before it. */
  lemma HiddenAllStep(clients: map<Window, Client>, l: seq<Window>, i: nat, displayWidth: int)
    requires i < |l| && l[i] in clients
    ensures var h := HiddenAll(clients, l[..i], displayWidth);
      h[l[i] := Hidden(h[l[i]], displayWidth)] == HiddenAll(clients, l[..i + 1], displayWidth)
  {
    assert l[..i + 1] == l[..i] + [l[i]];
  }

  /**
   * One step of the hiding pass of `toggle_hide_all`: the client it meets
   * is visible exactly when it was visible at the start and not met
   * before, and so hiding it tells whether the pass hid anything so far.
   */
  lemma HideStep(clients: map<Window, Client>, l: seq<Window>, i: nat, displayWidth: int)
    requires i < |l| && l[i] in clients
    ensures var h := HiddenAll(clients, l[..i], displayWidth);
      && l[i] in h
      && h[l[i] := Hidden(h[l[i]], displayWidth)] == HiddenAll(clients, l[..i + 1], displayWidth)
      && (AnyShown(l[..i + 1], clients) <==> AnyShown(l[..i], clients) || !h[l[i]].hidden)
  {
    HiddenAllStep(clients, l, i, displayWidth);
    var h := HiddenAll(clients, l[..i], displayWidth);
    assert l[..i + 1] == l[..i] + [l[i]];
    if Visible(clients, l[i]) && h[l[i]].hidden {
      assert l[i] in l[..i];
    }
  }

  /** Showing one more client of `l` extends the showing of the ones before it. */
  lemma ShownAllStep(clients: map<Window, Client>, l: seq<Window>, i: nat)
    requires i < |l| && l[i] in clients
    ensures var h := ShownAll(clients, l[..i]);
      h[l[i] := Shown(h[l[i]])] == ShownAll(clients, l[..i + 1])
  {
    assert l[..i + 1] == l[..i] + [l[i]];
  }

  /** With nothing of `l` visible, hiding them all changes nothing. */
  lemma HiddenAllOfHidden(clients: map<Window, Client>, l: seq<Window>, displayWidth: int)
    requires !AnyShown(l, clients)
    ensures HiddenAll(clients, l, displayWidth) == clients
  {
    assert forall v :: v in clients && v in l ==> clients[v].hidden;
  }

  /**
   * Toggling twice: the first press hides every client of the workspace,
   * so the second shows them all, the ones hidden before the first press
   * included; each client that was visible is back at its geometry.
   */
  lemma ToggleTwice(clients: map<Window, Client>, l: seq<Window>, displayWidth: int)
    requires AnyShown(l, clients)
    ensures !AnyShown(l, HiddenAll(clients, l, displayWidth))
    ensures var again := ShownAll(HiddenAll(clients, l, displayWidth), l);
      forall v :: v in l && Visible(clients, v) ==> again[v].geom == clients[v].geom && !again[v].hidden
  {
    var hidden := HiddenAll(clients, l, displayWidth);
    forall v | v in l && Visible(clients, v)
      ensures ShownAll(hidden, l)[v].geom == clients[v].geom
    {
      HideShowRoundTrip(clients[v], displayWidth);
    }
  }

  /**
   * The stacking lists after the show walk of `toggle_hide_all` showed the
   * next client `l[k]` of workspace `ws`: its reversed prefix grows by one,
   * and the shown client heads the list.
   */
  lemma WalkShows(l: seq<Window>, cl0: seq<seq<Window>>, ws: int, k: nat)
    requires Unique(l) && k < |l| && 0 <= ws < |cl0|
    ensures var walked := Reverse(l[..k]) + l[k..];
      && cl0[ws := walked][ws := MoveToFront(walked, l[k])] == cl0[ws := Reverse(l[..k + 1]) + l[k + 1..]]
      && IndexOf(MoveToFront(walked, l[k]), l[k]) == 0
  {
    ReversingStep(l, k);
    UpdateTwice(cl0, ws, Reverse(l[..k]) + l[k..], Reverse(l[..k + 1]) + l[k + 1..]);
  }

  /**
   * Where the show walk of `toggle_hide_all` stands at position `p` after
   * showing the first `k` clients of `l`: before `k` it meets clients it
   * already showed, at `k` the next one.
   */
  lemma WalkPosition(l: seq<Window>, c0: map<Window, Client>, k: nat, p: nat)
    requires p <= k < |l| && l[k] in c0
    ensures var at := (Reverse(l[..k]) + l[k..])[p];
      && (p < k ==> at in l[..k] && (at in c0 ==> !ShownAll(c0, l[..k])[at].hidden))
      && (p == k ==> at == l[k])
  {
    if p < k {
      assert (Reverse(l[..k]) + l[k..])[p] == l[..k][k - 1 - p];
    }
  }

  /**
   * Where the show walk of `toggle_hide_all` stands, over the stacking
   * lists `cl` of which workspace `curr` is walked, and the records `cs`:
   * the first `k` clients of `l` were shown and each moved to the head in
   * turn, and the walk is at position `p`, which only the first of the
   * clients not yet shown can hold.
   */
  ghost predicate Walking(l: seq<Window>, c0: map<Window, Client>, cl0: seq<seq<Window>>, k: int, p: int,
                          curr: int, cl: seq<seq<Window>>, cs: map<Window, Client>)
  {
    && 0 <= p <= k <= |l| && (p == 0 ==> k == 0)
    && Unique(l) && (forall v :: v in l ==> v in c0 && c0[v].hidden)
    && 0 <= curr < |cl0|
    && cl == cl0[curr := Reverse(l[..k]) + l[k..]]
    && cs == ShownAll(c0, l[..k])
  }

  /**
   * The walk meets a hidden client only where the clients not yet shown
   * begin; showing it and moving it to the head takes the walk one client
   * further, on from the link after the head.
   */
  lemma WalkShowsHidden(l: seq<Window>, c0: map<Window, Client>, cl0: seq<seq<Window>>, k: nat, p: nat,
                        curr: int, cl: seq<seq<Window>>, cs: map<Window, Client>,
                        cl': seq<seq<Window>>, cs': map<Window, Client>)
    requires Walking(l, c0, cl0, k, p, curr, cl, cs) && p < |l|
    requires cl[curr][p] in cs && cs[cl[curr][p]].hidden && cs[cl[curr][p]].ws == curr
    requires var c := cl[curr][p];
      && cl' == cl[cs[c].ws := MoveToFront(cl[cs[c].ws], c)]
      && cs' == cs[c := Shown(cs[c])]
    ensures Walking(l, c0, cl0, k + 1, 1, curr, cl', cs')
  {
    WalkPosition(l, c0, k, p);
    NotBefore(l, k);
    ShownAllStep(c0, l, k);
    WalkShows(l, cl0, curr, k);
  }

  /** Workspace list `l` has a visible client on top. */
  predicate TopShown(l: seq<Window>, clients: map<Window, Client>)
  {
    |l| > 0 && Visible(clients, l[0])
  }

  /**
   * What `safe_to_focus(ws)` answers: there is more than one monitor, and
   * no other workspace of the monitor of `ws` has a visible client on top
   * of its stacking list.
   */
  ghost predicate SafeFor(ws: int, cList: seq<seq<Window>>, clients: map<Window, Client>, wsMonitor: seq<int>, monitorCount: int)
    requires 0 <= ws < |wsMonitor|
    ensures monitorCount == 1 ==> !SafeFor(ws, cList, clients, wsMonitor, monitorCount)
    ensures monitorCount != 1 && (forall i :: 0 <= i < |wsMonitor| && i != ws ==> wsMonitor[i] != wsMonitor[ws])
        ==> SafeFor(ws, cList, clients, wsMonitor, monitorCount)
    ensures SafeFor(ws, cList, clients, wsMonitor, monitorCount)
        ==> (forall i :: 0 <= i < |cList| && i < |wsMonitor| && i != ws && wsMonitor[i] == wsMonitor[ws] && |cList[i]| > 0
               ==> !Visible(clients, cList[i][0]))
  {
    && monitorCount != 1
    && forall i :: 0 <= i < |cList| && i < |wsMonitor| && i != ws && wsMonitor[i] == wsMonitor[ws] ==> !TopShown(cList[i], clients)
  }

  /**
   * The answer does not depend on which workspace was last switched to:
   * switching keeps every hidden flag, so a workspace that is not on screen
   * still counts as showing its top client.
   */
  lemma SafeIgnoresSwitch(ws: int, cList: seq<seq<Window>>, clients: map<Window, Client>, wsMonitor: seq<int>, monitorCount: int, shown: int, displayWidth: int)
    requires 0 <= ws < |wsMonitor| && 0 <= shown < |wsMonitor|
    ensures SafeFor(ws, cList, Switched(clients, shown, wsMonitor, displayWidth), wsMonitor, monitorCount)
        == SafeFor(ws, cList, clients, wsMonitor, monitorCount)
  {
    var switched := Switched(clients, shown, wsMonitor, displayWidth);
    forall i | 0 <= i < |cList|
      ensures TopShown(cList[i], switched) == TopShown(cList[i], clients)
    {
    }
  }

  /** Moving a window without changing its hidden flag does not change the answer. */
  lemma SafeIgnoresMoves(ws: int, cList: seq<seq<Window>>, clients: map<Window, Client>, w: Window, c: Client, wsMonitor: seq<int>, monitorCount: int)
    requires 0 <= ws < |wsMonitor| && w in clients && c.hidden == clients[w].hidden
    ensures SafeFor(ws, cList, clients[w := c], wsMonitor, monitorCount) == SafeFor(ws, cList, clients, wsMonitor, monitorCount)
  {
    forall i | 0 <= i < |cList|
      ensures TopShown(cList[i], clients[w := c]) == TopShown(cList[i], clients)
    {
    }
  }

  /**
   * The record of a client sent to another workspace, once placed on its
   * new monitor: shown when that is safe; otherwise hidden and then marked
   * visible again, so that it sits parked right of the display while
   * counting as visible.
   */
  function Arrived(c: Client, safe: bool, displayWidth: int): (r: Client)
    ensures !r.hidden && r.window == c.window && r.ws == c.ws
    ensures !safe && !c.hidden ==> r.geom.x == displayWidth + 100 && r.xHide == c.geom.x
    ensures safe ==> r == Shown(c)
  {
    if safe then Shown(c) else Hidden(c, displayWidth).(hidden := false)
  }

  class WindowManager {
    /** The client records, keyed by application window. */
    var clients: map<Window, Client>
    /** The workspace of each managed client: a ghost copy of the records' `ws` fields that the registry is stated over. */
    ghost var roster: map<Window, int>
    /** `c_list`: per workspace, the clients in stacking order, topmost first. */
    var cList: seq<seq<Window>>
    /** `f_list`: per workspace, the clients in focus order. */
    var fList: seq<seq<Window>>
    var fClient: Option<Window>
    var fLastClient: Option<Window>
    var currWs: int
    /** `m_list`: the Xinerama screens; `|monitors|` is `m_count`. */
    const monitors: seq<Monitor>
    /** `ws_m_list`: the monitor of each workspace. */
    const wsMonitor: seq<int>
    var conf: Conf
    const displayWidth: int
    var suppressRaise: bool
    var lastRelease: Time
    var altTabbing: bool
    var superLOnly: bool
    var superROnly: bool
    var flight: bool
    var running: bool

    /** The shape of the globals: list counts, index ranges, and records keyed by their own window. */
    ghost predicate Shape()
      reads this`cList, this`fList, this`currWs, this`clients, this`roster
    {
      Layout() && Screens() && Keyed()
    }

    /** One draw-order and one focus-order list per workspace, and a current workspace among them. */
    ghost predicate Layout()
      reads this`cList, this`fList, this`currWs
    {
      |cList| == WorkspaceNumber && |fList| == WorkspaceNumber && 0 <= currWs < WorkspaceNumber
    }

    /** Every workspace names one of the monitors, whose sizes are unsigned 32-bit. */
    ghost predicate Screens()
    {
      && |wsMonitor| == WorkspaceNumber && |monitors| > 0
      && (forall i :: 0 <= i < |wsMonitor| ==> 0 <= wsMonitor[i] < |monitors|)
      && (forall i :: 0 <= i < |monitors| ==> 0 <= monitors[i].width < U32Modulus && 0 <= monitors[i].height < U32Modulus)
    }

    /** Each record is keyed by its own window, and the roster copies its workspace. */
    ghost predicate Keyed()
      reads this`clients, this`roster
    {
      KeyedBy(clients, roster)
    }

    /** What keying says about client `w`: its record names it, and the roster places it on its workspace. */
    lemma Key(w: Window)
      requires Keyed() && w in clients
      ensures Listed(w) && clients[w].window == w
    {
      KeyOf(clients, roster, w);
    }

    /** What keying says about every client at once. */
    lemma AllKeyed()
      requires Keyed()
      ensures forall v :: v in clients ==> Listed(v) && clients[v].window == v
    {
      forall v | v in clients
        ensures Listed(v) && clients[v].window == v
      {
        KeyOf(clients, roster, v);
      }
    }

    /** `w` is managed, and the registry places it on the workspace its record names. */
    ghost predicate Listed(w: Window)
      reads this`clients, this`roster
    {
      w in clients && w in roster && clients[w].ws == roster[w] && 0 <= roster[w] < WorkspaceNumber
    }

    /** Between events: the registry is well formed and the focused client is a managed one. */
    ghost predicate Inv()
      reads this`cList, this`fList, this`currWs, this`clients, this`roster, this`fClient
    {
      && Shape()
      && Registered()
    }

    /** The registry over the lists; it does not depend on the records themselves. */
    ghost predicate Registered()
      reads this`roster, this`cList, this`fList, this`fClient
    {
      Consistent(roster, cList, fList) && (fClient.Some? ==> fClient.value in roster)
    }

    /**
     * While `w` is being admitted or moved between workspaces: its record
     * exists but it is in no list, and it does not hold the focus.
     */
    ghost predicate Detached(w: Window)
      reads this`cList, this`fList, this`currWs, this`clients, this`roster, this`fClient
    {
      && Shape()
      && w in clients && 0 <= clients[w].ws < WorkspaceNumber
      && Consistent(roster - {w}, cList, fList)
      && (fClient.Some? ==> fClient.value in clients && fClient.value != w)
    }

    /** The client's workspace has a monitor: what maximizing, snapping and centring index. */
    predicate OnMonitor(w: Window)
      reads this`clients
    {
      && w in clients && 0 <= clients[w].ws < |wsMonitor| && 0 <= wsMonitor[clients[w].ws] < |monitors|
      && 0 <= monitors[wsMonitor[clients[w].ws]].width < U32Modulus
      && 0 <= monitors[wsMonitor[clients[w].ws]].height < U32Modulus
    }

    /** Between events: no pending focus-order bookkeeping and raising enabled. */
    ghost predicate Valid()
      reads this`cList, this`fList, this`currWs, this`clients, this`roster, this`fClient, this`fLastClient, this`suppressRaise
    {
      Inv() && fLastClient.None? && !suppressRaise
    }

    /** The state `setup` leaves: no clients, workspace 0, the default configuration. */
    constructor (monitors: seq<Monitor>, wsMonitor: seq<int>, displayWidth: int)
      requires |monitors| > 0 && |wsMonitor| == WorkspaceNumber
      requires forall i :: 0 <= i < |wsMonitor| ==> 0 <= wsMonitor[i] < |monitors|
      requires forall i :: 0 <= i < |monitors| ==> 0 <= monitors[i].width < U32Modulus && 0 <= monitors[i].height < U32Modulus
      ensures Valid() && clients == map[] && currWs == 0 && fClient.None?
      ensures conf == DefaultConf() && this.monitors == monitors && this.wsMonitor == wsMonitor
      ensures this.displayWidth == displayWidth && lastRelease == 0
      ensures !altTabbing && !superLOnly && !superROnly && flight && running
    {
      clients := map[];
      roster := map[];
      cList := seq(WorkspaceNumber, _ => []);
      fList := seq(WorkspaceNumber, _ => []);
      fClient := None;
      fLastClient := None;
      currWs := 0;
      this.monitors := monitors;
      this.wsMonitor := wsMonitor;
      conf := DefaultConf();
      this.displayWidth := displayWidth;
      suppressRaise := false;
      lastRelease := 0;
      altTabbing := false;
      superLOnly := false;
      superROnly := false;
      flight := true;
      running := true;
    }

    // ---- the registry: client_save, client_delete, client_move_to_front, reorder_focus ----

    /** `client_save`: push a detached client onto the head of both lists of workspace `ws`. */
    method ClientSave(w: Window, ws: int)
      modifies this`cList, this`fList
      requires Detached(w) && ws == clients[w].ws
      ensures cList == old(cList)[ws := [w] + old(cList)[ws]]
      ensures fList == old(fList)[ws := [w] + old(fList)[ws]]
      ensures Inv()
    {
      Key(w);
      Attach(roster, cList, fList, w);
      cList := cList[ws := [w] + cList[ws]];
      fList := fList[ws := [w] + fList[ws]];
    }

    /**
     * `client_delete`: unlink a client from both lists of its workspace;
     * if it held the focus, nothing does any more.
     */
    method ClientDelete(w: Window)
      modifies this`cList, this`fList, this`fClient
      requires Inv() && w in clients
      ensures var ws := clients[w].ws;
        && 0 <= ws < WorkspaceNumber
        && cList == old(cList)[ws := Remove(old(cList)[ws], w)]
        && fList == old(fList)[ws := Remove(old(fList)[ws], w)]
      ensures fClient == if old(fClient) == Some(w) then None else old(fClient)
      ensures Detached(w)
    {
      Key(w);
      var ws := clients[w].ws;
      ghost var c0, f0 := cList, fList;
      ListedOnce(roster, cList, fList, w);
      var l := cList[ws];
      var i := Locate(l, w);
      cList := cList[ws := l[..i] + l[i + 1..]];
      var f := fList[ws];
      var j := Locate(f, w);
      fList := fList[ws := f[..j] + f[j + 1..]];
      if fClient == Some(w) {
        fClient := None; // client_manage_focus(NULL)
      }
      assert Consistent(roster - {w}, cList, fList) by {
        Detach(roster, c0, f0, w);
      }
    }

    /** `client_move_to_front`: relink a client at the head of its workspace's stacking list. */
    method ClientMoveToFront(w: Window)
      modifies this`cList
      requires Layout() && Registered() && Listed(w)
      ensures var ws := clients[w].ws; cList == old(cList)[ws := MoveToFront(old(cList)[ws], w)]
      ensures Layout() && Registered()
    {
      var ws := clients[w].ws;
      ListedOnce(roster, cList, fList, w);
      var front := LinkAtFront(cList[ws], w);
      MoveToFrontKeepsRegistry(roster, cList, fList, ws, w);
      cList := cList[ws := front];
    }

    /**
     * `reorder_focus`: when the focus moved from `fLastClient` to
     * `fClient`, relink the former directly after the latter in the focus
     * list of the current workspace, so that the next alt-tab returns to
     * it. The pending client is cleared either way.
     */
    method ReorderFocus()
      modifies this`fList, this`fLastClient
      requires Layout() && Registered()
      requires fClient.Some? && fLastClient.Some? ==> Listed(fClient.value) && clients[fClient.value].ws == currWs
      ensures fLastClient.None? && Layout() && Registered()
      ensures fClient.Some? && old(fLastClient).Some? ==>
        fList == old(fList)[currWs := Reordered(old(fList)[currWs], fClient.value, old(fLastClient))]
      ensures fClient.None? || old(fLastClient).None? ==> fList == old(fList)
    {
      if fClient.Some? && fLastClient.Some? && fClient != fLastClient {
        var f := fList[currWs];
        var last := fLastClient.value;
        ListedOnce(roster, cList, fList, fClient.value);
        if last in f {
          var g := LinkAfter(f, last, fClient.value);
          MoveAfterKeepsRegistry(roster, cList, fList, currWs, last, fClient.value);
          fList := fList[currWs := g];
        }
      }
      fLastClient := None;
    }

    /** `get_client_from_window`: the first client, in workspace then stacking order, whose window or frame is `w`. */
    method GetClientFromWindow(w: Window) returns (r: Option<Window>)
      requires Inv()
      ensures r.Some? ==> r.value in clients && (clients[r.value].window == w || clients[r.value].dec == w)
      ensures r.None? ==> forall v :: v in clients ==> clients[v].window != w && clients[v].dec != w
      ensures w in clients ==> r.Some?
    {
      AllKeyed();
      var i := 0;
      while i < WorkspaceNumber
        invariant 0 <= i <= WorkspaceNumber
        invariant forall v :: v in clients && clients[v].ws < i ==> clients[v].window != w && clients[v].dec != w
      {
        var l := cList[i];
        var j := 0;
        WorkspaceMembers(i);
        while j < |l|
          invariant 0 <= j <= |l|
          invariant forall v :: v in l[..j] ==> v in l && clients[v].window != w && clients[v].dec != w
        {
          var t := l[j];
          if clients[t].window == w || clients[t].dec == w {
            return Some(t);
          }
          assert l[..j + 1] == l[..j] + [t];
          j := j + 1;
        }
        assert l[..j] == l;
        i := i + 1;
      }
      return None;
    }

    /** The duplicate check of `manage_new_window`: is `w` some client's application window? */
    method IsManaged(w: Window) returns (b: bool)
      requires Inv()
      ensures b <==> w in clients
    {
      AllKeyed();
      var i := 0;
      while i < WorkspaceNumber
        invariant 0 <= i <= WorkspaceNumber
        invariant forall v :: v in clients && clients[v].ws < i ==> v != w
      {
        var l := cList[i];
        var j := 0;
        WorkspaceMembers(i);
        while j < |l|
          invariant 0 <= j <= |l|
          invariant w !in l[..j]
        {
          if clients[l[j]].window == w {
            return true;
          }
          assert l[..j + 1] == l[..j] + [l[j]];
          j := j + 1;
        }
        assert l[..j] == l;
        i := i + 1;
      }
      return false;
    }

    // ---- record operations ----

    /** Replace one record by an edit that keeps its window and workspace. */
    method SetRecord(w: Window, c: Client)
      modifies this`clients
      requires w in clients
      ensures clients == old(clients)[w := c]
    {
      clients := clients[w := c];
    }

    /** `client_move_absolute`. */
    method ClientMoveAbsolute(w: Window, x: int, y: int)
      modifies this`clients
      requires w in clients
      ensures clients == old(clients)[w := MovedTo(old(clients)[w], x, y)]
      ensures clients[w].geom.x == x && clients[w].geom.y == y && !clients[w].mono
    {
      SetRecord(w, MovedTo(clients[w], x, y));
    }

    /** `client_move_relative`. */
    method ClientMoveRelative(w: Window, dx: int, dy: int)
      modifies this`clients
      requires w in clients
      ensures clients == old(clients)[w := MovedTo(old(clients)[w], old(clients)[w].geom.x + dx, old(clients)[w].geom.y + dy)]
    {
      ClientMoveAbsolute(w, clients[w].geom.x + dx, clients[w].geom.y + dy);
    }

    /** `client_resize_absolute`: the minimum-size hint wins over a smaller request. */
    method ClientResizeAbsolute(w: Window, width: int, height: int)
      modifies this`clients
      requires w in clients
      ensures clients == old(clients)[w := ResizedTo(old(clients)[w], width, height)]
      ensures MeetsMinimum(clients[w]) && !clients[w].mono
      ensures width >= clients[w].minWidth ==> clients[w].geom.width == width
      ensures height >= clients[w].minHeight ==> clients[w].geom.height == height
    {
      SetRecord(w, ResizedTo(clients[w], width, height));
    }

    /** `client_resize_relative`. */
    method ClientResizeRelative(w: Window, dw: int, dh: int)
      modifies this`clients
      requires w in clients
      ensures clients == old(clients)[w := ResizedTo(old(clients)[w], old(clients)[w].geom.width + dw, old(clients)[w].geom.height + dh)]
    {
      ClientResizeAbsolute(w, clients[w].geom.width + dw, clients[w].geom.height + dh);
    }

    /**
     * `client_refresh`: move and resize in place twice, then restore the
     * maximized flag the moves cleared. Only the minimum size is enforced.
     */
    method ClientRefresh(w: Window)
      modifies this`clients
      requires w in clients
      ensures clients == old(clients)[w := Refreshed(old(clients)[w])]
      ensures MeetsMinimum(clients[w]) && clients[w].geom.x == old(clients)[w].geom.x && clients[w].geom.y == old(clients)[w].geom.y
    {
      var mono := clients[w].mono;
      ghost var c0 := clients[w];
      for i := 0 to 2
        invariant w in clients
        invariant clients == old(clients)[w := if i == 0 then c0 else Refreshed(c0).(mono := false)]
      {
        ghost var before := clients;
        ClientMoveRelative(w, 0, 0);
        ghost var moved := clients[w];
        ClientResizeRelative(w, 0, 0);
        MapUpdateTwice(before, w, moved, clients[w]);
        MapUpdateTwice(old(clients), w, before[w], clients[w]);
      }
      ghost var last := clients[w];
      SetRecord(w, clients[w].(mono := mono));
      MapUpdateTwice(old(clients), w, last, clients[w]);
    }

    /** `client_monocle`: maximize to the client's monitor less the gaps, or restore the saved geometry. */
    method ClientMonocle(w: Window)
      modifies this`clients
      requires OnMonitor(w)
      ensures clients == old(clients)[w := Monocled(old(clients)[w], monitors[wsMonitor[old(clients)[w].ws]], conf)]
      ensures clients[w].mono == !old(clients)[w].mono
    {
      if clients[w].mono {
        RestoreGeometry(w);
        ghost var c1 := clients[w];
        SetRecord(w, clients[w].(mono := false));
        MapUpdateTwice(old(clients), w, c1, clients[w]);
      } else {
        MonocleFill(w);
      }
    }

    /** `client_monocle` on a client not yet maximized: save the geometry, fill the monitor less the gaps. */
    method MonocleFill(w: Window)
      modifies this`clients
      requires OnMonitor(w) && !clients[w].mono
      ensures clients == old(clients)[w := Monocled(old(clients)[w], monitors[wsMonitor[old(clients)[w].ws]], conf)]
    {
      var c := clients[w];
      var m := monitors[wsMonitor[c.ws]];
      SetRecord(w, c.(prev := c.geom));
      var c1 := clients[w];
      ClientMoveAbsolute(w, m.x + LeftWidth(c1, conf) + conf.leftGap, m.y + TopHeight(c1, conf) + conf.topGap);
      var c2 := clients[w];
      MapUpdateTwice(old(clients), w, c1, c2);
      ClientResizeAbsolute(w, m.width - conf.rightGap - conf.leftGap - DecWidth(c2, conf),
                           m.height - conf.topGap - conf.botGap - DecHeight(c2, conf));
      var c3 := clients[w];
      MapUpdateTwice(old(clients), w, c2, c3);
      SetRecord(w, clients[w].(mono := true));
      MapUpdateTwice(old(clients), w, c3, clients[w]);
    }

    /** `client_snap_left`. */
    method ClientSnapLeft(w: Window)
      modifies this`clients
      requires OnMonitor(w)
      ensures clients == old(clients)[w := SnappedLeft(old(clients)[w], monitors[wsMonitor[old(clients)[w].ws]], conf)]
    {
      var c := clients[w];
      var m := monitors[wsMonitor[c.ws]];
      ClientMoveAbsolute(w, m.x + conf.leftGap + LeftWidth(c, conf), m.y + conf.topGap + TopHeight(c, conf));
      var c1 := clients[w];
      ClientResizeAbsolute(w, CDiv(m.width, 2) - conf.leftGap - DecWidth(c1, conf),
                           m.height - conf.topGap - conf.botGap - DecHeight(c1, conf));
    }

    /** `client_snap_right`. */
    method ClientSnapRight(w: Window)
      modifies this`clients
      requires OnMonitor(w)
      ensures clients == old(clients)[w := SnappedRight(old(clients)[w], monitors[wsMonitor[old(clients)[w].ws]], conf)]
    {
      var c := clients[w];
      var m := monitors[wsMonitor[c.ws]];
      ClientMoveAbsolute(w, m.x + CDiv(m.width, 2) + LeftWidth(c, conf), m.y + conf.topGap + TopHeight(c, conf));
      var c1 := clients[w];
      ClientResizeAbsolute(w, CDiv(m.width, 2) - conf.rightGap - DecWidth(c1, conf),
                           m.height - conf.topGap - conf.botGap - DecHeight(c1, conf));
    }

    /**
     * `client_center_in_rect`, with the gap difference taken as a signed
     * number (see `Geometry.CenterCoord`): centre the window in the
     * rectangle less the gaps, rounded up to a multiple of 10, then refresh.
     */
    method ClientCenterInRect(w: Window, x: int, y: int, width: U32, height: U32)
      modifies this`clients
      requires w in clients
      ensures clients == old(clients)[w := CenteredIn(old(clients)[w], x, y, width, height, conf)]
    {
      var c := clients[w];
      var newX := CenterCoord(x, conf.leftGap, conf.rightGap, width, c.geom.width);
      var newY := CenterCoord(y, conf.topGap, conf.botGap, height, c.geom.height);
      ClientMoveAbsolute(w, newX, newY);
      ClientRefresh(w);
    }

    /** `client_center` (and `client_place`): centre on the monitor of the client's workspace. */
    method ClientCenter(w: Window)
      modifies this`clients
      requires OnMonitor(w)
      ensures var m := monitors[wsMonitor[old(clients)[w].ws]];
        clients == old(clients)[w := CenteredIn(old(clients)[w], m.x, m.y, m.width, m.height, conf)]
    {
      var m := monitors[wsMonitor[clients[w].ws]];
      ClientCenterInRect(w, m.x, m.y, m.width, m.height);
    }

    /** `client_hide`: park the window right of the display and mark it hidden (nothing happens to a hidden one). */
    method ClientHide(w: Window)
      modifies this`clients
      requires w in clients
      ensures clients == old(clients)[w := Hidden(old(clients)[w], displayWidth)]
      ensures clients[w].hidden
    {
      var c := clients[w];
      if !c.hidden {
        SetRecord(w, c.(xHide := c.geom.x));
        ClientMoveAbsolute(w, displayWidth + 100, c.geom.y);
        SetRecord(w, clients[w].(hidden := true));
      }
    }

    /** `client_raise`: bring a client (if any) to the top of its workspace's stacking order. */
    method ClientRaise(c: Option<Window>)
      modifies this`cList
      requires Layout() && Registered() && (c.Some? ==> Listed(c.value))
      ensures c.None? ==> cList == old(cList)
      ensures c.Some? ==> var ws := clients[c.value].ws; cList == old(cList)[ws := MoveToFront(old(cList)[ws], c.value)]
      ensures Layout() && Registered()
    {
      if c.Some? {
        ClientMoveToFront(c.value);
      }
    }

    /**
     * `client_show`: a hidden client returns to its remembered x and,
     * unless raising is suppressed, to the top of its workspace.
     */
    method ClientShow(w: Window)
      modifies this`clients, this`cList
      requires w in clients && (!suppressRaise ==> Inv() && Listed(w))
      ensures clients == old(clients)[w := Shown(old(clients)[w])]
      ensures !clients[w].hidden
      ensures var ws := old(clients)[w].ws;
        old(clients)[w].hidden && !suppressRaise ==> cList == old(cList)[ws := MoveToFront(old(cList)[ws], w)]
      ensures !old(clients)[w].hidden || suppressRaise ==> cList == old(cList)
      ensures !suppressRaise ==> Inv()
    {
      var c := clients[w];
      if c.hidden {
        ghost var c0 := clients;
        ClientMoveAbsolute(w, c.xHide, c.geom.y);
        ghost var moved := clients[w];
        SetRecord(w, clients[w].(hidden := false));
        MapUpdateTwice(c0, w, moved, moved.(hidden := false));
        if !suppressRaise {
          assert Keyed() by {
            KeyOf(c0, roster, w);
            Rekeyed(c0, roster, w, Shown(c));
          }
          ClientRaise(Some(w));
        }
      }
    }

    /** `client_decorations_create`: the client gets the frame window `frame`; only the X side changes besides. */
    method ClientDecorationsCreate(w: Window, frame: Window)
      modifies this`clients
      requires w in clients
      ensures clients == old(clients)[w := old(clients)[w].(dec := frame)]
    {
      SetRecord(w, clients[w].(dec := frame));
    }

    /** `client_decorations_show`. */
    method ClientDecorationsShow(w: Window)
      modifies this`clients
      requires w in clients
      ensures clients == old(clients)[w := DecorationsShown(old(clients)[w], conf)]
      ensures clients[w].decorated
    {
      var c := clients[w].(decorated := true);
      if c.mono {
        c := c.(geom := Geom(c.geom.x + LeftWidth(c, conf), c.geom.y + TopHeight(c, conf),
                             c.geom.width - DecWidth(c, conf), c.geom.height - DecHeight(c, conf)));
      }
      SetRecord(w, c);
      ClientRefresh(w);
      ClientRefresh(w);
      RefreshOnlyClamps(c);
    }

    /** `client_decorations_destroy`. */
    method ClientDecorationsDestroy(w: Window)
      modifies this`clients
      requires w in clients
      ensures clients == old(clients)[w := DecorationsDestroyed(old(clients)[w], conf)]
      ensures !clients[w].decorated
    {
      var c := clients[w];
      if c.mono || c.fullscreen {
        c := c.(geom := Geom(c.geom.x - LeftWidth(c, conf), c.geom.y - TopHeight(c, conf),
                             ActualWidth(c, conf), ActualHeight(c, conf)));
      }
      SetRecord(w, c.(decorated := false));
      ClientRefresh(w);
    }

    /** `client_toggle_decorations`: a fullscreen client is never given its frame back. */
    method ClientToggleDecorations(w: Window)
      modifies this`clients
      requires w in clients
      ensures var c := old(clients)[w];
        clients == old(clients)[w := if c.decorated then DecorationsDestroyed(c, conf)
                                     else if !c.fullscreen then DecorationsShown(c, conf) else c]
      ensures clients[w].decorated == (!old(clients)[w].decorated && !old(clients)[w].fullscreen)
    {
      if clients[w].decorated {
        ClientDecorationsDestroy(w);
      } else if !clients[w].fullscreen {
        ClientDecorationsShow(w);
      }
    }

    /**
     * The record steps of `client_fullscreen` entering: drop the frame (and
     * remember that) if configured, then save the geometry and cover the
     * monitor if configured.
     */
    method FullscreenEnter(w: Window)
      modifies this`clients
      requires OnMonitor(w)
      ensures clients == old(clients)[w := FullscreenEntered(old(clients)[w], monitors[wsMonitor[old(clients)[w].ws]], conf)]
      ensures clients[w].fullscreen
    {
      var c := clients[w];
      var m := monitors[wsMonitor[c.ws]];
      if c.decorated && conf.fsRemoveDec {
        ClientDecorationsDestroy(w);
        var c1 := clients[w];
        SetRecord(w, c1.(wasFs := true));
        MapUpdateTwice(old(clients), w, c1, clients[w]);
      }
      if conf.fsMax {
        ghost var c0 := clients;
        var c1 := clients[w];
        SetRecord(w, c1.(prev := c1.geom));
        ghost var c2 := clients[w];
        ClientMoveAbsolute(w, m.x, m.y);
        ghost var c3 := clients[w];
        ClientResizeAbsolute(w, m.width, m.height);
        MapUpdateTwice(c0, w, c2, c3);
        MapUpdateTwice(c0, w, c3, clients[w]);
        MapUpdateTwice(old(clients), w, c1, clients[w]);
      }
      var c4 := clients[w];
      SetRecord(w, c4.(fullscreen := true));
      MapUpdateTwice(old(clients), w, c4, clients[w]);
    }

    /**
     * Back to the saved geometry, as `client_fullscreen` does when leaving
     * with `max` and `client_monocle` when restoring.
     */
    method RestoreGeometry(w: Window)
      modifies this`clients
      requires w in clients
      ensures clients == old(clients)[w := FullscreenRestored(old(clients)[w], true)]
    {
      var c := clients[w];
      ClientMoveAbsolute(w, c.prev.x, c.prev.y);
      ghost var c1 := clients[w];
      ClientResizeAbsolute(w, c.prev.width, c.prev.height);
      MapUpdateTwice(old(clients), w, c1, clients[w]);
    }

    /** The last record steps of `client_fullscreen` leaving: clear both flags and refresh. */
    method FullscreenClear(w: Window)
      modifies this`clients
      requires w in clients
      ensures clients == old(clients)[w := Refreshed(old(clients)[w].(fullscreen := false, wasFs := false))]
      ensures !clients[w].fullscreen && !clients[w].wasFs && MeetsMinimum(clients[w])
    {
      var c := clients[w];
      SetRecord(w, c.(fullscreen := false, wasFs := false));
      ghost var c1 := clients[w];
      ClientRefresh(w);
      MapUpdateTwice(old(clients), w, c1, clients[w]);
    }

    /** `client_set_title`: the title becomes what the `_NET_WM_NAME` read yields. */
    method ClientSetTitle(w: Window, read: TitleRead)
      modifies this`clients
      requires w in clients
      ensures clients == old(clients)[w := old(clients)[w].(title := Title(read))]
      ensures |clients[w].title| <= 511
    {
      SetRecord(w, clients[w].(title := Title(read)));
    }

    // ---- workspaces and focus: switch_ws, client_manage_focus, focus_next ----

    /**
     * The state `client_manage_focus(w)` leaves: `w` is raised, shown, its
     * workspace is the current one (switched to if need be), it has the
     * focus, and the previously focused client was relinked after it.
     */
    twostate predicate FocusMoved(w: Window)
      reads this
    {
      && w in old(clients) && 0 <= old(clients)[w].ws < |wsMonitor|
      && old(clients)[w].ws < |old(cList)| && old(clients)[w].ws < |old(fList)|
      && var ws := old(clients)[w].ws;
      && fClient == Some(w) && fLastClient.None? && currWs == ws
      && cList == old(cList)[ws := MoveToFront(old(cList)[ws], w)]
      && fList == old(fList)[ws := Reordered(old(fList)[ws], w, old(fLastClient))]
      && clients == FocusedRecords(old(clients), w, old(currWs), wsMonitor, displayWidth)
    }

    /** A client in either list of workspace `i` is a listed client of `i`. */
    lemma Member(i: int, v: Window)
      requires Inv() && 0 <= i < WorkspaceNumber && (v in cList[i] || v in fList[i])
      ensures Listed(v) && clients[v].ws == i
    {
      ListedAt(roster, cList, fList, i);
      if v in cList[i] {
        PlacedMember(roster, cList[i], i, v);
      } else {
        PlacedMember(roster, fList[i], i, v);
      }
      Key(v);
    }

    /** Each list of workspace `i` holds each client whose record names `i`, once. */
    lemma WorkspaceMembers(i: int)
      requires Inv() && 0 <= i < WorkspaceNumber
      ensures Unique(cList[i]) && Unique(fList[i])
      ensures forall v :: v in cList[i] <==> v in clients && clients[v].ws == i
      ensures forall v :: v in fList[i] <==> v in clients && clients[v].ws == i
    {
      ListedAt(roster, cList, fList, i);
      AllKeyed();
      forall v | v in clients && clients[v].ws == i
        ensures v in cList[i] && v in fList[i]
      {
        ListedOnce(roster, cList, fList, v);
      }
    }

    /** One step of the hiding pass of `switch_ws`: hide the client, then put its hidden flag back. */
    method StashClient(w: Window)
      modifies this`clients
      requires w in clients
      ensures clients == old(clients)[w := Stashed(old(clients)[w], displayWidth)]
    {
      var hidden := clients[w].hidden;
      ClientHide(w);
      SetRecord(w, clients[w].(hidden := hidden));
    }

    /** The hiding loop of `switch_ws` over the stacking list `l`: every client in it is hidden and keeps its hidden flag. */
    method StashClients(l: seq<Window>)
      modifies this`clients
      requires Unique(l) && forall v :: v in l ==> v in clients
      ensures clients.Keys == old(clients).Keys
      ensures forall v :: v in clients ==> clients[v] == if v in l then Stashed(old(clients)[v], displayWidth) else old(clients)[v]
    {
      ghost var c0 := clients;
      var j := 0;
      while j < |l|
        invariant 0 <= j <= |l|
        invariant clients.Keys == c0.Keys
        invariant forall v :: v in clients ==> clients[v] == if v in l && IndexOf(l, v) < j then Stashed(c0[v], displayWidth) else c0[v]
      {
        var t := l[j];
        IndexOfAt(l, j);
        ghost var before := clients;
        StashClient(t);
        forall v | v in clients
          ensures clients[v] == if v in l && IndexOf(l, v) < j + 1 then Stashed(c0[v], displayWidth) else c0[v]
        {
          if v != t {
            assert clients[v] == before[v];
          }
        }
        j := j + 1;
      }
    }

    /** The hiding pass of `switch_ws` over workspace `i`: every client of `i` is hidden and keeps its hidden flag. */
    method StashWorkspace(i: int)
      modifies this`clients
      requires Inv() && 0 <= i < WorkspaceNumber
      ensures clients.Keys == old(clients).Keys && Inv()
      ensures forall v :: v in clients ==>
        clients[v] == if old(clients)[v].ws == i then Stashed(old(clients)[v], displayWidth) else old(clients)[v]
    {
      ghost var c0 := clients;
      WorkspaceMembers(i);
      StashClients(cList[i]);
      RekeyedAll(c0, clients, roster);
    }

    /** One step of the showing pass of `switch_ws`: a visible client is marked hidden and shown, raising suppressed. */
    method RevealClient(w: Window)
      modifies this`clients, this`cList
      requires Keyed() && suppressRaise && w in clients
      ensures clients == old(clients)[w := Revealed(old(clients)[w])]
      ensures cList == old(cList) && Keyed()
    {
      Key(w);
      if !clients[w].hidden {
        ghost var c1 := clients;
        SetRecord(w, clients[w].(hidden := true));
        ClientShow(w);
        MapUpdateTwice(c1, w, c1[w].(hidden := true), Shown(c1[w].(hidden := true)));
        Rekeyed(c1, roster, w, Revealed(c1[w]));
      }
    }

    /** The showing loop of `switch_ws` over the stacking list `l`, raising suppressed. */
    method RevealClients(l: seq<Window>)
      modifies this`clients, this`cList
      requires Keyed() && suppressRaise && Unique(l) && forall v :: v in l ==> v in clients
      ensures clients.Keys == old(clients).Keys && cList == old(cList) && Keyed()
      ensures forall v :: v in clients ==> clients[v] == if v in l then Revealed(old(clients)[v]) else old(clients)[v]
    {
      ghost var c0 := clients;
      var j := 0;
      while j < |l|
        invariant 0 <= j <= |l|
        invariant clients.Keys == c0.Keys && cList == old(cList) && Keyed()
        invariant forall v :: v in clients ==> clients[v] == if v in l && IndexOf(l, v) < j then Revealed(c0[v]) else c0[v]
      {
        var t := l[j];
        IndexOfAt(l, j);
        ghost var before := clients;
        RevealClient(t);
        forall v | v in clients
          ensures clients[v] == if v in l && IndexOf(l, v) < j + 1 then Revealed(c0[v]) else c0[v]
        {
          if v != t {
            assert clients[v] == before[v];
          }
        }
        j := j + 1;
      }
    }

    /**
     * The showing pass of `switch_ws` over workspace `i`, raising
     * suppressed: every visible client is marked hidden and shown again, so
     * it returns to its remembered x.
     */
    method RevealWorkspace(i: int)
      modifies this`clients, this`cList
      requires Inv() && suppressRaise && 0 <= i < WorkspaceNumber
      ensures clients.Keys == old(clients).Keys && cList == old(cList) && Inv()
      ensures forall v :: v in clients ==>
        clients[v] == if old(clients)[v].ws == i then Revealed(old(clients)[v]) else old(clients)[v]
    {
      WorkspaceMembers(i);
      RevealClients(cList[i]);
    }

    /** The walk that ends `switch_ws`: from the top of the current workspace's stacking list along the focus links to the first visible client. */
    method FindCandidate() returns (r: Option<Window>)
      requires Inv()
      ensures r == FocusCandidate(cList[currWs], fList[currWs], clients)
    {
      var cl, fl := cList[currWs], fList[currWs];
      WorkspaceMembers(currWs);
      if |cl| == 0 || cl[0] !in fl {
        return None;
      }
      var k := Locate(fl, cl[0]);
      var j := k;
      while j < |fl|
        invariant k <= j <= |fl|
        invariant FirstShown(fl[k..], clients) == FirstShown(fl[j..], clients)
      {
        if !clients[fl[j]].hidden {
          return Some(fl[j]);
        }
        assert fl[j..][1..] == fl[j + 1..];
        j := j + 1;
      }
      return None;
    }

    /**
     * `switch_ws`: hide the other workspaces of the same monitor (keeping
     * their hidden flags), reveal workspace `ws`, make it the current one,
     * and hand the focus to the first visible client the walk from the top
     * of its stacking list finds; when it finds none, the focus stays.
     */
    method SwitchWs(ws: int)
      modifies this`clients, this`cList, this`fList, this`fClient, this`fLastClient, this`currWs, this`suppressRaise
      requires Inv() && !suppressRaise && 0 <= ws < WorkspaceNumber
      ensures Inv() && !suppressRaise && currWs == ws
      ensures ws == old(currWs) ==>
        (clients == old(clients) && cList == old(cList) && fList == old(fList)
         && fClient == old(fClient) && fLastClient == old(fLastClient))
      ensures ws != old(currWs) ==> clients == Switched(old(clients), ws, wsMonitor, displayWidth)
      ensures ws != old(currWs) ==>
        FocusWalked(FocusCandidate(old(cList)[ws], old(fList)[ws], Switched(old(clients), ws, wsMonitor, displayWidth)),
                    ws, old(cList), old(fList), old(fClient), old(fLastClient))
    {
      if currWs == ws {
        return;
      }
      SwitchRecords(ws);
      currWs := ws;
      FocusFirstShown(FocusCandidate(old(cList)[ws], old(fList)[ws], Switched(old(clients), ws, wsMonitor, displayWidth)),
                      old(cList), old(fList), old(fClient), old(fLastClient));
    }

    /**
     * The state the walk at the end of `switch_ws` leaves on workspace `ws`,
     * from lists `cl0` and `fl0`, focus `fc0` and last focus `last0`: the
     * client it found, if any, was raised and given the focus, and the
     * previously focused client relinked after it; otherwise the lists and
     * the focus are as they were.
     */
    ghost predicate FocusWalked(next: Option<Window>, ws: int, cl0: seq<seq<Window>>, fl0: seq<seq<Window>>,
                                fc0: Option<Window>, last0: Option<Window>)
      reads this`cList, this`fList, this`fClient, this`fLastClient
    {
      && 0 <= ws < |cl0| && ws < |fl0|
      && (next.Some? ==>
           && fClient == next && fLastClient.None?
           && cList == cl0[ws := MoveToFront(cl0[ws], next.value)]
           && fList == fl0[ws := Reordered(fl0[ws], next.value, last0)])
      && (next.None? ==>
           && fClient == fc0 && fLastClient == last0
           && cList == cl0 && fList == fl0)
    }

    /** The walk at the end of `switch_ws`, and the focus handed to what it finds. */
    method FocusFirstShown(ghost next: Option<Window>, ghost cl0: seq<seq<Window>>, ghost fl0: seq<seq<Window>>,
                           ghost fc0: Option<Window>, ghost last0: Option<Window>)
      modifies this`clients, this`cList, this`fList, this`fClient, this`fLastClient
      requires Inv() && !suppressRaise
      requires cList == cl0 && fList == fl0 && fClient == fc0 && fLastClient == last0
      requires next == FocusCandidate(cList[currWs], fList[currWs], clients)
      ensures Inv() && clients == old(clients)
      ensures FocusWalked(next, currWs, cl0, fl0, fc0, last0)
    {
      var found := FindCandidate();
      if found.Some? {
        ghost var c0 := clients;
        WorkspaceMembers(currWs);
        FocusHere(found.value);
        MapUpdateSame(c0, found.value);
      }
    }

    /** One turn of the loop of `switch_ws` to workspace `ws`: the pass over workspace `i`. */
    method SwitchPass(i: int, ws: int)
      modifies this`clients, this`cList, this`suppressRaise
      requires Inv() && !suppressRaise
      requires 0 <= i < WorkspaceNumber && 0 <= ws < WorkspaceNumber
      ensures clients == SwitchedPass(old(clients), ws, wsMonitor, displayWidth, i)
      ensures cList == old(cList) && Inv() && !suppressRaise
    {
      ghost var c0 := clients;
      if i != ws && wsMonitor[i] == wsMonitor[ws] {
        StashWorkspace(i);
      } else if i == ws {
        suppressRaise := true;
        RevealWorkspace(i);
        suppressRaise := false;
      }
      PassAgrees(c0, clients, ws, wsMonitor, displayWidth, i);
    }

    /** The hiding and showing passes of `switch_ws` to workspace `ws`, over all workspaces in turn. */
    method SwitchRecords(ws: int)
      modifies this`clients, this`cList, this`suppressRaise
      requires Inv() && !suppressRaise && 0 <= ws < WorkspaceNumber
      ensures clients == Switched(old(clients), ws, wsMonitor, displayWidth)
      ensures cList == old(cList) && Inv() && !suppressRaise
    {
      ghost var c0 := clients;
      SwitchedBelowStep(c0, ws, wsMonitor, displayWidth, 0);
      var i := 0;
      while i < WorkspaceNumber
        invariant 0 <= i <= WorkspaceNumber
        invariant Inv() && cList == old(cList) && !suppressRaise
        invariant clients == SwitchedBelow(c0, ws, wsMonitor, displayWidth, i)
      {
        SwitchPass(i, ws);
        SwitchedBelowStep(c0, ws, wsMonitor, displayWidth, i);
        i := i + 1;
      }
      forall v | v in c0
        ensures c0[v].ws < WorkspaceNumber
      {
        KeyOf(c0, roster, v);
      }
      SwitchedBelowStep(c0, ws, wsMonitor, displayWidth, i);
    }

    /**
     * `client_manage_focus`: raise the client, show it if hidden, switch
     * to its workspace if that is not the current one, give it the focus
     * and let `reorder_focus` relink the previously focused client after
     * it. With no client, nothing has the focus any more.
     */
    method ManageFocus(c: Option<Window>)
      modifies this`clients, this`cList, this`fList, this`fClient, this`fLastClient, this`currWs, this`suppressRaise
      requires Inv() && !suppressRaise
      requires c.Some? ==> c.value in clients
      ensures Inv() && !suppressRaise
      ensures c.Some? ==> FocusMoved(c.value)
      ensures c.None? ==>
        (fClient.None? && clients == old(clients) && cList == old(cList) && fList == old(fList)
         && fLastClient == old(fLastClient) && currWs == old(currWs))
    {
      if c.None? {
        fClient := None;
      } else if clients[c.value].ws == currWs {
        FocusHere(c.value);
      } else {
        FocusAcross(c.value);
      }
    }

    /**
     * `focus_next`: hand the focus to the client after `c` in the focus
     * list of its workspace (after the head of the current workspace's list
     * when there is no `c`), wrapping round; an empty list changes nothing.
     */
    method FocusNext(c: Option<Window>)
      modifies this`clients, this`cList, this`fList, this`fClient, this`fLastClient, this`currWs, this`suppressRaise
      requires Inv() && !suppressRaise
      requires c.Some? ==> c.value in clients
      ensures Inv() && !suppressRaise
      ensures var ws := if c.Some? then old(clients)[c.value].ws else old(currWs);
        && 0 <= ws < WorkspaceNumber
        && var next := NextFocus(old(fList)[ws], c);
        && (next.Some? ==> FocusMoved(next.value))
        && (next.None? ==> clients == old(clients) && cList == old(cList) && fList == old(fList)
                           && fClient == old(fClient) && fLastClient == old(fLastClient) && currWs == old(currWs))
    {
      if c.Some? {
        Key(c.value);
      }
      var ws := if c.Some? then clients[c.value].ws else currWs;
      if c.Some? {
        ListedOnce(roster, cList, fList, c.value);
      }
      WorkspaceMembers(ws);
      var fl := fList[ws];
      if |fl| == 0 {
        return;
      }
      var from := if c.Some? then c.value else fl[0];
      var next := if fl[0] == from && |fl| == 1 then fl[0] else Successor(fl, from);
      ManageFocus(Some(next));
    }

    /** `client_manage_focus` on a client of the current workspace. */
    method FocusHere(w: Window)
      modifies this`clients, this`cList, this`fList, this`fClient, this`fLastClient
      requires Inv() && !suppressRaise && w in clients && clients[w].ws == currWs
      ensures Inv()
      ensures clients == old(clients)[w := Shown(old(clients)[w])]
      ensures fClient == Some(w) && fLastClient.None?
      ensures cList == old(cList)[currWs := MoveToFront(old(cList)[currWs], w)]
      ensures fList == old(fList)[currWs := Reordered(old(fList)[currWs], w, old(fLastClient))]
    {
      RaiseAndShow(w);
      TakeFocus(w);
    }

    /** The last steps of `client_manage_focus`: the client gets the focus and `reorder_focus` runs. */
    method TakeFocus(w: Window)
      modifies this`fList, this`fClient, this`fLastClient
      requires Inv() && w in clients && clients[w].ws == currWs
      ensures Inv()
      ensures fClient == Some(w) && fLastClient.None?
      ensures fList == old(fList)[currWs := Reordered(old(fList)[currWs], w, old(fLastClient))]
      ensures old(fLastClient).None? ==> fList == old(fList)
    {
      Key(w);
      UpdateSame(fList, currWs);
      fClient := Some(w);
      ReorderFocus();
    }

    /** `client_manage_focus` on a client of another workspace: the switch to it ends by focusing this very client. */
    method FocusAcross(w: Window)
      modifies this`clients, this`cList, this`fList, this`fClient, this`fLastClient, this`currWs, this`suppressRaise
      requires Inv() && !suppressRaise && w in clients && clients[w].ws != currWs
      ensures Inv() && !suppressRaise
      ensures var ws := old(clients)[w].ws;
        && currWs == ws && fClient == Some(w) && fLastClient.None?
        && clients == Switched(old(clients)[w := Shown(old(clients)[w])], ws, wsMonitor, displayWidth)
        && cList == old(cList)[ws := MoveToFront(old(cList)[ws], w)]
        && fList == old(fList)[ws := Reordered(old(fList)[ws], w, old(fLastClient))]
    {
      SwitchTo(w);
      TakeFocus(w);
    }

    /**
     * The steps of `client_manage_focus` up to the switch of workspace: the
     * client is raised and shown, and the switch ends by focusing it, as it
     * is the first visible client its walk meets.
     */
    method SwitchTo(w: Window)
      modifies this`clients, this`cList, this`fList, this`fClient, this`fLastClient, this`currWs, this`suppressRaise
      requires Inv() && !suppressRaise && w in clients && clients[w].ws != currWs
      ensures Inv() && !suppressRaise && w in clients && clients[w].ws == currWs
      ensures var ws := old(clients)[w].ws;
        && currWs == ws && fClient == Some(w) && fLastClient.None?
        && clients == Switched(old(clients)[w := Shown(old(clients)[w])], ws, wsMonitor, displayWidth)
        && cList == old(cList)[ws := MoveToFront(old(cList)[ws], w)]
        && fList == old(fList)[ws := Reordered(old(fList)[ws], w, old(fLastClient))]
    {
      ghost var cl0 := cList;
      RaiseAndShow(w);
      Key(w);
      SwitchToTop(w);
      MoveToFrontIdempotent(cl0[currWs], w);
      UpdateTwice(cl0, currWs, MoveToFront(cl0[currWs], w), MoveToFront(cl0[currWs], w));
    }

    /** `switch_ws` to the workspace of a visible client on top of its stacking list: the walk finds that client. */
    method SwitchToTop(w: Window)
      modifies this`clients, this`cList, this`fList, this`fClient, this`fLastClient, this`currWs, this`suppressRaise
      requires Inv() && !suppressRaise && w in clients && !clients[w].hidden && clients[w].ws != currWs
      requires 0 <= clients[w].ws < WorkspaceNumber && |cList[clients[w].ws]| > 0 && cList[clients[w].ws][0] == w
      ensures Inv() && !suppressRaise && w in clients && clients[w].ws == currWs
      ensures var ws := old(clients)[w].ws;
        && currWs == ws && fClient == Some(w) && fLastClient.None?
        && clients == Switched(old(clients), ws, wsMonitor, displayWidth)
        && cList == old(cList)[ws := MoveToFront(old(cList)[ws], w)]
        && fList == old(fList)[ws := Reordered(old(fList)[ws], w, old(fLastClient))]
    {
      var ws := clients[w].ws;
      ListedOnce(roster, cList, fList, w);
      SwitchFindsTop(cList[ws], fList[ws], clients, ws, wsMonitor, displayWidth);
      SwitchWs(ws);
    }

    /** The first steps of `client_manage_focus`: raise the client, then show it if it is hidden (which raises it again, to no effect). */
    method RaiseAndShow(w: Window)
      modifies this`clients, this`cList
      requires Inv() && !suppressRaise && w in clients
      ensures var ws := old(clients)[w].ws;
        && 0 <= ws < WorkspaceNumber
        && clients == old(clients)[w := Shown(old(clients)[w])]
        && cList == old(cList)[ws := MoveToFront(old(cList)[ws], w)]
      ensures Inv()
    {
      Key(w);
      ghost var cl0 := cList;
      ClientRaise(Some(w));
      if clients[w].hidden {
        ClientShow(w);
        MoveToFrontIdempotent(cl0[clients[w].ws], w);
      } else {
        MapUpdateSame(old(clients), w);
      }
    }
  
    // ---- client_fullscreen ----

    /**
     * `client_fullscreen`: go to the requested state (the opposite of the
     * current one for a toggle); nothing happens when the client is already
     * in it. Only leaving after entry removed the frame moves the focus.
     */
    method ClientFullscreen(w: Window, toggle: bool, fullscreen: bool, max: bool)
      modifies this`clients, this`cList, this`fList, this`fClient, this`fLastClient, this`currWs, this`suppressRaise
      requires Inv() && !suppressRaise && OnMonitor(w)
      ensures Inv() && !suppressRaise
      ensures var c := old(clients)[w];
        !Redecorates(c, conf, toggle, fullscreen) ==>
          && clients == old(clients)[w := Fullscreened(c, monitors[wsMonitor[c.ws]], conf, toggle, fullscreen, max)]
          && cList == old(cList) && fList == old(fList) && fClient == old(fClient)
          && fLastClient == old(fLastClient) && currWs == old(currWs)
      ensures var c := old(clients)[w];
        Redecorates(c, conf, toggle, fullscreen) ==> FullscreenLeftRedecorated(w, max)
    {
      var c := clients[w];
      var toFs := if toggle then !c.fullscreen else fullscreen;
      if toFs == c.fullscreen {
        MapUpdateSame(clients, w);
        return;
      }
      if toFs {
        ghost var c0 := clients;
        FullscreenEnter(w);
        KeyOf(c0, roster, w);
        Rekeyed(c0, roster, w, clients[w]);
      } else if !c.decorated && conf.fsRemoveDec && c.wasFs {
        FullscreenLeaveRedecorating(w, max);
      } else {
        FullscreenLeave(w, max);
      }
    }

    /** The record steps of `client_fullscreen` leaving, when entry kept the frame: restore if asked, clear, refresh. */
    method FullscreenLeave(w: Window, max: bool)
      modifies this`clients
      requires Keyed() && w in clients
      requires clients[w].decorated || !conf.fsRemoveDec || !clients[w].wasFs
      ensures Keyed()
      ensures clients == old(clients)[w := FullscreenLeft(old(clients)[w], conf, max)]
    {
      ghost var c0 := clients;
      if max {
        RestoreGeometry(w);
      }
      ghost var c1 := clients;
      FullscreenClear(w);
      if max {
        MapUpdateTwice(c0, w, c1[w], clients[w]);
      }
      KeyOf(c0, roster, w);
      Rekeyed(c0, roster, w, clients[w]);
    }

    /**
     * The state `client_fullscreen` leaves when it gives the frame back:
     * the decorated record is focused (shown, its workspace switched to if
     * need be, raised), then both flags are cleared and it is refreshed.
     */
    twostate predicate FullscreenLeftRedecorated(w: Window, max: bool)
      reads this`clients, this`cList, this`fList, this`fClient, this`fLastClient, this`currWs, this`conf
    {
      && w in old(clients)
      && var d := DecorationsShown(FullscreenRestored(old(clients)[w], max), old(conf));
      && FocusCleared(w, old(clients)[w := d], old(cList), old(fList), old(currWs), old(fLastClient))
    }

    /** `client_fullscreen` leaving, when entry removed the frame: restore, redecorate, raise, focus, clear. */
    method FullscreenLeaveRedecorating(w: Window, max: bool)
      modifies this`clients, this`cList, this`fList, this`fClient, this`fLastClient, this`currWs, this`suppressRaise
      requires Inv() && !suppressRaise && w in clients && 0 <= clients[w].ws < |wsMonitor|
      ensures Inv() && !suppressRaise
      ensures FullscreenLeftRedecorated(w, max)
    {
      FullscreenRedecorate(w, max);
      FocusAndClear(w, old(clients)[w := DecorationsShown(FullscreenRestored(old(clients)[w], max), old(conf))],
                    old(cList), old(fList), old(currWs), old(fLastClient));
    }

    /**
     * The state the last steps of `client_fullscreen` leave, from records
     * `c0`, lists `cl0` and `fl0`, workspace `curr0` and last focus `last0`:
     * `w` is focused, then both its flags are cleared and it is refreshed.
     */
    ghost predicate FocusCleared(w: Window, c0: map<Window, Client>, cl0: seq<seq<Window>>, fl0: seq<seq<Window>>,
                                 curr0: int, last0: Option<Window>)
      reads this`clients, this`cList, this`fList, this`fClient, this`fLastClient, this`currWs
    {
      && w in c0 && 0 <= c0[w].ws < |wsMonitor| && c0[w].ws < |cl0| && c0[w].ws < |fl0|
      && var ws := c0[w].ws;
      && var f := FocusedRecords(c0, w, curr0, wsMonitor, displayWidth);
      && clients == f[w := Refreshed(f[w].(fullscreen := false, wasFs := false))]
      && fClient == Some(w) && fLastClient.None? && currWs == ws
      && cList == cl0[ws := MoveToFront(cl0[ws], w)]
      && fList == fl0[ws := Reordered(fl0[ws], w, last0)]
    }

    /** The steps of `client_fullscreen` after the frame is back: raise, focus, clear the flags. */
    method FocusAndClear(w: Window, ghost c0: map<Window, Client>, ghost cl0: seq<seq<Window>>, ghost fl0: seq<seq<Window>>,
                         ghost curr0: int, ghost last0: Option<Window>)
      modifies this`clients, this`cList, this`fList, this`fClient, this`fLastClient, this`currWs, this`suppressRaise
      requires Inv() && !suppressRaise && w in clients && 0 <= clients[w].ws < |wsMonitor|
      requires clients == c0 && cList == cl0 && fList == fl0 && currWs == curr0 && fLastClient == last0
      ensures Inv() && !suppressRaise
      ensures FocusCleared(w, c0, cl0, fl0, curr0, last0)
    {
      RaiseAndFocus(w);
      ghost var f := clients;
      FullscreenClear(w);
      KeyOf(f, roster, w);
      Rekeyed(f, roster, w, clients[w]);
    }

    /** The record steps of leaving fullscreen before the focus moves: restore if asked, then give the frame back. */
    method FullscreenRedecorate(w: Window, max: bool)
      modifies this`clients
      requires Keyed() && w in clients
      ensures Keyed()
      ensures clients == old(clients)[w := DecorationsShown(FullscreenRestored(old(clients)[w], max), conf)]
    {
      ghost var c0 := clients;
      ghost var d := DecorationsShown(FullscreenRestored(c0[w], max), conf);
      if max {
        RestoreGeometry(w);
      }
      ClientDecorationsShow(w);
      if max {
        MapUpdateTwice(c0, w, FullscreenRestored(c0[w], max), d);
      }
      KeyOf(c0, roster, w);
      Rekeyed(c0, roster, w, d);
    }

    /** `client_raise` followed by `client_manage_focus`: the first raise makes no difference. */
    method RaiseAndFocus(w: Window)
      modifies this`clients, this`cList, this`fList, this`fClient, this`fLastClient, this`currWs, this`suppressRaise
      requires Inv() && !suppressRaise && w in clients
      ensures Inv() && !suppressRaise
      ensures FocusMoved(w)
    {
      ghost var cl0 := cList;
      Key(w);
      var ws := clients[w].ws;
      ClientRaise(Some(w));
      ManageFocus(Some(w));
      MoveToFrontIdempotent(cl0[ws], w);
      UpdateTwice(cl0, ws, MoveToFront(cl0[ws], w), MoveToFront(cl0[ws], w));
    }

    // ---- manage_new_window and window_find_struts ----

    /**
     * `window_find_struts`: the four gaps become the largest struts the
     * top-level windows reserve. `children` is the outcome of the tree
     * query, `None` when it failed, which changes nothing.
     */
    method WindowFindStruts(children: Option<seq<Struts.ChildStruts>>)
      modifies this`conf
      ensures children.None? ==> conf == old(conf)
      ensures children.Some? ==>
        var m := Struts.Fold(children.value);
        conf == old(conf).(leftGap := m[0], rightGap := m[1], topGap := m[2], botGap := m[3])
    {
      if children.Some? {
        var m := Struts.FindStruts(children.value);
        conf := conf.(leftGap := m[0], rightGap := m[1], topGap := m[2], botGap := m[3]);
      }
    }

    /**
     * `update_config`: the `setters` table is searched for `offset`; on a
     * hit the unsigned field at that offset takes `value`, and an offset no
     * setter names changes nothing.
     */
    method UpdateConfig(offset: nat, value: U32)
      modifies this`conf
      ensures offset in Setters ==> conf == WithField(old(conf), offset, value)
      ensures offset !in Setters ==> conf == old(conf)
    {
      for i := 0 to |Setters|
        invariant conf == old(conf)
        invariant forall j :: 0 <= j < i ==> Setters[j] != offset
      {
        if Setters[i] == offset {
          SettersAreFrameFields();
          conf := WithField(conf, offset, value);
          return;
        }
      }
    }

    /**
     * `manage_new_window`, for the window `w` with attributes `attrs`. A
     * window whose first type atom `typeProp` the filter turns away is left
     * unmanaged (the struts are looked for again); so is a window that is
     * already managed. Otherwise it becomes a client of the current
     * workspace, goes to the head of both of its lists, is centred on the
     * workspace's monitor and takes the focus. The X reads are inputs:
     * the strut query `children`, the class hint, the Motif hints, the
     * frame the server creates, the title read and the minimum size.
     */
    method ManageNewWindow(w: Window, attrs: Geom, typeProp: Admission.TypeProperty, atoms: Atoms,
                           children: Option<seq<Struts.ChildStruts>>, classHint: bool,
                           hints: Option<Admission.MotifHints>, frame: Window, title: TitleRead,
                           minWidth: int, minHeight: int) returns (managed: bool)
      modifies this`clients, this`roster, this`cList, this`fList, this`fClient, this`fLastClient, this`currWs,
               this`suppressRaise, this`conf
      requires Valid()
      ensures Valid()
      ensures managed <==> !Admission.Filtered(typeProp, atoms, old(conf)) && w !in old(clients)
      ensures !managed ==>
        && clients == old(clients) && roster == old(roster) && cList == old(cList) && fList == old(fList)
        && fClient == old(fClient) && currWs == old(currWs)
      ensures Admission.Filtered(typeProp, atoms, old(conf)) && children.Some? ==>
        var m := Struts.Fold(children.value);
        conf == old(conf).(leftGap := m[0], rightGap := m[1], topGap := m[2], botGap := m[3])
      ensures !Admission.Filtered(typeProp, atoms, old(conf)) || children.None? ==> conf == old(conf)
      ensures managed ==>
        var ws := old(currWs);
        var c := NewClient(w, ws, attrs, classHint, hints, minWidth, minHeight);
        && clients == old(clients)[w := Admitted(c, conf, frame, title, monitors[wsMonitor[ws]])]
        && roster == old(roster)[w := ws]
        && currWs == ws && fClient == Some(w)
        && cList == old(cList)[ws := [w] + old(cList)[ws]]
        && fList == old(fList)[ws := Reordered([w] + old(fList)[ws], w, old(fClient))]
    {
      if Admission.Filtered(typeProp, atoms, conf) {
        WindowFindStruts(children);
        return false;
      }
      var known := IsManaged(w);
      if known {
        return false;
      }
      Adopt(w, NewClient(w, currWs, attrs, classHint, hints, minWidth, minHeight), frame, title);
      return true;
    }

    /** What `manage_new_window` does with a window it keeps: admit it, then hand it the focus. */
    method Adopt(w: Window, c: Client, frame: Window, title: TitleRead)
      modifies this`clients, this`roster, this`cList, this`fList, this`fClient, this`fLastClient, this`currWs, this`suppressRaise
      requires Valid() && w !in clients && c.window == w && c.ws == currWs && !c.hidden
      ensures Valid()
      ensures var ws := old(currWs);
        && clients == old(clients)[w := Admitted(c, conf, frame, title, monitors[wsMonitor[ws]])]
        && roster == old(roster)[w := ws]
        && currWs == ws && fClient == Some(w)
        && cList == old(cList)[ws := [w] + old(cList)[ws]]
        && fList == old(fList)[ws := Reordered([w] + old(fList)[ws], w, old(fClient))]
    {
      var ws := currWs;
      Admit(w, c, frame, title);
      FocusNew(w);
      UpdateTwice(old(fList), ws, [w] + old(fList)[ws], Reordered([w] + old(fList)[ws], w, old(fClient)));
    }

    /**
     * The record steps of `manage_new_window` for a window not yet managed:
     * enter the record, give it its frame and title, refresh it, push it
     * onto both lists of the current workspace and centre it there.
     */
    method Admit(w: Window, c: Client, frame: Window, title: TitleRead)
      modifies this`clients, this`roster, this`cList, this`fList
      requires Inv() && w !in clients && c.window == w && c.ws == currWs
      ensures Inv()
      ensures clients == old(clients)[w := Admitted(c, conf, frame, title, monitors[wsMonitor[currWs]])]
      ensures roster == old(roster)[w := currWs]
      ensures cList == old(cList)[currWs := [w] + old(cList)[currWs]]
      ensures fList == old(fList)[currWs := [w] + old(fList)[currWs]]
    {
      Link(w, c, frame, title);
      ghost var prepared := Prepared(c, conf, frame, title);
      ClientPlace(w);
      MapUpdateTwice(old(clients), w, prepared, Admitted(c, conf, frame, title, monitors[wsMonitor[currWs]]));
    }

    /** The steps of `manage_new_window` up to placing: enter the record, prepare it, push it onto both lists. */
    method Link(w: Window, c: Client, frame: Window, title: TitleRead)
      modifies this`clients, this`roster, this`cList, this`fList
      requires Inv() && w !in clients && c.window == w && c.ws == currWs
      ensures Inv()
      ensures clients == old(clients)[w := Prepared(c, conf, frame, title)]
      ensures roster == old(roster)[w := currWs]
      ensures cList == old(cList)[currWs := [w] + old(cList)[currWs]]
      ensures fList == old(fList)[currWs := [w] + old(fList)[currWs]]
    {
      ghost var c0 := clients;
      Enter(w, c);
      PrepareRecord(w, frame, title);
      MapUpdateTwice(c0, w, c, clients[w]);
      Rekeyed(c0[w := c], roster, w, clients[w]);
      ClientSave(w, currWs);
    }

    /** `client_place`: centre a managed client on its workspace's monitor. */
    method ClientPlace(w: Window)
      modifies this`clients
      requires Inv() && OnMonitor(w)
      ensures Inv()
      ensures var m := monitors[wsMonitor[old(clients)[w].ws]];
        clients == old(clients)[w := CenteredIn(old(clients)[w], m.x, m.y, m.width, m.height, conf)]
    {
      ghost var c0 := clients;
      Key(w);
      ClientCenter(w);
      KeyOf(c0, roster, w);
      Rekeyed(c0, roster, w, clients[w]);
    }

    /** The record of a window being admitted enters the map and the roster, in no list yet. */
    method Enter(w: Window, c: Client)
      modifies this`clients, this`roster
      requires Inv() && w !in clients && c.window == w && c.ws == currWs
      ensures Detached(w) && fClient == old(fClient)
      ensures clients == old(clients)[w := c] && roster == old(roster)[w := c.ws]
    {
      Enrolled(clients, roster, w, c);
      assert roster[w := c.ws] - {w} == roster;
      clients := clients[w := c];
      roster := roster[w := c.ws];
    }

    /** The record steps of `manage_new_window` before the client is linked: frame, title, refresh. */
    method PrepareRecord(w: Window, frame: Window, title: TitleRead)
      modifies this`clients
      requires w in clients
      ensures clients == old(clients)[w := Prepared(old(clients)[w], conf, frame, title)]
    {
      var c := clients[w];
      var c1 := if conf.decorate && c.classHint then c.(dec := frame) else c;
      if conf.decorate && c.classHint {
        ClientDecorationsCreate(w, frame);
      }
      MapUpdateSame(old(clients), w);
      ClientSetTitle(w, title);
      MapUpdateTwice(old(clients), w, c1, c1.(title := Title(title)));
      ClientRefresh(w);
      MapUpdateTwice(old(clients), w, c1.(title := Title(title)), clients[w]);
    }

    /** A focused client becomes the last one; with none, the last one stays none. */
    method RememberFocus()
      modifies this`fLastClient
      requires fLastClient.None?
      ensures fLastClient == fClient
    {
      if fClient.Some? {
        fLastClient := fClient;
      }
    }

    /**
     * The end of `manage_new_window`: the focused client, if any, becomes
     * the last one, and the new client, visible at the head of the current
     * workspace, takes the focus.
     */
    method FocusNew(w: Window)
      modifies this`clients, this`cList, this`fList, this`fClient, this`fLastClient, this`currWs, this`suppressRaise
      requires Valid() && w in clients && clients[w].ws == currWs && !clients[w].hidden
      requires |cList[currWs]| > 0 && cList[currWs][0] == w
      ensures Valid()
      ensures clients == old(clients) && cList == old(cList) && currWs == old(currWs)
      ensures fClient == Some(w)
      ensures fList == old(fList)[currWs := Reordered(old(fList)[currWs], w, old(fClient))]
    {
      ghost var cl0 := cList;
      RememberFocus();
      FocusHere(w);
      MapUpdateSame(old(clients), w);
      MoveToFrontOfHead(cl0[currWs]);
      UpdateSame(cl0, currWs);
    }

    // ---- toggle_hide_all ----

    /** The first pass of `toggle_hide_all`: hide each visible client of `l`, and tell whether there was one. */
    method HideClients(l: seq<Window>) returns (hid: bool)
      modifies this`clients
      requires forall v :: v in l ==> v in clients
      ensures clients == HiddenAll(old(clients), l, displayWidth)
      ensures hid == AnyShown(l, old(clients))
    {
      ghost var c0 := clients;
      hid := false;
      var i := 0;
      while i < |l|
        invariant 0 <= i <= |l|
        invariant clients == HiddenAll(c0, l[..i], displayWidth)
        invariant hid == AnyShown(l[..i], c0)
      {
        HideStep(c0, l, i, displayWidth);
        if !clients[l[i]].hidden {
          ClientHide(l[i]);
          hid := true;
        } else {
          MapUpdateSame(clients, l[i]);
        }
        i := i + 1;
      }
      assert l[..i] == l;
    }

    /**
     * The second pass of `toggle_hide_all`, when every client of the
     * current workspace is hidden: the walk follows the stacking links, and
     * each client it shows is raised to the head, so the walk goes on from
     * the old head; the list ends up reversed.
     */
    method ShowWorkspace()
      modifies this`clients, this`cList
      requires Inv() && !suppressRaise
      requires !AnyShown(cList[currWs], clients)
      ensures Inv()
      ensures cList == old(cList)[currWs := Reverse(old(cList)[currWs])]
      ensures clients == ShownAll(old(clients), old(cList)[currWs])
    {
      ghost var l, c0, cl0 := cList[currWs], clients, cList;
      WorkspaceMembers(currWs);
      ghost var k := 0;
      var p := 0;
      assert Reverse(l[..0]) + l[0..] == l;
      UpdateSame(cl0, currWs);
      while p < |cList[currWs]|
        invariant Inv() && Walk(l, c0, cl0, k, p)
        decreases |l| - k, |l| - p
      {
        p, k := ShowAt(p, l, c0, cl0, k);
      }
      assert k == |l| && l[..k] == l && l[k..] == [];
      assert Reverse(l[..k]) + l[k..] == Reverse(l);
    }

    /**
     * Where the walk of `ShowWorkspace` stands: the first `k` clients of
     * `l` were shown and each moved to the head in turn, and the walk is at
     * position `p` of the stacking list, which only the first of the clients
     * not yet shown can hold.
     */
    ghost predicate Walk(l: seq<Window>, c0: map<Window, Client>, cl0: seq<seq<Window>>, k: int, p: int)
      reads this`cList, this`clients, this`currWs
    {
      Walking(l, c0, cl0, k, p, currWs, cList, clients)
    }

    /** One step of the walk: show the client at position `p`, then go on from the one now after it. */
    method ShowAt(p: nat, ghost l: seq<Window>, ghost c0: map<Window, Client>, ghost cl0: seq<seq<Window>>, ghost k: nat)
      returns (next: nat, ghost k': nat)
      modifies this`clients, this`cList
      requires Inv() && !suppressRaise && Walk(l, c0, cl0, k, p) && p < |l|
      ensures Inv() && Walk(l, c0, cl0, k', next)
      ensures k < k' || (k == k' && p < next)
    {
      if clients[cList[currWs][p]].hidden {
        next := ShowHiddenAt(p, l, c0, cl0, k);
        k' := k + 1;
      } else {
        next := ShowShownAt(p, l, c0, cl0, k);
        k' := k;
      }
    }

    /** The walk reaches the first client not yet shown: it is shown and moved to the head, and the walk goes on from the old head. */
    method ShowHiddenAt(p: nat, ghost l: seq<Window>, ghost c0: map<Window, Client>, ghost cl0: seq<seq<Window>>, ghost k: nat)
      returns (next: nat)
      modifies this`clients, this`cList
      requires Inv() && !suppressRaise && Walk(l, c0, cl0, k, p) && p < |l|
      requires clients[cList[currWs][p]].hidden
      ensures Inv() && Walk(l, c0, cl0, k + 1, next) && next == 1
    {
      var c := cList[currWs][p];
      Member(currWs, c);
      ShowWalked(c, l, c0, cl0, k, p, cList, clients);
      next := 1;
    }

    /** `client_show` on the client the walk is at, seen from the walk. */
    method ShowWalked(c: Window, ghost l: seq<Window>, ghost c0: map<Window, Client>, ghost cl0: seq<seq<Window>>,
                      ghost k: nat, ghost p: nat, ghost cl: seq<seq<Window>>, ghost cs: map<Window, Client>)
      modifies this`clients, this`cList
      requires Inv() && !suppressRaise && Listed(c)
      requires cList == cl && clients == cs && Walking(l, c0, cl0, k, p, currWs, cl, cs) && p < |l|
      requires c == cl[currWs][p] && cs[c].hidden && cs[c].ws == currWs
      ensures Inv() && Walking(l, c0, cl0, k + 1, 1, currWs, cList, clients)
    {
      ClientShow(c);
      WalkShowsHidden(l, c0, cl0, k, p, currWs, cl, cs, cList, clients);
    }

    /** The walk passes a client it already showed: nothing changes, and it goes on to the next position. */
    method ShowShownAt(p: nat, ghost l: seq<Window>, ghost c0: map<Window, Client>, ghost cl0: seq<seq<Window>>, ghost k: nat)
      returns (next: nat)
      modifies this`clients, this`cList
      requires Inv() && !suppressRaise && Walk(l, c0, cl0, k, p) && p < |l|
      requires !clients[cList[currWs][p]].hidden
      ensures Inv() && Walk(l, c0, cl0, k, next) && next == p + 1
    {
      WorkspaceMembers(currWs);
      ghost var before := clients;
      var c := cList[currWs][p];
      Key(c);
      ClientShow(c);
      MapUpdateSame(before, c);
      IndexOfAt(cList[currWs], p);
      next := IndexOf(cList[currWs], c) + 1;
      if p == k {
        assert c == l[k];
        NotBefore(l, k);
        assert false;
      }
    }

    /**
     * `toggle_hide_all`: when some client of the current workspace is
     * visible, hide them all; otherwise show them all. Nothing has the
     * focus afterwards.
     */
    method ToggleHideAll()
      modifies this`clients, this`cList, this`fList, this`fClient, this`fLastClient, this`currWs, this`suppressRaise
      requires Inv() && !suppressRaise
      ensures Inv() && !suppressRaise && fClient.None?
      ensures fList == old(fList) && fLastClient == old(fLastClient) && currWs == old(currWs)
      ensures var l := old(cList)[old(currWs)];
        if AnyShown(l, old(clients))
        then clients == HiddenAll(old(clients), l, displayWidth) && cList == old(cList)
        else clients == ShownAll(old(clients), l) && cList == old(cList)[old(currWs) := Reverse(l)]
    {
      ghost var c0 := clients;
      WorkspaceMembers(currWs);
      var hid := HideClients(cList[currWs]);
      RekeyedAll(c0, clients, roster);
      if hid {
        ManageFocus(None);
        return;
      }
      HiddenAllOfHidden(c0, cList[currWs], displayWidth);
      ShowWorkspace();
      ManageFocus(None);
    }

    // ---- safe_to_focus and client_send_to_ws ----

    /** `safe_to_focus`: the walk over the workspaces of the monitor of `ws`. */
    method SafeToFocus(ws: int) returns (safe: bool)
      requires Inv() && 0 <= ws < WorkspaceNumber
      ensures safe == SafeFor(ws, cList, clients, wsMonitor, |monitors|)
    {
      var mon := wsMonitor[ws];
      if |monitors| == 1 {
        return false;
      }
      var i := 0;
      while i < WorkspaceNumber
        invariant 0 <= i <= WorkspaceNumber
        invariant forall j :: 0 <= j < i && j != ws && wsMonitor[j] == mon ==> !TopShown(cList[j], clients)
      {
        WorkspaceMembers(i);
        if i != ws && wsMonitor[i] == mon && |cList[i]| > 0 && !clients[cList[i][0]].hidden {
          return false;
        }
        i := i + 1;
      }
      return true;
    }

    /**
     * The first steps of `client_send_to_ws`: unlink the client from its
     * workspace, name the new one in its record, and push it onto the new
     * workspace's lists.
     */
    method Rehome(w: Window, ws: int)
      modifies this`clients, this`roster, this`cList, this`fList, this`fClient
      requires Inv() && w in clients && 0 <= ws < WorkspaceNumber
      ensures Inv()
      ensures clients == old(clients)[w := old(clients)[w].(ws := ws)] && roster == old(roster)[w := ws]
      ensures var prev := old(clients)[w].ws;
        && 0 <= prev < WorkspaceNumber
        && var cl := old(cList)[prev := Remove(old(cList)[prev], w)];
        && cList == cl[ws := [w] + cl[ws]]
      ensures var prev := old(clients)[w].ws;
        && 0 <= prev < WorkspaceNumber
        && var fl := old(fList)[prev := Remove(old(fList)[prev], w)];
        && fList == fl[ws := [w] + fl[ws]]
      ensures fClient == if old(fClient) == Some(w) then None else old(fClient)
    {
      ClientDelete(w);
      Rename(w, ws);
      ClientSave(w, ws);
    }

    /** `c->ws = ws` on a detached client: the record and the roster name the new workspace. */
    method Rename(w: Window, ws: int)
      modifies this`clients, this`roster
      requires Detached(w) && 0 <= ws < WorkspaceNumber
      ensures Detached(w)
      ensures clients == old(clients)[w := old(clients)[w].(ws := ws)] && roster == old(roster)[w := ws]
    {
      MapUpdateRemove(roster, w, ws);
      Rehomed(clients, roster, w, ws);
      SetRecord(w, clients[w].(ws := ws));
      roster := roster[w := ws];
    }

    /**
     * `client_send_to_ws`: move a client to workspace `ws`, hand the focus
     * on within the workspace it left, keep its offset from the origin of
     * its monitor on the new one, and show it there when that is safe;
     * otherwise it is hidden and then marked visible again, so it is never
     * left marked hidden.
     */
    method SendToWs(w: Window, ws: int)
      modifies this`clients, this`roster, this`cList, this`fList, this`fClient, this`fLastClient, this`currWs, this`suppressRaise
      requires Inv() && !suppressRaise && w in clients && 0 <= ws < WorkspaceNumber
      ensures Inv() && !suppressRaise
      ensures w in clients && clients[w].ws == ws && !clients[w].hidden
      ensures roster == old(roster)[w := ws]
    {
      Key(w);
      var monNext := wsMonitor[ws];
      var monPrev := wsMonitor[clients[w].ws];
      Depart(w, ws);
      Key(w);
      Relocate(w, monPrev, monNext, SafeFor(ws, cList, clients, wsMonitor, |monitors|));
      Key(w);
    }

    /**
     * The first steps of `client_send_to_ws`: the client moves to the head
     * of the lists of workspace `ws`, and the focus passes to the next client
     * after the head of the old workspace's focus list.
     */
    method Depart(w: Window, ws: int)
      modifies this`clients, this`roster, this`cList, this`fList, this`fClient, this`fLastClient, this`currWs, this`suppressRaise
      requires Inv() && !suppressRaise && w in clients && 0 <= ws < WorkspaceNumber
      ensures Inv() && !suppressRaise
      ensures w in clients && clients[w].ws == ws
      ensures roster == old(roster)[w := ws]
    {
      Key(w);
      ListedOnce(roster, cList, fList, w);
      var prev := clients[w].ws;
      Rehome(w, ws);
      if |fList[prev]| > 0 {
        Member(prev, fList[prev][0]);
      }
      FocusNext(if |fList[prev]| > 0 then Some(fList[prev][0]) else None);
      Key(w);
    }

    /** The end of `client_send_to_ws`: show the client if that is safe; otherwise hide it, then mark it visible. */
    method ShowIfSafe(w: Window, ghost safe: bool)
      modifies this`clients, this`cList
      requires Inv() && !suppressRaise && w in clients
      requires 0 <= clients[w].ws < WorkspaceNumber && safe == SafeFor(clients[w].ws, cList, clients, wsMonitor, |monitors|)
      ensures Inv()
      ensures var c := old(clients)[w];
        clients == old(clients)[w := Arrived(c, safe, displayWidth)]
      ensures !clients[w].hidden
    {
      Key(w);
      ListedOnce(roster, cList, fList, w);
      var ok := SafeToFocus(clients[w].ws);
      if ok {
        ClientShow(w);
      } else {
        ghost var c0 := clients;
        ClientHide(w);
        ghost var c1 := clients;
        SetRecord(w, clients[w].(hidden := false));
        MapUpdateTwice(c0, w, c1[w], clients[w]);
        Rekeyed(c0, roster, w, clients[w]);
      }
    }

    /**
     * The last steps of `client_send_to_ws`: keep the client's offset from
     * the origin of the monitor it left on the monitor of its new
     * workspace, then show it if that is safe, and otherwise hide it and
     * mark it visible again.
     */
    method Relocate(w: Window, monPrev: int, monNext: int, ghost safe: bool)
      modifies this`clients, this`cList
      requires Inv() && !suppressRaise && w in clients
      requires 0 <= monPrev < |monitors| && 0 <= monNext < |monitors|
      requires 0 <= clients[w].ws < WorkspaceNumber && safe == SafeFor(clients[w].ws, cList, clients, wsMonitor, |monitors|)
      ensures Inv()
      ensures var c := old(clients)[w];
        var moved := MovedTo(c, monitors[monNext].x + (c.geom.x - monitors[monPrev].x), monitors[monNext].y + (c.geom.y - monitors[monPrev].y));
        clients == old(clients)[w := Arrived(moved, safe, displayWidth)]
      ensures !clients[w].hidden
    {
      var xOff := clients[w].geom.x - monitors[monPrev].x;
      var yOff := clients[w].geom.y - monitors[monPrev].y;
      ghost var c0 := clients;
      ghost var moved := MovedTo(c0[w], monitors[monNext].x + xOff, monitors[monNext].y + yOff);
      ghost var target := Arrived(moved, safe, displayWidth);
      ListedOnce(roster, cList, fList, w);
      ClientMoveAbsolute(w, monitors[monNext].x + xOff, monitors[monNext].y + yOff);
      assert A: clients == c0[w := moved];
      KeyOf(c0, roster, w);
      Rekeyed(c0, roster, w, moved);
      SafeIgnoresMoves(c0[w].ws, cList, c0, w, moved, wsMonitor, |monitors|);
      ShowIfSafe(w, safe);
      assert B: clients == c0[w := moved][w := target];
      MapUpdateTwice(c0, w, moved, target);
      assert C: clients == c0[w := target];
    }

    // ---- alt-tab ----

    /**
     * Tab pressed without Super (`handle_key_press`): the first Tab of an
     * alt-tab run remembers the focused client as the last one, and every
     * Tab hands the focus to the next client after the focused one. The
     * focus change relinks the remembered client right after the newly
     * focused one, so the next Tab comes back to it.
     */
    method AltTab()
      modifies this`clients, this`cList, this`fList, this`fClient, this`fLastClient, this`currWs, this`suppressRaise,
               this`altTabbing
      requires Valid()
      ensures Valid() && altTabbing
      ensures var c := old(fClient);
        var ws := if c.Some? then old(roster)[c.value] else old(currWs);
        && 0 <= ws < WorkspaceNumber
        && var next := NextFocus(old(fList)[ws], c);
        && var last := if old(altTabbing) then None else c;
        && (c.Some? ==> next.Some?)
        && (next.Some? ==>
             && next.value in old(clients) && old(clients)[next.value].ws == ws
             && fClient == next && currWs == ws
             && cList == old(cList)[ws := MoveToFront(old(cList)[ws], next.value)]
             && fList == old(fList)[ws := Reordered(old(fList)[ws], next.value, last)]
             && clients == FocusedRecords(old(clients), next.value, old(currWs), wsMonitor, displayWidth))
        && (next.None? ==>
             clients == old(clients) && cList == old(cList) && fList == old(fList)
             && fClient == old(fClient) && currWs == old(currWs))
    {
      if fClient.Some? {
        Key(fClient.value);
        ListedOnce(roster, cList, fList, fClient.value);
      }
      ghost var ws := if fClient.Some? then roster[fClient.value] else currWs;
      ghost var next := NextFocus(fList[ws], fClient);
      if next.Some? {
        Member(ws, next.value);
      }
      if !altTabbing {
        altTabbing := true;
        RememberFocus();
      }
      FocusNext(fClient);
    }

    /**
     * Alt released (`handle_key_release`): an alt-tab run ends with
     * `reorder_focus`, which clears the remembered client; outside a run
     * nothing changes.
     */
    method AltRelease()
      modifies this`fList, this`fLastClient, this`altTabbing
      requires Inv()
      requires fClient.Some? && fLastClient.Some? ==> clients[fClient.value].ws == currWs
      ensures Inv() && !altTabbing
      ensures old(altTabbing) ==> fLastClient.None?
      ensures old(altTabbing) && fClient.Some? && old(fLastClient).Some? ==>
        fList == old(fList)[currWs := Reordered(old(fList)[currWs], fClient.value, old(fLastClient))]
      ensures !old(altTabbing) || fClient.None? || old(fLastClient).None? ==> fList == old(fList)
      ensures !old(altTabbing) ==> fLastClient == old(fLastClient)
    {
      if altTabbing {
        altTabbing := false;
        if fClient.Some? {
          Key(fClient.value);
        }
        ReorderFocus();
      }
    }
  }
}

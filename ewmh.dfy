/**
 * berry's side of the EWMH and ICCCM conventions as pure decisions: how a
 * `_NET_WM_STATE` client message (section "_NET_WM_STATE" of the Extended
 * Window Manager Hints) is turned into maximize and fullscreen requests,
 * how `_NET_WM_MOVERESIZE` directions are read, and what
 * `client_update_state` publishes: `WM_STATE` (section 4.1.3.1 of the
 * ICCCM) and the rewritten `_NET_WM_STATE` list.
 */
module Ewmh {
  import opened Types

  /** The action codes in `data.l[0]` of a `_NET_WM_STATE` message. */
  const StateRemove: int := 0
  const StateAdd: int := 1
  const StateToggle: int := 2

  /** `WM_STATE` values. */
  const NormalState: int := 1
  const IconicState: int := 3

  /** `_NET_WM_MOVERESIZE` directions berry acts on. */
  const MoveResizeSizeRight: int := 3
  const MoveResizeSizeBottomRight: int := 4
  const MoveResizeSizeBottom: int := 5
  const MoveResizeMove: int := 8

  /** Xlib's `Success`. */
  const Success: int := 0

  /** The maximize part of a `_NET_WM_STATE` message names a maximize atom in `data.l[1]` only. */
  predicate NamesMaximize(l1: Atom, a: Atoms)
  {
    l1 == a.stateMaxHorz || l1 == a.stateMaxVert
  }

  /**
   * Whether `client_monocle` is called for a maximize request: add only an
   * unmaximized client, remove only a maximized one, toggle always.
   */
  function MaximizeToggles(action: int, mono: bool): (r: bool)
    ensures action == StateAdd ==> (mono != r) == true
    ensures action == StateRemove ==> (mono != r) == false
    ensures action == StateToggle ==> r
    ensures action !in {StateRemove, StateAdd, StateToggle} ==> !r
  {
    match action
    case 1 => !mono
    case 0 => mono
    case 2 => true
    case _ => false
  }

  /** The fullscreen part names the fullscreen atom in `data.l[1]` or `data.l[2]`. */
  predicate NamesFullscreen(l1: Atom, l2: Atom, a: Atoms)
  {
    l1 == a.stateFullscreen || l2 == a.stateFullscreen
  }

  /** The `(toggle, fullscreen)` arguments `client_fullscreen` receives for an action code. */
  datatype FullscreenArgs = FullscreenArgs(toggle: bool, fullscreen: bool)

  /** The state `client_fullscreen` aims for, given the client's current one. */
  function TargetOf(args: FullscreenArgs, current: bool): bool
  {
    if args.toggle then !current else args.fullscreen
  }

  /**
   * The fullscreen request for an action code; unknown codes do nothing.
   * The target state that results is the one the action code names.
   */
  function FullscreenRequest(action: int): (r: Option<FullscreenArgs>)
    ensures r.Some? <==> action in {StateRemove, StateAdd, StateToggle}
    ensures r.Some? ==> TargetOf(r.value, false) == (action == StateAdd || action == StateToggle)
    ensures r.Some? ==> TargetOf(r.value, true) == (action == StateAdd)
  {
    if action == 0 then Some(FullscreenArgs(false, false))
    else if action == 1 then Some(FullscreenArgs(false, true))
    else if action == 2 then Some(FullscreenArgs(true, true))
    else None
  }

  /** How a `_NET_WM_MOVERESIZE` direction is served: a move drag, a resize drag, or not at all. */
  datatype Drag = MoveDrag | ResizeDrag

  function MoveResizeDrag(direction: int): (r: Option<Drag>)
    ensures r == Some(MoveDrag) <==> direction == MoveResizeMove
    ensures r == Some(ResizeDrag) <==> direction in {MoveResizeSizeRight, MoveResizeSizeBottom, MoveResizeSizeBottomRight}
  {
    if direction == MoveResizeMove then Some(MoveDrag)
    else if direction == MoveResizeSizeRight || direction == MoveResizeSizeBottom
         || direction == MoveResizeSizeBottomRight then Some(ResizeDrag)
    else None
  }

  /** The `WM_STATE` value published for a client. */
  function WmState(hidden: bool): (s: int)
    ensures s == IconicState <==> hidden
    ensures s == NormalState <==> !hidden
  {
    if hidden then IconicState else NormalState
  }

  /**
   * `!XGetWindowProperty(...) == Success` parses as `(!status) == Success`:
   * the early return is taken exactly when the read did not succeed.
   */
  function ReadFailedAsWritten(status: int): (r: bool)
    ensures r <==> status != Success
  {
    (if status == 0 then 1 else 0) == Success
  }

  /** The maximize atoms of `states` that survive the rewrite, in order: all of them when maximized, none otherwise. */
  function Kept(states: seq<Atom>, mono: bool, horz: Atom, vert: Atom): (r: seq<Atom>)
    ensures |r| <= |states|
    ensures forall x :: x in r <==> mono && x in states && (x == horz || x == vert)
  {
    if |states| == 0 then []
    else
      var rest := Kept(states[1..], mono, horz, vert);
      assert forall x :: x in states <==> x == states[0] || x in states[1..];
      if mono && (states[0] == horz || states[0] == vert) then [states[0]] + rest else rest
  }

  /**
   * The `_NET_WM_STATE` list `client_update_state` computes: the surviving
   * maximize atoms, then the horizontal and the vertical atom if either was
   * missing from a maximized client's list. Every other state is dropped.
   */
  function Rewritten(states: seq<Atom>, mono: bool, horz: Atom, vert: Atom): (r: seq<Atom>)
    ensures forall x :: x in r <==> mono && (x == horz || x == vert)
    ensures |r| <= |states| + 2
  {
    Kept(states, mono, horz, vert)
      + (if mono && horz !in states then [horz] else [])
      + (if mono && vert !in states then [vert] else [])
  }

  /** Every state but the maximize atoms, in order, and the maximize atoms too when maximized. */
  function KeptOthers(states: seq<Atom>, mono: bool, horz: Atom, vert: Atom): (r: seq<Atom>)
    ensures |r| <= |states|
    ensures forall x :: x in r <==> x in states && (mono || (x != horz && x != vert))
  {
    if |states| == 0 then []
    else
      var rest := KeptOthers(states[1..], mono, horz, vert);
      assert forall x :: x in states <==> x == states[0] || x in states[1..];
      if mono || (states[0] != horz && states[0] != vert) then [states[0]] + rest else rest
  }

  /**
   * The `_NET_WM_STATE` list as it is meant to be rewritten: the client's
   * other states (fullscreen among them) stay, and the maximize atoms are
   * present exactly when the client is maximized.
   */
  function RewrittenKeeping(states: seq<Atom>, mono: bool, horz: Atom, vert: Atom): (r: seq<Atom>)
    ensures forall x :: x != horz && x != vert ==> (x in r <==> x in states)
    ensures forall x :: x == horz || x == vert ==> (x in r <==> mono)
    ensures |r| <= |states| + 2
  {
    KeptOthers(states, mono, horz, vert)
      + (if mono && horz !in states then [horz] else [])
      + (if mono && vert !in states then [vert] else [])
  }

  /** As written, the rewrite drops a state that is not a maximize atom; the corrected rewrite keeps it. */
  lemma RewriteDropsOtherStates(fs: Atom, mono: bool, horz: Atom, vert: Atom)
    requires fs != horz && fs != vert
    ensures fs !in Rewritten([fs], mono, horz, vert)
    ensures fs in RewrittenKeeping([fs], mono, horz, vert)
  {
  }

  /** The list is written back only when the maximize atoms in it do not already match the client. */
  function StateChanged(states: seq<Atom>, mono: bool, horz: Atom, vert: Atom): (r: bool)
    ensures r <==> ((horz in states) != (horz in Rewritten(states, mono, horz, vert))
                 || (vert in states) != (vert in Rewritten(states, mono, horz, vert)))
  {
    if mono then horz !in states || vert !in states
    else horz in states || vert in states
  }

  /** When nothing is written, the maximize atoms already present are exactly the ones the client should have. */
  lemma UnchangedMeansAgreed(states: seq<Atom>, mono: bool, horz: Atom, vert: Atom)
    requires !StateChanged(states, mono, horz, vert)
    ensures forall x :: x == horz || x == vert ==> (x in states <==> x in Rewritten(states, mono, horz, vert))
  {
  }

  /**
   * The rewrite loop of `client_update_state` over a buffer with room for
   * `|states| + 2` atoms: returns the buffer, the number of atoms written and
   * whether the list changed.
   */
  method RewriteStates(states: seq<Atom>, mono: bool, horz: Atom, vert: Atom)
    returns (atoms: array<Atom>, count: nat, changed: bool)
    requires horz != vert
    ensures count <= atoms.Length == |states| + 2
    ensures atoms[..count] == Rewritten(states, mono, horz, vert)
    ensures changed == StateChanged(states, mono, horz, vert)
  {
    atoms := new Atom[|states| + 2];
    var horzFound, vertFound;
    count, horzFound, vertFound, changed := KeepStates(states, mono, horz, vert, atoms);
    if mono {
      if !horzFound {
        Append(atoms, count, horz);
        count := count + 1;
        changed := true;
      }
      if !vertFound {
        Append(atoms, count, vert);
        count := count + 1;
        changed := true;
      }
    }
  }

  /**
   * The loop of `client_update_state`: copy the maximize atoms into
   * `atoms` when the client is in monocle mode and drop every other atom;
   * note which maximize atoms were met, and whether one was dropped.
   */
  method KeepStates(states: seq<Atom>, mono: bool, horz: Atom, vert: Atom, atoms: array<Atom>)
    returns (count: nat, horzFound: bool, vertFound: bool, changed: bool)
    modifies atoms
    requires horz != vert && atoms.Length == |states| + 2
    ensures count <= |states|
    ensures atoms[..count] == Kept(states, mono, horz, vert)
    ensures horzFound <==> mono && horz in states
    ensures vertFound <==> mono && vert in states
    ensures changed <==> !mono && (horz in states || vert in states)
  {
    count := 0;
    changed := false;
    horzFound := false;
    vertFound := false;
    var i := 0;
    while i < |states|
      invariant 0 <= i <= |states|
      invariant count <= i
      invariant atoms[..count] == Kept(states[..i], mono, horz, vert)
      invariant horzFound <==> mono && horz in states[..i]
      invariant vertFound <==> mono && vert in states[..i]
      invariant changed <==> !mono && (horz in states[..i] || vert in states[..i])
    {
      KeptAppend(states[..i], states[i], mono, horz, vert);
      assert states[..i + 1] == states[..i] + [states[i]];
      if states[i] == horz || states[i] == vert {
        if !mono {
          changed := true;
        } else {
          if states[i] == horz {
            horzFound := true;
          } else if states[i] == vert {
            vertFound := true;
          }
          atoms[count] := states[i];
          count := count + 1;
        }
      }
      i := i + 1;
    }
    assert states[..i] == states;
  }

  /** Write `x` just after the first `count` atoms of the buffer. */
  method Append(atoms: array<Atom>, count: nat, x: Atom)
    modifies atoms
    requires count < atoms.Length
    ensures atoms[..count + 1] == old(atoms[..count]) + [x]
  {
    atoms[count] := x;
  }

  /** Extending the input by one atom extends the kept atoms by at most that atom. */
  lemma {:induction false} KeptAppend(s: seq<Atom>, x: Atom, mono: bool, horz: Atom, vert: Atom)
    ensures Kept(s + [x], mono, horz, vert)
         == Kept(s, mono, horz, vert) + (if mono && (x == horz || x == vert) then [x] else [])
    decreases |s|
  {
    if |s| == 0 {
      assert s + [x] == [x];
    } else {
      assert (s + [x])[1..] == s[1..] + [x];
      KeptAppend(s[1..], x, mono, horz, vert);
    }
  }

  /**
   * The buffer as allocated: `sizeof(Atom) * num_items + 2` bytes, with an
   * 8-byte `Atom`, holds only `num_items` whole atoms.
   */
  function CapacityAsWritten(numItems: nat): (atoms: nat)
    ensures atoms == numItems
  {
    (8 * numItems + 2) / 8
  }

  /**
   * A maximized client whose state list holds one atom and no maximize
   * atom gets two atoms written into room for one.
   */
  lemma RewriteOverflowsAsWritten(fs: Atom, horz: Atom, vert: Atom)
    requires fs != horz && fs != vert && horz != vert
    ensures |Rewritten([fs], true, horz, vert)| == 2 > CapacityAsWritten(1)
  {
    assert Kept([fs][1..], true, horz, vert) == [];
  }

  /** The corrected capacity of `|states| + 2` atoms is never exceeded, and the overflow happens exactly when more atoms are written than read. */
  lemma RewriteFits(states: seq<Atom>, mono: bool, horz: Atom, vert: Atom)
    ensures |Rewritten(states, mono, horz, vert)| <= |states| + 2
    ensures |Rewritten(states, mono, horz, vert)| > CapacityAsWritten(|states|)
        ==> mono && (horz !in states || vert !in states)
  {
  }

  // ---- the property write ----

  /** A window's atom-list properties, by property name. */
  type Props = map<Atom, seq<Atom>>

  /**
   * What `client_update_state` does to the window's atom-list properties
   * when it writes the rewritten list (with the other states kept, or
   * dropped as written) to property `target`: nothing when the
   * read fails or the window has no `_NET_WM_STATE`, nothing when the list
   * already agrees with the client, and otherwise one property replaced.
   */
  function UpdateStateTo(props: Props, mono: bool, a: Atoms, status: int, target: Atom, keepOthers: bool): (r: Props)
    ensures props.Keys <= r.Keys <= props.Keys + {target}
    ensures forall p :: p in props && p != target ==> r[p] == props[p]
  {
    if ReadFailedAsWritten(status) || a.netWmState !in props then props
    else
      var states := props[a.netWmState];
      if StateChanged(states, mono, a.stateMaxHorz, a.stateMaxVert)
      then props[target := if keepOthers then RewrittenKeeping(states, mono, a.stateMaxHorz, a.stateMaxVert)
                           else Rewritten(states, mono, a.stateMaxHorz, a.stateMaxVert)]
      else props
  }

  /** `client_update_state` as written: the list goes to the property named by the vertical-maximize atom. */
  function UpdateStateAsWritten(props: Props, mono: bool, a: Atoms, status: int): (r: Props)
    ensures a.netWmState != a.stateMaxVert && a.netWmState in props
        ==> a.netWmState in r && r[a.netWmState] == props[a.netWmState]
  {
    UpdateStateTo(props, mono, a, status, a.stateMaxVert, false)
  }

  /**
   * `client_update_state` writing the corrected list to `_NET_WM_STATE`:
   * after a successful read the list holds a maximize atom exactly when the
   * client is maximized, keeps every other state it had, and no other
   * property changes.
   */
  function UpdateState(props: Props, mono: bool, a: Atoms, status: int): (r: Props)
    ensures r.Keys == props.Keys
    ensures forall p :: p in props && p != a.netWmState ==> r[p] == props[p]
    ensures status != Success || a.netWmState !in props ==> r == props
    ensures status == Success && a.netWmState in props
        ==> forall x :: x == a.stateMaxHorz || x == a.stateMaxVert ==> (x in r[a.netWmState] <==> mono)
    ensures status == Success && a.netWmState in props
        ==> forall x :: x != a.stateMaxHorz && x != a.stateMaxVert ==> (x in r[a.netWmState] <==> x in props[a.netWmState])
  {
    UpdateStateTo(props, mono, a, status, a.netWmState, true)
  }

  /** Once written, the list agrees with the client: a second update writes nothing. */
  lemma UpdateStateSettles(props: Props, mono: bool, a: Atoms)
    ensures UpdateState(UpdateState(props, mono, a, Success), mono, a, Success) == UpdateState(props, mono, a, Success)
  {
    var r := UpdateState(props, mono, a, Success);
    if a.netWmState in props {
      assert !StateChanged(r[a.netWmState], mono, a.stateMaxHorz, a.stateMaxVert);
    }
  }

  /**
   * As written, a `_NET_WM_STATE` list that disagrees with the client keeps
   * disagreeing: the write lands elsewhere, so every later update writes
   * again and `_NET_WM_STATE` never changes.
   */
  lemma RewriteMissesNetWmState(props: Props, mono: bool, a: Atoms)
    requires a.netWmState != a.stateMaxVert && a.netWmState in props
    requires StateChanged(props[a.netWmState], mono, a.stateMaxHorz, a.stateMaxVert)
    ensures var r := UpdateStateAsWritten(props, mono, a, Success);
      && r[a.netWmState] == props[a.netWmState]
      && StateChanged(r[a.netWmState], mono, a.stateMaxHorz, a.stateMaxVert)
      && a.stateMaxVert in r
      && r[a.stateMaxVert] == Rewritten(props[a.netWmState], mono, a.stateMaxHorz, a.stateMaxVert)
  {
  }
}

/**
 * `window_find_struts`: the screen-edge reservations (struts) of all
 * top-level windows, folded into the four gaps berry keeps free. The
 * children's property reads are inputs.
 */
module Struts {
  import opened Config
  import opened Types

  /** The `CARDINAL` atom predefined by the X protocol. */
  const XaCardinal: Atom := 6

  /**
   * One `XGetWindowProperty` call: it failed, or it returned a type, a
   * format and items (an absent property comes back as type `None`, format
   * 0 and no items).
   */
  datatype PropRead = ReadError | Prop(actualType: Atom, format: int, items: seq<U32>)

  /** A child's `_NET_WM_STRUT_PARTIAL` read and its `_NET_WM_STRUT` read. */
  datatype ChildStruts = ChildStruts(partial: PropRead, plain: PropRead)

  /**
   * The read berry uses: `_NET_WM_STRUT_PARTIAL`, falling back to
   * `_NET_WM_STRUT` only when the first read fails, not when the partial
   * property is merely absent.
   */
  function Consulted(c: ChildStruts): (p: PropRead)
    ensures c.partial.Prop? ==> p == c.partial
    ensures c.partial.ReadError? ==> p == c.plain
  {
    if c.partial.ReadError? then c.plain else c.partial
  }

  /** The left, right, top and bottom struts a child contributes, if its property is 32-bit `CARDINAL` data with at least four items. */
  function StrutOf(c: ChildStruts): (r: Option<seq<U32>>)
    ensures r.Some? <==> Consulted(c).Prop? && Consulted(c).actualType == XaCardinal
                          && Consulted(c).format == 32 && |Consulted(c).items| >= 4
    ensures r.Some? ==> r.value == Consulted(c).items[..4]
  {
    var p := Consulted(c);
    if p.Prop? && p.actualType == XaCardinal && p.format == 32 && |p.items| >= 4 then Some(p.items[..4])
    else None
  }

  function MaxU32(a: U32, b: U32): U32 { if a < b then b else a }

  /** One step of the fold: element-wise maximum with a contributing child. */
  function Combine(m: seq<U32>, s: Option<seq<U32>>): (r: seq<U32>)
    requires |m| == 4 && (s.Some? ==> |s.value| == 4)
    ensures |r| == 4
  {
    if s.None? then m
    else [MaxU32(m[0], s.value[0]), MaxU32(m[1], s.value[1]), MaxU32(m[2], s.value[2]), MaxU32(m[3], s.value[3])]
  }

  /** The four gaps after considering the children in order, starting from zero. */
  function Fold(children: seq<ChildStruts>): (m: seq<U32>)
    ensures |m| == 4
  {
    if |children| == 0 then [0, 0, 0, 0]
    else Combine(Fold(children[..|children| - 1]), StrutOf(children[|children| - 1]))
  }

  /** The loop of `window_find_struts`: `max_struts` after visiting every child. */
  method FindStruts(children: seq<ChildStruts>) returns (maxStruts: seq<U32>)
    ensures maxStruts == Fold(children)
  {
    maxStruts := [0, 0, 0, 0];
    var i := 0;
    while i < |children|
      invariant 0 <= i <= |children|
      invariant maxStruts == Fold(children[..i])
    {
      assert children[..i + 1][..i] == children[..i];
      var s := StrutOf(children[i]);
      if s.Some? {
        maxStruts := [MaxU32(maxStruts[0], s.value[0]), MaxU32(maxStruts[1], s.value[1]),
                      MaxU32(maxStruts[2], s.value[2]), MaxU32(maxStruts[3], s.value[3])];
      }
      i := i + 1;
    }
    assert children[..i] == children;
  }

  /**
   * Each gap is the largest value any contributing child reserves on that
   * side, or zero when no child reserves anything there.
   */
  lemma {:induction false} FoldIsMax(children: seq<ChildStruts>, k: nat)
    requires k < 4
    ensures forall i :: 0 <= i < |children| && StrutOf(children[i]).Some? ==> StrutOf(children[i]).value[k] <= Fold(children)[k]
    ensures Fold(children)[k] == 0
         || exists i :: 0 <= i < |children| && StrutOf(children[i]).Some? && StrutOf(children[i]).value[k] == Fold(children)[k]
  {
    if |children| > 0 {
      var init := children[..|children| - 1];
      FoldIsMax(init, k);
      forall i | 0 <= i < |init| ensures children[i] == init[i] { }
      if Fold(init)[k] != 0 && Fold(children)[k] == Fold(init)[k] {
        var j :| 0 <= j < |init| && StrutOf(init[j]).Some? && StrutOf(init[j]).value[k] == Fold(init)[k];
        assert children[j] == init[j];
      }
    }
  }
}

/**
 * The well-formedness of berry's client registry, stated over values: the
 * workspace each managed client is on (the `ws` field of its record), and
 * per workspace the draw-order list (`c_list`) and the focus-order list
 * (`f_list`).
 */
module Registry {
  import opened Types
  import opened Lists

  /** Every element of `s` is placed on workspace `ws`. */
  ghost predicate PlacedOn(placed: map<Window, int>, s: seq<Window>, ws: int)
  {
    forall v {:trigger v in s} :: v in s ==> v in placed && placed[v] == ws
  }

  /**
   * Both lists of a workspace are duplicate-free and hold only clients
   * placed on that workspace (so no client is in two workspaces), and every
   * placed client is in both lists of its workspace.
   */
  ghost predicate Consistent(placed: map<Window, int>, cList: seq<seq<Window>>, fList: seq<seq<Window>>)
  {
    && |cList| == |fList|
    && (forall i :: 0 <= i < |cList| ==> WorkspaceListed(placed, cList, fList, i))
    && (forall w {:trigger ClientListed(placed, cList, fList, w)} :: w in placed ==> ClientListed(placed, cList, fList, w))
  }

  /** Both lists of workspace `i` are duplicate-free and hold only clients placed on `i`. */
  ghost predicate WorkspaceListed(placed: map<Window, int>, cList: seq<seq<Window>>, fList: seq<seq<Window>>, i: int)
  {
    && 0 <= i < |cList| && i < |fList|
    && Unique(cList[i]) && PlacedOn(placed, cList[i], i)
    && Unique(fList[i]) && PlacedOn(placed, fList[i], i)
  }

  /** `w` is in both lists of the workspace it is placed on. */
  ghost predicate ClientListed(placed: map<Window, int>, cList: seq<seq<Window>>, fList: seq<seq<Window>>, w: Window)
  {
    w in placed && 0 <= placed[w] < |cList| && placed[w] < |fList| && w in cList[placed[w]] && w in fList[placed[w]]
  }

  /** The lists of one workspace of a well-formed registry. */
  lemma ListedAt(placed: map<Window, int>, cList: seq<seq<Window>>, fList: seq<seq<Window>>, i: int)
    requires Consistent(placed, cList, fList) && 0 <= i < |cList|
    ensures Unique(cList[i]) && PlacedOn(placed, cList[i], i)
    ensures Unique(fList[i]) && PlacedOn(placed, fList[i], i)
  {
    assert WorkspaceListed(placed, cList, fList, i);
  }

  /** A listed element is placed on the list's workspace. */
  lemma PlacedMember(placed: map<Window, int>, s: seq<Window>, ws: int, w: Window)
    requires PlacedOn(placed, s, ws) && w in s
    ensures w in placed && placed[w] == ws
  {
  }

  /** A list whose elements all occur in a placed list is placed too. */
  lemma PlacedSubset(placed: map<Window, int>, s: seq<Window>, t: seq<Window>, ws: int)
    requires PlacedOn(placed, s, ws) && forall v :: v in t ==> v in s
    ensures PlacedOn(placed, t, ws)
  {
  }

  /** A client is listed in exactly one workspace, in both of its lists. */
  lemma ListedOnce(placed: map<Window, int>, cList: seq<seq<Window>>, fList: seq<seq<Window>>, w: Window)
    requires Consistent(placed, cList, fList) && w in placed
    ensures 0 <= placed[w] < |cList| && w in cList[placed[w]] && w in fList[placed[w]]
    ensures forall i :: 0 <= i < |cList| && i != placed[w] ==> w !in cList[i] && w !in fList[i]
  {
    assert ClientListed(placed, cList, fList, w);
    forall i | 0 <= i < |cList| && i != placed[w]
      ensures w !in cList[i] && w !in fList[i]
    {
      ListedAt(placed, cList, fList, i);
    }
  }

  /** Both lists of a workspace hold the same clients, each once: one is a permutation of the other. */
  lemma ListsPermute(placed: map<Window, int>, cList: seq<seq<Window>>, fList: seq<seq<Window>>, ws: int)
    requires Consistent(placed, cList, fList) && 0 <= ws < |cList|
    ensures multiset(cList[ws]) == multiset(fList[ws])
  {
    var c, f := cList[ws], fList[ws];
    ListedAt(placed, cList, fList, ws);
    UniqueByCount(c);
    UniqueByCount(f);
    forall v ensures multiset(c)[v] == multiset(f)[v] {
      if v in c {
        PlacedMember(placed, c, ws, v);
        ListedOnce(placed, cList, fList, v);
      }
      if v in f {
        PlacedMember(placed, f, ws, v);
        ListedOnce(placed, cList, fList, v);
      }
    }
    assert multiset(c) == multiset(f);
  }

  /** Pushing `w` onto the head of a list that lacks it keeps it duplicate-free. */
  lemma PushKeepsUnique(s: seq<Window>, w: Window)
    requires Unique(s) && w !in s
    ensures Unique([w] + s)
  {
    assert ([w] + s)[1..] == s;
  }

  /**
   * `client_save`: a placed client not yet listed, pushed onto the head of
   * both lists of its workspace, makes the registry well formed again.
   */
  lemma Attach(placed: map<Window, int>, cList: seq<seq<Window>>, fList: seq<seq<Window>>, w: Window)
    requires w in placed && 0 <= placed[w] < |cList|
    requires Consistent(placed - {w}, cList, fList)
    ensures var ws := placed[w];
      Consistent(placed, cList[ws := [w] + cList[ws]], fList[ws := [w] + fList[ws]])
  {
    var ws := placed[w];
    var rest := placed - {w};
    var cl := cList[ws := [w] + cList[ws]];
    var fl := fList[ws := [w] + fList[ws]];
    ListedAt(rest, cList, fList, ws);
    PushKeepsUnique(cList[ws], w);
    PushKeepsUnique(fList[ws], w);
    forall i | 0 <= i < |cl|
      ensures WorkspaceListed(placed, cl, fl, i)
    {
      ListedAt(rest, cList, fList, i);
      forall v | v in cl[i]
        ensures v in placed && placed[v] == i
      {
        assert v in rest || v == w by {
          if i == ws && v != w {
            assert v in cList[ws];
          }
        }
      }
      forall v | v in fl[i]
        ensures v in placed && placed[v] == i
      {
        assert v in rest || v == w by {
          if i == ws && v != w {
            assert v in fList[ws];
          }
        }
      }
    }
    forall v | v in placed
      ensures ClientListed(placed, cl, fl, v)
    {
      if v != w {
        assert ClientListed(rest, cList, fList, v);
      }
    }
  }

  /**
   * `client_delete`: unlinking a listed client from both lists of its
   * workspace leaves a registry of the other clients.
   */
  lemma Detach(placed: map<Window, int>, cList: seq<seq<Window>>, fList: seq<seq<Window>>, w: Window)
    requires w in placed && Consistent(placed, cList, fList)
    ensures var ws := placed[w];
      0 <= ws < |cList| && Consistent(placed - {w}, cList[ws := Remove(cList[ws], w)], fList[ws := Remove(fList[ws], w)])
  {
    var ws := placed[w];
    var rest := placed - {w};
    ListedOnce(placed, cList, fList, w);
    var cl := cList[ws := Remove(cList[ws], w)];
    var fl := fList[ws := Remove(fList[ws], w)];
    ListedAt(placed, cList, fList, ws);
    RemoveKeepsUnique(cList[ws], w);
    RemoveKeepsUnique(fList[ws], w);
    PlacedSubset(placed, cList[ws], cl[ws], ws);
    PlacedSubset(placed, fList[ws], fl[ws], ws);
    forall i | 0 <= i < |cl|
      ensures WorkspaceListed(rest, cl, fl, i)
    {
      ListedAt(placed, cList, fList, i);
      forall k | 0 <= k < |cl[i]|
        ensures cl[i][k] in rest && rest[cl[i][k]] == i
      {
        assert cl[i][k] in cl[i];
      }
      forall k | 0 <= k < |fl[i]|
        ensures fl[i][k] in rest && rest[fl[i][k]] == i
      {
        assert fl[i][k] in fl[i];
      }
    }
    forall v | v in rest
      ensures ClientListed(rest, cl, fl, v)
    {
      assert ClientListed(placed, cList, fList, v);
    }
  }

  /** Replacing one workspace's lists by permutations of themselves keeps the registry well formed. */
  lemma PermuteKeepsRegistry(placed: map<Window, int>, cList: seq<seq<Window>>, fList: seq<seq<Window>>,
                             ws: int, c: seq<Window>, f: seq<Window>)
    requires Consistent(placed, cList, fList) && 0 <= ws < |cList|
    requires multiset(c) == multiset(cList[ws]) && multiset(f) == multiset(fList[ws])
    ensures Consistent(placed, cList[ws := c], fList[ws := f])
  {
    ListedAt(placed, cList, fList, ws);
    PermutationKeepsUnique(cList[ws], c);
    PermutationKeepsUnique(fList[ws], f);
    forall v | v in c ensures v in cList[ws] {
      assert v in multiset(cList[ws]);
    }
    forall v | v in f ensures v in fList[ws] {
      assert v in multiset(fList[ws]);
    }
    forall v | v in cList[ws] ensures v in c {
      assert v in multiset(c);
    }
    forall v | v in fList[ws] ensures v in f {
      assert v in multiset(f);
    }
    PlacedSubset(placed, cList[ws], c, ws);
    PlacedSubset(placed, fList[ws], f, ws);
    var cl, fl := cList[ws := c], fList[ws := f];
    forall i | 0 <= i < |cList|
      ensures WorkspaceListed(placed, cl, fl, i)
    {
      ListedAt(placed, cList, fList, i);
    }
    forall v | v in placed
      ensures ClientListed(placed, cl, fl, v)
    {
      assert ClientListed(placed, cList, fList, v);
    }
  }

  /** A permutation of one stacking list alone. */
  lemma PermuteStacking(placed: map<Window, int>, cList: seq<seq<Window>>, fList: seq<seq<Window>>, ws: int, c: seq<Window>)
    requires Consistent(placed, cList, fList) && 0 <= ws < |cList|
    requires multiset(c) == multiset(cList[ws])
    ensures Consistent(placed, cList[ws := c], fList)
  {
    PermuteKeepsRegistry(placed, cList, fList, ws, c, fList[ws]);
    assert fList[ws := fList[ws]] == fList;
  }

  /** A permutation of one focus list alone. */
  lemma PermuteFocus(placed: map<Window, int>, cList: seq<seq<Window>>, fList: seq<seq<Window>>, ws: int, f: seq<Window>)
    requires Consistent(placed, cList, fList) && 0 <= ws < |cList|
    requires multiset(f) == multiset(fList[ws])
    ensures Consistent(placed, cList, fList[ws := f])
  {
    PermuteKeepsRegistry(placed, cList, fList, ws, cList[ws], f);
    assert cList[ws := cList[ws]] == cList;
  }

  /** `client_move_to_front` on the stacking list of a workspace keeps the registry well formed. */
  lemma MoveToFrontKeepsRegistry(placed: map<Window, int>, cList: seq<seq<Window>>, fList: seq<seq<Window>>, ws: int, w: Window)
    requires Consistent(placed, cList, fList) && 0 <= ws < |cList| && w in cList[ws]
    ensures Consistent(placed, cList[ws := MoveToFront(cList[ws], w)], fList)
  {
    MoveToFrontPermutes(cList[ws], w);
    PermuteStacking(placed, cList, fList, ws, MoveToFront(cList[ws], w));
  }

  /** `reorder_focus` on the focus list of a workspace keeps the registry well formed. */
  lemma MoveAfterKeepsRegistry(placed: map<Window, int>, cList: seq<seq<Window>>, fList: seq<seq<Window>>, ws: int, x: Window, y: Window)
    requires Consistent(placed, cList, fList) && 0 <= ws < |cList| && x in fList[ws] && y in fList[ws] && x != y
    ensures Consistent(placed, cList, fList[ws := MoveAfter(fList[ws], x, y)])
  {
    MoveAfterPermutes(fList[ws], x, y);
    PermuteFocus(placed, cList, fList, ws, MoveAfter(fList[ws], x, y));
  }
}

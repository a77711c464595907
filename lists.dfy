/**
 * Sequence operations that stand for the pointer surgery berry performs on
 * its singly linked client lists: the draw-order list threaded through
 * `next` and the focus-order list threaded through `f_next`.
 *
 * A linked list of distinct clients is modelled as a duplicate-free
 * sequence of client identifiers; its head is element 0.
 */
module Lists {

  /**
   * No element occurs twice: the head is not in the tail, and the tail is
   * duplicate-free. Stated by recursion so that each use unfolds one link.
   */
  ghost predicate Unique<T>(s: seq<T>)
    decreases |s|
  {
    |s| == 0 || (s[0] !in s[1..] && Unique(s[1..]))
  }

  /** No element occurs at two positions. */
  ghost predicate Distinct<T>(s: seq<T>)
  {
    forall i, j :: 0 <= i < |s| && 0 <= j < |s| && i != j ==> s[i] != s[j]
  }

  /** The recursive and the positional readings of duplicate-freedom agree. */
  lemma {:induction false} UniqueIsDistinct<T>(s: seq<T>)
    ensures Unique(s) <==> Distinct(s)
  {
    if |s| > 0 {
      var t := s[1..];
      UniqueIsDistinct(t);
      if Distinct(s) {
        forall i, j | 0 <= i < |t| && 0 <= j < |t| && i != j
          ensures t[i] != t[j]
        {
          assert t[i] == s[i + 1] && t[j] == s[j + 1];
        }
      }
      if s[0] !in t && Distinct(t) {
        forall i, j | 0 <= i < |s| && 0 <= j < |s| && i != j
          ensures s[i] != s[j]
        {
          if i > 0 && j > 0 {
            assert s[i] == t[i - 1] && s[j] == t[j - 1];
          } else if i == 0 {
            assert s[j] == t[j - 1];
          } else {
            assert s[i] == t[i - 1];
          }
        }
      }
    }
  }

  /** Duplicate-freedom stated by counting: no element occurs more than once. */
  lemma {:induction false} UniqueByCount<T>(s: seq<T>)
    ensures Unique(s) <==> forall x :: multiset(s)[x] <= 1
  {
    if |s| > 0 {
      var t := s[1..];
      UniqueByCount(t);
      assert s == [s[0]] + t;
      assert multiset(s) == multiset{s[0]} + multiset(t);
      if forall x :: multiset(s)[x] <= 1 {
        assert multiset(s)[s[0]] == 1 + multiset(t)[s[0]];
        forall x ensures multiset(t)[x] <= 1 {
          assert multiset(s)[x] <= 1;
        }
      }
      if s[0] !in t && forall x :: multiset(t)[x] <= 1 {
        forall x ensures multiset(s)[x] <= 1 {
          if x == s[0] {
            assert multiset(t)[x] == 0;
          }
        }
      }
    }
  }

  /** A permutation of a duplicate-free sequence is duplicate-free. */
  lemma PermutationKeepsUnique<T>(s: seq<T>, t: seq<T>)
    requires Unique(s) && multiset(s) == multiset(t)
    ensures Unique(t)
  {
    UniqueByCount(s);
    UniqueByCount(t);
  }

  /** Position of the first occurrence of `x` in `s`. */
  function IndexOf<T(==)>(s: seq<T>, x: T): (k: nat)
    requires x in s
    ensures k < |s| && s[k] == x && x !in s[..k]
  {
    if s[0] == x then 0
    else
      var k' := IndexOf(s[1..], x);
      assert s[..k' + 1] == [s[0]] + s[1..][..k'];
      k' + 1
  }

  /** The first occurrence is the only index before which `x` is absent. */
  lemma {:induction false} IndexOfUnique<T>(s: seq<T>, x: T, k: nat)
    requires k < |s| && s[k] == x && x !in s[..k]
    ensures IndexOf(s, x) == k
  {
    var j := IndexOf(s, x);
  }

  /** In a duplicate-free sequence, an element's index is its first occurrence. */
  lemma IndexOfAt<T>(s: seq<T>, k: nat)
    requires Unique(s) && k < |s|
    ensures IndexOf(s, s[k]) == k
  {
    UniqueIsDistinct(s);
    var j := IndexOf(s, s[k]);
    assert s[j] == s[k];
  }

  /** The walk along a list to the first node holding `x`. */
  method Locate<T(==)>(s: seq<T>, x: T) returns (k: nat)
    requires x in s
    ensures k == IndexOf(s, x)
    ensures Remove(s, x) == s[..k] + s[k + 1..]
  {
    k := 0;
    while s[k] != x
      invariant k < |s| && x !in s[..k] && x in s[k..]
      decreases |s| - k
    {
      assert s[..k + 1] == s[..k] + [s[k]];
      assert s[k..] == [s[k]] + s[k + 1..];
      k := k + 1;
    }
    IndexOfUnique(s, x, k);
  }

  /** Unlink the first occurrence of `x` (no change when `x` is absent). */
  function Remove<T(==)>(s: seq<T>, x: T): (r: seq<T>)
    ensures x in s ==> |r| == |s| - 1
    ensures x !in s ==> r == s
  {
    if x in s then
      var k := IndexOf(s, x);
      s[..k] + s[k + 1..]
    else s
  }

  /** Unlinking takes exactly one copy of `x` out of the list. */
  lemma RemoveCounts<T>(s: seq<T>, x: T)
    ensures x in s ==> multiset(Remove(s, x)) == multiset(s) - multiset{x}
  {
    if x in s {
      var k := IndexOf(s, x);
      assert s == s[..k] + [x] + s[k + 1..];
    }
  }

  /**
   * In a duplicate-free list, unlinking `x` leaves a duplicate-free list
   * without `x` that holds every other element.
   */
  lemma RemoveKeepsUnique<T>(s: seq<T>, x: T)
    requires Unique(s)
    ensures Unique(Remove(s, x)) && x !in Remove(s, x)
    ensures forall y :: y != x ==> (y in Remove(s, x) <==> y in s)
  {
    var r := Remove(s, x);
    RemoveCounts(s, x);
    UniqueByCount(s);
    UniqueByCount(r);
    forall y ensures multiset(r)[y] <= 1 {
    }
    if x in s {
      assert multiset(r)[x] == 0;
    }
    forall y | y != x
      ensures y in r <==> y in s
    {
      assert y in r <==> multiset(r)[y] > 0;
    }
  }

  /** Everything before the removed element keeps its position. */
  lemma {:induction false} RemovePrefix<T>(s: seq<T>, x: T, j: nat)
    requires j <= |s| && x !in s[..j]
    ensures j <= |Remove(s, x)| && Remove(s, x)[..j] == s[..j]
  {
    if x in s {
      var k := IndexOf(s, x);
    }
  }

  /** Unlink `x` and push it onto the head. */
  function MoveToFront<T(==)>(s: seq<T>, x: T): (r: seq<T>)
    ensures |r| > 0 && r[0] == x
    ensures Remove(r, x) == Remove(s, x)
  {
    var r := [x] + Remove(s, x);
    assert IndexOf(r, x) == 0;
    assert r[1..] == Remove(s, x);
    r
  }

  /**
   * The relinking of `client_move_to_front`: nothing changes when `x` heads
   * the list or is its only element; otherwise the walk finds `x`, unlinks
   * it and pushes it onto the head.
   */
  method LinkAtFront<T(==)>(s: seq<T>, x: T) returns (r: seq<T>)
    requires x in s
    ensures r == MoveToFront(s, x)
  {
    if s[0] == x || |s| == 1 {
      assert s[0] == x by {
        if |s| == 1 {
          assert s == [s[0]];
        }
      }
      MoveToFrontOfHead(s);
      r := s;
    } else {
      var k := Locate(s, x);
      r := [x] + (s[..k] + s[k + 1..]);
    }
  }

  /** Moving a listed element to the front permutes the list. */
  lemma MoveToFrontPermutes<T>(s: seq<T>, x: T)
    requires x in s
    ensures multiset(MoveToFront(s, x)) == multiset(s)
  {
    RemoveCounts(s, x);
  }

  /** Moving the head to the front changes nothing. */
  lemma MoveToFrontOfHead<T>(s: seq<T>)
    requires |s| > 0
    ensures MoveToFront(s, s[0]) == s
  {
    var r := Remove(s, s[0]);
    assert r == s[1..];
  }

  /** Moving to the front twice is moving once. */
  lemma MoveToFrontIdempotent<T>(s: seq<T>, x: T)
    ensures MoveToFront(MoveToFront(s, x), x) == MoveToFront(s, x)
  {
    MoveToFrontOfHead(MoveToFront(s, x));
  }

  /** Link `x` directly after the first occurrence of `y`. */
  function InsertAfter<T(==)>(s: seq<T>, y: T, x: T): (r: seq<T>)
    requires y in s
    ensures |r| == |s| + 1
  {
    var k := IndexOf(s, y);
    s[..k + 1] + [x] + s[k + 1..]
  }

  /** The element that follows `x` in a circular walk of `s`: the next link, or the head after the last. */
  function Successor<T(==)>(s: seq<T>, x: T): (r: T)
    requires x in s
    ensures r in s
  {
    var k := IndexOf(s, x);
    if k + 1 < |s| then s[k + 1] else s[0]
  }

  /** With two or more distinct clients, the successor is never the client itself. */
  lemma SuccessorDiffers<T>(s: seq<T>, x: T)
    requires x in s && Unique(s) && |s| >= 2
    ensures Successor(s, x) != x
  {
    UniqueIsDistinct(s);
    var k := IndexOf(s, x);
    if k + 1 < |s| {
      assert s[k] != s[k + 1];
    } else {
      assert s[k] != s[0];
    }
  }

  /** Unlinking `x` keeps every other element in the list. */
  lemma RemoveKeeps<T>(s: seq<T>, x: T, y: T)
    requires y in s && y != x
    ensures y in Remove(s, x)
  {
    if x in s {
      var k := IndexOf(s, x);
      var j :| 0 <= j < |s| && s[j] == y;
      if j < k {
        assert Remove(s, x)[j] == y;
      } else {
        assert Remove(s, x)[j - 1] == y;
      }
    }
  }

  /** Unlink `x` and relink it directly after `y`. */
  function MoveAfter<T(==)>(s: seq<T>, x: T, y: T): (r: seq<T>)
    requires x in s && y in s && x != y
    ensures |r| == |s|
  {
    RemoveKeeps(s, x, y);
    InsertAfter(Remove(s, x), y, x)
  }

  /**
   * The relinking of `reorder_focus`: the walk finds `x` and unlinks it,
   * then `x` is linked in directly after `y`.
   */
  method LinkAfter<T(==)>(s: seq<T>, x: T, y: T) returns (r: seq<T>)
    requires x in s && y in s && x != y
    ensures r == MoveAfter(s, x, y)
  {
    var k := Locate(s, x);
    var t := s[..k] + s[k + 1..];
    RemoveKeeps(s, x, y);
    var j := Locate(t, y);
    r := t[..j + 1] + [x] + t[j + 1..];
  }

  /** Linking `x` in after `y` adds one copy of `x`. */
  lemma InsertAfterCounts<T>(t: seq<T>, y: T, x: T)
    requires y in t
    ensures multiset(InsertAfter(t, y, x)) == multiset(t) + multiset{x}
  {
    var k := IndexOf(t, y);
    var a, b := t[..k + 1], t[k + 1..];
    assert t == a + b;
    assert InsertAfter(t, y, x) == a + [x] + b;
  }

  /** Relinking a listed element after another permutes the list. */
  lemma MoveAfterPermutes<T>(s: seq<T>, x: T, y: T)
    requires x in s && y in s && x != y
    ensures multiset(MoveAfter(s, x, y)) == multiset(s)
  {
    var t := Remove(s, x);
    RemoveCounts(s, x);
    RemoveKeeps(s, x, y);
    InsertAfterCounts(t, y, x);
    assert x in multiset(s);
  }

  /**
   * Relinking `x` after `y` keeps every other element in its order, makes
   * `x` the direct successor of `y`, and keeps the sequence duplicate-free.
   */
  lemma MoveAfterLinksAfter<T>(s: seq<T>, x: T, y: T)
    requires Unique(s) && x in s && y in s && x != y
    ensures Unique(MoveAfter(s, x, y))
    ensures Successor(MoveAfter(s, x, y), y) == x
    ensures Remove(MoveAfter(s, x, y), x) == Remove(s, x)
  {
    MoveAfterPermutes(s, x, y);
    PermutationKeepsUnique(s, MoveAfter(s, x, y));
    RemoveKeepsUnique(s, x);
    MoveAfterPositions(Remove(s, x), x, y);
  }

  /** After linking a new `x` in after `y`, `x` follows `y`, and unlinking it again gives the list back. */
  lemma MoveAfterPositions<T>(t: seq<T>, x: T, y: T)
    requires x !in t && y in t
    ensures Successor(InsertAfter(t, y, x), y) == x
    ensures Remove(InsertAfter(t, y, x), x) == t
  {
    var k := IndexOf(t, y);
    var r := InsertAfter(t, y, x);
    assert r[..k + 1] == t[..k + 1];
    assert r[k] == y && r[k + 1] == x;
    assert r[..k] == t[..k];
    IndexOfUnique(r, y, k);
    IndexOfUnique(r, x, k + 1);
    assert r[k + 2..] == t[k + 1..];
    assert t == t[..k + 1] + t[k + 1..];
  }

  /**
   * Alt-tab in two strokes: moving focus from `f` to its successor `g` and
   * relinking `f` right after `g` makes `f` the next stop again.
   */
  lemma SecondTabReturns<T>(s: seq<T>, f: T)
    requires Unique(s) && f in s && |s| >= 2
    ensures Successor(s, f) != f
    ensures Successor(MoveAfter(s, f, Successor(s, f)), Successor(s, f)) == f
  {
    SuccessorDiffers(s, f);
    MoveAfterLinksAfter(s, f, Successor(s, f));
  }

  /** In a duplicate-free sequence nothing before an element equals it. */
  lemma NotBefore<T>(s: seq<T>, k: nat)
    requires Unique(s) && k < |s|
    ensures s[k] !in s[..k]
  {
    IndexOfAt(s, k);
  }

  /** Writing back the element already at a position changes nothing. */
  lemma UpdateSame<T>(s: seq<T>, i: int)
    requires 0 <= i < |s|
    ensures s[i := s[i]] == s
  {
  }

  /** A second write to a position replaces the first. */
  lemma UpdateTwice<T>(s: seq<T>, i: int, a: T, b: T)
    requires 0 <= i < |s|
    ensures s[i := a][i := b] == s[i := b]
  { }

  /** A second write to a key of a map replaces the first. */
  lemma MapUpdateTwice<K, V>(m: map<K, V>, k: K, a: V, b: V)
    ensures m[k := a][k := b] == m[k := b]
  { }

  /** Writing back the value already at a key changes nothing. */
  lemma MapUpdateSame<K, V>(m: map<K, V>, k: K)
    requires k in m
    ensures m[k := m[k]] == m
  { }

  /** The sequence read from its last element back to its first. */
  function Reverse<T>(s: seq<T>): (r: seq<T>)
    ensures |r| == |s|
    ensures forall i :: 0 <= i < |s| ==> r[i] == s[|s| - 1 - i]
  {
    if |s| == 0 then []
    else [s[|s| - 1]] + Reverse(s[..|s| - 1])
  }

  /** Reversing keeps every element, as often as it occurs. */
  lemma {:induction false} ReversePermutes<T>(s: seq<T>)
    ensures multiset(Reverse(s)) == multiset(s)
  {
    if |s| > 0 {
      ReversePermutes(s[..|s| - 1]);
      assert s == s[..|s| - 1] + [s[|s| - 1]];
    }
  }

  /** Reversing one element more puts that element in front. */
  lemma ReverseExtends<T>(s: seq<T>, k: nat)
    requires k < |s|
    ensures Reverse(s[..k + 1]) == [s[k]] + Reverse(s[..k])
  {
    assert s[..k + 1][..k] == s[..k];
  }

  /** Moving an element that occurs once to the front joins what was before it to what was after it. */
  lemma MoveToFrontAt<T>(p: seq<T>, x: T, t: seq<T>)
    requires x !in p
    ensures MoveToFront(p + [x] + t, x) == [x] + p + t
  {
    var s := p + [x] + t;
    assert s[..|p|] == p;
    IndexOfUnique(s, x, |p|);
    assert s[|p| + 1..] == t;
  }

  /**
   * The walk of a list whose first `k` elements were each moved to the
   * front in turn: moving the next one to the front as well extends the
   * reversed prefix.
   */
  lemma ReversingStep<T>(l: seq<T>, k: nat)
    requires Unique(l) && k < |l|
    ensures MoveToFront(Reverse(l[..k]) + l[k..], l[k]) == Reverse(l[..k + 1]) + l[k + 1..]
  {
    NotBefore(l, k);
    ReversePermutes(l[..k]);
    assert l[k] !in multiset(Reverse(l[..k]));
    SplitAt(l, k);
    MoveToFrontAt(Reverse(l[..k]), l[k], l[k + 1..]);
    ReverseExtends(l, k);
  }

  /** The suffix from `k` is its first element followed by the rest. */
  lemma SplitAt<T>(l: seq<T>, k: nat)
    requires k < |l|
    ensures forall p: seq<T> :: p + l[k..] == p + [l[k]] + l[k + 1..]
  {
    assert l[k..] == [l[k]] + l[k + 1..];
  }

  /** Removing a key forgets what was last written at it. */
  lemma MapUpdateRemove<K, V>(m: map<K, V>, k: K, v: V)
    ensures m[k := v] - {k} == m - {k}
  { }
}

/**
 * `Array.prototype.splice` on non-negative arguments, and the single-element
 * move that the task list builds from two splices (components/TaskList.tsx).
 */
module ListMove {
  /**
   * `arr.splice(start, deleteCount, ...items)` for non-negative arguments:
   * the removed elements and the array afterwards. Both counts are clamped
   * to the array, as in JavaScript.
   */
  function Splice<T>(s: seq<T>, start: nat, deleteCount: nat, items: seq<T>): (r: (seq<T>, seq<T>))
    ensures start <= |s| ==> |r.0| == if deleteCount <= |s| - start then deleteCount else |s| - start
    ensures start > |s| ==> r.0 == []
    ensures |r.1| == |s| - |r.0| + |items|
    ensures var a := if start <= |s| then start else |s|;
      r.1[..a] == s[..a] && r.1[a..a + |items|] == items && s == s[..a] + r.0 + r.1[a + |items|..]
  {
    var a := if start <= |s| then start else |s|;
    var d := if deleteCount <= |s| - a then deleteCount else |s| - a;
    (s[a..a + d], s[..a] + items + s[a + d..])
  }

  /** `splice(i, 1)` on an index in range removes exactly the element at `i`. */
  lemma SpliceOut<T>(s: seq<T>, i: nat)
    requires i < |s|
    ensures Splice(s, i, 1, []) == ([s[i]], s[..i] + s[i + 1..])
  {
    assert s[i..i + 1] == [s[i]];
    assert s[..i] + [] + s[i + 1..] == s[..i] + s[i + 1..];
  }

  /** `splice(i, 0, x)` on an index in range inserts `x` in front of index `i`. */
  lemma SpliceIn<T>(s: seq<T>, i: nat, x: T)
    requires i <= |s|
    ensures Splice(s, i, 0, [x]).1 == s[..i] + [x] + s[i..]
  {
  }

  /** `splice(from, 1)` then `splice(to, 0, movedTask)`: move one element. */
  function Moved<T>(s: seq<T>, from: nat, to: nat): (r: seq<T>)
    requires from < |s| && to < |s|
    ensures |r| == |s|
  {
    var spliced := Splice(s, from, 1, []);
    Splice(spliced.1, to, 0, [spliced.0[0]]).1
  }

  /**
   * Where the element at index `i` after moving `from` to `to` stood before:
   * `to` receives the moved element, the elements between shift one step
   * toward `from`, and the rest stay in place.
   */
  function SourceIndex(from: nat, to: nat, i: nat): nat {
    if i == to then from
    else if from < to && from <= i < to then i + 1
    else if to < from && to < i <= from then i - 1
    else i
  }

  /** Where the element that stood at `to` ends up after a real move. */
  function DisplacedIndex(from: nat, to: nat): (j: nat)
    requires from != to
    ensures SourceIndex(from, to, j) == to
  {
    if from < to then to - 1 else to + 1
  }

  /** The move takes every element from its `SourceIndex`. */
  lemma MovedAt<T>(s: seq<T>, from: nat, to: nat)
    requires from < |s| && to < |s|
    ensures |Moved(s, from, to)| == |s|
    ensures forall i :: 0 <= i < |s| ==> SourceIndex(from, to, i) < |s| && Moved(s, from, to)[i] == s[SourceIndex(from, to, i)]
  {
    var rest := s[..from] + s[from + 1..];
    SpliceOut(s, from);
    var r := rest[..to] + [s[from]] + rest[to..];
    assert Moved(s, from, to) == r;
    forall i | 0 <= i < |s| ensures r[i] == s[SourceIndex(from, to, i)] {
      if i < to {
        assert r[i] == rest[i];
      } else if i > to {
        assert r[i] == rest[i - 1];
      }
    }
  }

  /**
   * The moved element lands at `to`; the elements strictly between the two
   * indices shift one place toward `from`; every other element keeps its index.
   */
  lemma MoveShifts<T>(s: seq<T>, from: nat, to: nat)
    requires from < |s| && to < |s|
    ensures var r := Moved(s, from, to);
      && |r| == |s| && r[to] == s[from]
      && (forall i :: from <= i < to ==> r[i] == s[i + 1])
      && (forall i :: to < i <= from ==> r[i] == s[i - 1])
      && (forall i :: 0 <= i < |s| && ((i < from && i < to) || (i > from && i > to)) ==> r[i] == s[i])
  {
    MovedAt(s, from, to);
  }

  /** The move is a permutation of its input. */
  lemma MovedIsPermutation<T>(s: seq<T>, from: nat, to: nat)
    requires from < |s| && to < |s|
    ensures multiset(Moved(s, from, to)) == multiset(s)
  {
    var x := s[from];
    var rest := s[..from] + s[from + 1..];
    SpliceOut(s, from);
    SpliceIn(rest, to, x);
    assert Moved(s, from, to) == rest[..to] + [x] + rest[to..];
    calc {
      multiset(Moved(s, from, to));
      multiset(rest[..to]) + multiset{x} + multiset(rest[to..]);
      { assert rest == rest[..to] + rest[to..]; }
      multiset(rest) + multiset{x};
      multiset(s[..from]) + multiset(s[from + 1..]) + multiset{x};
      { assert s == s[..from] + [x] + s[from + 1..]; }
      multiset(s);
    }
  }

  /** `SourceIndex` for the reverse move undoes `SourceIndex` for the move. */
  lemma SourceIndexInverse(from: nat, to: nat, i: nat)
    ensures SourceIndex(from, to, SourceIndex(to, from, i)) == i
  {
  }

  /** Moving back from `to` to `from` undoes a move (before renumbering). */
  lemma MoveInverse<T>(s: seq<T>, from: nat, to: nat)
    requires from < |s| && to < |s|
    ensures Moved(Moved(s, from, to), to, from) == s
  {
    var r := Moved(s, from, to);
    var q := Moved(r, to, from);
    MovedAt(s, from, to);
    MovedAt(r, to, from);
    forall i | 0 <= i < |s| ensures q[i] == s[i] {
      var k := SourceIndex(to, from, i);
      SourceIndexInverse(from, to, i);
      assert q[i] == r[k];
    }
  }
}

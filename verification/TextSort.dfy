/** Python's ordering of text, and what sorting by a key guarantees. */
module TextSort {

  /** `a <= b`, comparing code points. */
  predicate Below(a: string, b: string) {
    a == [] || (b != [] && (a[0] < b[0] || (a[0] == b[0] && Below(a[1..], b[1..]))))
  }

  /** `a` comes first where the two part, or goes on no longer than `b`. */
  lemma {:induction false} BelowExactly(a: string, b: string)
    ensures Below(a, b) <==> a <= b || exists i :: 0 <= i < |a| && i < |b| && a[..i] == b[..i] && a[i] < b[i]
  {
    if a != [] && b != [] {
      var x, y := a[1..], b[1..];
      assert a == [a[0]] + x && b == [b[0]] + y;
      if a[0] == b[0] {
        BelowExactly(x, y);
        forall i | 0 <= i < |x| && i < |y|
          ensures x[..i] == y[..i] && x[i] < y[i] <==> a[..i + 1] == b[..i + 1] && a[i + 1] < b[i + 1]
        {
          assert a[..i + 1] == [a[0]] + x[..i] && b[..i + 1] == [b[0]] + y[..i];
          assert ([a[0]] + x[..i])[1..] == x[..i] && ([b[0]] + y[..i])[1..] == y[..i];
        }
        if i :| 0 <= i < |a| && i < |b| && a[..i] == b[..i] && a[i] < b[i] {
          assert x[..i - 1] == y[..i - 1] && x[i - 1] < y[i - 1];
        }
      } else {
        forall i | 0 < i <= |a| && i <= |b| ensures a[..i] != b[..i] {
          assert a[..i][0] != b[..i][0];
        }
        assert a[..0] == b[..0];
      }
    }
  }

  lemma {:induction false} BelowTotal(a: string, b: string)
    ensures Below(a, b) || Below(b, a)
  {
    if a != [] && b != [] && a[0] == b[0] {
      BelowTotal(a[1..], b[1..]);
    }
  }

  lemma {:induction false} BelowAntisymmetric(a: string, b: string)
    requires Below(a, b) && Below(b, a)
    ensures a == b
  {
    if a != [] {
      BelowAntisymmetric(a[1..], b[1..]);
      assert a == [a[0]] + a[1..] && b == [b[0]] + b[1..];
    }
  }

  lemma {:induction false} BelowTransitive(a: string, b: string, c: string)
    requires Below(a, b) && Below(b, c)
    ensures Below(a, c)
  {
    if a != [] && a[0] == b[0] == c[0] {
      BelowTransitive(a[1..], b[1..], c[1..]);
    }
  }

  /** Any two keys compare, and comparisons compose. */
  ghost predicate Preorder<T(!new)>(le: (T, T) -> bool) {
    && (forall x, y :: le(x, y) || le(y, x))
    && (forall x, y, z :: le(x, y) && le(y, z) ==> le(x, z))
  }

  ghost predicate Sorted<T>(s: seq<T>, le: (T, T) -> bool) {
    forall i, j :: 0 <= i < j < |s| ==> le(s[i], s[j])
  }

  function Insert<T>(x: T, s: seq<T>, le: (T, T) -> bool): seq<T> {
    if s == [] || le(x, s[0]) then [x] + s else [s[0]] + Insert(x, s[1..], le)
  }

  /** A stable sort, as `sorted` and `list.sort` are. */
  function Sort<T>(s: seq<T>, le: (T, T) -> bool): seq<T> {
    if s == [] then [] else Insert(s[0], Sort(s[1..], le), le)
  }

  lemma {:induction false} InsertKeeps<T>(x: T, s: seq<T>, le: (T, T) -> bool)
    ensures multiset(Insert(x, s, le)) == multiset{x} + multiset(s)
  {
    if s != [] && !le(x, s[0]) {
      InsertKeeps(x, s[1..], le);
      assert s == [s[0]] + s[1..];
    }
  }

  lemma {:induction false} InsertSorted<T(!new)>(x: T, s: seq<T>, le: (T, T) -> bool)
    requires Preorder(le) && Sorted(s, le)
    ensures Sorted(Insert(x, s, le), le)
  {
    if s != [] && !le(x, s[0]) {
      InsertSorted(x, s[1..], le);
      InsertKeeps(x, s[1..], le);
      var later := Insert(x, s[1..], le);
      forall j | 0 <= j < |later| ensures le(s[0], later[j]) {
        assert later[j] in multiset(later);
        assert later[j] == x || later[j] in s[1..];
      }
    }
  }

  lemma {:induction false} SortPermutes<T>(s: seq<T>, le: (T, T) -> bool)
    ensures multiset(Sort(s, le)) == multiset(s) && |Sort(s, le)| == |s|
  {
    if s != [] {
      SortPermutes(s[1..], le);
      InsertKeeps(s[0], Sort(s[1..], le), le);
      assert s == [s[0]] + s[1..];
    }
    assert |multiset(Sort(s, le))| == |Sort(s, le)| && |multiset(s)| == |s|;
  }

  lemma {:induction false} SortSorts<T(!new)>(s: seq<T>, le: (T, T) -> bool)
    requires Preorder(le)
    ensures Sorted(Sort(s, le), le)
  {
    if s != [] {
      SortSorts(s[1..], le);
      InsertSorted(s[0], Sort(s[1..], le), le);
    }
  }

  /** No two different elements compare both ways. */
  ghost predicate Unambiguous<T>(s: seq<T>, le: (T, T) -> bool) {
    forall i, j :: 0 <= i < |s| && 0 <= j < |s| && le(s[i], s[j]) && le(s[j], s[i]) ==> s[i] == s[j]
  }

  lemma SameHead<T>(s: seq<T>, t: seq<T>, le: (T, T) -> bool)
    requires s != [] && t != [] && multiset(s) == multiset(t)
    requires Sorted(s, le) && Sorted(t, le) && Unambiguous(s, le)
    ensures s[0] == t[0]
  {
    assert s[0] in multiset(t) && t[0] in multiset(s);
    var i :| 0 <= i < |t| && t[i] == s[0];
    var j :| 0 <= j < |s| && s[j] == t[0];
    if i > 0 && j > 0 {
      assert le(s[0], s[j]) && le(t[0], t[i]);
    }
  }

  lemma SameTail<T>(s: seq<T>, t: seq<T>)
    requires s != [] && t != [] && multiset(s) == multiset(t) && s[0] == t[0]
    ensures multiset(s[1..]) == multiset(t[1..])
  {
    assert s == [s[0]] + s[1..] && t == [t[0]] + t[1..];
    assert multiset(s[1..]) == multiset(s) - multiset{s[0]};
    assert multiset(t[1..]) == multiset(t) - multiset{t[0]};
  }

  lemma {:induction false} SortedUnique<T>(s: seq<T>, t: seq<T>, le: (T, T) -> bool)
    requires Sorted(s, le) && Sorted(t, le) && Unambiguous(s, le) && multiset(s) == multiset(t)
    ensures s == t
  {
    assert |multiset(s)| == |s| && |multiset(t)| == |t|;
    if s != [] {
      SameHead(s, t, le);
      SameTail(s, t);
      SortedUnique(s[1..], t[1..], le);
      assert s == [s[0]] + s[1..] && t == [t[0]] + t[1..];
    }
  }

  lemma SortUnambiguous<T>(s: seq<T>, le: (T, T) -> bool)
    requires Unambiguous(s, le)
    ensures Unambiguous(Sort(s, le), le)
  {
    SortPermutes(s, le);
    var sorted := Sort(s, le);
    forall i, j | 0 <= i < |sorted| && 0 <= j < |sorted| && le(sorted[i], sorted[j]) && le(sorted[j], sorted[i])
      ensures sorted[i] == sorted[j]
    {
      assert sorted[i] in multiset(s) && sorted[j] in multiset(s);
      var k :| 0 <= k < |s| && s[k] == sorted[i];
      var m :| 0 <= m < |s| && s[m] == sorted[j];
    }
  }

  /** Sorting forgets the order it was given, where no two different elements share a key. */
  lemma SortForgetsOrder<T(!new)>(s: seq<T>, t: seq<T>, le: (T, T) -> bool)
    requires Preorder(le) && Unambiguous(s, le) && multiset(s) == multiset(t)
    ensures Sort(s, le) == Sort(t, le)
  {
    SortPermutes(s, le);
    SortPermutes(t, le);
    SortSorts(s, le);
    SortSorts(t, le);
    SortUnambiguous(s, le);
    SortedUnique(Sort(s, le), Sort(t, le), le);
  }

  // ---- Permutations ---------------------------------------------------------------------------

  function Without<T>(s: seq<T>, i: nat): seq<T>
    requires i < |s|
  {
    s[..i] + s[i + 1..]
  }

  lemma WithoutKeeps<T>(s: seq<T>, i: nat)
    requires i < |s|
    ensures multiset(s) == multiset(Without(s, i)) + multiset{s[i]}
    ensures multiset(Without(s, i)) == multiset(s) - multiset{s[i]}
  {
    assert s == s[..i] + ([s[i]] + s[i + 1..]);
  }

  lemma StillParallel<T, U>(s: seq<T>, values: seq<U>, t: seq<T>, others: seq<U>, k: nat)
    requires |s| == |values| && |t| == |others| && s != [] && k < |t|
    requires forall i, j :: 0 <= i < |s| && 0 <= j < |t| && s[i] == t[j] ==> values[i] == others[j]
    ensures |Without(s, 0)| == |Without(values, 0)| == |s| - 1 && |Without(t, k)| == |Without(others, k)|
    ensures forall i, j :: 0 <= i < |Without(s, 0)| && 0 <= j < |Without(t, k)| && Without(s, 0)[i] == Without(t, k)[j]
              ==> Without(values, 0)[i] == Without(others, k)[j]
  {
    forall i, j | 0 <= i < |Without(s, 0)| && 0 <= j < |Without(t, k)| && Without(s, 0)[i] == Without(t, k)[j]
      ensures Without(values, 0)[i] == Without(others, k)[j]
    {
      var m := if j < k then j else j + 1;
      assert s[i + 1] == t[m];
    }
  }

  /** Lists that pair equal elements with equal values are permuted along with them. */
  lemma {:induction false} ParallelPermuted<T, U>(s: seq<T>, values: seq<U>, t: seq<T>, others: seq<U>)
    requires |s| == |values| && |t| == |others| && multiset(s) == multiset(t)
    requires forall i, j :: 0 <= i < |s| && 0 <= j < |t| && s[i] == t[j] ==> values[i] == others[j]
    ensures multiset(values) == multiset(others)
    decreases |s|
  {
    if s == [] {
      assert multiset(t) == multiset{};
      assert |multiset(t)| == |t|;
    } else {
      assert s[0] in multiset(t);
      var k :| 0 <= k < |t| && t[k] == s[0];
      WithoutKeeps(s, 0);
      WithoutKeeps(t, k);
      WithoutKeeps(values, 0);
      WithoutKeeps(others, k);
      StillParallel(s, values, t, others, k);
      hide Without;
      ParallelPermuted(Without(s, 0), Without(values, 0), Without(t, k), Without(others, k));
    }
  }
}

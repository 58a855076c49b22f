/** The JavaScript built-ins the core calls: Array.prototype.sort with the
    default comparator, Array.prototype.indexOf, Array.prototype.join and
    String.prototype.split. */
module Builtins {
  import opened JsValues

  // ---- Array.prototype.sort() ----

  /** Places `x` in front of the first element of `s` it does not exceed. */
  function Insert(x: Value, s: seq<Value>): (r: seq<Value>)
    ensures multiset(r) == multiset(s) + multiset{x}
  {
    if s == [] then [x]
    else if Le(x, s[0]) then [x] + s
    else
      assert s == [s[0]] + s[1..];
      [s[0]] + Insert(x, s[1..])
  }

  /** `array.sort()`, as the sorted permutation of `s` (unique by SortedUnique,
      so it does not depend on the engine's algorithm). */
  function Sort(s: seq<Value>): (r: seq<Value>)
    ensures multiset(r) == multiset(s)
    ensures |r| == |s|
  {
    if s == [] then []
    else
      assert s == [s[0]] + s[1..];
      Insert(s[0], Sort(s[1..]))
  }

  lemma {:induction false} InsertSorted(x: Value, s: seq<Value>)
    requires Sorted(s)
    ensures Sorted(Insert(x, s))
  {
    if s == [] {
    } else if Le(x, s[0]) {
      forall k | 0 <= k < |s| ensures Le(x, s[k]) {
        SortedLe(s, 0, k);
        LeTransitive(x, s[0], s[k]);
      }
      ConsSorted(x, s);
    } else {
      LeTotal(x, s[0]);
      InsertSorted(x, s[1..]);
      forall k | 0 <= k < |s[1..]| ensures Le(s[0], s[1..][k]) {
        SortedLe(s, 0, k + 1);
      }
      SortedTail(s);
      InsertKeepsLowerBound(s[0], x, s[1..]);
      ConsSorted(s[0], Insert(x, s[1..]));
    }
  }

  /** A lower bound of `x` and of every element of `s` bounds `Insert(x, s)`. */
  lemma InsertKeepsLowerBound(y: Value, x: Value, s: seq<Value>)
    requires Le(y, x) && forall k :: 0 <= k < |s| ==> Le(y, s[k])
    ensures forall k :: 0 <= k < |Insert(x, s)| ==> Le(y, Insert(x, s)[k])
  {
    var t := Insert(x, s);
    forall k | 0 <= k < |t| ensures Le(y, t[k]) {
      assert t[k] in multiset(t);
      if t[k] != x {
        assert t[k] in multiset(s);
        var m :| 0 <= m < |s| && s[m] == t[k];
      }
    }
  }

  /** Putting a lower bound in front of a sorted sequence keeps it sorted. */
  lemma ConsSorted(y: Value, t: seq<Value>)
    requires Sorted(t) && forall k :: 0 <= k < |t| ==> Le(y, t[k])
    ensures Sorted([y] + t)
  {
    var r := [y] + t;
    forall i, j | 0 <= i < j < |r| ensures Le(r[i], r[j]) {
      if i > 0 {
        assert r[i] == t[i - 1] && r[j] == t[j - 1];
      }
    }
  }

  lemma {:induction false} SortSorted(s: seq<Value>)
    ensures Sorted(Sort(s))
  {
    if s != [] {
      SortSorted(s[1..]);
      InsertSorted(s[0], Sort(s[1..]));
    }
  }

  lemma SortedTail(s: seq<Value>)
    requires Sorted(s) && s != []
    ensures Sorted(s[1..])
  {
    forall i, j | 0 <= i < j < |s[1..]| ensures Le(s[1..][i], s[1..][j]) {
      assert s[1..][i] == s[i + 1] && s[1..][j] == s[j + 1];
    }
  }

  lemma MultisetTail<T>(s: seq<T>)
    requires s != []
    ensures multiset(s[1..]) == multiset(s) - multiset{s[0]}
  {
    assert s == [s[0]] + s[1..];
  }

  /** Two sorted sequences holding the same values are equal. */
  lemma {:induction false} SortedUnique(a: seq<Value>, b: seq<Value>)
    requires Sorted(a) && Sorted(b) && multiset(a) == multiset(b)
    ensures a == b
  {
    assert |a| == |multiset(a)| == |multiset(b)| == |b|;
    if a != [] {
      SameHead(a, b);
      MultisetTail(a);
      MultisetTail(b);
      SortedTail(a);
      SortedTail(b);
      SortedUnique(a[1..], b[1..]);
      assert a == [a[0]] + a[1..] && b == [b[0]] + b[1..];
    }
  }

  lemma SameHead(a: seq<Value>, b: seq<Value>)
    requires Sorted(a) && Sorted(b) && multiset(a) == multiset(b) && a != [] && b != []
    ensures a[0] == b[0]
  {
    assert a[0] in multiset(b) && b[0] in multiset(a);
    var k :| 0 <= k < |b| && b[k] == a[0];
    var m :| 0 <= m < |a| && a[m] == b[0];
    SortedLe(b, 0, k);
    SortedLe(a, 0, m);
    LeAntisymmetric(a[0], b[0]);
  }

  /** Every sorted permutation of `s` is Sort(s). */
  lemma SortIsTheSortedPermutation(s: seq<Value>, r: seq<Value>)
    requires Sorted(r) && multiset(r) == multiset(s)
    ensures r == Sort(s)
  {
    SortSorted(s);
    SortedUnique(r, Sort(s));
  }

  /** Sorting keeps a repeat-free sequence repeat-free. */
  lemma SortDistinct(s: seq<Value>)
    requires Distinct(s)
    ensures Distinct(Sort(s))
  {
    DistinctPermutation(s, Sort(s));
  }

  // ---- Array.prototype.indexOf ----

  /** `s.indexOf(x)`: the first position holding `x`, or -1. */
  function IndexOf<T(==)>(s: seq<T>, x: T): (i: int)
    ensures -1 <= i < |s|
    ensures i == -1 <==> x !in s
    ensures 0 <= i ==> s[i] == x && x !in s[..i]
  {
    if s == [] then -1
    else if s[0] == x then 0
    else
      var k := IndexOf(s[1..], x);
      assert s == [s[0]] + s[1..];
      if k == -1 then -1
      else
        assert s[..k + 1] == [s[0]] + s[1..][..k];
        k + 1
  }

  /** The first `sep` in `a + [sep] + b` is the one after `a` when `a` has none. */
  lemma IndexOfFirstSeparator<T>(a: seq<T>, sep: T, b: seq<T>)
    requires sep !in a
    ensures IndexOf(a + [sep] + b, sep) == |a|
  {
    var x := a + [sep] + b;
    assert x[|a|] == sep;
    assert x[..|a|] == a;
    forall j | |a| < j <= |x| ensures sep in x[..j] {
      assert x[..j][|a|] == sep;
    }
  }

  /** Text that runs up to a first separator can be read back from the whole. */
  lemma UpToFirstSeparator<T>(a: seq<T>, b: seq<T>, c: seq<T>, d: seq<T>, sep: T)
    requires sep !in a && sep !in c
    requires a + [sep] + b == c + [sep] + d
    ensures a == c && b == d
  {
    IndexOfFirstSeparator(a, sep, b);
    IndexOfFirstSeparator(c, sep, d);
    var x := a + [sep] + b;
    assert a == x[..|a|] && b == x[|a| + 1..];
    assert c == x[..|c|] && d == x[|c| + 1..];
  }

  // ---- Array.prototype.join and String.prototype.split ----

  /** `items.join(sep)`. */
  function Join(items: seq<string>, sep: string): string {
    if items == [] then ""
    else if |items| == 1 then items[0]
    else items[0] + sep + Join(items[1..], sep)
  }

  lemma JoinCons(x: string, rest: seq<string>, sep: string)
    requires rest != []
    ensures Join([x] + rest, sep) == x + sep + Join(rest, sep)
  {
    assert ([x] + rest)[1..] == rest;
  }

  /** `s.split(sep)` for a one-character separator: the pieces between
      separators, so "" splits into [""]. */
  function Split(s: string, sep: char): (pieces: seq<string>)
    ensures |pieces| >= 1
  {
    if s == [] then [""]
    else if s[0] == sep then [""] + Split(s[1..], sep)
    else
      var rest := Split(s[1..], sep);
      [[s[0]] + rest[0]] + rest[1..]
  }

  lemma {:induction false} SplitAfterPiece(piece: string, sep: char, rest: string)
    requires sep !in piece
    ensures Split(piece + [sep] + rest, sep) == [piece] + Split(rest, sep)
  {
    if piece != [] {
      assert (piece + [sep] + rest)[1..] == piece[1..] + [sep] + rest;
      SplitAfterPiece(piece[1..], sep, rest);
      assert [piece[0]] + piece[1..] == piece;
    }
  }

  lemma {:induction false} SplitSingle(piece: string, sep: char)
    requires sep !in piece
    ensures Split(piece, sep) == [piece]
  {
    if piece != [] {
      SplitSingle(piece[1..], sep);
      assert [piece[0]] + piece[1..] == piece;
    }
  }

  /** Splitting a join on a separator that occurs in no item gives the items
      back, for every non-empty list ([].join(" ") is "", which splits into [""]). */
  lemma {:induction false} SplitJoin(items: seq<string>, sep: char)
    requires items != []
    requires forall k :: 0 <= k < |items| ==> sep !in items[k]
    ensures Split(Join(items, [sep]), sep) == items
  {
    if |items| == 1 {
      SplitSingle(items[0], sep);
    } else {
      SplitJoin(items[1..], sep);
      assert items[0] + [sep] + Join(items[1..], [sep]) == Join(items, [sep]);
      SplitAfterPiece(items[0], sep, Join(items[1..], [sep]));
      assert [items[0]] + items[1..] == items;
    }
  }
}

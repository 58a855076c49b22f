/** JavaScript values as the dashboard code handles them: strings, `undefined`
    for a missing property, sample records, and the ordering that
    Array.prototype.sort uses when it is given no comparator. */
module JsValues {

  datatype Option<T> = None | Some(value: T)

  /** A property value read from a sample record: a string, or `undefined`
      when the record has no such property. */
  datatype Value = Undefined | Str(s: string)

  /** A sample document: property name to value. */
  type Record = map<string, Value>

  /** `item[property]`. */
  function Get(item: Record, property: string): Value {
    if property in item then item[property] else Undefined
  }

  /** JavaScript truthiness of a value: `undefined` and "" are falsy. */
  predicate Truthy(v: Value) {
    v.Str? && v.s != ""
  }

  /** `a <= b` on strings: character by character, a proper prefix first. A
      Dafny `char` is a Unicode scalar value, so this compares code points,
      which is JavaScript's UTF-16 code unit order for strings without
      characters above U+FFFF. */
  predicate StrLe(a: string, b: string) {
    if a == [] then true
    else if b == [] then false
    else if a[0] != b[0] then a[0] < b[0]
    else StrLe(a[1..], b[1..])
  }

  /** The default sort order: strings compared as strings, `undefined` after every string. */
  predicate Le(a: Value, b: Value) {
    match (a, b)
    case (Str(x), Str(y)) => StrLe(x, y)
    case (Str(_), Undefined) => true
    case (Undefined, Str(_)) => false
    case (Undefined, Undefined) => true
  }

  predicate Sorted(s: seq<Value>) {
    forall i, j :: 0 <= i < j < |s| ==> Le(s[i], s[j])
  }

  predicate Distinct<T(==)>(s: seq<T>) {
    forall i, j :: 0 <= i < j < |s| ==> s[i] != s[j]
  }

  // ---- Le is a total order ----

  lemma {:induction false} StrLeReflexive(a: string)
    ensures StrLe(a, a)
  {
    if a != [] {
      StrLeReflexive(a[1..]);
    }
  }

  lemma {:induction false} StrLeTotal(a: string, b: string)
    ensures StrLe(a, b) || StrLe(b, a)
  {
    if a != [] && b != [] && a[0] == b[0] {
      StrLeTotal(a[1..], b[1..]);
    }
  }

  lemma {:induction false} StrLeAntisymmetric(a: string, b: string)
    requires StrLe(a, b) && StrLe(b, a)
    ensures a == b
  {
    if a != [] && b != [] {
      StrLeAntisymmetric(a[1..], b[1..]);
      assert a == [a[0]] + a[1..] && b == [b[0]] + b[1..];
    }
  }

  lemma {:induction false} StrLeTransitive(a: string, b: string, c: string)
    requires StrLe(a, b) && StrLe(b, c)
    ensures StrLe(a, c)
  {
    if a != [] && b != [] && c != [] && a[0] == b[0] && b[0] == c[0] {
      StrLeTransitive(a[1..], b[1..], c[1..]);
    }
  }

  lemma LeReflexive(a: Value)
    ensures Le(a, a)
  {
    if a.Str? {
      StrLeReflexive(a.s);
    }
  }

  lemma LeTotal(a: Value, b: Value)
    ensures Le(a, b) || Le(b, a)
  {
    if a.Str? && b.Str? {
      StrLeTotal(a.s, b.s);
    }
  }

  lemma LeAntisymmetric(a: Value, b: Value)
    requires Le(a, b) && Le(b, a)
    ensures a == b
  {
    if a.Str? && b.Str? {
      StrLeAntisymmetric(a.s, b.s);
    }
  }

  lemma LeTransitive(a: Value, b: Value, c: Value)
    requires Le(a, b) && Le(b, c)
    ensures Le(a, c)
  {
    if a.Str? && b.Str? && c.Str? {
      StrLeTransitive(a.s, b.s, c.s);
    }
  }

  /** In a sorted sequence every element is at most every later-or-equal one. */
  lemma SortedLe(s: seq<Value>, i: int, j: int)
    requires Sorted(s) && 0 <= i <= j < |s|
    ensures Le(s[i], s[j])
  {
    if i == j {
      LeReflexive(s[i]);
    }
  }

  // ---- Distinctness is a property of the multiset ----

  lemma {:induction false} DistinctAtMostOnce<T>(s: seq<T>, x: T)
    requires Distinct(s)
    ensures multiset(s)[x] <= 1
  {
    if s != [] {
      assert s == [s[0]] + s[1..];
      assert Distinct(s[1..]) by {
        forall i, j | 0 <= i < j < |s[1..]| ensures s[1..][i] != s[1..][j] {
          assert s[1..][i] == s[i + 1] && s[1..][j] == s[j + 1];
        }
      }
      DistinctAtMostOnce(s[1..], x);
      if x == s[0] {
        assert x !in s[1..] by {
          forall k | 0 <= k < |s[1..]| ensures s[1..][k] != x {
            assert s[1..][k] == s[k + 1];
          }
        }
      }
    }
  }

  lemma TwoIndicesCount<T>(s: seq<T>, i: int, j: int)
    requires 0 <= i < j < |s|
    ensures s[i] == s[j] ==> multiset(s)[s[i]] >= 2
  {
    assert s == s[..j] + [s[j]] + s[j + 1..];
    assert s[..j][i] == s[i];
    assert s[i] in multiset(s[..j]);
  }

  /** A permutation of a repeat-free sequence is repeat-free. */
  lemma DistinctPermutation<T>(a: seq<T>, b: seq<T>)
    requires Distinct(a) && multiset(a) == multiset(b)
    ensures Distinct(b)
  {
    forall i, j | 0 <= i < j < |b| ensures b[i] != b[j] {
      DistinctAtMostOnce(a, b[i]);
      TwoIndicesCount(b, i, j);
    }
  }
}

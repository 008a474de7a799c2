/** The `.sort({ date: ±1, createdAt: ±1 })` and `$sort` stages of the store's
    queries: a result set put in order by a two-part key. Documents whose keys
    tie may come back in any order, as the store does not promise one. */
module Sorting {

  /** A sort key compared field by field: `major` first, then `minor`. */
  datatype Key = Key(major: int, minor: int)

  predicate KeyLe(a: Key, b: Key) {
    a.major < b.major || (a.major == b.major && a.minor <= b.minor)
  }

  datatype Direction = Ascending | Descending

  predicate InOrder(dir: Direction, a: Key, b: Key) {
    if dir == Ascending then KeyLe(a, b) else KeyLe(b, a)
  }

  ghost predicate SortedBy<T>(s: seq<T>, key: T -> Key, dir: Direction) {
    forall i, j :: 0 <= i < j < |s| ==> InOrder(dir, key(s[i]), key(s[j]))
  }

  predicate Distinct<T(==)>(s: seq<T>) {
    forall i, j :: 0 <= i < j < |s| ==> s[i] != s[j]
  }

  /** Puts `x` into the sorted `s` in front of the first element it may precede. */
  function Insert<T>(x: T, s: seq<T>, key: T -> Key, dir: Direction): (r: seq<T>)
    requires SortedBy(s, key, dir)
    ensures SortedBy(r, key, dir)
    ensures multiset(r) == multiset(s) + multiset{x}
    decreases |s|
  {
    if s == [] then [x]
    else if InOrder(dir, key(x), key(s[0])) then
      assert forall j :: 0 <= j < |s| ==> InOrder(dir, key(x), key(s[j])) by {
        forall j | 0 <= j < |s| ensures InOrder(dir, key(x), key(s[j])) {
          if j > 0 {
            assert InOrder(dir, key(s[0]), key(s[j]));
          }
        }
      }
      [x] + s
    else
      var rest := Insert(x, s[1..], key, dir);
      assert forall j :: 0 <= j < |rest| ==> InOrder(dir, key(s[0]), key(rest[j])) by {
        forall j | 0 <= j < |rest| ensures InOrder(dir, key(s[0]), key(rest[j])) {
          assert rest[j] in multiset(rest);
          if rest[j] != x {
            assert rest[j] in multiset(s[1..]);
            var k :| 0 <= k < |s[1..]| && s[1..][k] == rest[j];
            assert s[k + 1] == rest[j];
          }
        }
      }
      assert s == [s[0]] + s[1..];
      [s[0]] + rest
  }

  /** A sequence holding each element of a set once. */
  lemma PermutationOfSet<T>(r: seq<T>, xs: set<T>)
    requires multiset(r) == multiset(xs)
    ensures |r| == |xs|
    ensures forall y :: y in r <==> y in xs
    ensures Distinct(r)
  {
    assert |multiset(r)| == |r|;
    forall y ensures y in r <==> y in xs {
      assert y in r <==> y in multiset(r);
    }
    forall i, j | 0 <= i < j < |r| ensures r[i] != r[j] {
      var v := r[i];
      assert r == r[..j] + r[j..];
      assert v in r[..j];
      assert multiset(r)[v] <= 1;
      assert multiset(r[j..])[v] == 0;
      assert r[j] in r[j..];
    }
  }

  /** The elements of `xs`, each once, in order of `key`. */
  ghost function SortSet<T>(xs: set<T>, key: T -> Key, dir: Direction): (r: seq<T>)
    ensures SortedBy(r, key, dir)
    ensures multiset(r) == multiset(xs)
    decreases xs
  {
    if xs == {} then []
    else
      var x :| x in xs;
      assert multiset(xs - {x}) + multiset{x} == multiset(xs);
      Insert(x, SortSet(xs - {x}, key, dir), key, dir)
  }
}

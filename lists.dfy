/** The stream operations the catalog uses: `filter(...).findFirst()`,
    `filter(...)` and `sorted(Comparator.comparing(key))`, on sequences. */
module Lists {
  import opened Text

  /** `Optional<T>`: a value, or none. */
  datatype Option<+T> = None | Some(value: T)

  /** `filter(p).findFirst()`, as the index of the element found. */
  function FirstWhere<T>(s: seq<T>, p: T -> bool): (r: Option<nat>)
    ensures r.Some? ==> r.value < |s| && p(s[r.value]) && forall j :: 0 <= j < r.value ==> !p(s[j])
    ensures r.None? ==> forall j :: 0 <= j < |s| ==> !p(s[j])
  {
    if s == [] then None
    else if p(s[0]) then Some(0)
    else match FirstWhere(s[1..], p)
      case None => None
      case Some(k) => Some(k + 1)
  }

  /** `filter(p)`: the elements satisfying `p`, in their original order. */
  function Filter<T>(s: seq<T>, p: T -> bool): (r: seq<T>)
    ensures |r| <= |s|
  {
    if s == [] then []
    else if p(s[0]) then [s[0]] + Filter(s[1..], p)
    else Filter(s[1..], p)
  }

  /** What `Filter` keeps: only elements of `s` that satisfy `p`, every one of
      them, and nothing exactly when no element satisfies `p`. */
  lemma {:induction false} FilterMembers<T>(s: seq<T>, p: T -> bool)
    ensures forall i :: 0 <= i < |Filter(s, p)| ==> Filter(s, p)[i] in s && p(Filter(s, p)[i])
    ensures forall i :: 0 <= i < |s| && p(s[i]) ==> s[i] in Filter(s, p)
    ensures Filter(s, p) == [] <==> forall i :: 0 <= i < |s| ==> !p(s[i])
  {
    if s != [] {
      FilterMembers(s[1..], p);
      var r := Filter(s, p);
      forall i | 0 <= i < |r| ensures r[i] in s && p(r[i]) {
        if !p(s[0]) || i > 0 {
          var k := if p(s[0]) then i - 1 else i;
          assert r[i] == Filter(s[1..], p)[k];
          assert r[i] in s[1..];
        }
      }
      forall i | 0 < i < |s| && p(s[i]) ensures s[i] in r {
        assert s[i] == s[1..][i - 1];
      }
    }
  }

  /** Filtering distributes over concatenation: what is kept from the front
      part precedes what is kept from the back part, so filtering never
      reorders. */
  lemma {:induction false} FilterConcat<T>(s: seq<T>, t: seq<T>, p: T -> bool)
    ensures Filter(s + t, p) == Filter(s, p) + Filter(t, p)
  {
    if s == [] {
      assert s + t == t;
    } else {
      var u := s + t;
      assert u != [] && u[0] == s[0];
      assert u[1..] == s[1..] + t;
      var front := if p(s[0]) then [s[0]] else [];
      assert Filter(u, p) == front + Filter(s[1..] + t, p);
      assert Filter(s, p) == front + Filter(s[1..], p);
      FilterConcat(s[1..], t, p);
      assert front + (Filter(s[1..], p) + Filter(t, p)) == (front + Filter(s[1..], p)) + Filter(t, p);
    }
  }

  /** The test "has key `k`". */
  function HasKey<T>(key: T -> string, k: string): T -> bool {
    x => key(x) == k
  }

  /** The elements whose key is `k`, in order. */
  function WithKey<T>(s: seq<T>, key: T -> string, k: string): seq<T> {
    Filter(s, HasKey(key, k))
  }

  /** Keys ascend (by `String.compareTo`) along `s`. */
  ghost predicate SortedBy<T>(s: seq<T>, key: T -> string) {
    forall i, j :: 0 <= i < j < |s| ==> LexLe(key(s[i]), key(s[j]))
  }

  /** Inserts `x` into `s` before the first element whose key is not below
      `x`'s. */
  function Insert<T>(x: T, s: seq<T>, key: T -> string): seq<T> {
    if s == [] then [x]
    else if LexLe(key(x), key(s[0])) then [x] + s
    else [s[0]] + Insert(x, s[1..], key)
  }

  /** Inserting adds exactly `x`, whatever the order of `s`. */
  lemma {:induction false} InsertPermutes<T>(x: T, s: seq<T>, key: T -> string)
    ensures multiset(Insert(x, s, key)) == multiset(s) + multiset{x}
  {
    if s != [] && !LexLe(key(x), key(s[0])) {
      InsertPermutes(x, s[1..], key);
      assert s == [s[0]] + s[1..];
    }
  }

  /** Inserting into a sorted sequence keeps it sorted. */
  lemma {:induction false} InsertSorts<T>(x: T, s: seq<T>, key: T -> string)
    requires SortedBy(s, key)
    ensures SortedBy(Insert(x, s, key), key)
  {
    if s == [] {
    } else if LexLe(key(x), key(s[0])) {
      forall j | 0 < j < |s| ensures LexLe(key(x), key(s[j])) {
        LexLeTransitive(key(x), key(s[0]), key(s[j]));
      }
    } else {
      LexLeTotal(key(x), key(s[0]));
      var u := Insert(x, s[1..], key);
      InsertSorts(x, s[1..], key);
      InsertPermutes(x, s[1..], key);
      forall j | 0 <= j < |u| ensures LexLe(key(s[0]), key(u[j])) {
        assert u[j] in multiset(u);
        if u[j] != x {
          assert u[j] in multiset(s[1..]);
          var i :| 0 <= i < |s[1..]| && s[1..][i] == u[j];
          assert s[i + 1] == u[j];
        }
      }
    }
  }

  /** `sorted(Comparator.comparing(key))`: insertion sort, each element going
      in front of the equal-keyed elements that came after it. */
  function SortBy<T>(s: seq<T>, key: T -> string): (r: seq<T>)
    ensures SortedBy(r, key)
    ensures multiset(r) == multiset(s)
  {
    if s == [] then []
    else
      var t := SortBy(s[1..], key);
      InsertSorts(s[0], t, key);
      InsertPermutes(s[0], t, key);
      assert s == [s[0]] + s[1..];
      Insert(s[0], t, key)
  }

  /** Inserting `x` puts it in front of every element that has its key. */
  lemma {:induction false} InsertWithKey<T>(x: T, s: seq<T>, key: T -> string, k: string)
    ensures WithKey(Insert(x, s, key), key, k) ==
            (if key(x) == k then [x] else []) + WithKey(s, key, k)
  {
    var p := HasKey(key, k);
    if s == [] {
    } else if LexLe(key(x), key(s[0])) {
      FilterConcat([x], s, p);
    } else {
      LexLeReflexive(key(x));
      InsertWithKey(x, s[1..], key, k);
      FilterConcat([s[0]], Insert(x, s[1..], key), p);
      FilterConcat([s[0]], s[1..], p);
      assert s == [s[0]] + s[1..];
    }
  }

  /** The sort is stable: for every key, the elements with that key come out
      in the order they went in. */
  lemma {:induction false} SortStable<T>(s: seq<T>, key: T -> string, k: string)
    ensures WithKey(SortBy(s, key), key, k) == WithKey(s, key, k)
  {
    if s != [] {
      SortStable(s[1..], key, k);
      InsertWithKey(s[0], SortBy(s[1..], key), key, k);
      FilterConcat([s[0]], s[1..], HasKey(key, k));
      assert s == [s[0]] + s[1..];
    }
  }

  /** `SortStable` for every key at once. */
  lemma SortIsStable<T>(s: seq<T>, key: T -> string)
    ensures forall k :: WithKey(SortBy(s, key), key, k) == WithKey(s, key, k)
  {
    forall k ensures WithKey(SortBy(s, key), key, k) == WithKey(s, key, k) {
      SortStable(s, key, k);
    }
  }
}

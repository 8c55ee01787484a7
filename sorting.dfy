/**
 * `sorted(lines, key=lambda x: x.split()[0])`: a stable sort of lines by
 * their first whitespace-separated field, with Python's ordering of strings.
 */
module Sorting {
  import opened Strings

  /** The sort key `line.split()[0]`; a blank line (which the script never sorts) gets "". */
  function FirstField(line: string): string {
    var ws := Words(line);
    if ws == [] then "" else ws[0]
  }

  /** A line that starts with a whitespace-free field and a space is keyed by that field. */
  lemma FirstFieldOf(field: string, rest: string)
    requires field != [] && NoSpace(field)
    ensures FirstField(field + " " + rest) == field
  {
    assert field + " " + rest == field + (" " + rest);
    WordsOfWordThen(field, " " + rest);
  }

  /** Python's `<=` on `str`: lexicographic by code point, a proper prefix first. */
  predicate LexLe(a: string, b: string) {
    a == [] || (b != [] && (a[0] < b[0] || (a[0] == b[0] && LexLe(a[1..], b[1..]))))
  }

  lemma LexLeRefl(a: string)
    ensures LexLe(a, a)
  {
  }

  lemma LexLeTotal(a: string, b: string)
    ensures LexLe(a, b) || LexLe(b, a)
  {
  }

  lemma LexLeAntisym(a: string, b: string)
    requires LexLe(a, b) && LexLe(b, a)
    ensures a == b
  {
    if a != [] && b != [] {
      LexLeAntisym(a[1..], b[1..]);
      assert a == [a[0]] + a[1..] && b == [b[0]] + b[1..];
    }
  }

  lemma LexLeTrans(a: string, b: string, c: string)
    requires LexLe(a, b) && LexLe(b, c)
    ensures LexLe(a, c)
  {
    if a != [] && b != [] && c != [] && a[0] == b[0] == c[0] {
      LexLeTrans(a[1..], b[1..], c[1..]);
    }
  }

  /** Ascending by first field. */
  predicate SortedByKey(key: string -> string, s: seq<string>) {
    forall i, j :: 0 <= i < j < |s| ==> LexLe(key(s[i]), key(s[j]))
  }

  /** Places `x` before the first line whose key is not below its own. */
  function Insert(key: string -> string, x: string, s: seq<string>): seq<string> {
    if s == [] then [x]
    else if LexLe(key(x), key(s[0])) then [x] + s
    else [s[0]] + Insert(key, x, s[1..])
  }

  /** The sorted list: each line is inserted ahead of the later lines with the same key. */
  function SortByKey(key: string -> string, s: seq<string>): seq<string> {
    if s == [] then [] else Insert(key, s[0], SortByKey(key, s[1..]))
  }

  /** The lines of `s` whose key is `k`, in their order in `s`. */
  function Filter(key: string -> string, s: seq<string>, k: string): seq<string> {
    if s == [] then []
    else (if key(s[0]) == k then [s[0]] else []) + Filter(key, s[1..], k)
  }

  /** Both sequences have the same key at every position. */
  predicate SameKeys(key: string -> string, s: seq<string>, t: seq<string>) {
    |s| == |t| && forall i :: 0 <= i < |s| ==> key(s[i]) == key(t[i])
  }

  lemma {:induction false} InsertPerm(key: string -> string, x: string, s: seq<string>)
    ensures multiset(Insert(key, x, s)) == multiset(s) + multiset{x}
  {
    if s != [] && !LexLe(key(x), key(s[0])) {
      InsertPerm(key, x, s[1..]);
      assert s == [s[0]] + s[1..];
    }
  }

  lemma ConsSorted(key: string -> string, h: string, t: seq<string>)
    requires SortedByKey(key, t)
    requires forall j :: 0 <= j < |t| ==> LexLe(key(h), key(t[j]))
    ensures SortedByKey(key, [h] + t)
  {
    var r := [h] + t;
    forall i, j | 0 <= i < j < |r| ensures LexLe(key(r[i]), key(r[j])) {
      assert r[j] == t[j - 1];
      if i > 0 {
        assert r[i] == t[i - 1];
      }
    }
  }

  lemma {:induction false} InsertSorted(key: string -> string, x: string, s: seq<string>)
    requires SortedByKey(key, s)
    ensures SortedByKey(key, Insert(key, x, s))
  {
    if s == [] {
    } else if LexLe(key(x), key(s[0])) {
      forall j | 0 <= j < |s| ensures LexLe(key(x), key(s[j])) {
        if j > 0 {
          LexLeTrans(key(x), key(s[0]), key(s[j]));
        }
      }
      ConsSorted(key, x, s);
    } else {
      LexLeTotal(key(x), key(s[0]));
      InsertSorted(key, x, s[1..]);
      InsertPerm(key, x, s[1..]);
      var tail := Insert(key, x, s[1..]);
      forall j | 0 <= j < |tail| ensures LexLe(key(s[0]), key(tail[j])) {
        assert tail[j] in multiset(tail);
        if tail[j] != x {
          assert tail[j] in multiset(s[1..]);
          var m :| 0 <= m < |s[1..]| && s[1..][m] == tail[j];
          assert s[m + 1] == tail[j];
        }
      }
      ConsSorted(key, s[0], tail);
    }
  }

  /** The sort's result is ascending by key and a permutation of its input. */
  lemma {:induction false} SortByKeySorted(key: string -> string, s: seq<string>)
    ensures SortedByKey(key, SortByKey(key, s))
    ensures multiset(SortByKey(key, s)) == multiset(s)
  {
    if s != [] {
      SortByKeySorted(key, s[1..]);
      InsertSorted(key, s[0], SortByKey(key, s[1..]));
      InsertPerm(key, s[0], SortByKey(key, s[1..]));
      assert s == [s[0]] + s[1..];
    }
  }

  lemma {:induction false} InsertFilter(key: string -> string, x: string, s: seq<string>, k: string)
    ensures Filter(key, Insert(key, x, s), k) == (if key(x) == k then [x] else []) + Filter(key, s, k)
  {
    if s != [] {
      if LexLe(key(x), key(s[0])) {
        assert ([x] + s)[1..] == s;
      } else {
        LexLeRefl(key(x));
        InsertFilter(key, x, s[1..], k);
        var tail := Insert(key, x, s[1..]);
        var rest := Filter(key, s[1..], k);
        assert ([s[0]] + tail)[1..] == tail;
        assert Insert(key, x, s) == [s[0]] + tail;
        if key(x) == k {
          assert key(s[0]) != k;
          assert Filter(key, tail, k) == [x] + rest;
          assert Filter(key, [s[0]] + tail, k) == [x] + rest;
          assert Filter(key, s, k) == rest;
        } else {
          assert Filter(key, tail, k) == rest;
          assert Filter(key, [s[0]] + tail, k) == (if key(s[0]) == k then [s[0]] else []) + rest;
        }
      }
    }
  }

  /**
   * The sort is stable: for every key, the lines carrying it appear in the
   * output in the same order as in the input.
   */
  lemma {:induction false} SortByKeyStable(key: string -> string, s: seq<string>)
    ensures forall k :: Filter(key, SortByKey(key, s), k) == Filter(key, s, k)
  {
    if s != [] {
      SortByKeyStable(key, s[1..]);
      forall k ensures Filter(key, SortByKey(key, s), k) == Filter(key, s, k) {
        InsertFilter(key, s[0], SortByKey(key, s[1..]), k);
      }
    }
  }

  lemma {:induction false} FilterHead(key: string -> string, s: seq<string>)
    ensures s != [] ==> Filter(key, s, key(s[0])) == [s[0]] + Filter(key, s[1..], key(s[0]))
  {
  }

  lemma {:induction false} FilterHasKey(key: string -> string, s: seq<string>, k: string)
    ensures Filter(key, s, k) != [] ==> exists j :: 0 <= j < |s| && key(s[j]) == k
  {
    if s != [] && key(s[0]) != k {
      FilterHasKey(key, s[1..], k);
      if Filter(key, s, k) != [] {
        var j :| 0 <= j < |s[1..]| && key(s[1..][j]) == k;
        assert key(s[j + 1]) == k;
      }
    }
  }

  /** The key of the first line of a sorted list is at or below every key in it. */
  lemma SortedFirstLeast(key: string -> string, s: seq<string>, k: string)
    requires SortedByKey(key, s) && s != []
    requires Filter(key, s, k) != []
    ensures LexLe(key(s[0]), k)
  {
    FilterHasKey(key, s, k);
    var j :| 0 <= j < |s| && key(s[j]) == k;
    if j == 0 {
      LexLeRefl(k);
    }
  }

  /**
   * A sorted arrangement is fixed by its lines per key: two sorted lists
   * that hold the same lines for each key, in the same order, are equal.
   */
  lemma {:induction false} SortedStableUnique(key: string -> string, t: seq<string>, u: seq<string>)
    requires SortedByKey(key, t) && SortedByKey(key, u)
    requires forall k :: Filter(key, t, k) == Filter(key, u, k)
    ensures t == u
    decreases |t| + |u|
  {
    FilterHead(key, t);
    FilterHead(key, u);
    if t != [] && u != [] {
      var a, b := key(t[0]), key(u[0]);
      SortedFirstLeast(key, u, a);
      SortedFirstLeast(key, t, b);
      LexLeAntisym(a, b);
      assert t[0] == u[0];
      forall k ensures Filter(key, t[1..], k) == Filter(key, u[1..], k) {
        var p := if key(t[0]) == k then [t[0]] else [];
        assert Filter(key, t, k) == p + Filter(key, t[1..], k);
        assert Filter(key, u, k) == p + Filter(key, u[1..], k);
        assert Filter(key, t[1..], k) == Filter(key, t, k)[|p|..];
        assert Filter(key, u[1..], k) == Filter(key, u, k)[|p|..];
      }
      SortedStableUnique(key, t[1..], u[1..]);
    } else if t != [] || u != [] {
      assert false;
    }
  }

  /** `SortByKey(key, s)` is the one sorted list that keeps the order of equal keys of `s`. */
  lemma SortByKeyUnique(key: string -> string, s: seq<string>, t: seq<string>)
    requires SortedByKey(key, t)
    requires forall k :: Filter(key, t, k) == Filter(key, s, k)
    ensures t == SortByKey(key, s)
  {
    SortByKeySorted(key, s);
    SortByKeyStable(key, s);
    SortedStableUnique(key, t, SortByKey(key, s));
  }

  lemma {:induction false} InsertSameKeys(key: string -> string, x: string, s: seq<string>, y: string, t: seq<string>)
    requires key(x) == key(y) && SameKeys(key, s, t)
    ensures SameKeys(key, Insert(key, x, s), Insert(key, y, t))
  {
    if s != [] && !LexLe(key(x), key(s[0])) {
      InsertSameKeys(key, x, s[1..], y, t[1..]);
    }
  }

  /** The order of the keys after sorting depends only on the keys before it. */
  lemma {:induction false} SortByKeySameKeys(key: string -> string, s: seq<string>, t: seq<string>)
    requires SameKeys(key, s, t)
    ensures SameKeys(key, SortByKey(key, s), SortByKey(key, t))
  {
    if s != [] {
      SortByKeySameKeys(key, s[1..], t[1..]);
      InsertSameKeys(key, s[0], SortByKey(key, s[1..]), t[0], SortByKey(key, t[1..]));
    }
  }
}

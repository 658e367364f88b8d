/** The order `Array.prototype.sort()` uses without a comparator: strings
    compared character by character, a proper prefix first. Sorting is given as
    an insertion sort whose result is proved ordered and a permutation. */
module StringOrder {

  /** `a` comes no later than `b`. */
  predicate Le(a: string, b: string) {
    a == [] || (b != [] && (a[0] < b[0] || (a[0] == b[0] && Le(a[1..], b[1..]))))
  }

  lemma {:induction false} LeRefl(a: string)
    ensures Le(a, a)
  {
    if a != [] {
      LeRefl(a[1..]);
    }
  }

  lemma {:induction false} LeTotal(a: string, b: string)
    ensures Le(a, b) || Le(b, a)
  {
    if a != [] && b != [] && a[0] == b[0] {
      LeTotal(a[1..], b[1..]);
    }
  }

  lemma {:induction false} LeTrans(a: string, b: string, c: string)
    requires Le(a, b) && Le(b, c)
    ensures Le(a, c)
  {
    if a != [] && a[0] == b[0] && b[0] == c[0] {
      LeTrans(a[1..], b[1..], c[1..]);
    }
  }

  lemma {:induction false} LeAntisym(a: string, b: string)
    requires Le(a, b) && Le(b, a)
    ensures a == b
  {
    if a != [] {
      LeAntisym(a[1..], b[1..]);
      assert a == [a[0]] + a[1..] && b == [b[0]] + b[1..];
    }
  }

  /** Every element comes no later than the next one, hence than every later one. */
  predicate Sorted(s: seq<string>) {
    forall i, j :: 0 <= i < j < |s| ==> Le(s[i], s[j])
  }

  /** `y` comes no later than any element of `t`. */
  predicate LeAll(y: string, t: seq<string>) {
    forall k :: 0 <= k < |t| ==> Le(y, t[k])
  }

  /** A sequence with a head is sorted iff the head precedes the tail and the
      tail is sorted. */
  lemma SortedCons(y: string, t: seq<string>)
    ensures Sorted([y] + t) <==> LeAll(y, t) && Sorted(t)
  {
    var s := [y] + t;
    if LeAll(y, t) && Sorted(t) {
      forall i, j | 0 <= i < j < |s| ensures Le(s[i], s[j]) {
        if i > 0 {
          assert s[i] == t[i - 1] && s[j] == t[j - 1];
        }
      }
    }
    if Sorted(s) {
      forall k | 0 <= k < |t| ensures Le(y, t[k]) {
        assert s[0] == y && s[k + 1] == t[k];
      }
      forall i, j | 0 <= i < j < |t| ensures Le(t[i], t[j]) {
        assert s[i + 1] == t[i] && s[j + 1] == t[j];
      }
    }
  }

  /** `x` inserted before the first element of `s` it does not follow. */
  function Insert(x: string, s: seq<string>): (r: seq<string>)
    ensures multiset(r) == multiset(s) + multiset{x}
    ensures |r| == |s| + 1
  {
    if s == [] then [x]
    else if Le(x, s[0]) then [x] + s
    else
      assert s == [s[0]] + s[1..];
      [s[0]] + Insert(x, s[1..])
  }

  /** Inserting an element `y` precedes keeps `y` ahead of everything. */
  lemma {:induction false} InsertLeAll(y: string, x: string, s: seq<string>)
    requires LeAll(y, s) && Le(y, x)
    ensures LeAll(y, Insert(x, s))
  {
    if s == [] {
      LeAllCons(y, x, []);
    } else if Le(x, s[0]) {
      LeAllCons(y, x, s);
    } else {
      assert s == [s[0]] + s[1..];
      LeAllCons(y, s[0], s[1..]);
      InsertLeAll(y, x, s[1..]);
      LeAllCons(y, s[0], Insert(x, s[1..]));
    }
  }

  /** `y` precedes a sequence with a head iff it precedes the head and the tail. */
  lemma LeAllCons(y: string, h: string, t: seq<string>)
    ensures LeAll(y, [h] + t) <==> Le(y, h) && LeAll(y, t)
  {
    var s := [h] + t;
    assert s[0] == h;
    assert forall k :: 0 <= k < |t| ==> s[k + 1] == t[k];
    if Le(y, h) && LeAll(y, t) {
      forall k | 0 <= k < |s| ensures Le(y, s[k]) {
        if k > 0 {
          assert s[k] == t[k - 1];
        }
      }
    }
  }

  /** Inserting into a sorted sequence keeps it sorted. */
  lemma {:induction false} InsertSorted(x: string, s: seq<string>)
    requires Sorted(s)
    ensures Sorted(Insert(x, s))
  {
    if s == [] {
    } else if Le(x, s[0]) {
      assert LeAll(x, s) by {
        forall k | 0 <= k < |s| ensures Le(x, s[k]) {
          if k > 0 {
            LeTrans(x, s[0], s[k]);
          }
        }
      }
      SortedCons(x, s);
    } else {
      assert s == [s[0]] + s[1..];
      SortedCons(s[0], s[1..]);
      InsertSorted(x, s[1..]);
      LeTotal(x, s[0]);
      InsertLeAll(s[0], x, s[1..]);
      SortedCons(s[0], Insert(x, s[1..]));
    }
  }

  /** `s.sort()`: the elements of `s` in order. */
  function Sort(s: seq<string>): (r: seq<string>)
    ensures Sorted(r)
    ensures multiset(r) == multiset(s)
    ensures |r| == |s|
  {
    if s == [] then []
    else
      assert s == [s[0]] + s[1..];
      InsertSorted(s[0], Sort(s[1..]));
      Insert(s[0], Sort(s[1..]))
  }

  /** Two sorted sequences with the same elements start with the same element. */
  lemma SortedSameHead(a: seq<string>, b: seq<string>)
    requires Sorted(a) && Sorted(b) && multiset(a) == multiset(b) && a != []
    ensures b != [] && a[0] == b[0]
  {
    assert a[0] in multiset(a);
    assert b != [];
    assert a[0] in multiset(b) && b[0] in multiset(a);
    var i :| 0 <= i < |b| && b[i] == a[0];
    var j :| 0 <= j < |a| && a[j] == b[0];
    if j == 0 { LeRefl(a[0]); }
    if i == 0 { LeRefl(b[0]); }
    LeAntisym(a[0], b[0]);
  }

  /** A sorted sequence is determined by its elements: sorting is unique. */
  lemma {:induction false} SortedUnique(a: seq<string>, b: seq<string>)
    requires Sorted(a) && Sorted(b) && multiset(a) == multiset(b)
    ensures a == b
  {
    if a == [] {
      assert |b| == |multiset(b)| == 0;
    } else {
      SortedSameHead(a, b);
      assert a == [a[0]] + a[1..] && b == [b[0]] + b[1..];
      assert multiset(a[1..]) == multiset(a) - multiset{a[0]};
      assert multiset(b[1..]) == multiset(b) - multiset{b[0]};
      SortedCons(a[0], a[1..]);
      SortedCons(b[0], b[1..]);
      SortedUnique(a[1..], b[1..]);
    }
  }

  /** Sorting twice is sorting once, and a sorted sequence is left alone. */
  lemma SortSorted(s: seq<string>)
    requires Sorted(s)
    ensures Sort(s) == s
  {
    SortedUnique(Sort(s), s);
  }
}

/** Generic sequence helpers used by the components: an optional value
    (TypeScript's `T | undefined`), the order-preserving filter behind
    `Array.prototype.filter`, duplicate-free sequences and subsequences. */
module SeqUtil {

  /** A value that may be missing: `undefined` in the source. */
  datatype Option<+T> = None | Some(value: T) {
    /** `x ?? d`, and `x || d` where `x` cannot be falsy otherwise. */
    function GetOr(default: T): T {
      match this
      case Some(v) => v
      case None => default
    }
  }

  /** No element occurs twice. */
  predicate NoDup<T(==,!new)>(s: seq<T>) {
    forall i, j :: 0 <= i < j < |s| ==> s[i] != s[j]
  }

  /** `s.filter(p)`: the elements of `s` that satisfy `p`, in their order. */
  function Keep<T(==,!new)>(s: seq<T>, p: T -> bool): (r: seq<T>)
    ensures |r| <= |s|
    ensures forall x :: x in r <==> x in s && p(x)
  {
    if s == [] then [] else (if p(s[0]) then [s[0]] else []) + Keep(s[1..], p)
  }

  /** Filtering distributes over concatenation: filtering piece by piece is
      filtering the whole. */
  lemma {:induction false} KeepAppend<T(!new)>(a: seq<T>, b: seq<T>, p: T -> bool)
    ensures Keep(a + b, p) == Keep(a, p) + Keep(b, p)
  {
    if a == [] {
      assert a + b == b;
    } else {
      assert (a + b)[1..] == a[1..] + b;
      KeepAppend(a[1..], b, p);
    }
  }

  /** A filter keeps every copy of an element that passes and no copy of one
      that fails: with the order kept, this fixes the result. */
  lemma {:induction false} KeepMultiset<T(!new)>(s: seq<T>, p: T -> bool)
    ensures forall x :: multiset(Keep(s, p))[x] == if p(x) then multiset(s)[x] else 0
  {
    if s != [] {
      KeepMultiset(s[1..], p);
      assert s == [s[0]] + s[1..];
    }
  }

  /** A filter that every element already passes changes nothing. */
  lemma {:induction false} KeepAll<T(!new)>(s: seq<T>, p: T -> bool)
    requires forall x :: x in s ==> p(x)
    ensures Keep(s, p) == s
  {
    if s != [] {
      KeepAll(s[1..], p);
    }
  }

  /** A filter that no element passes leaves nothing. */
  lemma {:induction false} KeepNone<T(!new)>(s: seq<T>, p: T -> bool)
    requires forall x :: x in s ==> !p(x)
    ensures Keep(s, p) == []
  {
    if s != [] {
      KeepNone(s[1..], p);
    }
  }

  /** Two tests that agree on every element filter alike. */
  lemma {:induction false} KeepSameTest<T(!new)>(s: seq<T>, p: T -> bool, q: T -> bool)
    requires forall x :: x in s ==> p(x) == q(x)
    ensures Keep(s, p) == Keep(s, q)
  {
    if s != [] {
      KeepSameTest(s[1..], p, q);
    }
  }

  /** Filtering twice is filtering once. */
  lemma KeepIdempotent<T(!new)>(s: seq<T>, p: T -> bool)
    ensures Keep(Keep(s, p), p) == Keep(s, p)
  {
    KeepAll(Keep(s, p), p);
  }

  /** Filtering keeps a duplicate-free sequence duplicate-free. */
  lemma {:induction false} KeepNoDup<T(!new)>(s: seq<T>, p: T -> bool)
    requires NoDup(s)
    ensures NoDup(Keep(s, p))
  {
    if s != [] {
      assert NoDup(s[1..]) by {
        forall i, j | 0 <= i < j < |s[1..]| ensures s[1..][i] != s[1..][j] {
          assert s[1..][i] == s[i + 1] && s[1..][j] == s[j + 1];
        }
      }
      KeepNoDup(s[1..], p);
      assert s[0] !in s[1..] by {
        forall k | 0 <= k < |s[1..]| ensures s[1..][k] != s[0] {
          assert s[1..][k] == s[k + 1];
        }
      }
    }
  }

  /** `a` can be obtained from `b` by deleting elements. */
  predicate IsSubseq<T(==,!new)>(a: seq<T>, b: seq<T>)
    decreases |b|
  {
    a == [] || (b != [] && if a[0] == b[0] then IsSubseq(a[1..], b[1..]) else IsSubseq(a, b[1..]))
  }

  /** Every sequence is a subsequence of itself. */
  lemma {:induction false} SubseqRefl<T(!new)>(s: seq<T>)
    ensures IsSubseq(s, s)
    decreases |s|
  {
    if s != [] {
      SubseqRefl(s[1..]);
    }
  }

  /** A subsequence of the tail is a subsequence of the whole. */
  lemma {:induction false} SubseqCons<T(!new)>(a: seq<T>, x: T, b: seq<T>)
    requires IsSubseq(a, b)
    ensures IsSubseq(a, [x] + b)
    decreases |b|, 1
  {
    assert ([x] + b)[1..] == b;
    if a != [] && a[0] == x {
      SubseqDropHead(a, b);
    }
  }

  /** Dropping the first element of a subsequence keeps it a subsequence. */
  lemma {:induction false} SubseqDropHead<T(!new)>(a: seq<T>, b: seq<T>)
    requires a != [] && IsSubseq(a, b)
    ensures IsSubseq(a[1..], b)
    decreases |b|, 0
  {
    assert [b[0]] + b[1..] == b;
    if a[0] == b[0] {
      SubseqCons(a[1..], b[0], b[1..]);
    } else {
      SubseqDropHead(a, b[1..]);
      SubseqCons(a[1..], b[0], b[1..]);
    }
  }

  /** The result of a filter is a subsequence of its input: order is kept. */
  lemma {:induction false} KeepIsSubseq<T(!new)>(s: seq<T>, p: T -> bool)
    ensures IsSubseq(Keep(s, p), s)
    decreases |s|
  {
    if s != [] {
      KeepIsSubseq(s[1..], p);
      if p(s[0]) {
        assert Keep(s, p) == [s[0]] + Keep(s[1..], p);
        assert Keep(s, p)[1..] == Keep(s[1..], p);
      } else {
        assert Keep(s, p) == Keep(s[1..], p);
        SubseqCons(Keep(s[1..], p), s[0], s[1..]);
        assert [s[0]] + s[1..] == s;
      }
    }
  }

  /** `s` without any occurrence of `x` (`s.filter((v) => v !== x)`). */
  function Remove<T(==,!new)>(s: seq<T>, x: T): (r: seq<T>)
    ensures x !in r
    ensures forall y :: y != x ==> (y in r <==> y in s)
  {
    Keep(s, Other(x))
  }

  /** The test `(v) => v !== x`. */
  function Other<T(==)>(x: T): T -> bool {
    y => y != x
  }

  /** Removing keeps order and keeps a duplicate-free sequence duplicate-free. */
  lemma RemoveSubseqNoDup<T(!new)>(s: seq<T>, x: T)
    ensures IsSubseq(Remove(s, x), s)
    ensures NoDup(s) ==> NoDup(Remove(s, x))
  {
    KeepIsSubseq(s, Other(x));
    if NoDup(s) {
      KeepNoDup(s, Other(x));
    }
  }

  /** The distinct elements of `s`, each at its first appearance. */
  function Distinct<T(==,!new)>(s: seq<T>): (r: seq<T>)
    ensures NoDup(r)
    ensures forall x :: x in r <==> x in s
    decreases |s|
  {
    if s == [] then []
    else
      var d := Distinct(s[..|s| - 1]);
      assert forall x :: x in s[..|s| - 1] ==> x in s;
      assert forall x :: x in s ==> x in s[..|s| - 1] || x == s[|s| - 1];
      if s[|s| - 1] in d then d else d + [s[|s| - 1]]
  }

  /** Extending a sequence can only append to its distinct elements. */
  lemma DistinctSnoc<T(!new)>(s: seq<T>, x: T)
    ensures Distinct(s + [x]) == if x in s then Distinct(s) else Distinct(s) + [x]
  {
    assert (s + [x])[..|s + [x]| - 1] == s;
  }

  /** A duplicate-free sequence is its own distinct elements. */
  lemma {:induction false} DistinctOfNoDup<T(!new)>(s: seq<T>)
    requires NoDup(s)
    ensures Distinct(s) == s
    decreases |s|
  {
    if s != [] {
      var init := s[..|s| - 1];
      assert NoDup(init);
      DistinctOfNoDup(init);
      assert s[|s| - 1] !in init;
      assert init + [s[|s| - 1]] == s;
    }
  }

  /** Appending an element not yet present keeps a sequence duplicate-free. */
  lemma NoDupSnoc<T(!new)>(s: seq<T>, x: T)
    requires NoDup(s) && x !in s
    ensures NoDup(s + [x])
  {
    forall i, j | 0 <= i < j < |s + [x]| ensures (s + [x])[i] != (s + [x])[j] {
      if j == |s| {
        assert (s + [x])[i] == s[i];
      }
    }
  }

  /** In a duplicate-free sequence, removing the element at index `i` cuts out
      exactly that position and keeps the rest in order. */
  lemma RemoveNoDupAt<T(!new)>(s: seq<T>, i: nat)
    requires NoDup(s) && i < |s|
    ensures Remove(s, s[i]) == s[..i] + s[i + 1..]
  {
    NoDupSplit(s, i);
    RemoveSplit(s[..i], s[i], s[i + 1..]);
  }

  /** The tail of a duplicate-free sequence is duplicate-free and lacks the head. */
  lemma NoDupTail<T(!new)>(s: seq<T>)
    requires NoDup(s) && s != []
    ensures NoDup(s[1..]) && s[0] !in s[1..]
  {
    NoDupSplit(s, 0);
    var t := s[1..];
    assert forall i :: 0 <= i < |t| ==> t[i] == s[i + 1];
  }

  /** In a duplicate-free sequence, the element at `i` occurs on neither side of it. */
  lemma NoDupSplit<T(!new)>(s: seq<T>, i: nat)
    requires NoDup(s) && i < |s|
    ensures s == s[..i] + [s[i]] + s[i + 1..]
    ensures s[i] !in s[..i] && s[i] !in s[i + 1..]
  {
    assert forall k :: 0 <= k < i ==> s[..i][k] == s[k];
    var b := s[i + 1..];
    assert forall k :: 0 <= k < |b| ==> b[k] == s[i + 1 + k];
  }

  /** Removing an element that occurs once, between `a` and `b`, leaves `a + b`. */
  lemma {:induction false} RemoveSplit<T(!new)>(a: seq<T>, x: T, b: seq<T>)
    requires x !in a && x !in b
    ensures Remove(a + [x] + b, x) == a + b
    decreases |a|
  {
    var s := a + [x] + b;
    if a == [] {
      assert s[0] == x && s[1..] == b;
      assert forall y :: y in b ==> Other(x)(y);
      KeepAll(b, Other(x));
    } else {
      assert s[0] == a[0] && s[1..] == a[1..] + [x] + b;
      RemoveSplit(a[1..], x, b);
      assert [a[0]] + (a[1..] + b) == a + b;
    }
  }

  /** Putting a removed element back at the end gives the same multiset. */
  lemma RemoveSnocMultiset<T(!new)>(s: seq<T>, i: nat)
    requires NoDup(s) && i < |s|
    ensures multiset(Remove(s, s[i]) + [s[i]]) == multiset(s)
  {
    RemoveNoDupAt(s, i);
    assert s == s[..i] + [s[i]] + s[i + 1..];
    assert Remove(s, s[i]) + [s[i]] == s[..i] + s[i + 1..] + [s[i]];
  }
}

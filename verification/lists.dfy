/**
  * The Python list idioms the front end uses: collecting distinct items in order of first
  * appearance, and `sorted(xs, key=...)` / `list.sort(key=...)` as an insertion sort under a
  * comparison `le` that is a total preorder (the order induced by a sort key).
  */
module Lists {
  import opened Text

  predicate NoDuplicates<T(==)>(s: seq<T>) {
    forall i, j :: 0 <= i < j < |s| ==> s[i] != s[j]
  }

  /** `acc` extended by the elements of `xs` not seen before, in order of first appearance. */
  function AppendNew<T(==,!new)>(acc: seq<T>, xs: seq<T>): (r: seq<T>)
    ensures NoDuplicates(acc) ==> NoDuplicates(r)
    ensures forall x :: x in r <==> x in acc || x in xs
    ensures |acc| <= |r| && r[..|acc|] == acc
    decreases |xs|
  {
    if |xs| == 0 then acc
    else if xs[0] in acc then AppendNew(acc, xs[1..])
    else
      var r := AppendNew(acc + [xs[0]], xs[1..]);
      assert (acc + [xs[0]])[..|acc|] == acc;
      assert r[..|acc|] == r[..|acc| + 1][..|acc|];
      r
  }

  ghost predicate TotalPreorder<T(!new)>(le: (T, T) -> bool) {
    (forall a, b :: le(a, b) || le(b, a)) &&
    (forall a, b, c :: le(a, b) && le(b, c) ==> le(a, c))
  }

  predicate SortedBy<T>(s: seq<T>, le: (T, T) -> bool) {
    forall i, j :: 0 <= i < j < |s| ==> le(s[i], s[j])
  }

  /** `x` placed before the first element it does not exceed. */
  function Insert<T>(x: T, t: seq<T>, le: (T, T) -> bool): (r: seq<T>)
    ensures multiset(r) == multiset(t) + multiset{x}
    decreases |t|
  {
    if |t| == 0 then [x]
    else
      assert t == [t[0]] + t[1..];
      if le(x, t[0]) then [x] + t
      else [t[0]] + Insert(x, t[1..], le)
  }

  /** A lower bound of `x` and of every element of `t` bounds every element after the insertion. */
  lemma {:induction false} InsertBelow<T>(z: T, x: T, t: seq<T>, le: (T, T) -> bool)
    requires le(z, x)
    requires forall k :: 0 <= k < |t| ==> le(z, t[k])
    ensures forall k :: 0 <= k < |Insert(x, t, le)| ==> le(z, Insert(x, t, le)[k])
    decreases |t|
  {
    var r := Insert(x, t, le);
    if |t| == 0 {
      assert r == [x];
    } else if le(x, t[0]) {
      assert r == [x] + t;
      forall k | 0 <= k < |r| ensures le(z, r[k]) {
        if k > 0 { assert r[k] == t[k - 1]; }
      }
    } else {
      InsertBelow(z, x, t[1..], le);
      var rest := Insert(x, t[1..], le);
      assert r == [t[0]] + rest;
      forall k | 0 <= k < |r| ensures le(z, r[k]) {
        if k > 0 { assert r[k] == rest[k - 1]; assert le(z, rest[k - 1]); }
      }
    }
  }

  /** Inserting into a sorted list keeps it sorted. */
  lemma {:induction false} InsertSorted<T(!new)>(x: T, t: seq<T>, le: (T, T) -> bool)
    requires TotalPreorder(le)
    requires SortedBy(t, le)
    ensures SortedBy(Insert(x, t, le), le)
    decreases |t|
  {
    if |t| > 0 {
      var r := Insert(x, t, le);
      if le(x, t[0]) {
        assert r == [x] + t;
        forall i, j | 0 <= i < j < |r| ensures le(r[i], r[j]) {
          if i == 0 && j > 1 { assert le(t[0], t[j - 1]); }
        }
      } else {
        var rest := Insert(x, t[1..], le);
        assert r == [t[0]] + rest;
        InsertSorted(x, t[1..], le);
        assert le(t[0], x);
        InsertBelow(t[0], x, t[1..], le);
        forall i, j | 0 <= i < j < |r| ensures le(r[i], r[j]) {
          assert r[j] == rest[j - 1];
          if i == 0 {
            assert le(t[0], rest[j - 1]);
          } else {
            assert r[i] == rest[i - 1];
            assert le(rest[i - 1], rest[j - 1]);
          }
        }
      }
    }
  }

  /** The elements of `s` in non-decreasing order under `le`. */
  function SortBy<T(!new)>(s: seq<T>, le: (T, T) -> bool): (r: seq<T>)
    requires TotalPreorder(le)
    ensures multiset(r) == multiset(s)
    ensures SortedBy(r, le)
    decreases |s|
  {
    if |s| == 0 then []
    else
      assert s == [s[0]] + s[1..];
      InsertSorted(s[0], SortBy(s[1..], le), le);
      Insert(s[0], SortBy(s[1..], le), le)
  }

  /** A sorted permutation is unique up to equivalent elements; in particular sorting a sorted list changes nothing. */
  lemma {:induction false} SortSorted<T(!new)>(s: seq<T>, le: (T, T) -> bool)
    requires TotalPreorder(le)
    requires SortedBy(s, le)
    ensures SortBy(s, le) == s
    decreases |s|
  {
    if |s| > 0 {
      assert SortedBy(s[1..], le);
      SortSorted(s[1..], le);
      assert s[1..] == [] || le(s[0], s[1..][0]);
    }
  }

  /** The elements satisfying `p`, in their order: Python's `[x for x in s if p(x)]`. */
  function Filter<T(!new)>(s: seq<T>, p: T -> bool): (r: seq<T>)
    ensures |r| <= |s|
    ensures forall x :: x in r <==> x in s && p(x)
    ensures forall k :: 0 <= k < |r| ==> p(r[k])
    decreases |s|
  {
    if |s| == 0 then []
    else
      var rest := Filter(s[1..], p);
      assert forall x :: x in s <==> x == s[0] || x in s[1..];
      if p(s[0]) then [s[0]] + rest else rest
  }

  /** A filter that keeps everything returns the list unchanged. */
  lemma {:induction false} FilterAll<T(!new)>(s: seq<T>, p: T -> bool)
    requires forall x :: p(x)
    ensures Filter(s, p) == s
    decreases |s|
  {
    if |s| > 0 {
      FilterAll(s[1..], p);
      assert s == [s[0]] + s[1..];
    }
  }

  /** Filtering a concatenation filters each part: kept elements stay in their order. */
  lemma {:induction false} FilterAppend<T(!new)>(a: seq<T>, b: seq<T>, p: T -> bool)
    ensures Filter(a + b, p) == Filter(a, p) + Filter(b, p)
    decreases |a|
  {
    if |a| > 0 {
      assert (a + b)[1..] == a[1..] + b;
      FilterAppend(a[1..], b, p);
    } else {
      assert a + b == b;
    }
  }

  /**
    * Inserting `x` into a sorted list puts it ahead of every element of its own class, where a
    * class is a set of elements that are all ordered before one another.
    */
  lemma {:induction false} InsertFilter<T(!new)>(x: T, t: seq<T>, le: (T, T) -> bool, p: T -> bool)
    requires TotalPreorder(le)
    requires forall a, b :: p(a) && p(b) ==> le(a, b)
    ensures Filter(Insert(x, t, le), p) == if p(x) then [x] + Filter(t, p) else Filter(t, p)
    decreases |t|
  {
    if |t| > 0 && !le(x, t[0]) {
      InsertFilter(x, t[1..], le, p);
      var rest := Insert(x, t[1..], le);
      assert ([t[0]] + rest)[1..] == rest;
      assert p(x) ==> !p(t[0]);
    }
  }

  /**
    * The sort is stable: the elements of any class of mutually equivalent elements keep their
    * relative order.
    */
  lemma {:induction false} SortStable<T(!new)>(s: seq<T>, le: (T, T) -> bool, p: T -> bool)
    requires TotalPreorder(le)
    requires forall a, b :: p(a) && p(b) ==> le(a, b)
    ensures Filter(SortBy(s, le), p) == Filter(s, p)
    decreases |s|
  {
    if |s| > 0 {
      SortStable(s[1..], le, p);
      InsertFilter(s[0], SortBy(s[1..], le), le, p);
    }
  }

  // Proof helpers, not part of the model: word lists assembled one element at a time are flat
  // lists. They are stated apart so that the command-word proofs need not regroup long literals.

  lemma Prepend2<T>(a: T, b: T, rest: seq<T>)
    ensures [a] + ([b] + rest) == [a, b] + rest
  {
  }

  lemma Prepend4<T>(a: T, b: T, c: T, d: T, rest: seq<T>)
    ensures [a] + ([b] + ([c] + ([d] + rest))) == [a, b, c, d] + rest
  {
  }

  lemma Prepend7<T>(a: T, b: T, c: T, d: T, e: T, f: T, g: T, rest: seq<T>)
    ensures [a] + ([b] + ([c] + ([d] + ([e] + ([f] + ([g] + rest)))))) == [a, b, c, d, e, f, g] + rest
  {
  }

  lemma Append7And4<T>(a: T, b: T, c: T, d: T, e: T, f: T, g: T, h: T, i: T, j: T, k: T, x: seq<T>, y: seq<T>)
    ensures [a, b, c, d, e, f, g] + ([h, i, j, k] + (x + y)) == [a, b, c, d, e, f, g, h, i, j, k] + x + y
  {
  }

  /** Python's string order is a total preorder, so `sorted` applies to lists of strings. */
  lemma LexTotalPreorder()
    ensures TotalPreorder(LexLe)
  {
    forall a, b ensures LexLe(a, b) || LexLe(b, a) { LexLeTotal(a, b); }
    forall a, b, c | LexLe(a, b) && LexLe(b, c) ensures LexLe(a, c) { LexLeTrans(a, b, c); }
  }
}

/** Small value types and sequence helpers shared by the model: the
    optional and error-carrying results that stand for Python's `None`
    and raised exceptions, Python's substring test, `list.remove` and
    the `s[k:]` slice. */
module Util {

  datatype Option<T> = None | Some(value: T)

  datatype Result<T, E> = Success(value: T) | Failure(error: E)

  function Max(a: int, b: int): int { if a >= b then a else b }

  function Min(a: int, b: int): int { if a <= b then a else b }

  /** Python's `sub in s` on strings. */
  predicate IsSubstring(sub: string, s: string)
    decreases |s|
  {
    sub <= s || (|s| > 0 && IsSubstring(sub, s[1..]))
  }

  /** `sub` occurs in `s` starting at position `i`. */
  predicate OccursAt(sub: string, s: string, i: int)
  {
    0 <= i <= |s| - |sub| && s[i..i + |sub|] == sub
  }

  /** `sub in s` holds exactly when `sub` occurs at some position of `s`. */
  lemma {:induction false} IsSubstringAt(sub: string, s: string)
    ensures IsSubstring(sub, s) <==> exists i :: OccursAt(sub, s, i)
    decreases |s|
  {
    if sub <= s {
      assert OccursAt(sub, s, 0);
    } else if |s| > 0 {
      IsSubstringAt(sub, s[1..]);
      if IsSubstring(sub, s[1..]) {
        var i :| OccursAt(sub, s[1..], i);
        assert s[i + 1..i + 1 + |sub|] == s[1..][i..i + |sub|];
        assert OccursAt(sub, s, i + 1);
      }
      if exists i :: OccursAt(sub, s, i) {
        var i :| OccursAt(sub, s, i);
        if i == 0 {
          assert false;
        }
        assert s[1..][i - 1..i - 1 + |sub|] == s[i..i + |sub|];
        assert OccursAt(sub, s[1..], i - 1);
      }
    }
  }

  /** The empty filter (`fltr=""`, the default) matches every id. */
  lemma EmptyIsSubstring(s: string)
    ensures IsSubstring("", s)
  {
  }

  /** No element occurs twice. */
  predicate Distinct<T(==)>(s: seq<T>)
  {
    forall i, j :: 0 <= i < j < |s| ==> s[i] != s[j]
  }

  /** Dropping the head of a sequence without repeats leaves one without
      repeats, and the head is not among the rest. */
  lemma DistinctTail<T>(s: seq<T>)
    requires |s| > 0 && Distinct(s)
    ensures Distinct(s[1..]) && s[0] !in s[1..]
  {
    var rest := s[1..];
    forall i, j | 0 <= i < j < |rest| ensures rest[i] != rest[j] {
      assert rest[i] == s[i + 1] && rest[j] == s[j + 1];
    }
  }

  /** Putting a new element in front keeps a sequence free of repeats. */
  lemma DistinctCons<T>(x: T, s: seq<T>)
    requires Distinct(s) && x !in s
    ensures Distinct([x] + s)
  {
    var xs := [x] + s;
    forall i, j | 0 <= i < j < |xs| ensures xs[i] != xs[j] {
      assert xs[j] == s[j - 1];
      if i > 0 {
        assert xs[i] == s[i - 1];
      }
    }
  }

  /** `order` lists exactly the elements of `s`, each once: the shape of
      a completion order of jobs submitted for the elements of `s`. */
  predicate IsPermutationOf<T(==)>(order: seq<T>, s: seq<T>)
  {
    && Distinct(order)
    && (forall i :: 0 <= i < |order| ==> order[i] in s)
    && (forall i :: 0 <= i < |s| ==> s[i] in order)
  }

  /** The position of the first occurrence of `x` in `s`. */
  function IndexOf<T(==)>(s: seq<T>, x: T): (i: nat)
    requires x in s
    ensures i < |s| && s[i] == x
    ensures forall j :: 0 <= j < i ==> s[j] != x
  {
    if s[0] == x then 0 else 1 + IndexOf(s[1..], x)
  }

  /** Python's `s.remove(x)`: drop the first occurrence of `x`.
      (The source only removes elements it knows to be present.) */
  function RemoveFirst<T(==)>(s: seq<T>, x: T): (r: seq<T>)
    requires x in s
    ensures |r| == |s| - 1
  {
    var i := IndexOf(s, x);
    s[..i] + s[i + 1..]
  }

  /** `remove` takes away exactly one occurrence of `x` and keeps
      everything else. */
  lemma RemoveFirstCount<T>(s: seq<T>, x: T)
    requires x in s
    ensures multiset(RemoveFirst(s, x)) == multiset(s) - multiset{x}
  {
    var i := IndexOf(s, x);
    assert s == s[..i] + [x] + s[i + 1..];
  }

  /** Python's slice `s[k:]`, where a negative `k` counts from the end
      and an out-of-range bound is clipped. */
  function PySliceFrom<T>(s: seq<T>, k: int): (r: seq<T>)
  {
    if k >= 0 then s[Min(k, |s|)..] else s[Max(|s| + k, 0)..]
  }

  /** `s[-n:]` is the last `n` elements when `1 <= n <= |s|`, and
      `s[-0:]` is the whole of `s`. */
  lemma PySliceFromLast<T>(s: seq<T>, n: int)
    requires 0 <= n <= |s|
    ensures n >= 1 ==> PySliceFrom(s, -n) == s[|s| - n..] && |PySliceFrom(s, -n)| == n
    ensures n == 0 ==> PySliceFrom(s, -n) == s
  {
  }
}

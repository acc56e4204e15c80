/** Failure-carrying datatypes and the sequence searches the rest of the model is built on. */
module Common {

  datatype Option<+T> = None | Some(value: T)

  datatype Result<+T, +E> = Ok(value: T) | Err(error: E)

  /** Index of the first element of `s` satisfying `p`, if there is one. */
  function FirstIndex<T>(s: seq<T>, p: T -> bool): (r: Option<nat>)
    ensures r.Some? ==> r.value < |s| && p(s[r.value])
    ensures r.Some? ==> forall j :: 0 <= j < r.value ==> !p(s[j])
    ensures r.None? <==> forall j :: 0 <= j < |s| ==> !p(s[j])
  {
    if s == [] then None
    else if p(s[0]) then Some(0)
    else match FirstIndex(s[1..], p)
      case None => None
      case Some(k) => Some(k + 1)
  }

  /** `f` at the greatest number below `n` where it is defined, if there is one. */
  function LastSome<T>(n: nat, f: nat -> Option<T>): (r: Option<T>)
    ensures r.None? <==> forall k: nat :: k < n ==> f(k).None?
    ensures r.Some? ==> exists k: nat :: k < n && f(k) == r && forall q: nat :: k < q < n ==> f(q).None?
  {
    if n == 0 then None
    else if f(n - 1).Some? then f(n - 1)
    else LastSome(n - 1, f)
  }

  /** The elements of `s` that satisfy `p`, in their original order. */
  function Where<T(!new)>(s: seq<T>, p: T -> bool): (r: seq<T>)
    ensures |r| <= |s|
    ensures forall x :: x in r <==> x in s && p(x)
  {
    if s == [] then []
    else (if p(s[0]) then [s[0]] else []) + Where(s[1..], p)
  }

  /** No two positions of `s` carry the same key. */
  ghost predicate Distinct<T, K>(s: seq<T>, key: T -> K) {
    forall i, j :: 0 <= i < j < |s| ==> key(s[i]) != key(s[j])
  }

  /** Dropping the first element keeps keys distinct. */
  lemma DistinctTail<T, K>(s: seq<T>, key: T -> K)
    requires s != [] && Distinct(s, key)
    ensures Distinct(s[1..], key)
    ensures forall k :: 0 <= k < |s| - 1 ==> key(s[0]) != key(s[1..][k])
  {
    var tail := s[1..];
    forall i, j | 0 <= i < j < |tail| ensures key(tail[i]) != key(tail[j]) {
      assert tail[i] == s[i + 1] && tail[j] == s[j + 1];
    }
  }

  /** Putting in front an element whose key no later element carries keeps keys distinct. */
  lemma DistinctCons<T, K>(x: T, rest: seq<T>, key: T -> K)
    requires Distinct(rest, key)
    requires forall y :: y in rest ==> key(x) != key(y)
    ensures Distinct([x] + rest, key)
  {
    var w := [x] + rest;
    forall i, j | 0 <= i < j < |w| ensures key(w[i]) != key(w[j]) {
      if i == 0 {
        assert w[j] == rest[j - 1];
      } else {
        assert w[i] == rest[i - 1] && w[j] == rest[j - 1];
      }
    }
  }

  /** Filtering keeps keys distinct: `Where` picks a subsequence. */
  lemma {:induction false} WhereDistinct<T(!new), K>(s: seq<T>, p: T -> bool, key: T -> K)
    requires Distinct(s, key)
    ensures Distinct(Where(s, p), key)
  {
    if s != [] {
      var tail := s[1..];
      DistinctTail(s, key);
      WhereDistinct(tail, p, key);
      var rest := Where(tail, p);
      if p(s[0]) {
        forall y | y in rest ensures key(s[0]) != key(y) {
          var k :| 0 <= k < |tail| && tail[k] == y;
        }
        DistinctCons(s[0], rest, key);
        assert Where(s, p) == [s[0]] + rest;
      } else {
        assert Where(s, p) == rest;
      }
    }
  }
}

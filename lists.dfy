/** The few JavaScript array operations the components rely on
    (`Array.prototype.filter`, `includes`, `indexOf`, `slice(-n)`),
    written once over Dafny sequences, with the facts the components use. */
module Lists {

  datatype Option<T> = None | Some(value: T)

  /** `s.filter(p)`: the elements of `s` that satisfy `p`, in their order. */
  function Filter<T>(s: seq<T>, p: T -> bool): (r: seq<T>)
    ensures |r| <= |s|
    ensures forall x :: x in r ==> x in s && p(x)
  {
    if s == [] then [] else (if p(s[0]) then [s[0]] else []) + Filter(s[1..], p)
  }

  lemma {:induction false} FilterMember<T>(s: seq<T>, p: T -> bool, x: T)
    ensures x in Filter(s, p) <==> x in s && p(x)
  {
    if s != [] {
      FilterMember(s[1..], p, x);
      assert s == [s[0]] + s[1..];
    }
  }

  /** Filtering a concatenation filters each part: the kept elements keep their order. */
  lemma {:induction false} FilterAppend<T>(a: seq<T>, b: seq<T>, p: T -> bool)
    ensures Filter(a + b, p) == Filter(a, p) + Filter(b, p)
  {
    if a == [] {
      assert a + b == b;
    } else {
      assert (a + b)[1..] == a[1..] + b;
      FilterAppend(a[1..], b, p);
    }
  }

  /** One more element at the end: the form a left-to-right loop needs. */
  lemma FilterSnoc<T>(s: seq<T>, x: T, p: T -> bool)
    ensures Filter(s + [x], p) == Filter(s, p) + (if p(x) then [x] else [])
  {
    FilterAppend(s, [x], p);
  }

  /** If every element passes, the filter returns the sequence itself. */
  lemma {:induction false} FilterAll<T>(s: seq<T>, p: T -> bool)
    requires forall i :: 0 <= i < |s| ==> p(s[i])
    ensures Filter(s, p) == s
  {
    if s != [] {
      FilterAll(s[1..], p);
    }
  }

  /** Three filters whose tests split every element exactly one way together
      keep every element exactly as often as it occurs. */
  lemma {:induction false} FilterPartition<T>(s: seq<T>, a: T -> bool, b: T -> bool, c: T -> bool)
    requires forall x :: x in s ==> (a(x) || b(x) || c(x)) && !(a(x) && b(x)) && !(a(x) && c(x)) && !(b(x) && c(x))
    ensures multiset(Filter(s, a)) + multiset(Filter(s, b)) + multiset(Filter(s, c)) == multiset(s)
  {
    if s != [] {
      FilterPartition(s[1..], a, b, c);
      assert s == [s[0]] + s[1..];
    }
  }

  /** Filtering twice with the same predicate is filtering once. */
  lemma FilterIdempotent<T>(s: seq<T>, p: T -> bool)
    ensures Filter(Filter(s, p), p) == Filter(s, p)
  {
    var r := Filter(s, p);
    forall i | 0 <= i < |r| ensures p(r[i]) {
      assert r[i] in r;
    }
    FilterAll(r, p);
  }

  /** A filter of a duplicate-free sequence is duplicate-free. */
  lemma {:induction false} FilterDistinct<T>(s: seq<T>, p: T -> bool)
    requires Distinct(s)
    ensures Distinct(Filter(s, p))
  {
    if s != [] {
      assert Distinct(s[1..]) by {
        forall i, j | 0 <= i < j < |s[1..]| ensures s[1..][i] != s[1..][j] {
          assert s[1..][i] == s[i + 1] && s[1..][j] == s[j + 1];
        }
      }
      FilterDistinct(s[1..], p);
      var t := Filter(s[1..], p);
      if p(s[0]) {
        assert s[0] !in s[1..] by {
          forall k | 0 <= k < |s[1..]| ensures s[1..][k] != s[0] {
            assert s[1..][k] == s[k + 1];
          }
        }
        assert s[0] !in t;
        forall i, j | 0 <= i < j < |[s[0]] + t| ensures ([s[0]] + t)[i] != ([s[0]] + t)[j] {
          if i == 0 {
            assert ([s[0]] + t)[j] == t[j - 1];
            assert t[j - 1] in t;
          } else {
            assert ([s[0]] + t)[i] == t[i - 1] && ([s[0]] + t)[j] == t[j - 1];
          }
        }
      } else {
        assert Filter(s, p) == t;
      }
    }
  }

  /** A non-empty sequence holds its first element. */
  lemma HeadIn<T>(s: seq<T>)
    ensures s == [] || s[0] in s
  {
  }

  /** No element occurs twice. */
  predicate Distinct<T(==)>(s: seq<T>)
  {
    forall i, j :: 0 <= i < j < |s| ==> s[i] != s[j]
  }

  /** The test `e => e !== x`. */
  function Differs<T(==)>(x: T): T -> bool
  {
    e => e != x
  }

  /** `s.filter(e => e !== x)`: every occurrence of `x` removed. */
  function RemoveAll<T(==)>(s: seq<T>, x: T): (r: seq<T>)
    ensures x !in r
    ensures forall y :: y in r ==> y in s
  {
    Filter(s, Differs(x))
  }

  /** Every element other than `x` keeps its membership. */
  lemma RemoveAllMember<T>(s: seq<T>, x: T, y: T)
    requires y != x
    ensures y in RemoveAll(s, x) <==> y in s
  {
    FilterMember(s, Differs(x), y);
  }

  /** Removing from a concatenation removes from each part, so the remaining
      elements keep their order. */
  lemma RemoveAllAppend<T>(a: seq<T>, b: seq<T>, x: T)
    ensures RemoveAll(a + b, x) == RemoveAll(a, x) + RemoveAll(b, x)
  {
    FilterAppend(a, b, Differs(x));
  }

  /** Removing an absent element changes nothing. */
  lemma RemoveAbsent<T>(s: seq<T>, x: T)
    requires x !in s
    ensures RemoveAll(s, x) == s
  {
    assert forall i :: 0 <= i < |s| ==> s[i] != x;
    FilterAll(s, Differs(x));
  }

  /** Removing keeps a duplicate-free sequence duplicate-free. */
  lemma RemoveAllDistinct<T>(s: seq<T>, x: T)
    requires Distinct(s)
    ensures Distinct(RemoveAll(s, x))
  {
    FilterDistinct(s, Differs(x));
  }

  /** `s.slice(-n)` for `n > 0`: the last `min(n, |s|)` elements. */
  function SliceLast<T>(s: seq<T>, n: nat): (r: seq<T>)
    ensures |r| == if |s| < n then |s| else n
    ensures forall i :: 0 <= i < |r| ==> r[i] == s[|s| - |r| + i]
  {
    if |s| < n then s else s[|s| - n..]
  }

  /** `s.indexOf(x)`: the first position of `x`, or -1 when `x` is absent. */
  function IndexOf<T(==)>(s: seq<T>, x: T): (r: int)
    ensures -1 <= r < |s|
    ensures r == -1 <==> x !in s
    ensures 0 <= r ==> s[r] == x && forall k :: 0 <= k < r ==> s[k] != x
  {
    if s == [] then -1
    else if s[0] == x then 0
    else var k := IndexOf(s[1..], x); if k == -1 then -1 else k + 1
  }
}

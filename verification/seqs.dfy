/** Tables as sequences of rows.

    A pandas boolean-mask selection `df.loc[mask]` keeps the rows whose mask
    is true, in table order; it is `Select` here. A Python loop over rows that
    lets the first exception escape is `MapOrFail`.
 */
module Seqs {
  import opened Outcomes

  /** The rows of `s` that satisfy `p`, in their original order. */
  function Select<T>(s: seq<T>, p: T -> bool): (r: seq<T>)
    ensures |r| <= |s|
    ensures forall k :: 0 <= k < |r| ==> r[k] in s && p(r[k])
    ensures forall i :: 0 <= i < |s| && p(s[i]) ==> s[i] in r
    ensures |r| == 0 <==> forall i :: 0 <= i < |s| ==> !p(s[i])
  {
    if |s| == 0 then []
    else if p(s[0]) then [s[0]] + Select(s[1..], p)
    else Select(s[1..], p)
  }

  /** `i` is the one and only position of `s` whose row satisfies `p`. */
  ghost predicate OnlyMatchAt<T>(s: seq<T>, p: T -> bool, i: int) {
    && 0 <= i < |s|
    && p(s[i])
    && forall j :: 0 <= j < |s| && j != i ==> !p(s[j])
  }

  /** Two different positions of `s` hold rows satisfying `p`. */
  ghost predicate TwoMatches<T>(s: seq<T>, p: T -> bool) {
    exists i, j :: 0 <= i < j < |s| && p(s[i]) && p(s[j])
  }

  /** Selection distributes over concatenation: rows of the first part come
      first, so the table order is kept. */
  lemma {:induction false} SelectAppend<T>(a: seq<T>, b: seq<T>, p: T -> bool)
    ensures Select(a + b, p) == Select(a, p) + Select(b, p)
  {
    if |a| == 0 {
      assert a + b == b;
    } else {
      assert (a + b)[0] == a[0];
      assert (a + b)[1..] == a[1..] + b;
      SelectAppend(a[1..], b, p);
    }
  }

  /** A selection keeps every copy of a row that satisfies `p` and no copy
      of any other row. */
  lemma {:induction false} SelectCount<T>(s: seq<T>, p: T -> bool)
    ensures forall x :: multiset(Select(s, p))[x] == if p(x) then multiset(s)[x] else 0
  {
    if |s| != 0 {
      SelectCount(s[1..], p);
      assert s == [s[0]] + s[1..];
    }
  }

  /** Masks that agree on every row select the same rows. */
  lemma {:induction false} SelectSameMask<T>(s: seq<T>, p: T -> bool, q: T -> bool)
    requires forall i :: 0 <= i < |s| ==> p(s[i]) == q(s[i])
    ensures Select(s, p) == Select(s, q)
  {
    if |s| != 0 {
      assert forall i :: 0 <= i < |s[1..]| ==> s[1..][i] == s[i + 1];
      SelectSameMask(s[1..], p, q);
    }
  }

  /** A selection has at least two rows exactly when two positions match. */
  lemma {:induction false} SelectTwo<T>(s: seq<T>, p: T -> bool)
    ensures |Select(s, p)| >= 2 <==> TwoMatches(s, p)
  {
    if |s| != 0 {
      var t := s[1..];
      SelectTwo(t, p);
      if p(s[0]) {
        if |Select(s, p)| >= 2 {
          var y := Select(t, p)[0];
          assert y in Select(t, p);
          var k :| 0 <= k < |t| && t[k] == y;
          assert s[k + 1] == y;
          assert p(s[0]) && p(s[k + 1]);
        }
        if TwoMatches(s, p) {
          var i, j :| 0 <= i < j < |s| && p(s[i]) && p(s[j]);
          assert s[j] == t[j - 1];
          assert s[j] in Select(t, p);
        }
      } else {
        if |Select(s, p)| >= 2 {
          var i, j :| 0 <= i < j < |t| && p(t[i]) && p(t[j]);
          assert s[i + 1] == t[i] && s[j + 1] == t[j];
        }
        if TwoMatches(s, p) {
          var i, j :| 0 <= i < j < |s| && p(s[i]) && p(s[j]);
          assert i >= 1;
          assert t[i - 1] == s[i] && t[j - 1] == s[j];
        }
      }
    }
  }

  /** A single matching position gives a one-row selection holding that row. */
  lemma {:induction false} SelectOnly<T>(s: seq<T>, p: T -> bool, i: int)
    requires OnlyMatchAt(s, p, i)
    ensures Select(s, p) == [s[i]]
  {
    var t := s[1..];
    if i == 0 {
      assert forall k :: 0 <= k < |t| ==> !p(t[k]) by {
        forall k | 0 <= k < |t| ensures !p(t[k]) {
          assert t[k] == s[k + 1];
        }
      }
    } else {
      assert OnlyMatchAt(t, p, i - 1) by {
        forall k | 0 <= k < |t| && k != i - 1 ensures !p(t[k]) {
          assert t[k] == s[k + 1];
        }
      }
      SelectOnly(t, p, i - 1);
    }
  }

  /** A one-row selection comes from a single matching position. */
  lemma SelectSingle<T>(s: seq<T>, p: T -> bool)
    requires |Select(s, p)| == 1
    ensures exists i :: OnlyMatchAt(s, p, i) && Select(s, p) == [s[i]]
  {
    var y := Select(s, p)[0];
    assert y in Select(s, p);
    var i :| 0 <= i < |s| && s[i] == y;
    SelectTwo(s, p);
    assert !TwoMatches(s, p);
    forall j | 0 <= j < |s| && j != i ensures !p(s[j]) {
      if i < j {
        assert !(p(s[i]) && p(s[j]));
      } else {
        assert 0 <= j < i < |s|;
        assert !(p(s[i]) && p(s[j]));
      }
    }
    assert OnlyMatchAt(s, p, i);
    SelectOnly(s, p, i);
  }

  /** The size of a selection tells how many positions match: none, exactly
      one (whose row is then the whole selection), or at least two. */
  lemma SelectCases<T>(s: seq<T>, p: T -> bool)
    ensures |Select(s, p)| == 0 <==> forall i :: 0 <= i < |s| ==> !p(s[i])
    ensures |Select(s, p)| == 1 <==> exists i :: OnlyMatchAt(s, p, i)
    ensures forall i :: OnlyMatchAt(s, p, i) ==> Select(s, p) == [s[i]]
    ensures |Select(s, p)| >= 2 <==> TwoMatches(s, p)
  {
    SelectTwo(s, p);
    if |Select(s, p)| == 1 {
      SelectSingle(s, p);
    }
    forall i | OnlyMatchAt(s, p, i) ensures Select(s, p) == [s[i]] {
      SelectOnly(s, p, i);
    }
  }

  /** Applies `f` to every row in order; the first failure aborts the whole
      traversal, the way an uncaught exception leaves a Python `for` loop. */
  function MapOrFail<A, B>(xs: seq<A>, f: A -> Result<B>): (r: Result<seq<B>>)
    ensures r.Success? <==> forall i :: 0 <= i < |xs| ==> f(xs[i]).Success?
    ensures r.Success? ==>
              && |r.value| == |xs|
              && forall i :: 0 <= i < |xs| ==> f(xs[i]) == Success(r.value[i])
    ensures r.Failure? ==>
              exists i :: && 0 <= i < |xs|
                          && f(xs[i]) == Failure(r.error)
                          && forall j :: 0 <= j < i ==> f(xs[j]).Success?
  {
    if |xs| == 0 then Success([])
    else
      match f(xs[0])
      case Failure(e) => Failure(e)
      case Success(y) =>
        match MapOrFail(xs[1..], f)
        case Failure(e) => Failure(e)
        case Success(ys) => Success([y] + ys)
  }
}

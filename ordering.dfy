/**
  The three steps every post listing shares: WHERE (Filter), ORDER BY
  created_at DESC (SortNewestFirst) and LIMIT n (Take). MySQL gives no order
  among rows with equal created_at, so the sort is specified only as
  "non-increasing created_at, same rows".
*/
module Ordering {
  import opened Schema

  predicate NewestFirst(s: seq<Post>) {
    forall i, j :: 0 <= i < j < |s| ==> s[i].createdAt >= s[j].createdAt
  }

  /** The rows of s that keep accepts, in table order. */
  function Filter(s: seq<Post>, keep: Post -> bool): (r: seq<Post>)
    ensures |r| <= |s|
    ensures forall p :: p in r <==> p in s && keep(p)
    ensures multiset(r) <= multiset(s)
  {
    if s == [] then []
    else
      assert s == [s[0]] + s[1..];
      if keep(s[0]) then [s[0]] + Filter(s[1..], keep)
      else Filter(s[1..], keep)
  }

  /** A row no older than every row of a newest-first sequence can head it. */
  lemma ConsNewestFirst(x: Post, rest: seq<Post>)
    requires NewestFirst(rest)
    requires forall k :: 0 <= k < |rest| ==> rest[k].createdAt <= x.createdAt
    ensures NewestFirst([x] + rest)
  {
    var r := [x] + rest;
    forall i, j | 0 <= i < j < |r|
      ensures r[i].createdAt >= r[j].createdAt
    {
      if i > 0 {
        assert r[i] == rest[i - 1] && r[j] == rest[j - 1];
      } else {
        assert r[j] == rest[j - 1];
      }
    }
  }

  function InsertNewestFirst(p: Post, s: seq<Post>): (r: seq<Post>)
    requires NewestFirst(s)
    ensures NewestFirst(r)
    ensures forall q :: q in r ==> q in s || q == p
    ensures multiset(r) == multiset(s) + multiset{p}
  {
    if s == [] || s[0].createdAt <= p.createdAt then
      ConsNewestFirst(p, s);
      [p] + s
    else
      var head, tail := s[0], s[1..];
      assert s == [head] + tail;
      var rest := InsertNewestFirst(p, tail);
      assert forall k :: 0 <= k < |rest| ==> rest[k].createdAt <= head.createdAt by {
        forall k | 0 <= k < |rest| ensures rest[k].createdAt <= head.createdAt {
          assert rest[k] in rest;
          if rest[k] != p {
            var m :| 0 <= m < |tail| && tail[m] == rest[k];
            assert s[m + 1] == rest[k];
          }
        }
      }
      ConsNewestFirst(head, rest);
      assert multiset([head] + rest) == multiset{head} + multiset(rest);
      [head] + rest
  }

  /** ORDER BY created_at DESC. */
  function SortNewestFirst(s: seq<Post>): (r: seq<Post>)
    ensures NewestFirst(r)
    ensures multiset(r) == multiset(s)
  {
    if s == [] then []
    else
      assert s == [s[0]] + s[1..];
      InsertNewestFirst(s[0], SortNewestFirst(s[1..]))
  }

  /** LIMIT n. */
  function Take(s: seq<Post>, n: nat): (r: seq<Post>)
    ensures |r| == if |s| <= n then |s| else n
    ensures r == s[..|r|]
  {
    if |s| <= n then s else s[..n]
  }

  /** The rows that pass a filter, newest first, at most n of them. */
  function NewestN(s: seq<Post>, keep: Post -> bool, n: nat): (r: seq<Post>)
    ensures |r| <= n
    ensures NewestFirst(r)
    ensures forall p :: p in r ==> p in s && keep(p)
    ensures multiset(r) <= multiset(s)
  {
    var filtered := Filter(s, keep);
    var sorted := SortNewestFirst(filtered);
    var r := Take(sorted, n);
    PrefixIsSubMultiset(sorted, |r|);
    assert forall p :: p in r ==> p in multiset(filtered);
    r
  }

  /** With a limit no smaller than the table, nothing that passes the filter is cut. */
  lemma NewestNKeepsAll(s: seq<Post>, keep: Post -> bool, n: nat)
    requires |s| <= n
    ensures forall p :: p in s && keep(p) ==> p in NewestN(s, keep, n)
  {
    var filtered := Filter(s, keep);
    var sorted := SortNewestFirst(filtered);
    assert Take(sorted, n) == sorted;
    forall p | p in s && keep(p) ensures p in NewestN(s, keep, n) {
      assert p in multiset(filtered);
    }
  }

  lemma PrefixIsSubMultiset(s: seq<Post>, k: nat)
    requires k <= |s|
    ensures multiset(s[..k]) <= multiset(s)
  {
    assert s == s[..k] + s[k..];
  }

  /** A row that passes the filter but is left out of NewestN only loses to a
      full page of rows at least as new: NewestN is the n newest matches. */
  lemma NewestNIsTopN(s: seq<Post>, keep: Post -> bool, n: nat, p: Post)
    requires p in s && keep(p)
    requires p !in NewestN(s, keep, n)
    ensures |NewestN(s, keep, n)| == n
    ensures forall q :: q in NewestN(s, keep, n) ==> q.createdAt >= p.createdAt
  {
    var filtered := Filter(s, keep);
    var sorted := SortNewestFirst(filtered);
    assert p in multiset(filtered);
    assert p in sorted;
    var j :| 0 <= j < |sorted| && sorted[j] == p;
    var r := Take(sorted, n);
    assert r == NewestN(s, keep, n);
    if j < n {
      assert false;
    }
    forall q | q in r ensures q.createdAt >= p.createdAt {
      var i :| 0 <= i < |r| && r[i] == q;
      assert sorted[i] == q;
    }
  }

  /** Distinct ids stay distinct through filtering, sorting and the limit. */
  lemma NewestNDistinct(s: seq<Post>, keep: Post -> bool, n: nat)
    requires forall i, j :: 0 <= i < j < |s| ==> s[i].id != s[j].id
    ensures var r := NewestN(s, keep, n);
      forall i, j :: 0 <= i < j < |r| ==> r[i].id != r[j].id
  {
    var r := NewestN(s, keep, n);
    forall i, j | 0 <= i < j < |r| ensures r[i].id != r[j].id {
      if r[i].id == r[j].id {
        var x := r[i];
        assert r[j] in s && x in s;
        var a :| 0 <= a < |s| && s[a] == x;
        var b :| 0 <= b < |s| && s[b] == r[j];
        assert a == b;
        RepeatCountsTwice(r, i, j);
        DistinctCountsOnce(s, x);
        assert false;
      }
    }
  }

  lemma {:induction false} DistinctCountsOnce(s: seq<Post>, x: Post)
    requires forall i, j :: 0 <= i < j < |s| ==> s[i].id != s[j].id
    ensures multiset(s)[x] <= 1
  {
    if s != [] {
      assert s == [s[0]] + s[1..];
      DistinctCountsOnce(s[1..], x);
      if s[0] == x {
        assert x !in s[1..];
      }
    }
  }

  lemma RepeatCountsTwice(r: seq<Post>, i: int, j: int)
    requires 0 <= i < j < |r| && r[i] == r[j]
    ensures multiset(r)[r[i]] >= 2
  {
    assert r == r[..j] + r[j..];
    assert r[i] in r[..j];
    assert r[j..][0] == r[i];
  }
}

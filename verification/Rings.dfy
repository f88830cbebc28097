// Circular doubly linked rings threaded through index arrays: ring r is the
// sequence of members in "next" order, nx and pv are the link arrays.
module Rings {

  function After(j: int, n: int): int { if j + 1 == n then 0 else j + 1 }

  function Before(j: int, n: int): int { if j == 0 then n - 1 else j - 1 }

  ghost predicate Distinct<T>(r: seq<T>)
  {
    forall i, j :: 0 <= i < j < |r| ==> r[i] != r[j]
  }

  ghost predicate Within(r: seq<int>, n: int)
  {
    forall j :: 0 <= j < |r| ==> 0 <= r[j] < n
  }

  ghost predicate LinkedAt(r: seq<int>, nx: seq<int>, pv: seq<int>, j: int)
    requires |nx| == |pv| && Within(r, |nx|) && 0 <= j < |r|
  {
    nx[r[j]] == r[After(j, |r|)] && pv[r[j]] == r[Before(j, |r|)]
  }

  ghost predicate Ring(r: seq<int>, nx: seq<int>, pv: seq<int>)
  {
    && |nx| == |pv|
    && Within(r, |nx|)
    && Distinct(r)
    && forall j :: 0 <= j < |r| ==> LinkedAt(r, nx, pv, j)
  }

  ghost function Without<T>(r: seq<T>, k: int): seq<T>
    requires 0 <= k < |r|
  {
    r[..k] + r[k + 1..]
  }

  ghost function RotateTo<T>(r: seq<T>, k: int): seq<T>
    requires 0 <= k <= |r|
  {
    r[k..] + r[..k]
  }

  // The position of a member.
  ghost function At<T>(r: seq<T>, x: T): (k: int)
    requires x in r
    ensures 0 <= k < |r| && r[k] == x
  {
    var k :| 0 <= k < |r| && r[k] == x; k
  }

  lemma WithoutMembers<T>(r: seq<T>, k: int)
    requires Distinct(r) && 0 <= k < |r|
    ensures forall x :: x in Without(r, k) <==> x in r && x != r[k]
    ensures Distinct(Without(r, k)) && |Without(r, k)| == |r| - 1
  {
    var q := Without(r, k);
    forall x | x in r && x != r[k] ensures x in q
    {
      var j :| 0 <= j < |r| && r[j] == x;
      assert q[if j < k then j else j - 1] == x;
    }
  }

  // Links of non-members do not matter.
  lemma RingFrame(r: seq<int>, nx: seq<int>, pv: seq<int>, nx': seq<int>, pv': seq<int>)
    requires Ring(r, nx, pv)
    requires |nx'| == |pv'| >= |nx|
    requires forall j :: 0 <= j < |r| ==> nx'[r[j]] == nx[r[j]] && pv'[r[j]] == pv[r[j]]
    ensures Ring(r, nx', pv')
  {
    forall j | 0 <= j < |r| ensures 0 <= r[j] < |nx'| && nx'[r[j]] == r[After(j, |r|)] && pv'[r[j]] == r[Before(j, |r|)]
    {
      assert LinkedAt(r, nx, pv, j);
    }
  }

  lemma RingRotate(r: seq<int>, nx: seq<int>, pv: seq<int>, k: int)
    requires Ring(r, nx, pv) && 0 <= k <= |r|
    ensures Ring(RotateTo(r, k), nx, pv)
  {
    var q := RotateTo(r, k);
    var n := |r|;
    assert forall j :: 0 <= j < n ==> q[j] == r[if j + k < n then j + k else j + k - n];
    forall j | 0 <= j < n ensures LinkedAt(q, nx, pv, j)
    {
      assert LinkedAt(r, nx, pv, if j + k < n then j + k else j + k - n);
    }
  }

  // Unlinking the member at the head of the ring.
  lemma RingRemoveFirst(r: seq<int>, nx: seq<int>, pv: seq<int>)
    requires Ring(r, nx, pv) && |r| >= 2
    ensures LinkedAt(r, nx, pv, 0) && nx[r[0]] == r[1] && pv[r[0]] == r[|r| - 1]
    ensures Ring(r[1..], nx[pv[r[0]] := nx[r[0]]], pv[nx[r[0]] := pv[r[0]]])
  {
    var q := r[1..];
    var n := |r|;
    assert LinkedAt(r, nx, pv, 0);
    var nx' := nx[r[n - 1] := r[1]];
    var pv' := pv[r[1] := r[n - 1]];
    forall j | 0 <= j < n - 1 ensures nx'[q[j]] == q[After(j, n - 1)] && pv'[q[j]] == q[Before(j, n - 1)]
    {
      assert q[j] == r[j + 1];
      assert LinkedAt(r, nx, pv, j + 1);
    }
  }

  // Unlinking any member: what is left is the ring read from its successor.
  lemma RingRemove(r: seq<int>, nx: seq<int>, pv: seq<int>, k: int)
    requires Ring(r, nx, pv) && |r| >= 2 && 0 <= k < |r|
    ensures LinkedAt(r, nx, pv, k)
    ensures Ring(Without(r, k), nx[pv[r[k]] := nx[r[k]]], pv[nx[r[k]] := pv[r[k]]])
  {
    assert LinkedAt(r, nx, pv, k);
    RingRotate(r, nx, pv, k);
    var q := RotateTo(r, k);
    RingRemoveFirst(q, nx, pv);
    RingRotate(q[1..], nx[pv[r[k]] := nx[r[k]]], pv[nx[r[k]] := pv[r[k]]], |r| - 1 - k);
    assert RotateTo(q[1..], |r| - 1 - k) == Without(r, k);
  }

  // Linking a new member in after the last one.
  lemma RingAppend(r: seq<int>, nx: seq<int>, pv: seq<int>, x: int)
    requires Ring(r, nx, pv) && |r| >= 1
    requires 0 <= x < |nx| && x !in r
    ensures Ring(r + [x], nx[x := r[0]][r[|r| - 1] := x], pv[x := r[|r| - 1]][r[0] := x])
  {
    var n := |r|;
    var q := r + [x];
    var nx' := nx[x := r[0]][r[n - 1] := x];
    var pv' := pv[x := r[n - 1]][r[0] := x];
    forall j | 0 <= j <= n ensures nx'[q[j]] == q[After(j, n + 1)] && pv'[q[j]] == q[Before(j, n + 1)]
    {
      if j < n { assert LinkedAt(r, nx, pv, j); }
    }
  }

  // Linking a new member in after the head: [h] + t becomes [h, x] + t.
  lemma RingInsertSecond(r: seq<int>, nx: seq<int>, pv: seq<int>, x: int)
    requires Ring(r, nx, pv) && |r| >= 1
    requires 0 <= x < |nx| && x !in r
    ensures LinkedAt(r, nx, pv, 0)
    ensures Ring([r[0], x] + r[1..], nx[x := nx[r[0]]][r[0] := x], pv[x := r[0]][nx[r[0]] := x])
  {
    assert LinkedAt(r, nx, pv, 0);
    var n := |r|;
    RingRotate(r, nx, pv, 1);
    var q := RotateTo(r, 1);
    RingAppend(q, nx, pv, x);
    var nx' := nx[x := q[0]][r[0] := x];
    var pv' := pv[x := r[0]][q[0] := x];
    RingRotate(q + [x], nx', pv', n - 1);
    assert RotateTo(q + [x], n - 1) == [r[0], x] + r[1..];
  }

  // Linking a new member in front of the head.
  lemma RingPushFront(r: seq<int>, nx: seq<int>, pv: seq<int>, x: int)
    requires Ring(r, nx, pv) && |r| >= 1
    requires 0 <= x < |nx| && x !in r
    ensures pv[r[0]] == r[|r| - 1]
    ensures Ring([x] + r, nx[x := r[0]][r[|r| - 1] := x], pv[x := r[|r| - 1]][r[0] := x])
  {
    assert LinkedAt(r, nx, pv, 0);
    RingAppend(r, nx, pv, x);
    RingRotate(r + [x], nx[x := r[0]][r[|r| - 1] := x], pv[x := r[|r| - 1]][r[0] := x], |r|);
    assert RotateTo(r + [x], |r|) == [x] + r;
  }

  // Negated copies of link arrays: free trie slots store their links negated.
  ghost function Neg(s: seq<int>): (t: seq<int>)
    ensures |t| == |s| && forall i :: 0 <= i < |s| ==> t[i] == -s[i]
  {
    seq(|s|, i requires 0 <= i < |s| => -s[i])
  }

  lemma NegUpdate(s: seq<int>, i: int, v: int)
    requires 0 <= i < |s|
    ensures Neg(s[i := v]) == Neg(s)[i := -v]
  {
  }
}

/**
 * Listener identities and the order in which a socket visits them.
 *
 * The socket keeps its listeners in a `std::set` of pointers, which a
 * range-for visits in ascending address order. A listener is identified
 * here by its address, a natural number, and every fan-out over the set
 * follows `Ascending`.
 */
module ListenerOrder {

  /** The address of an `ITcpSocketListener`. */
  type ListenerId = nat

  /** Every non-empty set of listeners has a smallest element. */
  lemma {:induction false} MinExists(s: set<ListenerId>)
    requires s != {}
    ensures exists m :: IsMin(m, s)
    decreases s
  {
    var x :| x in s;
    if s == {x} {
      assert IsMin(x, s);
    } else {
      MinExists(s - {x});
      var m' :| IsMin(m', s - {x});
      var m := if x <= m' then x else m';
      forall y | y in s
        ensures m <= y
      {
        if y != x {
          assert y in s - {x};
        }
      }
      assert IsMin(m, s);
    }
  }

  predicate IsMin(m: ListenerId, s: set<ListenerId>)
  {
    m in s && forall y :: y in s ==> m <= y
  }

  /** The smallest listener of a non-empty set: the first one a range-for visits. */
  function SetMin(s: set<ListenerId>): (m: ListenerId)
    requires s != {}
    ensures m in s
    ensures forall y :: y in s ==> m <= y
  {
    MinExists(s);
    var m :| IsMin(m, s);
    m
  }

  /** The elements of `s` in the order a range-for over a `std::set` visits them. */
  function Ascending(s: set<ListenerId>): (r: seq<ListenerId>)
    ensures |r| == |s|
    decreases s
  {
    if s == {} then []
    else
      var m := SetMin(s);
      [m] + Ascending(s - {m})
  }

  /** Only listeners of the set are visited, in strictly ascending order. */
  lemma {:induction false} AscendingSorted(s: set<ListenerId>)
    ensures forall i :: 0 <= i < |Ascending(s)| ==> Ascending(s)[i] in s
    ensures forall i, j :: 0 <= i < j < |Ascending(s)| ==> Ascending(s)[i] < Ascending(s)[j]
    decreases s
  {
    if s != {} {
      var m := SetMin(s);
      AscendingSorted(s - {m});
      var r, t := Ascending(s), Ascending(s - {m});
      assert r == [m] + t;
      assert forall i :: 0 < i < |r| ==> r[i] == t[i - 1];
    }
  }

  /** Every listener of the set is visited. */
  lemma {:induction false} AscendingCovers(s: set<ListenerId>, x: ListenerId)
    requires x in s
    ensures x in Ascending(s)
    decreases s
  {
    var m := SetMin(s);
    if x != m {
      AscendingCovers(s - {m}, x);
    }
  }

  /** No listener is visited twice. */
  ghost predicate Distinct(ids: seq<ListenerId>)
  {
    forall i, j :: 0 <= i < j < |ids| ==> ids[i] != ids[j]
  }

  lemma AscendingDistinct(s: set<ListenerId>)
    ensures Distinct(Ascending(s))
  {
    AscendingSorted(s);
  }

  /** Removing the smallest element of the remaining set is one step of the range-for. */
  lemma AscendingStep(s: set<ListenerId>, l: ListenerId)
    requires IsMin(l, s)
    ensures Ascending(s) == [l] + Ascending(s - {l})
  {
    var m := SetMin(s);
    assert l <= m && m <= l;
  }
}

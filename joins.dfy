/**
 * The two relational merges the pipeline uses, on sequences of rows:
 * an inner join (each matching pair of rows yields one output row) and a
 * full outer join (unmatched rows on either side are kept, null-filled).
 * The key of a row is given by a key function; `both` builds the output row
 * of a matching pair, `leftOnly` and `rightOnly` the null-filled rows.
 */
module Joins {

  import opened Tables

  /** The rows both(l, r) for every r of right whose key matches l, in right's order. */
  function Matches<L, R, K(==), O>(l: L, right: seq<R>, lk: L -> K, rk: R -> K, both: (L, R) -> O): seq<O>
  {
    if right == [] then []
    else (if rk(right[0]) == lk(l) then [both(l, right[0])] else [])
         + Matches(l, right[1..], lk, rk, both)
  }

  /** Inner merge: for each left row in order, its matches in right's order. */
  function InnerJoin<L, R, K(==), O>(left: seq<L>, right: seq<R>, lk: L -> K, rk: R -> K, both: (L, R) -> O): seq<O>
  {
    if left == [] then []
    else Matches(left[0], right, lk, rk, both) + InnerJoin(left[1..], right, lk, rk, both)
  }

  /** The left half of an outer merge: a left row without a match is kept once, null-filled. */
  function LeftPart<L, R, K(==), O>(left: seq<L>, right: seq<R>, lk: L -> K, rk: R -> K,
                                      both: (L, R) -> O, leftOnly: L -> O): seq<O>
  {
    if left == [] then []
    else
      var m := Matches(left[0], right, lk, rk, both);
      (if m == [] then [leftOnly(left[0])] else m) + LeftPart(left[1..], right, lk, rk, both, leftOnly)
  }

  /** The right rows whose key is not among `keys`, null-filled. */
  function RightOnly<R, K(==), O>(right: seq<R>, keys: set<K>, rk: R -> K, rightOnly: R -> O): seq<O>
  {
    if right == [] then []
    else (if rk(right[0]) !in keys then [rightOnly(right[0])] else [])
         + RightOnly(right[1..], keys, rk, rightOnly)
  }

  /** Full outer merge. */
  function OuterJoin<L(==), R, K(==), O>(left: seq<L>, right: seq<R>, lk: L -> K, rk: R -> K,
                                       both: (L, R) -> O, leftOnly: L -> O, rightOnly: R -> O): seq<O>
  {
    LeftPart(left, right, lk, rk, both, leftOnly) + RightOnly(right, Keys(left, lk), rk, rightOnly)
  }

  lemma {:induction false} MatchesMember<L, R, K, O>(l: L, right: seq<R>, lk: L -> K, rk: R -> K, both: (L, R) -> O, x: O)
    ensures x in Matches(l, right, lk, rk, both) <==> exists r :: r in right && rk(r) == lk(l) && x == both(l, r)
  {
    if right != [] {
      MatchesMember(l, right[1..], lk, rk, both, x);
      assert forall r :: r in right <==> r == right[0] || r in right[1..];
    }
  }

  lemma MatchesEmpty<L, R, K, O>(l: L, right: seq<R>, lk: L -> K, rk: R -> K, both: (L, R) -> O)
    ensures Matches(l, right, lk, rk, both) == [] <==> lk(l) !in Keys(right, rk)
  {
    if Matches(l, right, lk, rk, both) == [] {
      forall r | r in right ensures rk(r) != lk(l) {
        MatchesMember(l, right, lk, rk, both, both(l, r));
      }
    } else {
      var x := Matches(l, right, lk, rk, both)[0];
      MatchesMember(l, right, lk, rk, both, x);
    }
  }

  /** A row is in the inner merge exactly when it is built from a matching pair. */
  lemma {:induction false} InnerJoinMember<L, R, K, O>(left: seq<L>, right: seq<R>, lk: L -> K, rk: R -> K, both: (L, R) -> O, x: O)
    ensures x in InnerJoin(left, right, lk, rk, both) <==>
            exists l, r :: l in left && r in right && lk(l) == rk(r) && x == both(l, r)
  {
    if left != [] {
      InnerJoinMember(left[1..], right, lk, rk, both, x);
      MatchesMember(left[0], right, lk, rk, both, x);
      assert forall l :: l in left <==> l == left[0] || l in left[1..];
    }
  }

  lemma {:induction false} LeftPartMember<L, R, K, O>(left: seq<L>, right: seq<R>, lk: L -> K, rk: R -> K,
                                                          both: (L, R) -> O, leftOnly: L -> O, x: O)
    ensures x in LeftPart(left, right, lk, rk, both, leftOnly) <==>
            (exists l, r :: l in left && r in right && lk(l) == rk(r) && x == both(l, r)) ||
            (exists l :: l in left && lk(l) !in Keys(right, rk) && x == leftOnly(l))
  {
    if left != [] {
      LeftPartMember(left[1..], right, lk, rk, both, leftOnly, x);
      MatchesMember(left[0], right, lk, rk, both, x);
      MatchesEmpty(left[0], right, lk, rk, both);
      assert forall l :: l in left <==> l == left[0] || l in left[1..];
    }
  }

  lemma {:induction false} RightOnlyMember<R, K, O>(right: seq<R>, keys: set<K>, rk: R -> K, rightOnly: R -> O, x: O)
    ensures x in RightOnly(right, keys, rk, rightOnly) <==>
            exists r :: r in right && rk(r) !in keys && x == rightOnly(r)
  {
    if right != [] {
      RightOnlyMember(right[1..], keys, rk, rightOnly, x);
      assert forall r :: r in right <==> r == right[0] || r in right[1..];
    }
  }

  /**
   * A row is in the outer merge exactly when it comes from a matching pair,
   * from a left row with no match, or from a right row with no match.
   */
  lemma OuterJoinMember<L, R, K, O>(left: seq<L>, right: seq<R>, lk: L -> K, rk: R -> K,
                                        both: (L, R) -> O, leftOnly: L -> O, rightOnly: R -> O, x: O)
    ensures x in OuterJoin(left, right, lk, rk, both, leftOnly, rightOnly) <==>
            (exists l, r :: l in left && r in right && lk(l) == rk(r) && x == both(l, r)) ||
            (exists l :: l in left && lk(l) !in Keys(right, rk) && x == leftOnly(l)) ||
            (exists r :: r in right && rk(r) !in Keys(left, lk) && x == rightOnly(r))
  {
    LeftPartMember(left, right, lk, rk, both, leftOnly, x);
    RightOnlyMember(right, Keys(left, lk), rk, rightOnly, x);
  }

  /** The keys of an inner merge are the keys the two sides share. */
  lemma InnerJoinKeys<L, R, K, O>(left: seq<L>, right: seq<R>, lk: L -> K, rk: R -> K, both: (L, R) -> O, ok: O -> K)
    requires forall l, r :: ok(both(l, r)) == lk(l)
    ensures Keys(InnerJoin(left, right, lk, rk, both), ok) == Keys(left, lk) * Keys(right, rk)
  {
    var out := InnerJoin(left, right, lk, rk, both);
    forall k | k in Keys(out, ok) ensures k in Keys(left, lk) * Keys(right, rk) {
      var x :| x in out && ok(x) == k;
      InnerJoinMember(left, right, lk, rk, both, x);
    }
    forall k | k in Keys(left, lk) * Keys(right, rk) ensures k in Keys(out, ok) {
      var l :| l in left && lk(l) == k;
      var r :| r in right && rk(r) == k;
      InnerJoinMember(left, right, lk, rk, both, both(l, r));
    }
  }

  /** The keys of an outer merge are the keys of either side. */
  lemma OuterJoinKeys<L, R, K, O>(left: seq<L>, right: seq<R>, lk: L -> K, rk: R -> K,
                                  both: (L, R) -> O, leftOnly: L -> O, rightOnly: R -> O, ok: O -> K)
    requires forall l, r :: ok(both(l, r)) == lk(l)
    requires forall l :: ok(leftOnly(l)) == lk(l)
    requires forall r :: ok(rightOnly(r)) == rk(r)
    ensures Keys(OuterJoin(left, right, lk, rk, both, leftOnly, rightOnly), ok) == Keys(left, lk) + Keys(right, rk)
  {
    var out := OuterJoin(left, right, lk, rk, both, leftOnly, rightOnly);
    forall k | k in Keys(out, ok) ensures k in Keys(left, lk) + Keys(right, rk) {
      var x :| x in out && ok(x) == k;
      OuterJoinMember(left, right, lk, rk, both, leftOnly, rightOnly, x);
    }
    forall k | k in Keys(left, lk) + Keys(right, rk) ensures k in Keys(out, ok) {
      if k in Keys(left, lk) {
        var l :| l in left && lk(l) == k;
        if k in Keys(right, rk) {
          var r :| r in right && rk(r) == k;
          OuterJoinMember(left, right, lk, rk, both, leftOnly, rightOnly, both(l, r));
        } else {
          OuterJoinMember(left, right, lk, rk, both, leftOnly, rightOnly, leftOnly(l));
        }
      } else {
        var r :| r in right && rk(r) == k;
        OuterJoinMember(left, right, lk, rk, both, leftOnly, rightOnly, rightOnly(r));
      }
    }
  }
}

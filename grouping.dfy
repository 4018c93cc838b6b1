/**
 * groupby on a string key: the distinct keys of a table, in order of first
 * appearance.
 */
module Grouping {

  import opened Tables

  /** The distinct keys of rows, in order of first appearance. */
  function GroupKeys<T>(rows: seq<T>, key: T -> string): seq<string>
  {
    if rows == [] then []
    else
      var keys := GroupKeys(rows[..|rows| - 1], key);
      var k := key(rows[|rows| - 1]);
      if k in keys then keys else keys + [k]
  }

  /** How often id occurs in ks. */
  function Occ(ks: seq<string>, id: string): nat
  {
    if ks == [] then 0 else (if ks[0] == id then 1 else 0) + Occ(ks[1..], id)
  }

  lemma OccAppend(ks: seq<string>, k: string, id: string)
    ensures Occ(ks + [k], id) == Occ(ks, id) + (if k == id then 1 else 0)
  {
    if ks != [] {
      assert (ks + [k])[1..] == ks[1..] + [k];
    }
  }

  lemma OccIn(ks: seq<string>, id: string)
    ensures Occ(ks, id) > 0 <==> id in ks
  {
  }

  lemma {:induction false} OccTwice(ks: seq<string>, j: nat, k: nat)
    requires j < k < |ks| && ks[j] == ks[k]
    ensures Occ(ks, ks[j]) >= 2
  {
    if j > 0 {
      OccTwice(ks[1..], j - 1, k - 1);
    } else {
      OccIn(ks[1..], ks[j]);
      assert ks[1..][k - 1] == ks[k];
    }
  }

  /** Every key of the table is a group key exactly once, and there are no other group keys. */
  lemma {:induction false} GroupKeysOnce<T>(rows: seq<T>, key: T -> string, id: string)
    ensures Occ(GroupKeys(rows, key), id) == if id in Keys(rows, key) then 1 else 0
    ensures id in GroupKeys(rows, key) <==> id in Keys(rows, key)
  {
    if rows != [] {
      var init, last := rows[..|rows| - 1], rows[|rows| - 1];
      GroupKeysOnce(init, key, id);
      GroupKeysOnce(init, key, key(last));
      assert rows == init + [last];
      assert Keys(rows, key) == Keys(init, key) + {key(last)};
      var keys := GroupKeys(init, key);
      if key(last) !in keys {
        OccAppend(keys, key(last), id);
      }
      OccIn(GroupKeys(rows, key), id);
    }
  }

  /** No group key is listed twice. */
  lemma GroupKeysDistinct<T>(rows: seq<T>, key: T -> string)
    ensures forall j, k :: 0 <= j < k < |GroupKeys(rows, key)| ==> GroupKeys(rows, key)[j] != GroupKeys(rows, key)[k]
  {
    var ks := GroupKeys(rows, key);
    forall j, k | 0 <= j < k < |ks| ensures ks[j] != ks[k] {
      if ks[j] == ks[k] {
        OccTwice(ks, j, k);
        GroupKeysOnce(rows, key, ks[j]);
        assert false;
      }
    }
  }
}

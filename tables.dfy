/**
 * An in-memory stand-in for a database table: a map from primary key to
 * row, where keys are generated as 1, 2, 3, ... and every key is below the
 * table's next key. A query returns matching rows in ascending key order.
 */
module Tables {

  predicate StrictlyIncreasing(ks: seq<int>) {
    forall i, j :: 0 <= i < j < |ks| ==> ks[i] < ks[j]
  }

  /** The keys in `[1, hi)` whose rows satisfy `keep`, in ascending order. */
  function Ascending<T>(m: map<int, T>, keep: T -> bool, hi: int): (ks: seq<int>)
    ensures forall i :: 0 <= i < |ks| ==> ks[i] in m && 1 <= ks[i] < hi && keep(m[ks[i]])
    ensures forall k :: k in m && 1 <= k < hi && keep(m[k]) ==> k in ks
    ensures StrictlyIncreasing(ks)
    decreases hi
  {
    if hi <= 1 then []
    else
      var prev := Ascending(m, keep, hi - 1);
      if hi - 1 in m && keep(m[hi - 1]) then prev + [hi - 1] else prev
  }

  /** The set of keys the query matches. */
  ghost function Matching<T>(m: map<int, T>, keep: T -> bool, hi: int): set<int> {
    set k | k in m && 1 <= k < hi && keep(m[k])
  }

  /** Widening the scan by one key adds that key exactly when its row matches. */
  lemma MatchingStep<T>(m: map<int, T>, keep: T -> bool, hi: int)
    requires hi > 1
    ensures hi - 1 !in Matching(m, keep, hi - 1)
    ensures hi - 1 in m && keep(m[hi - 1]) ==> Matching(m, keep, hi) == Matching(m, keep, hi - 1) + {hi - 1}
    ensures !(hi - 1 in m && keep(m[hi - 1])) ==> Matching(m, keep, hi) == Matching(m, keep, hi - 1)
  {
  }

  /** A query's row count is the number of matching keys (`findAndCount`'s total). */
  lemma {:induction false} AscendingCount<T>(m: map<int, T>, keep: T -> bool, hi: int)
    ensures |Ascending(m, keep, hi)| == |Matching(m, keep, hi)|
    decreases hi
  {
    if hi > 1 {
      AscendingCount(m, keep, hi - 1);
      MatchingStep(m, keep, hi);
    } else {
      assert Matching(m, keep, hi) == {};
    }
  }

  /** The rows stored under the given keys, in the same order. */
  function Rows<T>(m: map<int, T>, ks: seq<int>): (rows: seq<T>)
    requires forall i :: 0 <= i < |ks| ==> ks[i] in m
    ensures |rows| == |ks|
    ensures forall i :: 0 <= i < |ks| ==> rows[i] == m[ks[i]]
  {
    seq(|ks|, i requires 0 <= i < |ks| => m[ks[i]])
  }

  function Reverse<T>(s: seq<T>): (r: seq<T>)
    ensures |r| == |s|
    ensures forall i :: 0 <= i < |s| ==> r[i] == s[|s| - 1 - i]
  {
    seq(|s|, i requires 0 <= i < |s| => s[|s| - 1 - i])
  }

  /** `stamp` grows with the key: rows inserted later carry larger stamps. */
  ghost predicate Chronological<T>(m: map<int, T>, stamp: T -> int) {
    forall i, j :: i in m && j in m && i < j ==> stamp(m[i]) < stamp(m[j])
  }

  /** Rows listed in ascending key order are in ascending stamp order. */
  lemma RowsChronological<T>(m: map<int, T>, stamp: T -> int, ks: seq<int>)
    requires forall i :: 0 <= i < |ks| ==> ks[i] in m
    requires StrictlyIncreasing(ks) && Chronological(m, stamp)
    ensures forall i, j :: 0 <= i < j < |ks| ==> stamp(Rows(m, ks)[i]) < stamp(Rows(m, ks)[j])
  {
    var rows := Rows(m, ks);
    forall i, j | 0 <= i < j < |ks| ensures stamp(rows[i]) < stamp(rows[j]) {
      assert ks[i] < ks[j];
    }
  }

  /** With every row stored under its own key (`key(m[k]) == k`, all keys
      below `hi`), a query returns exactly the rows that satisfy `keep`. */
  lemma RowsExact<T>(m: map<int, T>, keep: T -> bool, hi: int, key: T -> int)
    requires forall k :: k in m ==> 1 <= k < hi && key(m[k]) == k
    ensures forall x :: x in Rows(m, Ascending(m, keep, hi)) <==> key(x) in m && m[key(x)] == x && keep(x)
  {
    var ks := Ascending(m, keep, hi);
    var rows := Rows(m, ks);
    forall x | x in rows ensures key(x) in m && m[key(x)] == x && keep(x) {
      var i :| 0 <= i < |rows| && rows[i] == x;
      assert x == m[ks[i]];
    }
    forall x | key(x) in m && m[key(x)] == x && keep(x) ensures x in rows {
      assert key(x) in ks;
      var i :| 0 <= i < |ks| && ks[i] == key(x);
      assert rows[i] == x;
    }
  }

  lemma ReverseSameElements<T>(s: seq<T>)
    ensures forall x :: x in Reverse(s) <==> x in s
  {
    var r := Reverse(s);
    forall x | x in s ensures x in r {
      var i :| 0 <= i < |s| && s[i] == x;
      assert r[|s| - 1 - i] == x;
    }
  }
}

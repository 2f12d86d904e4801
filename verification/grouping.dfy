/** Split-apply-combine: `df.groupby(cols)` splits the rows into one group per
    distinct key, listed in ascending key order, each holding the rows with that
    key in their original order. */
module Grouping {
  import opened Records
  import opened Seqs
  import opened Keys

  datatype Group = Group(key: Key, members: seq<Movement>)

  /** The mask "this row's key is `k`". */
  function HasKey(keyOf: Movement -> Key, k: Key): Movement -> bool
  {
    m => keyOf(m) == k
  }

  function GroupKeys(gs: seq<Group>): (ks: seq<Key>)
    ensures |ks| == |gs|
    ensures forall i :: 0 <= i < |gs| ==> ks[i] == gs[i].key
    decreases |gs|
  {
    if |gs| == 0 then [] else [gs[0].key] + GroupKeys(gs[1..])
  }

  /** The mask "this row's key is one of the keys of `gs`". */
  function InGroups(keyOf: Movement -> Key, gs: seq<Group>): Movement -> bool
  {
    m => keyOf(m) in GroupKeys(gs)
  }

  /** Every group of `gs` holds exactly the rows of `rows` with its key, in order. */
  ghost predicate GroupsOf(rows: seq<Movement>, keyOf: Movement -> Key, gs: seq<Group>)
  {
    forall i :: 0 <= i < |gs| ==> gs[i].members == Keep(rows, HasKey(keyOf, gs[i].key))
  }

  ghost predicate DistinctKeys(gs: seq<Group>)
  {
    forall i, j :: 0 <= i < j < |gs| ==> gs[i].key != gs[j].key
  }

  /** `groupby`: one group per distinct key, ascending, none of them empty. */
  function Split(rows: seq<Movement>, keyOf: Movement -> Key): (gs: seq<Group>)
    ensures forall i, j :: 0 <= i < j < |gs| ==> KeyLess(gs[i].key, gs[j].key)
    ensures GroupsOf(rows, keyOf, gs)
    ensures forall i :: 0 <= i < |gs| ==> |gs[i].members| > 0
    ensures forall m :: m in rows ==> keyOf(m) in GroupKeys(gs)
    ensures |gs| <= |rows|
  {
    var all := KeysOf(rows, keyOf);
    var ks := DistinctSorted(all);
    var gs := GroupsFor(rows, keyOf, ks);
    assert GroupKeys(gs) == ks;
    assert forall i :: 0 <= i < |gs| ==> |gs[i].members| > 0 by {
      forall i | 0 <= i < |gs|
        ensures |gs[i].members| > 0
      {
        assert ks[i] in all;
        var j :| 0 <= j < |all| && all[j] == ks[i];
        assert HasKey(keyOf, ks[i])(rows[j]);
        assert rows[j] in gs[i].members;
      }
    }
    assert forall m :: m in rows ==> keyOf(m) in ks by {
      forall m | m in rows
        ensures keyOf(m) in ks
      {
        var j :| 0 <= j < |rows| && rows[j] == m;
        assert all[j] == keyOf(m);
      }
    }
    gs
  }

  /** The key column. */
  function KeysOf(rows: seq<Movement>, keyOf: Movement -> Key): (ks: seq<Key>)
    ensures |ks| == |rows|
    ensures forall i :: 0 <= i < |rows| ==> ks[i] == keyOf(rows[i])
    decreases |rows|
  {
    if |rows| == 0 then [] else [keyOf(rows[0])] + KeysOf(rows[1..], keyOf)
  }

  /** One group per key of `ks`, holding the rows with that key. */
  function GroupsFor(rows: seq<Movement>, keyOf: Movement -> Key, ks: seq<Key>): (gs: seq<Group>)
    ensures |gs| == |ks|
    ensures forall i :: 0 <= i < |ks| ==> gs[i] == Group(ks[i], Keep(rows, HasKey(keyOf, ks[i])))
    decreases |ks|
  {
    if |ks| == 0 then []
    else [Group(ks[0], Keep(rows, HasKey(keyOf, ks[0])))] + GroupsFor(rows, keyOf, ks[1..])
  }

  /** The number of rows over all groups. */
  function SizeOverGroups(gs: seq<Group>): nat
    decreases |gs|
  {
    if |gs| == 0 then 0 else |gs[0].members| + SizeOverGroups(gs[1..])
  }

  /** The sum of `w` over all groups. */
  function SumOverGroups(gs: seq<Group>, w: Movement -> real): real
    decreases |gs|
  {
    if |gs| == 0 then 0.0 else SumBy(gs[0].members, w) + SumOverGroups(gs[1..], w)
  }

  /** Groups with distinct keys together hold exactly the rows whose key is one of theirs. */
  lemma {:induction false} GroupsCover(rows: seq<Movement>, keyOf: Movement -> Key, gs: seq<Group>, w: Movement -> real)
    requires GroupsOf(rows, keyOf, gs)
    requires DistinctKeys(gs)
    ensures SizeOverGroups(gs) == |Keep(rows, InGroups(keyOf, gs))|
    ensures SumOverGroups(gs, w) == SumBy(Keep(rows, InGroups(keyOf, gs)), w)
    decreases |gs|
  {
    if |gs| == 0 {
      KeepNone(rows, InGroups(keyOf, gs));
    } else {
      var tail := gs[1..];
      assert GroupsOf(rows, keyOf, tail) by {
        forall i | 0 <= i < |tail|
          ensures tail[i].members == Keep(rows, HasKey(keyOf, tail[i].key))
        {
          assert tail[i] == gs[i + 1];
        }
      }
      assert DistinctKeys(tail) by {
        forall i, j | 0 <= i < j < |tail|
          ensures tail[i].key != tail[j].key
        {
          assert tail[i] == gs[i + 1] && tail[j] == gs[j + 1];
        }
      }
      GroupsCover(rows, keyOf, tail, w);
      var p := HasKey(keyOf, gs[0].key);
      var q := InGroups(keyOf, tail);
      SplitHead(rows, keyOf, gs);
      KeepDisjointLength(rows, p, q);
      KeepDisjointSum(rows, p, q, w);
    }
  }

  /** The mask of a non-empty group list is the mask of its first key or of the rest. */
  lemma SplitHead(rows: seq<Movement>, keyOf: Movement -> Key, gs: seq<Group>)
    requires |gs| > 0
    requires DistinctKeys(gs)
    ensures forall x :: x in rows ==> !(HasKey(keyOf, gs[0].key)(x) && InGroups(keyOf, gs[1..])(x))
    ensures Keep(rows, InGroups(keyOf, gs)) == Keep(rows, Either(HasKey(keyOf, gs[0].key), InGroups(keyOf, gs[1..])))
  {
    var tail := gs[1..];
    var p := HasKey(keyOf, gs[0].key);
    var q := InGroups(keyOf, tail);
    assert GroupKeys(gs) == [gs[0].key] + GroupKeys(tail);
    assert forall x :: x in rows && p(x) ==> !q(x);
    assert forall x :: InGroups(keyOf, gs)(x) == Either(p, q)(x);
    KeepSame(rows, InGroups(keyOf, gs), Either(p, q));
  }

  /** `groupby` loses no row: the group sizes add up to the number of rows and
      the group sums of any weight add up to its sum over all rows. */
  lemma SplitPartitions(rows: seq<Movement>, keyOf: Movement -> Key, w: Movement -> real)
    ensures SizeOverGroups(Split(rows, keyOf)) == |rows|
    ensures SumOverGroups(Split(rows, keyOf), w) == SumBy(rows, w)
  {
    var gs := Split(rows, keyOf);
    assert DistinctKeys(gs) by {
      forall i, j | 0 <= i < j < |gs|
        ensures gs[i].key != gs[j].key
      {
        KeyLessIrreflexive(gs[i].key);
      }
    }
    GroupsCover(rows, keyOf, gs, w);
    KeepAll(rows, InGroups(keyOf, gs));
  }
}

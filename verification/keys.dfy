/** Group keys.  A `groupby` over several columns keys each group by the tuple
    of its column values and lists the groups in ascending tuple order; a key
    here is that tuple, with string columns compared the way Python compares
    strings (code point by code point, a proper prefix first). */
module Keys {

  datatype Field = S(s: string) | I(i: int)

  type Key = seq<Field>

  /** Python's `<` on `str`. */
  predicate StrLess(a: string, b: string)
    decreases |a|
  {
    && |b| > 0
    && (|| |a| == 0
        || a[0] < b[0]
        || (a[0] == b[0] && StrLess(a[1..], b[1..])))
  }

  predicate FieldLess(a: Field, b: Field)
  {
    match (a, b)
    case (I(x), I(y)) => x < y
    case (S(x), S(y)) => StrLess(x, y)
    case (I(_), S(_)) => true
    case (S(_), I(_)) => false
  }

  /** Lexicographic order on keys. */
  predicate KeyLess(a: Key, b: Key)
    decreases |a|
  {
    && |b| > 0
    && (|| |a| == 0
        || FieldLess(a[0], b[0])
        || (a[0] == b[0] && KeyLess(a[1..], b[1..])))
  }

  lemma {:induction false} StrLessIrreflexive(a: string)
    ensures !StrLess(a, a)
    decreases |a|
  {
    if |a| > 0 {
      StrLessIrreflexive(a[1..]);
    }
  }

  lemma {:induction false} StrLessTransitive(a: string, b: string, c: string)
    requires StrLess(a, b) && StrLess(b, c)
    ensures StrLess(a, c)
    decreases |a|
  {
    if |a| > 0 && a[0] == b[0] && b[0] == c[0] {
      StrLessTransitive(a[1..], b[1..], c[1..]);
    }
  }

  lemma {:induction false} StrLessTotal(a: string, b: string)
    ensures a == b || StrLess(a, b) || StrLess(b, a)
    decreases |a|
  {
    if |a| > 0 && |b| > 0 && a[0] == b[0] {
      StrLessTotal(a[1..], b[1..]);
      if a[1..] == b[1..] {
        assert a == [a[0]] + a[1..] && b == [b[0]] + b[1..];
      }
    }
  }

  lemma FieldLessIrreflexive(a: Field)
    ensures !FieldLess(a, a)
  {
    if a.S? {
      StrLessIrreflexive(a.s);
    }
  }

  lemma FieldLessTransitive(a: Field, b: Field, c: Field)
    requires FieldLess(a, b) && FieldLess(b, c)
    ensures FieldLess(a, c)
  {
    if a.S? && b.S? && c.S? {
      StrLessTransitive(a.s, b.s, c.s);
    }
  }

  lemma FieldLessTotal(a: Field, b: Field)
    ensures a == b || FieldLess(a, b) || FieldLess(b, a)
  {
    if a.S? && b.S? {
      StrLessTotal(a.s, b.s);
    }
  }

  lemma {:induction false} KeyLessIrreflexive(a: Key)
    ensures !KeyLess(a, a)
    decreases |a|
  {
    if |a| > 0 {
      FieldLessIrreflexive(a[0]);
      KeyLessIrreflexive(a[1..]);
    }
  }

  lemma {:induction false} KeyLessTransitive(a: Key, b: Key, c: Key)
    requires KeyLess(a, b) && KeyLess(b, c)
    ensures KeyLess(a, c)
    decreases |a|
  {
    if |a| > 0 {
      if FieldLess(a[0], b[0]) && FieldLess(b[0], c[0]) {
        FieldLessTransitive(a[0], b[0], c[0]);
      } else if a[0] == b[0] && b[0] == c[0] {
        KeyLessTransitive(a[1..], b[1..], c[1..]);
      }
    }
  }

  lemma {:induction false} KeyLessTotal(a: Key, b: Key)
    ensures a == b || KeyLess(a, b) || KeyLess(b, a)
    decreases |a|
  {
    if |a| > 0 && |b| > 0 {
      FieldLessTotal(a[0], b[0]);
      if a[0] == b[0] {
        KeyLessTotal(a[1..], b[1..]);
        if a[1..] == b[1..] {
          assert a == [a[0]] + a[1..] && b == [b[0]] + b[1..];
        }
      }
    }
  }

  /** Keys listed in ascending order without repetition. */
  ghost predicate StrictlyIncreasing(ks: seq<Key>)
  {
    forall i, j :: 0 <= i < j < |ks| ==> KeyLess(ks[i], ks[j])
  }

  /** Adds `k` to an ascending key list unless it is already there. */
  function InsertKey(k: Key, s: seq<Key>): (r: seq<Key>)
    requires StrictlyIncreasing(s)
    ensures StrictlyIncreasing(r)
    ensures forall x :: x in r <==> x in s || x == k
    decreases |s|
  {
    if |s| == 0 then [k]
    else if KeyLess(k, s[0]) then
      assert forall j :: 0 <= j < |s| ==> KeyLess(k, s[j]) by {
        forall j | 0 < j < |s|
          ensures KeyLess(k, s[j])
        {
          KeyLessTransitive(k, s[0], s[j]);
        }
      }
      [k] + s
    else if k == s[0] then s
    else
      var tail := InsertKey(k, s[1..]);
      assert forall y :: y in tail ==> KeyLess(s[0], y) by {
        KeyLessTotal(k, s[0]);
      }
      assert s == [s[0]] + s[1..];
      [s[0]] + tail
  }

  /** The distinct keys of `ks`, ascending: the group index of a `groupby`. */
  function DistinctSorted(ks: seq<Key>): (r: seq<Key>)
    ensures StrictlyIncreasing(r)
    ensures forall x :: x in r <==> x in ks
    ensures |r| <= |ks|
    decreases |ks|
  {
    if |ks| == 0 then []
    else
      var tail := DistinctSorted(ks[1..]);
      assert ks == [ks[0]] + ks[1..];
      var r := InsertKey(ks[0], tail);
      DistinctLength(r, ks);
      r
  }

  /** A repetition-free list drawn from `ks` is no longer than `ks`. */
  lemma DistinctLength(r: seq<Key>, ks: seq<Key>)
    requires StrictlyIncreasing(r)
    requires forall x :: x in r ==> x in ks
    ensures |r| <= |ks|
  {
    var sr := set x | x in r;
    var sk := set x | x in ks;
    assert sk == sr + (sk - sr);
    SetSizeBound(ks);
    DistinctSetSize(r);
  }

  lemma {:induction false} SetSizeBound(ks: seq<Key>)
    ensures |set x | x in ks| <= |ks|
    decreases |ks|
  {
    if |ks| > 0 {
      SetSizeBound(ks[1..]);
      assert (set x | x in ks) == (set x | x in ks[1..]) + {ks[0]};
    }
  }

  lemma {:induction false} DistinctSetSize(r: seq<Key>)
    requires StrictlyIncreasing(r)
    ensures |set x | x in r| == |r|
    decreases |r|
  {
    if |r| > 0 {
      DistinctSetSize(r[1..]);
      assert (set x | x in r) == (set x | x in r[1..]) + {r[0]};
      if r[0] in r[1..] {
        var j :| 0 <= j < |r[1..]| && r[1..][j] == r[0];
        assert KeyLess(r[0], r[j + 1]);
        KeyLessIrreflexive(r[0]);
      }
    }
  }
}

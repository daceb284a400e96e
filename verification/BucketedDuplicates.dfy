/** The exact uniqueness check of the acceptance audit, split into hash buckets. */
module BucketedDuplicates {

  const BUCKETS := 64

  datatype Row<K> = Row(key: K, isDeleted: bool, isCurrent: bool)

  /** The keys of the rows the WHERE clause admits, in some order. */
  function Keys<K>(rows: seq<Row<K>>, currentOnly: bool): seq<K> {
    if rows == [] then []
    else
      (if !rows[0].isDeleted && (currentOnly ==> rows[0].isCurrent) then [rows[0].key] else [])
      + Keys(rows[1..], currentOnly)
  }

  /** Every key belongs to a row that is not deleted, and current where asked. */
  lemma {:induction false} RowOfKey<K>(rows: seq<Row<K>>, currentOnly: bool, k: K) returns (i: nat)
    requires k in Keys(rows, currentOnly)
    ensures i < |rows| && rows[i].key == k && !rows[i].isDeleted && (!currentOnly || rows[i].isCurrent)
  {
    if k in Keys(rows[1..], currentOnly) {
      i := RowOfKey(rows[1..], currentOnly, k);
      i := i + 1;
    } else {
      i := 0;
    }
  }

  /** And every such row has its key among them. */
  lemma {:induction false} KeyOfRow<K>(rows: seq<Row<K>>, currentOnly: bool, i: nat)
    requires i < |rows| && !rows[i].isDeleted && (!currentOnly || rows[i].isCurrent)
    ensures rows[i].key in Keys(rows, currentOnly)
  {
    if i > 0 { KeyOfRow(rows[1..], currentOnly, i - 1); }
  }

  lemma {:induction false} KeysConcat<K>(a: seq<Row<K>>, b: seq<Row<K>>, currentOnly: bool)
    ensures Keys(a + b, currentOnly) == Keys(a, currentOnly) + Keys(b, currentOnly)
  {
    if a == [] {
      assert a + b == b;
    } else {
      assert (a + b)[1..] == a[1..] + b;
      KeysConcat(a[1..], b, currentOnly);
    }
  }

  function Indices<K>(rows: seq<Row<K>>, currentOnly: bool): set<nat> {
    set i: nat | i < |rows| && !rows[i].isDeleted && (!currentOnly || rows[i].isCurrent)
  }

  lemma IndicesAre<K>(rows: seq<Row<K>>)
    ensures Indices(rows, false) == set i: nat | i < |rows| && !rows[i].isDeleted
    ensures Indices(rows, true) == set i: nat | i < |rows| && !rows[i].isDeleted && rows[i].isCurrent
  {
  }

  /** There are as many of them as such rows. */
  lemma {:induction false} KeyCount<K>(rows: seq<Row<K>>, currentOnly: bool)
    ensures |Keys(rows, currentOnly)| == |Indices(rows, currentOnly)|
  {
    if rows != [] {
      var n := |rows| - 1;
      var init, last := rows[..n], rows[n];
      KeyCount(init, currentOnly);
      assert rows == init + [last];
      KeysConcat(init, [last], currentOnly);
      var shown := !last.isDeleted && (!currentOnly || last.isCurrent);
      assert Keys([last], currentOnly) == if shown then [last.key] else [] by { assert [last][1..] == []; }
      IndicesGrow(rows, currentOnly);
    }
  }

  lemma IndicesGrow<K>(rows: seq<Row<K>>, currentOnly: bool)
    requires rows != []
    ensures var n := |rows| - 1;
            |Indices(rows, currentOnly)| == |Indices(rows[..n], currentOnly)|
              + if !rows[n].isDeleted && (!currentOnly || rows[n].isCurrent) then 1 else 0
  {
    var n := |rows| - 1;
    var init, last := rows[..n], rows[n];
    assert Indices(rows, currentOnly)
           == Indices(init, currentOnly) + if !last.isDeleted && (!currentOnly || last.isCurrent) then {n} else {};
  }

  /** Rows that are not deleted, minus the distinct keys among them. */
  lemma ExcessOfRows<K>(rows: seq<Row<K>>)
    ensures |Keys(rows, false)| == |set i: nat | i < |rows| && !rows[i].isDeleted|
    ensures Distinct(Keys(rows, false)) == set r | r in rows && !r.isDeleted :: r.key
  {
    KeyCount(rows, false);
    var keys := set r | r in rows && !r.isDeleted :: r.key;
    forall k | k in Keys(rows, false) ensures k in keys {
      var i := RowOfKey(rows, false, k);
      assert rows[i] in rows;
    }
    forall r | r in rows && !r.isDeleted ensures r.key in Keys(rows, false) {
      var i :| 0 <= i < |rows| && rows[i] == r;
      KeyOfRow(rows, false, i);
    }
    assert Distinct(Keys(rows, false)) == keys;
    IndicesAre(rows);
  }

  lemma ExcessOfCurrentRows<K>(rows: seq<Row<K>>)
    ensures |Keys(rows, true)| == |set i: nat | i < |rows| && !rows[i].isDeleted && rows[i].isCurrent|
    ensures Distinct(Keys(rows, true)) == set r | r in rows && !r.isDeleted && r.isCurrent :: r.key
  {
    KeyCount(rows, true);
    var keys := set r | r in rows && !r.isDeleted && r.isCurrent :: r.key;
    forall k | k in Keys(rows, true) ensures k in keys {
      var i := RowOfKey(rows, true, k);
      assert rows[i] in rows;
    }
    forall r | r in rows && !r.isDeleted && r.isCurrent ensures r.key in Keys(rows, true) {
      var i :| 0 <= i < |rows| && rows[i] == r;
      KeyOfRow(rows, true, i);
    }
    assert Distinct(Keys(rows, true)) == keys;
    IndicesAre(rows);
  }

  function Filter<K>(keys: seq<K>, keep: K -> bool): seq<K> {
    if keys == [] then [] else (if keep(keys[0]) then [keys[0]] else []) + Filter(keys[1..], keep)
  }

  function Not<K(==)>(key: K): K -> bool { k => k != key }

  function Distinct<K>(keys: seq<K>): set<K> { set k | k in keys }

  /** SELECT sum(group_count - 1) over the groups of equal keys with group_count > 1. */
  function DuplicateExcess<K(==)>(keys: seq<K>): (excess: nat)
    decreases |keys|
  {
    if keys == [] then 0
    else
      var others := Filter(keys, Not(keys[0]));
      FilterSize(keys, Not(keys[0]));
      FilterDrops(keys, Not(keys[0]), 0);
      var groupCount := |keys| - |others|;
      (if groupCount > 1 then groupCount - 1 else 0) + DuplicateExcess(others)
  }

  lemma {:induction false} FilterSize<K>(keys: seq<K>, keep: K -> bool)
    ensures |Filter(keys, keep)| <= |keys|
  {
    if keys != [] { FilterSize(keys[1..], keep); }
  }

  lemma {:induction false} FilterDrops<K>(keys: seq<K>, keep: K -> bool, i: nat)
    requires i < |keys| && !keep(keys[i])
    ensures |Filter(keys, keep)| < |keys|
  {
    if i == 0 { FilterSize(keys[1..], keep); } else { FilterDrops(keys[1..], keep, i - 1); }
  }

  lemma {:induction false} FilterIn<K>(keys: seq<K>, keep: K -> bool)
    ensures forall k :: k in Filter(keys, keep) <==> k in keys && keep(k)
  {
    if keys != [] { FilterIn(keys[1..], keep); }
  }

  /** The grouped sum is the row count minus the number of distinct keys. */
  lemma {:induction false} ExcessIsCountMinusDistinct<K>(keys: seq<K>)
    ensures DuplicateExcess(keys) == |keys| - |Distinct(keys)|
    decreases |keys|
  {
    if keys != [] {
      var others := Filter(keys, Not(keys[0]));
      FilterDrops(keys, Not(keys[0]), 0);
      FilterIn(keys, Not(keys[0]));
      ExcessIsCountMinusDistinct(others);
      assert Distinct(keys) == Distinct(others) + {keys[0]};
    }
  }

  function InBucket<K>(hash: K -> nat, bucket: int): K -> bool {
    k => hash(k) % BUCKETS == bucket
  }

  function BelowBucket<K>(hash: K -> nat, bucket: int): K -> bool {
    k => hash(k) % BUCKETS < bucket
  }

  ghost function Below<K>(keys: seq<K>, hash: K -> nat, bucket: int): seq<K> {
    Filter(keys, BelowBucket(hash, bucket))
  }

  lemma {:induction false} BelowSize<K>(keys: seq<K>, hash: K -> nat, bucket: int)
    ensures |Below(keys, hash, bucket + 1)| == |Below(keys, hash, bucket)| + |Filter(keys, InBucket(hash, bucket))|
  {
    if keys != [] {
      BelowSize(keys[1..], hash, bucket);
      FilterStep(keys, BelowBucket(hash, bucket + 1));
      FilterStep(keys, BelowBucket(hash, bucket));
      FilterStep(keys, InBucket(hash, bucket));
    }
  }

  lemma FilterStep<K>(keys: seq<K>, keep: K -> bool)
    requires keys != []
    ensures |Filter(keys, keep)| == (if keep(keys[0]) then 1 else 0) + |Filter(keys[1..], keep)|
  {
  }

  /** Equal keys share a bucket, so the distinct keys split with the buckets. */
  lemma BucketPartition<K>(keys: seq<K>, hash: K -> nat, bucket: int)
    ensures var lower, own := Below(keys, hash, bucket), Filter(keys, InBucket(hash, bucket));
            |Distinct(Below(keys, hash, bucket + 1))| == |Distinct(lower)| + |Distinct(own)|
  {
    hide Filter;
    FilterIn(keys, BelowBucket(hash, bucket));
    FilterIn(keys, BelowBucket(hash, bucket + 1));
    FilterIn(keys, InBucket(hash, bucket));
    var lower, own := Distinct(Below(keys, hash, bucket)), Distinct(Filter(keys, InBucket(hash, bucket)));
    assert Distinct(Below(keys, hash, bucket + 1)) == lower + own;
    assert lower !! own;
  }

  lemma BucketAdds<K>(keys: seq<K>, hash: K -> nat, bucket: nat)
    ensures DuplicateExcess(Below(keys, hash, bucket + 1))
            == DuplicateExcess(Below(keys, hash, bucket)) + DuplicateExcess(Filter(keys, InBucket(hash, bucket)))
  {
    hide Filter, DuplicateExcess, Below, Distinct;
    ExcessIsCountMinusDistinct(Below(keys, hash, bucket));
    ExcessIsCountMinusDistinct(Filter(keys, InBucket(hash, bucket)));
    ExcessIsCountMinusDistinct(Below(keys, hash, bucket + 1));
    BelowSize(keys, hash, bucket);
    BucketPartition(keys, hash, bucket);
  }

  lemma {:induction false} FilterAll<K>(keys: seq<K>, keep: K -> bool)
    requires forall k :: k in keys ==> keep(k)
    ensures Filter(keys, keep) == keys
  {
    if keys != [] { FilterAll(keys[1..], keep); }
  }

  lemma {:induction false} FilterNone<K>(keys: seq<K>, keep: K -> bool)
    requires forall k :: k in keys ==> !keep(k)
    ensures Filter(keys, keep) == []
  {
    if keys != [] { FilterNone(keys[1..], keep); }
  }

  /** The 64 bucketed queries add up to the unbucketed one, whatever the hash. */
  method PartyDuplicateExcess<K(==)>(parties: seq<Row<K>>, hash: K -> nat) returns (duplicateExcess: nat)
    ensures duplicateExcess == DuplicateExcess(Keys(parties, true))
  {
    var keys := Keys(parties, true);
    duplicateExcess := 0;
    FilterNone(keys, BelowBucket(hash, 0));
    for bucket := 0 to BUCKETS
      invariant duplicateExcess == DuplicateExcess(Below(keys, hash, bucket))
    {
      BucketAdds(keys, hash, bucket);
      duplicateExcess := duplicateExcess + DuplicateExcess(Filter(keys, InBucket(hash, bucket)));
    }
    FilterAll(keys, BelowBucket(hash, BUCKETS));
  }

  /** What replaces `count() - uniqExact(...)` over the three current tables. */
  method UniquenessQuery<C(==), S(==), P(==)>(
      cases: seq<Row<C>>, scopes: seq<Row<S>>, parties: seq<Row<P>>, hash: P -> nat)
    returns (caseExcess: nat, scopeExcess: nat, partyExcess: nat)
    ensures var keys := Keys(cases, false); caseExcess == |keys| - |Distinct(keys)|
    ensures var keys := Keys(scopes, false); scopeExcess == |keys| - |Distinct(keys)|
    ensures var keys := Keys(parties, true); partyExcess == |keys| - |Distinct(keys)|
    ensures caseExcess == |set i: nat | i < |cases| && !cases[i].isDeleted|
                          - |set r | r in cases && !r.isDeleted :: r.key|
    ensures scopeExcess == |set i: nat | i < |scopes| && !scopes[i].isDeleted|
                           - |set r | r in scopes && !r.isDeleted :: r.key|
    ensures partyExcess == |set i: nat | i < |parties| && !parties[i].isDeleted && parties[i].isCurrent|
                           - |set r | r in parties && !r.isDeleted && r.isCurrent :: r.key|
  {
    ExcessOfRows(cases);
    ExcessOfRows(scopes);
    ExcessOfCurrentRows(parties);
    var caseKeys := Keys(cases, false);
    var scopeKeys := Keys(scopes, false);
    ghost var partyKeys := Keys(parties, true);
    caseExcess, scopeExcess := DuplicateExcess(caseKeys), DuplicateExcess(scopeKeys);
    partyExcess := PartyDuplicateExcess(parties, hash);
    ExcessIsCountMinusDistinct(caseKeys);
    ExcessIsCountMinusDistinct(scopeKeys);
    ExcessIsCountMinusDistinct(partyKeys);
  }
}

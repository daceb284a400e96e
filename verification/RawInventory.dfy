/** The raw-file inventory: a size-bounded min-heap keeps the newest matching files while one
    pass counts all files into buckets. */
module RawInventory {
  import opened Common
  import opened Ordering

  datatype RawFile = RawFile(
    domain: string,
    area: string,
    rawClass: string,
    name: string,
    path: string,      // relative to the raw root
    suffix: string,
    size: nat,
    mtime: int)        // nanoseconds

  // ---------- The order of heap entries: (mtime, path) ----------

  predicate Older(a: RawFile, b: RawFile) {
    a.mtime < b.mtime || (a.mtime == b.mtime && Less(a.path, b.path))
  }

  lemma OlderTransitive(a: RawFile, b: RawFile, c: RawFile)
    requires Older(a, b) && Older(b, c)
    ensures Older(a, c)
  {
    if a.mtime == b.mtime == c.mtime { LessTransitive(a.path, b.path, c.path); }
  }

  lemma OlderIrreflexive(a: RawFile)
    ensures !Older(a, a)
  {
    LessIrreflexive(a.path);
  }

  lemma OlderTotal(a: RawFile, b: RawFile)
    ensures a.path != b.path ==> Older(a, b) || Older(b, a)
    ensures !(Older(a, b) && Older(b, a))
  {
    LessTotal(a.path, b.path);
    if Older(a, b) && Older(b, a) {
      OlderTransitive(a, b, a);
      OlderIrreflexive(a);
    }
  }

  /** Not newer. For entries that are neither older nor newer both directions hold. */
  predicate Leq(a: RawFile, b: RawFile) { !Older(b, a) }

  lemma LeqTransitive(a: RawFile, b: RawFile, c: RawFile)
    requires Leq(a, b) && Leq(b, c)
    ensures Leq(a, c)
  {
    if Older(c, a) {
      LessTotal(a.path, b.path);
      LessTotal(b.path, c.path);
      if Older(a, b) { OlderTransitive(c, a, b); } else if Older(b, c) { OlderTransitive(b, c, a); }
    }
  }

  // ---------- The min-heap ----------

  predicate HeapAt(h: seq<RawFile>, i: nat)
    requires i < |h|
  {
    i == 0 || Leq(h[(i - 1) / 2], h[i])
  }

  predicate IsHeap(h: seq<RawFile>) {
    forall i :: 0 <= i < |h| ==> HeapAt(h, i)
  }

  lemma {:induction false} RootIsOldest(h: seq<RawFile>, i: nat)
    requires IsHeap(h) && i < |h|
    ensures Leq(h[0], h[i])
  {
    if i == 0 {
      OlderIrreflexive(h[0]);
    } else {
      RootIsOldest(h, (i - 1) / 2);
      assert HeapAt(h, i);
      LeqTransitive(h[0], h[(i - 1) / 2], h[i]);
    }
  }

  function Swap(h: seq<RawFile>, i: nat, j: nat): (r: seq<RawFile>)
    requires i < |h| && j < |h|
    ensures |r| == |h| && multiset(r) == multiset(h)
  {
    h[i := h[j]][j := h[i]]
  }

  /** A heap except between `i` and its parent, and in order across `i`. */
  ghost predicate HeapBut(h: seq<RawFile>, i: nat) {
    && i < |h|
    && (forall j :: 0 <= j < |h| && j != i ==> HeapAt(h, j))
    && (forall j :: 0 < j < |h| && (j - 1) / 2 == i && i > 0 ==> Leq(h[(i - 1) / 2], h[j]))
  }

  lemma SwapUp(h: seq<RawFile>, i: nat)
    requires HeapBut(h, i) && i > 0 && !HeapAt(h, i)
    ensures HeapBut(Swap(h, i, (i - 1) / 2), (i - 1) / 2)
  {
    var p := (i - 1) / 2;
    var r := Swap(h, i, p);
    OlderTotal(h[i], h[p]);
    assert Leq(h[i], h[p]);
    forall j | 0 <= j < |r| && j != p ensures HeapAt(r, j) {
      assert j != i ==> HeapAt(h, j);
      if j > 0 && (j - 1) / 2 == p && j != i { LeqTransitive(h[i], h[p], h[j]); }
    }
    forall j | 0 < j < |r| && (j - 1) / 2 == p && p > 0 ensures Leq(r[(p - 1) / 2], r[j]) {
      assert HeapAt(h, p);
      if j != i {
        assert HeapAt(h, j);
        LeqTransitive(h[(p - 1) / 2], h[p], h[j]);
      }
    }
  }

  /** A heap except between `i` and its children, and in order across `i`. */
  ghost predicate HeapAbove(h: seq<RawFile>, i: nat) {
    && i < |h|
    && (forall j :: 0 < j < |h| && (j - 1) / 2 != i ==> HeapAt(h, j))
    && (forall j :: 0 < j < |h| && (j - 1) / 2 == i && i > 0 ==> Leq(h[(i - 1) / 2], h[j]))
  }

  lemma SwapDown(h: seq<RawFile>, i: nat, c: nat)
    requires HeapAbove(h, i) && 0 < c < |h| && (c - 1) / 2 == i && !HeapAt(h, c)
    requires forall j :: 0 < j < |h| && (j - 1) / 2 == i ==> Leq(h[c], h[j])
    ensures HeapAbove(Swap(h, i, c), c)
  {
    var r := Swap(h, i, c);
    forall j | 0 < j < |r| && (j - 1) / 2 != c ensures HeapAt(r, j) {
      if j == c {
        OlderTotal(h[i], h[c]);
      } else if j != i && (j - 1) / 2 != i {
        assert HeapAt(h, j);
      }
    }
    forall j | 0 < j < |r| && (j - 1) / 2 == c ensures Leq(r[(c - 1) / 2], r[j]) {
      assert HeapAt(h, j);
    }
  }

  lemma AppendHeap(h: seq<RawFile>, e: RawFile)
    requires IsHeap(h)
    ensures HeapBut(h + [e], |h|)
  {
    forall j | 0 <= j < |h| ensures HeapAt(h + [e], j) { assert HeapAt(h, j); }
  }

  lemma HeapButIsHeap(h: seq<RawFile>, i: nat)
    requires HeapBut(h, i) && (i == 0 || HeapAt(h, i))
    ensures IsHeap(h)
  {
  }

  lemma ReplaceTop(h: seq<RawFile>, e: RawFile)
    requires IsHeap(h) && h != []
    ensures HeapAbove(h[0 := e], 0)
  {
    var r := h[0 := e];
    forall j | 0 < j < |h| ensures (j - 1) / 2 != 0 ==> HeapAt(r, j) { assert HeapAt(h, j); }
  }

  lemma HeapAboveLeaf(h: seq<RawFile>, i: nat)
    requires HeapAbove(h, i) && 2 * i + 1 >= |h|
    ensures IsHeap(h)
  {
    forall j | 0 <= j < |h| ensures HeapAt(h, j) { assert j > 0 ==> (j - 1) / 2 != i; }
  }

  class RetainedHeap {
    var heap: seq<RawFile>

    constructor ()
      ensures heap == []
    {
      heap := [];
    }

    method Push(e: RawFile)
      requires IsHeap(heap)
      modifies this
      ensures IsHeap(heap) && multiset(heap) == multiset(old(heap)) + multiset{e}
    {
      hide HeapBut, HeapAt;
      AppendHeap(heap, e);
      heap := heap + [e];
      var i: nat := |heap| - 1;
      while i > 0 && !HeapAt(heap, i)
        invariant i < |heap| && HeapBut(heap, i)
        invariant multiset(heap) == multiset(old(heap)) + multiset{e}
      {
        SwapUp(heap, i);
        heap := Swap(heap, i, (i - 1) / 2);
        i := (i - 1) / 2;
      }
      HeapButIsHeap(heap, i);
    }

    method ReplaceRoot(e: RawFile)
      requires IsHeap(heap) && heap != []
      modifies this
      ensures IsHeap(heap) && multiset(heap) == multiset(old(heap)) - multiset{old(heap)[0]} + multiset{e}
    {
      hide HeapAbove, HeapAt, IsHeap;
      ReplaceTop(heap, e);
      heap := heap[0 := e];
      var i: nat := 0;
      while 2 * i + 1 < |heap|
        invariant i < |heap| && HeapAbove(heap, i)
        invariant multiset(heap) == multiset(old(heap)) - multiset{old(heap)[0]} + multiset{e}
        decreases |heap| - i
      {
        var c := 2 * i + 1;
        if c + 1 < |heap| && Older(heap[c + 1], heap[c]) { c := c + 1; }
        SmallerChild(heap, i, c);
        if HeapAt(heap, c) {
          return;
        }
        SwapDown(heap, i, c);
        heap := Swap(heap, i, c);
        i := c;
      }
      HeapAboveLeaf(heap, i);
    }

    /** One matching file of the scan. */
    method Retain(f: RawFile, k: nat, ghost files: seq<RawFile>, ghost filters: Filters, ghost i: nat)
      requires DistinctPaths(files) && i < |files| && files[i] == f
      requires Retains(heap, Matching(filters, files[..i]), k)
      modifies this
      ensures Retains(heap, Matching(filters, files[..i]) + [f], k)
    {
      hide NewestFirst, Take, Older, Leq;
      ghost var matched := Matching(filters, files[..i]);
      assert DistinctPaths(files[..i]);
      MatchingDistinct(filters, files[..i]);
      RetainsSize(heap, matched, k);
      if k == 0 {
        NothingRetained(heap, matched, f);
        return;
      }
      if |heap| < k {
        RetainsPush(matched, f, k);
        Push(f);
      } else {
        RootIsLast(heap, matched, k);
        RetainsReplace(matched, f, k);
        if Older(heap[0], f) { ReplaceRoot(f); }
      }
    }
  }

  lemma SmallerChild(h: seq<RawFile>, i: nat, c: nat)
    requires HeapAbove(h, i) && (c == 2 * i + 1 || c == 2 * i + 2) && c < |h|
    requires if c == 2 * i + 1 then c + 1 < |h| ==> !Older(h[c + 1], h[c]) else Older(h[c], h[c - 1])
    ensures forall j :: 0 < j < |h| && (j - 1) / 2 == i ==> Leq(h[c], h[j])
    ensures HeapAt(h, c) ==> IsHeap(h)
  {
    OlderIrreflexive(h[c]);
    if c == 2 * i + 2 { OlderTotal(h[c], h[c - 1]); }
    if HeapAt(h, c) {
      forall j | 0 <= j < |h| ensures HeapAt(h, j) {
        if j > 0 && (j - 1) / 2 == i { LeqTransitive(h[i], h[c], h[j]); }
      }
    }
  }

  // ---------- The specification: sort everything, newest first ----------

  function InsertNewestFirst(s: seq<RawFile>, e: RawFile): seq<RawFile> {
    if s == [] then [e]
    else if Older(s[0], e) then [e] + s
    else [s[0]] + InsertNewestFirst(s[1..], e)
  }

  function NewestFirst(s: seq<RawFile>): seq<RawFile> {
    if s == [] then [] else InsertNewestFirst(NewestFirst(s[..|s| - 1]), s[|s| - 1])
  }

  /** Strictly descending by (mtime, path). */
  ghost predicate Descending(s: seq<RawFile>) {
    forall i, j :: 0 <= i < j < |s| ==> Older(s[j], s[i])
  }

  ghost predicate DistinctPaths(s: seq<RawFile>) {
    forall i, j :: 0 <= i < j < |s| ==> s[i].path != s[j].path
  }

  lemma {:induction false} InsertKeepsAll(s: seq<RawFile>, e: RawFile)
    ensures multiset(InsertNewestFirst(s, e)) == multiset(s) + multiset{e}
    ensures |InsertNewestFirst(s, e)| == |s| + 1
  {
    if s != [] {
      assert s == [s[0]] + s[1..];
      if !Older(s[0], e) { InsertKeepsAll(s[1..], e); }
    }
  }

  lemma {:induction false} InsertDescends(s: seq<RawFile>, e: RawFile)
    requires Descending(s) && forall f :: f in s ==> f.path != e.path
    ensures Descending(InsertNewestFirst(s, e))
  {
    if s != [] {
      if Older(s[0], e) {
        forall j | 0 <= j < |s| ensures Older(s[j], e) {
          if j > 0 { OlderTransitive(s[j], s[0], e); }
        }
      } else {
        OlderTotal(s[0], e);
        InsertDescends(s[1..], e);
        InsertKeepsAll(s[1..], e);
        var rest := InsertNewestFirst(s[1..], e);
        forall f | f in rest ensures Older(f, s[0]) {
          assert f in multiset(rest);
          assert f in s[1..] || f == e;
        }
        assert forall j :: 0 <= j < |rest| ==> rest[j] in rest;
      }
    }
  }

  lemma {:induction false} NewestFirstKeepsAll(s: seq<RawFile>)
    ensures multiset(NewestFirst(s)) == multiset(s) && |NewestFirst(s)| == |s|
  {
    if s != [] {
      NewestFirstKeepsAll(s[..|s| - 1]);
      InsertKeepsAll(NewestFirst(s[..|s| - 1]), s[|s| - 1]);
      assert s == s[..|s| - 1] + [s[|s| - 1]];
    }
  }

  lemma {:induction false} NewestFirstDescends(s: seq<RawFile>)
    requires DistinctPaths(s)
    ensures Descending(NewestFirst(s))
  {
    if s != [] {
      var init := s[..|s| - 1];
      NewestFirstDescends(init);
      NewestFirstKeepsAll(init);
      forall f | f in NewestFirst(init) ensures f.path != s[|s| - 1].path {
        assert f in multiset(init);
        var i :| 0 <= i < |init| && init[i] == f;
        assert s[i] == f;
      }
      InsertDescends(NewestFirst(init), s[|s| - 1]);
    }
  }

  lemma SameNewest(a: seq<RawFile>, b: seq<RawFile>)
    requires Descending(a) && Descending(b) && multiset(a) == multiset(b) && a != [] && b != []
    ensures a[0] == b[0]
  {
    assert a[0] in multiset(b) && b[0] in multiset(a);
    var i :| 0 <= i < |b| && b[i] == a[0];
    var j :| 0 <= j < |a| && a[j] == b[0];
    OlderTotal(a[0], b[0]);
  }

  /** A strictly descending sequence is determined by its members. */
  lemma {:induction false} DescendingUnique(a: seq<RawFile>, b: seq<RawFile>)
    requires Descending(a) && Descending(b) && multiset(a) == multiset(b)
    ensures a == b
  {
    hide Older;
    assert |a| == |multiset(a)| == |multiset(b)| == |b|;
    if a != [] {
      SameNewest(a, b);
      assert a == [a[0]] + a[1..] && b == [b[0]] + b[1..];
      assert multiset(a[1..]) == multiset(a) - multiset{a[0]};
      assert multiset(b[1..]) == multiset(b) - multiset{b[0]};
      DescendingUnique(a[1..], b[1..]);
    }
  }

  function Without(b: seq<RawFile>, i: nat): seq<RawFile>
    requires i < |b|
  {
    b[..i] + b[i + 1..]
  }

  lemma WithoutMembers(b: seq<RawFile>, i: nat)
    requires i < |b|
    ensures multiset(Without(b, i)) == multiset(b) - multiset{b[i]}
  {
    assert b == b[..i] + ([b[i]] + b[i + 1..]);
  }

  lemma WithoutDistinct(b: seq<RawFile>, i: nat)
    requires DistinctPaths(b) && i < |b|
    ensures DistinctPaths(Without(b, i))
    ensures forall f :: f in Without(b, i) ==> f.path != b[i].path
  {
    var others := Without(b, i);
    assert forall j :: 0 <= j < |others| ==> others[j] == b[if j < i then j else j + 1];
  }

  lemma {:induction false} PermutationDistinct(a: seq<RawFile>, b: seq<RawFile>)
    requires multiset(a) == multiset(b) && DistinctPaths(b)
    ensures DistinctPaths(a)
  {
    hide Without;
    if a != [] {
      assert a[0] in multiset(b);
      var i :| 0 <= i < |b| && b[i] == a[0];
      var others := Without(b, i);
      WithoutMembers(b, i);
      WithoutDistinct(b, i);
      assert a == [a[0]] + a[1..];
      assert multiset(a[1..]) == multiset(others);
      PermutationDistinct(a[1..], others);
      forall j | 0 < j < |a| ensures a[j].path != a[0].path {
        assert a[1..][j - 1] in multiset(others);
      }
    }
  }

  // ---------- What the heap retains ----------

  function Take(s: seq<RawFile>, k: nat): seq<RawFile> {
    if k < |s| then s[..k] else s
  }

  /** The heap is a heap of the `k` newest files of `matched`. */
  ghost predicate Retains(heap: seq<RawFile>, matched: seq<RawFile>, k: nat) {
    IsHeap(heap) && multiset(heap) == multiset(Take(NewestFirst(matched), k))
  }

  lemma {:induction false} InsertBelow(s: seq<RawFile>, e: RawFile, k: nat)
    requires 0 < k <= |s| && Descending(s) && !Older(s[k - 1], e)
    ensures |InsertNewestFirst(s, e)| == |s| + 1
    ensures InsertNewestFirst(s, e)[..k] == s[..k]
  {
    InsertKeepsAll(s, e);
    if k > 1 {
      if Older(s[0], e) { OlderTransitive(s[k - 1], s[0], e); }
      InsertBelow(s[1..], e, k - 1);
    }
  }

  lemma {:induction false} InsertAbove(s: seq<RawFile>, e: RawFile, k: nat)
    requires 0 < k <= |s| && Older(s[k - 1], e)
    ensures |InsertNewestFirst(s, e)| == |s| + 1
    ensures InsertNewestFirst(s, e)[..k] == InsertNewestFirst(s[..k - 1], e)
  {
    hide Older;
    InsertKeepsAll(s, e);
    if !Older(s[0], e) {
      InsertAbove(s[1..], e, k - 1);
      assert s[1..][..k - 2] == s[..k - 1][1..];
    } else if k > 1 {
      assert s[..k - 1][0] == s[0];
    }
  }

  lemma RetainsSize(heap: seq<RawFile>, matched: seq<RawFile>, k: nat)
    requires Retains(heap, matched, k)
    ensures |heap| == if k < |matched| then k else |matched|
  {
    NewestFirstKeepsAll(matched);
    assert |heap| == |multiset(heap)| == |multiset(Take(NewestFirst(matched), k))|;
  }

  /** The root is the oldest retained file, the last of the k newest. */
  lemma RootIsLast(heap: seq<RawFile>, matched: seq<RawFile>, k: nat)
    requires Retains(heap, matched, k) && DistinctPaths(matched) && 0 < k <= |matched|
    ensures heap != [] && |NewestFirst(matched)| == |matched| && heap[0] == NewestFirst(matched)[k - 1]
  {
    hide NewestFirst, IsHeap, DistinctPaths, Older;
    NewestFirstKeepsAll(matched);
    NewestFirstDescends(matched);
    RetainsSize(heap, matched, k);
    var top := Take(NewestFirst(matched), k);
    assert top == NewestFirst(matched)[..k];
    assert heap[0] in multiset(top) && top[k - 1] in multiset(heap);
    var i :| 0 <= i < |top| && top[i] == heap[0];
    var j :| 0 <= j < |heap| && heap[j] == top[k - 1];
    RootIsOldest(heap, j);
  }

  lemma SnocNewestFirst(matched: seq<RawFile>, e: RawFile)
    ensures NewestFirst(matched + [e]) == InsertNewestFirst(NewestFirst(matched), e)
  {
    assert (matched + [e])[..|matched|] == matched;
  }

  lemma RetainsPush(matched: seq<RawFile>, e: RawFile, k: nat)
    requires |matched| < k
    ensures multiset(Take(NewestFirst(matched + [e]), k)) == multiset(Take(NewestFirst(matched), k)) + multiset{e}
  {
    SnocNewestFirst(matched, e);
    NewestFirstKeepsAll(matched);
    InsertKeepsAll(NewestFirst(matched), e);
  }

  lemma RetainsReplace(matched: seq<RawFile>, e: RawFile, k: nat)
    requires DistinctPaths(matched) && 0 < k <= |matched| && |NewestFirst(matched)| == |matched|
    ensures var root := NewestFirst(matched)[k - 1];
            multiset(Take(NewestFirst(matched + [e]), k)) ==
              if Older(root, e) then multiset(Take(NewestFirst(matched), k)) - multiset{root} + multiset{e}
              else multiset(Take(NewestFirst(matched), k))
  {
    hide NewestFirst, Older, DistinctPaths, InsertNewestFirst, Descending;
    var s := NewestFirst(matched);
    SnocNewestFirst(matched, e);
    NewestFirstDescends(matched);
    TakeOfInsert(s, e, k);
  }

  lemma TakeOfInsert(s: seq<RawFile>, e: RawFile, k: nat)
    requires Descending(s) && 0 < k <= |s|
    ensures multiset(Take(InsertNewestFirst(s, e), k)) ==
              if Older(s[k - 1], e) then multiset(Take(s, k)) - multiset{s[k - 1]} + multiset{e}
              else multiset(Take(s, k))
  {
    hide Older, InsertNewestFirst, Descending;
    InsertKeepsAll(s, e);
    assert Take(s, k) == s[..k] && s[..k] == s[..k - 1] + [s[k - 1]];
    if Older(s[k - 1], e) {
      InsertAbove(s, e, k);
      InsertKeepsAll(s[..k - 1], e);
    } else {
      InsertBelow(s, e, k);
    }
  }

  // ---------- Filters and buckets ----------

  /** The normalised filters; `fold` is the case folding of the query and the haystack. */
  datatype Filters = Filters(domain: string, area: string, query: string, fold: string -> string)

  predicate Contains(haystack: string, needle: string) {
    needle <= haystack || (haystack != [] && Contains(haystack[1..], needle))
  }

  predicate Matches(filters: Filters, f: RawFile) {
    && (filters.domain == "" || f.domain == filters.domain)
    && (filters.area == "" || f.area == filters.area)
    && (filters.query == ""
        || Contains(filters.fold(f.name + " " + f.path + " " + f.rawClass + " " + f.suffix), filters.query))
  }

  function Matching(filters: Filters, files: seq<RawFile>): seq<RawFile> {
    if files == [] then []
    else
      var init, last := files[..|files| - 1], files[|files| - 1];
      Matching(filters, init) + (if Matches(filters, last) then [last] else [])
  }

  lemma {:induction false} MatchingDistinct(filters: Filters, files: seq<RawFile>)
    requires DistinctPaths(files)
    ensures DistinctPaths(Matching(filters, files))
    ensures forall f :: f in Matching(filters, files) ==> f in files
  {
    if files != [] {
      var init := files[..|files| - 1];
      MatchingDistinct(filters, init);
      var rest := Matching(filters, init);
      forall f | f in rest ensures f.path != files[|files| - 1].path {
        var i :| 0 <= i < |init| && init[i] == f;
        assert files[i] == f;
      }
      assert forall i :: 0 <= i < |rest| ==> rest[i] in rest;
    }
  }

  datatype BucketKey = BucketKey(domain: string, area: string, rawClass: string)

  datatype Bucket = Bucket(fileCount: nat, bytes: nat)

  function KeyOf(f: RawFile): BucketKey { BucketKey(f.domain, f.area, f.rawClass) }

  function Record(buckets: map<BucketKey, Bucket>, f: RawFile): map<BucketKey, Bucket> {
    var bucket := if KeyOf(f) in buckets then buckets[KeyOf(f)] else Bucket(0, 0);
    buckets[KeyOf(f) := Bucket(bucket.fileCount + 1, bucket.bytes + f.size)]
  }

  function Buckets(files: seq<RawFile>): map<BucketKey, Bucket> {
    if files == [] then map[] else Record(Buckets(files[..|files| - 1]), files[|files| - 1])
  }

  function TotalBytes(files: seq<RawFile>): nat {
    if files == [] then 0 else TotalBytes(files[..|files| - 1]) + files[|files| - 1].size
  }

  /** The sums over all buckets. */
  ghost function SumBuckets(buckets: map<BucketKey, Bucket>): Bucket
    decreases |buckets|
  {
    if buckets == map[] then Bucket(0, 0)
    else
      var k := AnyBucket(buckets);
      var rest := SumBuckets(buckets - {k});
      Bucket(rest.fileCount + buckets[k].fileCount, rest.bytes + buckets[k].bytes)
  }

  ghost function AnyBucket(buckets: map<BucketKey, Bucket>): (k: BucketKey)
    requires buckets != map[]
    ensures k in buckets
  {
    var k :| k in buckets; k
  }

  lemma {:induction false} SumBucketsAt(buckets: map<BucketKey, Bucket>, k: BucketKey)
    requires k in buckets
    ensures var rest := SumBuckets(buckets - {k});
            SumBuckets(buckets) == Bucket(rest.fileCount + buckets[k].fileCount, rest.bytes + buckets[k].bytes)
    decreases |buckets|
  {
    var first := AnyBucket(buckets);
    if first != k {
      SumBucketsAt(buckets - {first}, k);
      SumBucketsAt(buckets - {k}, first);
      assert buckets - {first} - {k} == buckets - {k} - {first};
    }
  }

  /** Every file is counted in exactly one bucket. */
  lemma {:induction false} BucketsSumToTotals(files: seq<RawFile>)
    ensures SumBuckets(Buckets(files)) == Bucket(|files|, TotalBytes(files))
  {
    if files != [] {
      var init, f := files[..|files| - 1], files[|files| - 1];
      BucketsSumToTotals(init);
      var before, after := Buckets(init), Buckets(files);
      SumBucketsAt(after, KeyOf(f));
      if KeyOf(f) in before {
        SumBucketsAt(before, KeyOf(f));
      } else {
        assert before - {KeyOf(f)} == before;
      }
      assert after - {KeyOf(f)} == before - {KeyOf(f)};
    }
  }

  // ---------- The inventory ----------

  datatype Inventory = Inventory(
    totalFiles: nat,
    totalBytes: nat,
    buckets: map<BucketKey, Bucket>,
    matchedFiles: nat,
    files: seq<RawFile>)

  datatype InventoryError = ScanLimitExceeded

  /** `s[offset : offset + limit]`. */
  function Slice<T>(s: seq<T>, offset: nat, limit: nat): seq<T> {
    if offset >= |s| then [] else if offset + limit >= |s| then s[offset..] else s[offset..offset + limit]
  }

  /** The files of the three areas with an accepted suffix, in the order the scan meets them. */
  method RawInventory(files: seq<RawFile>, limit: nat, offset: nat, filters: Filters, scanLimit: Option<nat>)
    returns (r: Result<Inventory, InventoryError>)
    requires DistinctPaths(files)
    ensures r.Err? <==> scanLimit.Some? && |files| > scanLimit.value
    ensures r.Ok? ==>
              var matched := Matching(filters, files);
              && r.value.files == Slice(NewestFirst(matched), offset, limit)
              && r.value.matchedFiles == |matched|
              && r.value.totalFiles == |files| && r.value.totalBytes == TotalBytes(files)
              && r.value.buckets == Buckets(files)
  {
    hide Matches, Retains, NewestFirst, IsHeap, DistinctPaths, Record, Take;
    var retained := new RetainedHeap();
    NothingMatched(offset + limit);
    var buckets: map<BucketKey, Bucket> := map[];
    var totalFiles, totalBytes, matchedFiles := 0, 0, 0;
    var retainLimit := offset + limit;
    var i := 0;
    while i < |files|
      invariant 0 <= i <= |files|
      invariant totalFiles == i && totalBytes == TotalBytes(files[..i]) && buckets == Buckets(files[..i])
      invariant matchedFiles == |Matching(filters, files[..i])|
      invariant Retains(retained.heap, Matching(filters, files[..i]), retainLimit)
      invariant scanLimit.Some? ==> i <= scanLimit.value
    {
      if scanLimit.Some? && totalFiles >= scanLimit.value { return Err(ScanLimitExceeded); }
      var f := files[i];
      assert files[..i + 1][..i] == files[..i] && files[..i + 1][i] == f;
      totalFiles, totalBytes := totalFiles + 1, totalBytes + f.size;
      buckets := Record(buckets, f);
      ghost var matched := Matching(filters, files[..i]);
      assert matched + [] == matched;
      if Matches(filters, f) {
        matchedFiles := matchedFiles + 1;
        retained.Retain(f, retainLimit, files, filters, i);
      }
      i := i + 1;
    }
    assert files[..|files|] == files;
    ghost var matched := Matching(filters, files);
    MatchingDistinct(filters, files);
    RetainedInOrder(retained.heap, matched, retainLimit);
    SliceOfFront(NewestFirst(matched), offset, limit);
    var page := Slice(NewestFirst(retained.heap), offset, limit);
    return Ok(Inventory(totalFiles, totalBytes, buckets, matchedFiles, page));
  }

  lemma NothingMatched(k: nat)
    ensures Retains([], [], k)
  {
  }

  lemma SliceOfFront(s: seq<RawFile>, offset: nat, limit: nat)
    ensures Slice(Take(s, offset + limit), offset, limit) == Slice(s, offset, limit)
  {
  }

  lemma NothingRetained(heap: seq<RawFile>, matched: seq<RawFile>, f: RawFile)
    requires Retains(heap, matched, 0)
    ensures Retains(heap, matched + [f], 0)
  {
    RetainsSize(heap, matched, 0);
    assert Take(NewestFirst(matched + [f]), 0) == [] by {
      if NewestFirst(matched + [f]) != [] { assert NewestFirst(matched + [f])[..0] == []; }
    }
  }

  /** Sorting what the heap retained gives the front of sorting everything. */
  lemma RetainedInOrder(heap: seq<RawFile>, matched: seq<RawFile>, k: nat)
    requires Retains(heap, matched, k) && DistinctPaths(matched)
    ensures NewestFirst(heap) == Take(NewestFirst(matched), k)
  {
    hide NewestFirst, IsHeap, Older;
    NewestFirstKeepsAll(heap);
    NewestFirstDescends(matched);
    NewestFirstKeepsAll(matched);
    PermutationDistinct(NewestFirst(matched), matched);
    var top := Take(NewestFirst(matched), k);
    PermutationDistinct(heap, top);
    NewestFirstDescends(heap);
    DescendingUnique(NewestFirst(heap), top);
  }

  // ---------- The inventory from the files alone ----------

  lemma {:induction false} ContainedAt(haystack: string, needle: string) returns (before: string, after: string)
    requires Contains(haystack, needle)
    ensures haystack == before + needle + after
  {
    if needle <= haystack {
      before, after := "", haystack[|needle|..];
    } else {
      before, after := ContainedAt(haystack[1..], needle);
      before := [haystack[0]] + before;
    }
  }

  lemma {:induction false} IsContained(before: string, needle: string, after: string)
    ensures Contains(before + needle + after, needle)
  {
    var haystack := before + needle + after;
    if before == "" {
      assert needle <= haystack;
    } else {
      assert haystack[1..] == before[1..] + needle + after;
      IsContained(before[1..], needle, after);
    }
  }

  /** The file passes every filter that is set: its domain, its area, and a text in its name, path,
      class and suffix. */
  ghost predicate Passes(filters: Filters, f: RawFile) {
    && (filters.domain != "" ==> f.domain == filters.domain)
    && (filters.area != "" ==> f.area == filters.area)
    && (filters.query != "" ==>
          var haystack := filters.fold(f.name + " " + f.path + " " + f.rawClass + " " + f.suffix);
          exists before, after :: haystack == before + filters.query + after)
  }

  lemma MatchesIs(filters: Filters, f: RawFile)
    ensures Matches(filters, f) <==> Passes(filters, f)
  {
    var haystack := filters.fold(f.name + " " + f.path + " " + f.rawClass + " " + f.suffix);
    if Contains(haystack, filters.query) { var before, after := ContainedAt(haystack, filters.query); }
    if before, after :| haystack == before + filters.query + after { IsContained(before, filters.query, after); }
  }

  lemma {:induction false} MatchingCount(filters: Filters, files: seq<RawFile>, f: RawFile)
    ensures multiset(Matching(filters, files))[f] == if Passes(filters, f) then multiset(files)[f] else 0
  {
    hide Matches, Passes;
    if files != [] {
      var n := |files| - 1;
      MatchingCount(filters, files[..n], f);
      MatchesIs(filters, files[n]);
      assert files == files[..n] + [files[n]];
    }
  }

  /** `sort(all matches, newest first)`: exactly the files that pass, each as often as it occurs, and
      every one newer than the next, or as old with the greater path. */
  lemma FullSortIs(filters: Filters, files: seq<RawFile>)
    requires DistinctPaths(files)
    ensures var all := NewestFirst(Matching(filters, files));
            && (forall f :: multiset(all)[f] == if Passes(filters, f) then multiset(files)[f] else 0)
            && forall i, j :: 0 <= i < j < |all| ==>
                 all[i].mtime > all[j].mtime || (all[i].mtime == all[j].mtime && Less(all[j].path, all[i].path))
  {
    hide Passes, Matching, Less;
    var matched := Matching(filters, files);
    MatchingDistinct(filters, files);
    NewestFirstKeepsAll(matched);
    NewestFirstDescends(matched);
    forall f { MatchingCount(filters, files, f); }
  }

  /** A page of a list. */
  lemma SliceIs<T>(s: seq<T>, offset: nat, limit: nat)
    ensures |Slice(s, offset, limit)| == if offset >= |s| then 0 else Smaller(limit, |s| - offset)
    ensures forall i :: 0 <= i < |Slice(s, offset, limit)| ==> Slice(s, offset, limit)[i] == s[offset + i]
  {
  }

  function Smaller(a: int, b: int): int { if a <= b then a else b }

  // ---------- The totals from the files alone ----------

  lemma {:induction false} TotalIs(files: seq<RawFile>, f: RawFile)
    ensures TotalBytes(files + [f]) == TotalBytes(files) + f.size && TotalBytes([]) == 0
  {
    assert (files + [f])[..|files|] == files;
  }

  predicate InBucket(f: RawFile, k: BucketKey) {
    f.domain == k.domain && f.area == k.area && f.rawClass == k.rawClass
  }

  function Only(files: seq<RawFile>, k: BucketKey): seq<RawFile> {
    if files == [] then []
    else Only(files[..|files| - 1], k) + if InBucket(files[|files| - 1], k) then [files[|files| - 1]] else []
  }

  /** A bucket counts the files of its domain, area and class, and their bytes; a bucket exists when
      there is such a file. */
  lemma {:induction false} BucketIs(files: seq<RawFile>, k: BucketKey)
    ensures var own := Only(files, k);
            && (k in Buckets(files) <==> own != [])
            && (k in Buckets(files) ==> Buckets(files)[k] == Bucket(|own|, TotalBytes(own)))
  {
    if files != [] {
      var init, last := files[..|files| - 1], files[|files| - 1];
      BucketIs(init, k);
      TotalIs(Only(init, k), last);
      assert InBucket(last, k) <==> KeyOf(last) == k;
      assert Only(init, k) + [] == Only(init, k);
      if InBucket(last, k) && k !in Buckets(init) { TotalIs([], last); }
    }
  }
}

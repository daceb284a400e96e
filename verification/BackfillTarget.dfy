/** The lookup table the backfill writes, the projection of a source row onto it, and the
    count-and-checksum comparison of the completeness check. */
module BackfillTarget {
  import opened Common
  import opened BackfillPaging

  /** The sorting key of the target; it has no role. */
  datatype LookupKey = LookupKey(name: string, entity: Uuid, app: string, rel: string)

  datatype Binding = Binding(rowHash: string, recordHash: string, rank: nat, ingestedAt: int, isDeleted: bool)

  datatype Entry = Entry(key: LookupKey, value: Binding)

  type Target = map<LookupKey, Binding>

  /** `norm` stands for the match-text normalisation, which may return an empty text. */
  function Project(norm: string -> string, r: SourceRow): Option<Entry> {
    var name := norm(if r.normalizedName != "" then r.normalizedName else r.rawName);
    if !(r.key.role == "OWNER" || r.key.role == "CO_OWNER") || name == "" || r.entityId.None? then None
    else Some(Entry(LookupKey(name, r.entityId.value, r.key.app, r.key.rel),
                    Binding(r.rowHash, r.recordHash, r.rank, r.ingestedAt, false)))
  }

  predicate Projectable(norm: string -> string, rows: seq<SourceRow>) {
    forall i :: 0 <= i < |rows| ==> Project(norm, rows[i]).Some?
  }

  function Entries(norm: string -> string, rows: seq<SourceRow>): seq<Entry> {
    if rows == [] then []
    else
      match Project(norm, rows[0])
      case Some(e) => [e] + Entries(norm, rows[1..])
      case None => Entries(norm, rows[1..])
  }

  /** Insertion into a ReplacingMergeTree versioned by `source_rank`: the highest version of a
      key stays, and the last inserted of equal versions. */
  function Put(t: Target, e: Entry): Target {
    if e.key in t && t[e.key].rank > e.value.rank then t else t[e.key := e.value]
  }

  function PutAll(t: Target, es: seq<Entry>): Target
    decreases |es|
  {
    if es == [] then t else PutAll(Put(t, es[0]), es[1..])
  }

  lemma {:induction false} EntriesConcat(norm: string -> string, a: seq<SourceRow>, b: seq<SourceRow>)
    ensures Entries(norm, a + b) == Entries(norm, a) + Entries(norm, b)
  {
    if a == [] {
      assert a + b == b;
    } else {
      assert (a + b)[1..] == a[1..] + b;
      EntriesConcat(norm, a[1..], b);
    }
  }

  lemma {:induction false} EntriesSize(norm: string -> string, rows: seq<SourceRow>)
    ensures |Entries(norm, rows)| <= |rows|
    ensures |Entries(norm, rows)| == |rows| <==> Projectable(norm, rows)
  {
    if rows != [] {
      EntriesSize(norm, rows[1..]);
      assert Projectable(norm, rows) <==> Project(norm, rows[0]).Some? && Projectable(norm, rows[1..]) by {
        assert forall i :: 1 <= i < |rows| ==> rows[i] == rows[1..][i - 1];
        assert forall i :: 0 <= i < |rows[1..]| ==> rows[1..][i] == rows[i + 1];
      }
    }
  }

  lemma {:induction false} PutAllConcat(t: Target, a: seq<Entry>, b: seq<Entry>)
    ensures PutAll(t, a + b) == PutAll(PutAll(t, a), b)
    decreases |a|
  {
    if a == [] {
      assert a + b == b;
    } else {
      assert (a + b)[1..] == a[1..] + b;
      PutAllConcat(Put(t, a[0]), a[1..], b);
    }
  }

  // ---------- Which rows of the source table reach the lookup, and as what ----------

  /** A current, undeleted owner row with an entity and a normalised name, found under this key. */
  ghost predicate OwnerOf(norm: string -> string, r: SourceRow, k: LookupKey) {
    && r.isCurrent && !r.isDeleted
    && (r.key.role == "OWNER" || r.key.role == "CO_OWNER")
    && r.normalizedName != "" && r.entityId == Some(k.entity)
    && k.name == norm(r.normalizedName) && k.app == r.key.app && k.rel == r.key.rel
  }

  /** The entries of a table are its owner rows whose name the normalisation does not empty. */
  lemma EntriesAreOwners(norm: string -> string, table: seq<SourceRow>, e: Entry)
    ensures e in Entries(norm, EligibleRows(table)) <==>
              exists r :: r in table && OwnerOf(norm, r, e.key) && e.key.name != ""
                          && e.value == Binding(r.rowHash, r.recordHash, r.rank, r.ingestedAt, false)
  {
    EligibleIn(table);
    EntryHolder(norm, EligibleRows(table), e);
    if r :| r in table && OwnerOf(norm, r, e.key) && e.key.name != ""
            && e.value == Binding(r.rowHash, r.recordHash, r.rank, r.ingestedAt, false)
    {
      assert r in EligibleRows(table) && Project(norm, r) == Some(e);
    }
  }

  lemma {:induction false} EntryHolder(norm: string -> string, rows: seq<SourceRow>, e: Entry)
    ensures e in Entries(norm, rows) <==> exists r :: r in rows && Project(norm, r) == Some(e)
  {
    if rows != [] { EntryHolder(norm, rows[1..], e); }
  }

  /** Every owner row of the table has a name left by the normalisation. */
  ghost predicate NamesRemain(norm: string -> string, table: seq<SourceRow>) {
    forall r, k :: r in table && OwnerOf(norm, r, k) ==> k.name != ""
  }

  lemma ProjectableNames(norm: string -> string, table: seq<SourceRow>)
    requires Projectable(norm, EligibleRows(table))
    ensures NamesRemain(norm, table)
  {
    EligibleIn(table);
    forall r, k | r in table && OwnerOf(norm, r, k) ensures k.name != "" {
      assert r in EligibleRows(table);
      var i :| 0 <= i < |EligibleRows(table)| && EligibleRows(table)[i] == r;
    }
  }

  /** A lookup table shows a key exactly when some owner row has it, with the columns of such a row
      that no other one outranks. */
  ghost predicate ShowsOwners(norm: string -> string, table: seq<SourceRow>, t: Target) {
    forall k ::
      && (k in t <==> exists r :: r in table && OwnerOf(norm, r, k))
      && (k in t ==>
            exists r :: r in table && OwnerOf(norm, r, k)
                        && t[k] == Binding(r.rowHash, r.recordHash, r.rank, r.ingestedAt, false)
                        && forall other :: other in table && OwnerOf(norm, other, k) ==> other.rank <= r.rank)
  }

  /** One pass over the source into an empty table shows its owners. */
  lemma OnePassShowsOwners(norm: string -> string, table: seq<SourceRow>)
    requires Projectable(norm, EligibleRows(table))
    ensures ShowsOwners(norm, table, PutAll(map[], Entries(norm, EligibleRows(table))))
  {
    hide OwnerOf;
    ProjectableNames(norm, table);
    forall k
      ensures var t := PutAll(map[], Entries(norm, EligibleRows(table)));
              && (k in t <==> exists r :: r in table && OwnerOf(norm, r, k))
              && (k in t ==>
                    exists r :: r in table && OwnerOf(norm, r, k)
                                && t[k] == Binding(r.rowHash, r.recordHash, r.rank, r.ingestedAt, false)
                                && forall other :: other in table && OwnerOf(norm, other, k) ==> other.rank <= r.rank)
    {
      KeyShowsOwner(norm, table, k);
    }
  }

  lemma KeyShowsOwner(norm: string -> string, table: seq<SourceRow>, k: LookupKey)
    requires NamesRemain(norm, table)
    ensures var t := PutAll(map[], Entries(norm, EligibleRows(table)));
            && (k in t <==> exists r :: r in table && OwnerOf(norm, r, k))
            && (k in t ==>
                  exists r :: r in table && OwnerOf(norm, r, k)
                              && t[k] == Binding(r.rowHash, r.recordHash, r.rank, r.ingestedAt, false)
                              && forall other :: other in table && OwnerOf(norm, other, k) ==> other.rank <= r.rank)
  {
    hide OwnerOf, EligibleRows, Entries, PutAll;
    var es := Entries(norm, EligibleRows(table));
    var t := PutAll(map[], es);
    PutAllHighest(es, k);
    forall r | r in table && OwnerOf(norm, r, k) ensures k in t && r.rank <= t[k].rank {
      var e := Entry(k, Binding(r.rowHash, r.recordHash, r.rank, r.ingestedAt, false));
      EntriesAreOwners(norm, table, e);
      assert e in es;
    }
    if k in t { EntriesAreOwners(norm, table, Entry(k, t[k])); }
  }

  /** What a key holds after inserts into an empty table: one of its entries, of the highest rank. */
  lemma {:induction false} PutAllHighest(es: seq<Entry>, k: LookupKey)
    ensures var t := PutAll(map[], es);
            && (k in t ==> Entry(k, t[k]) in es)
            && forall e :: e in es && e.key == k ==> k in t && e.value.rank <= t[k].rank
  {
    PutAllHighestFrom(map[], es, k);
  }

  lemma {:induction false} PutAllHighestFrom(t0: Target, es: seq<Entry>, k: LookupKey)
    ensures var t := PutAll(t0, es);
            && (k in t ==> Entry(k, t[k]) in es || (k in t0 && t[k] == t0[k]))
            && (k in t0 ==> k in t && t0[k].rank <= t[k].rank)
            && forall e :: e in es && e.key == k ==> k in t && e.value.rank <= t[k].rank
    decreases |es|
  {
    if es != [] { PutAllHighestFrom(Put(t0, es[0]), es[1..], k); }
  }

  // ---------- Inserting a stretch of rows twice ----------

  function At(t: Target, k: LookupKey): Option<Binding> {
    if k in t then Some(t[k]) else None
  }

  /** What a key holds after `later` is inserted over `b`. */
  function Join(b: Option<Binding>, later: Option<Binding>): Option<Binding> {
    if later.None? || (b.Some? && b.value.rank > later.value.rank) then b else later
  }

  function Latest(es: seq<Entry>, k: LookupKey): Option<Binding> {
    if es == [] then None
    else Join(if es[0].key == k then Some(es[0].value) else None, Latest(es[1..], k))
  }

  lemma {:induction false} PutAllAt(t: Target, es: seq<Entry>, k: LookupKey)
    ensures At(PutAll(t, es), k) == Join(At(t, k), Latest(es, k))
    decreases |es|
  {
    if es != [] {
      PutAllAt(Put(t, es[0]), es[1..], k);
    }
  }

  lemma SameAt(a: Target, b: Target)
    requires forall k :: At(a, k) == At(b, k)
    ensures a == b
  {
    forall k ensures (k in a <==> k in b) && (k in a ==> a[k] == b[k]) {
      assert At(a, k) == At(b, k);
    }
  }

  /** Repeating an insert before carrying on leaves what a single pass would have left. */
  lemma ReplayAbsorbed(t: Target, s: seq<Entry>, rest: seq<Entry>)
    ensures PutAll(PutAll(t, s), s + rest) == PutAll(t, s + rest)
  {
    PutAllConcat(PutAll(t, s), s, rest);
    PutAllConcat(t, s, rest);
    var once := PutAll(t, s);
    forall k ensures At(PutAll(once, s), k) == At(once, k) {
      PutAllAt(once, s, k);
      PutAllAt(t, s, k);
    }
    SameAt(PutAll(once, s), once);
  }

  // ---------- Exactness from a count ----------

  function Visible(t: Target): Target {
    map k | k in t && !t[k].isDeleted :: t[k]
  }

  function Keys(es: seq<Entry>): set<LookupKey> {
    if es == [] then {} else {es[0].key} + Keys(es[1..])
  }

  /** Two rows with the same target key differ at most in role, which the key leaves out. */
  predicate DistinctKeys(es: seq<Entry>) {
    es == [] || (es[0].key !in Keys(es[1..]) && DistinctKeys(es[1..]))
  }

  /** Every row of `t` is written by some entry. */
  ghost predicate WrittenBy(t: Target, es: seq<Entry>) {
    forall k :: k in t ==> Entry(k, t[k]) in es
  }

  /** Exactly the entries: the image of the source, each key with its row's binding. */
  ghost predicate IsImage(t: Target, es: seq<Entry>) {
    && t.Keys == Keys(es)
    && forall e :: e in es ==> e.key in t && t[e.key] == e.value
  }

  lemma {:induction false} KeysHold(es: seq<Entry>, e: Entry)
    requires e in es
    ensures e.key in Keys(es)
  {
    if e != es[0] { KeysHold(es[1..], e); }
  }

  lemma {:induction false} KeyCount(es: seq<Entry>)
    ensures |Keys(es)| <= |es|
    ensures |Keys(es)| == |es| <==> DistinctKeys(es)
  {
    if es != [] {
      KeyCount(es[1..]);
      if es[0].key in Keys(es[1..]) {
        assert Keys(es) == Keys(es[1..]);
      }
    }
  }

  lemma {:induction false} DistinctUnique(es: seq<Entry>, a: Entry, b: Entry)
    requires DistinctKeys(es) && a in es && b in es && a.key == b.key
    ensures a == b
  {
    if a == es[0] && b != es[0] {
      KeysHold(es[1..], b);
    } else if b == es[0] && a != es[0] {
      KeysHold(es[1..], a);
    } else if a != es[0] {
      DistinctUnique(es[1..], a, b);
    }
  }

  lemma WrittenKeys(t: Target, es: seq<Entry>)
    requires WrittenBy(t, es)
    ensures t.Keys <= Keys(es)
  {
    forall k | k in t ensures k in Keys(es) { KeysHold(es, Entry(k, t[k])); }
  }

  lemma {:induction false} EqualBySize<T>(a: set<T>, b: set<T>)
    requires a <= b && |a| >= |b|
    ensures a == b
  {
    assert b == a + (b - a);
  }

  /** A table holding only source entries is the exact image as soon as it is large enough. */
  lemma CountMatchIsExact(t: Target, es: seq<Entry>, sourceCount: nat)
    requires WrittenBy(t, es) && |es| <= sourceCount && |t| == sourceCount
    ensures |es| == sourceCount && DistinctKeys(es) && IsImage(t, es)
  {
    KeyCount(es);
    WrittenKeys(t, es);
    assert |t| == |t.Keys|;
    EqualBySize(t.Keys, Keys(es));
    forall e | e in es ensures e.key in t && t[e.key] == e.value {
      KeysHold(es, e);
      DistinctUnique(es, e, Entry(e.key, t[e.key]));
    }
  }

  // ---------- The order-free checksums ----------

  /** The columns of the binding hash. */
  datatype Hashed = Hashed(entity: Option<Uuid>, app: string, rel: string, recordHash: string, rank: nat)

  const WORD := 0x1_0000_0000_0000_0000

  type Word = n: int | 0 <= n < WORD

  /** The positions of the one bits of a word; exclusive or is their symmetric difference. */
  function Bits(n: nat, position: nat): set<nat> {
    if n == 0 then {} else (if n % 2 == 1 then {position} else {}) + Bits(n / 2, position + 1)
  }

  /** The wrapping sum of the hashes and the positions of the one bits of their exclusive or. */
  datatype Sums = Sums(total: Word, parity: set<nat>)

  const NO_ROWS := Sums(0, {})

  function AddHash(s: Sums, h: Word): Sums {
    var bits := Bits(h, 0);
    Sums((s.total + h) % WORD, (s.parity - bits) + (bits - s.parity))
  }

  function SourceColumns(r: SourceRow): Hashed {
    Hashed(r.entityId, r.key.app, r.key.rel, r.recordHash, r.rank)
  }

  function SourceHash(hash: Hashed -> Word, r: SourceRow): Word { hash(SourceColumns(r)) }

  function SourceSums(hash: Hashed -> Word, rows: seq<SourceRow>): Sums {
    if rows == [] then NO_ROWS else AddHash(SourceSums(hash, rows[1..]), SourceHash(hash, rows[0]))
  }

  function BindingColumns(k: LookupKey, v: Binding): Hashed {
    Hashed(Some(k.entity), k.app, k.rel, v.recordHash, v.rank)
  }

  function BindingHash(hash: Hashed -> Word, k: LookupKey, v: Binding): Word { hash(BindingColumns(k, v)) }

  /** An aggregate over rows that come in no particular order. */
  ghost function Aggregate(add: (Sums, Word) -> Sums, hash: Hashed -> Word, t: Target): Sums
    decreases |t|
  {
    if t == map[] then NO_ROWS
    else
      var k := AnyKey(t);
      add(Aggregate(add, hash, t - {k}), BindingHash(hash, k, t[k]))
  }

  ghost function AnyKey(t: Target): (k: LookupKey)
    requires t != map[]
    ensures k in t
  {
    var k :| k in t; k
  }

  ghost predicate Commutes(add: (Sums, Word) -> Sums) {
    forall s, a, b :: add(add(s, a), b) == add(add(s, b), a)
  }

  lemma {:induction false} AggregateAnyRow(add: (Sums, Word) -> Sums, hash: Hashed -> Word, t: Target, k: LookupKey)
    requires Commutes(add) && k in t
    ensures Aggregate(add, hash, t) == add(Aggregate(add, hash, t - {k}), BindingHash(hash, k, t[k]))
    decreases |t|
  {
    var first := AnyKey(t);
    if first != k {
      var a, b := BindingHash(hash, k, t[k]), BindingHash(hash, first, t[first]);
      var rest := t - {first} - {k};
      assert rest == t - {k} - {first};
      AggregateAnyRow(add, hash, t - {first}, k);
      AggregateAnyRow(add, hash, t - {k}, first);
      calc {
        Aggregate(add, hash, t);
        add(Aggregate(add, hash, t - {first}), b);
        add(add(Aggregate(add, hash, rest), a), b);
        add(add(Aggregate(add, hash, rest), b), a);
        add(Aggregate(add, hash, t - {k}), a);
      }
    }
  }

  ghost function TableSums(hash: Hashed -> Word, t: Target): Sums {
    Aggregate(AddHash, hash, t)
  }

  lemma AddHashCommutes()
    ensures Commutes(AddHash)
  {
    forall s: Sums, a: Word, b: Word ensures AddHash(AddHash(s, a), b) == AddHash(AddHash(s, b), a) {
      assert ((s.total + a) % WORD + b) % WORD == ((s.total + b) % WORD + a) % WORD;
    }
  }

  lemma TableSumsAnyRow(hash: Hashed -> Word, t: Target, k: LookupKey)
    requires k in t
    ensures TableSums(hash, t) == AddHash(TableSums(hash, t - {k}), BindingHash(hash, k, t[k]))
  {
    AddHashCommutes();
    AggregateAnyRow(AddHash, hash, t, k);
  }

  /** `count_match` and `binding_checksum_match` of the completeness check. */
  ghost predicate StatsMatch(hash: Hashed -> Word, rows: seq<SourceRow>, t: Target) {
    |rows| == |Visible(t)| && SourceSums(hash, rows) == TableSums(hash, Visible(t))
  }

  lemma {:induction false} ImageSums(norm: string -> string, hash: Hashed -> Word, rows: seq<SourceRow>, t: Target)
    requires Projectable(norm, rows) && DistinctKeys(Entries(norm, rows)) && IsImage(t, Entries(norm, rows))
    ensures SourceSums(hash, rows) == TableSums(hash, t)
  {
    if rows != [] {
      var e := Project(norm, rows[0]).value;
      var rest := Entries(norm, rows[1..]);
      assert Entries(norm, rows) == [e] + rest && ([e] + rest)[1..] == rest;
      assert Projectable(norm, rows[1..]) by {
        assert forall i :: 0 <= i < |rows[1..]| ==> rows[1..][i] == rows[i + 1];
      }
      forall other | other in rest ensures other.key != e.key { KeysHold(rest, other); }
      assert IsImage(t - {e.key}, rest);
      ImageSums(norm, hash, rows[1..], t - {e.key});
      TableSumsAnyRow(hash, t, e.key);
    }
  }

  /** The visible rows are those that are not deleted. */
  lemma VisibleRows(t: Target, k: LookupKey)
    ensures k in Visible(t) <==> k in t && t[k].isDeleted == false
    ensures k in Visible(t) ==> Visible(t)[k] == t[k]
  {
  }

  function Power(n: nat): nat {
    if n == 0 then 1 else 2 * Power(n - 1)
  }

  /** The bit of weight 2^p. */
  predicate BitSet(n: nat, p: nat) {
    PowerPositive(p);
    n / Power(p) % 2 == 1
  }

  lemma {:induction false} PowerPositive(p: nat)
    ensures Power(p) > 0
  {
    if p > 0 { PowerPositive(p - 1); }
  }

  lemma {:induction false} BitsAreBits(n: nat, p: nat, q: nat)
    ensures p in Bits(n, q) <==> p >= q && BitSet(n, p - q)
    decreases n
  {
    if n == 0 {
      if p >= q { PowerPositive(p - q); }
    } else {
      BitsAreBits(n / 2, p, q + 1);
      if p > q {
        PowerPositive(p - q - 1);
        HalfThenDivide(n, Power(p - q - 1));
      }
    }
  }

  lemma HalfThenDivide(n: nat, d: nat)
    requires d > 0
    ensures n / 2 / d == n / (2 * d)
  {
    var a := n / 2 / d;
    var r := n / 2 - a * d;
    assert n == 2 * (a * d + r) + n % 2;
    assert 0 <= 2 * r + n % 2 < 2 * d;
    assert n == a * (2 * d) + (2 * r + n % 2);
    QuotientIs(n, 2 * d, a, 2 * r + n % 2);
  }

  lemma Scaled(a: nat, b: nat, d: nat)
    requires a <= b
    ensures a * d <= b * d
  {
  }

  lemma QuotientIs(n: nat, d: nat, q: nat, r: nat)
    requires n == q * d + r && r < d
    ensures n / d == q
  {
    var x := n / d;
    assert n == x * d + n % d;
    if x < q { Scaled(x + 1, q, d); }
    if x > q { Scaled(q + 1, x, d); }
  }

  function HashTotal(hash: Hashed -> Word, rows: seq<SourceRow>): nat {
    if rows == [] then 0 else HashTotal(hash, rows[1..]) + SourceHash(hash, rows[0])
  }

  function BitCount(hash: Hashed -> Word, rows: seq<SourceRow>, p: nat): nat {
    if rows == [] then 0
    else BitCount(hash, rows[1..], p) + (if BitSet(SourceHash(hash, rows[0]), p) then 1 else 0)
  }

  /** The first aggregate is the sum of all hashes modulo 2^64. */
  lemma {:induction false} TotalIs(hash: Hashed -> Word, rows: seq<SourceRow>)
    ensures SourceSums(hash, rows).total == HashTotal(hash, rows) % 0x1_0000_0000_0000_0000
  {
    hide AddHash, SourceHash;
    if rows != [] {
      TotalIs(hash, rows[1..]);
      AddHashIs(SourceSums(hash, rows[1..]), SourceHash(hash, rows[0]), HashTotal(hash, rows[1..]));
    }
  }

  /** The second one, the exclusive or, has the bits that are set in an odd number of hashes. */
  lemma {:induction false} ParityIs(hash: Hashed -> Word, rows: seq<SourceRow>, p: nat)
    ensures p in SourceSums(hash, rows).parity <==> BitCount(hash, rows, p) % 2 == 1
  {
    hide AddHash, SourceHash, BitSet;
    if rows != [] {
      ParityIs(hash, rows[1..], p);
      TotalIs(hash, rows[1..]);
      AddHashIs(SourceSums(hash, rows[1..]), SourceHash(hash, rows[0]), HashTotal(hash, rows[1..]));
    }
  }

  lemma AddHashIs(s: Sums, h: Word, total: nat)
    requires s.total == total % WORD
    ensures AddHash(s, h).total == (total + h) % WORD
    ensures forall p :: p in AddHash(s, h).parity <==> (p in s.parity) != BitSet(h, p)
  {
    hide BitSet, Bits;
    forall p: nat ensures p in Bits(h, 0) <==> BitSet(h, p) { BitsAreBits(h, p, 0); }
  }

  lemma {:induction false} EntriesVisible(norm: string -> string, rows: seq<SourceRow>)
    ensures forall e :: e in Entries(norm, rows) ==> !e.value.isDeleted
  {
    if rows != [] { EntriesVisible(norm, rows[1..]); }
  }

  /** The comparison accepts a table that shows source entries only, under all their keys, exactly
      when every row projects and no two rows share a target key. */
  lemma StatsMatchIffDistinct(norm: string -> string, hash: Hashed -> Word, rows: seq<SourceRow>, t: Target)
    requires WrittenBy(Visible(t), Entries(norm, rows)) && Keys(Entries(norm, rows)) <= Visible(t).Keys
    ensures StatsMatch(hash, rows, t) <==> Projectable(norm, rows) && DistinctKeys(Entries(norm, rows))
  {
    var es, shown := Entries(norm, rows), Visible(t);
    EntriesSize(norm, rows);
    KeyCount(es);
    WrittenKeys(shown, es);
    assert shown.Keys == Keys(es) && |shown| == |shown.Keys|;
    if |shown| == |rows| {
      CountMatchIsExact(shown, es, |rows|);
      ImageSums(norm, hash, rows, shown);
    }
  }

  // ---------- Tables that hold the source, and possibly more ----------

  /** Every entry stands in the table with its own values. */
  predicate Held(t: Target, es: seq<Entry>) {
    forall e :: e in es ==> e.key in t && t[e.key] == e.value
  }

  /** No row of the table has a higher version than the entry for its key. */
  predicate NoneOutranks(t: Target, es: seq<Entry>) {
    forall e :: e in es && e.key in t ==> t[e.key].rank <= e.value.rank
  }

  lemma {:induction false} KeyHolder(es: seq<Entry>, k: LookupKey)
    requires k in Keys(es)
    ensures exists e :: e in es && e.key == k
  {
    if es[0].key != k { KeyHolder(es[1..], k); }
  }

  /** Inserting entries with distinct keys that nothing outranks: they are held from then on,
      what was held stays, and other keys are not touched. */
  lemma {:induction false} InsertsAreHeld(t: Target, es: seq<Entry>, all: seq<Entry>, held: seq<Entry>)
    requires DistinctKeys(all) && NoneOutranks(t, all) && Held(t, held)
    requires (forall e :: e in es ==> e in all) && (forall e :: e in held ==> e in all)
    ensures var t' := PutAll(t, es);
            && NoneOutranks(t', all) && Held(t', held) && Held(t', es)
            && forall k :: k !in Keys(all) ==> At(t', k) == At(t, k)
    decreases |es|
  {
    hide DistinctKeys;
    if es != [] {
      var e, t1 := es[0], Put(t, es[0]);
      assert e in all;
      forall other | other in all && other.key == e.key ensures other == e { DistinctUnique(all, other, e); }
      KeysHold(all, e);
      InsertsAreHeld(t1, es[1..], all, held + [e]);
      assert Held(PutAll(t1, es[1..]), [e] + es[1..]);
    }
  }

  /** Whatever else a table shows, once it holds all entries the comparison accepts it exactly
      when it shows nothing else. */
  lemma HoldingAcceptedIffImage(norm: string -> string, hash: Hashed -> Word, rows: seq<SourceRow>, t: Target)
    requires Projectable(norm, rows) && DistinctKeys(Entries(norm, rows)) && Held(t, Entries(norm, rows))
    ensures StatsMatch(hash, rows, t) <==> IsImage(Visible(t), Entries(norm, rows))
  {
    var es := Entries(norm, rows);
    EntriesSize(norm, rows);
    EntriesVisible(norm, rows);
    KeyCount(es);
    forall k | k in Keys(es) ensures k in Visible(t) { KeyHolder(es, k); }
    assert |Visible(t)| == |Visible(t).Keys|;
    if |Visible(t)| == |rows| { EqualBySize(Keys(es), Visible(t).Keys); }
    if IsImage(Visible(t), es) { ImageSums(norm, hash, rows, Visible(t)); }
  }

  // ---------- Inserts in any order, from any table ----------

  /** A higher version of the entry's key comes from the source or stood in the table before. */
  ghost predicate Outdone(t0: Target, all: seq<Entry>, e: Entry) {
    || (exists c :: c in all && c.key == e.key && c.value.rank > e.value.rank)
    || (e.key in t0 && t0[e.key].rank > e.value.rank)
  }

  /** No two different entries are both the highest version of their key. */
  ghost predicate NoTopTie(t0: Target, all: seq<Entry>) {
    forall a, b :: a in all && b in all && a.key == b.key && a.value.rank == b.value.rank && a != b ==>
      Outdone(t0, all, a)
  }

  /** The key has reached the entry's version, and holds its values if nothing higher can come. */
  ghost predicate Covers(t0: Target, all: seq<Entry>, t: Target, e: Entry) {
    && e.key in t && t[e.key].rank >= e.value.rank
    && (t[e.key].rank == e.value.rank && !Outdone(t0, all, e) ==> t[e.key] == e.value)
  }

  ghost predicate CoversAll(t0: Target, all: seq<Entry>, t: Target, es: seq<Entry>) {
    forall e :: e in es ==> Covers(t0, all, t, e)
  }

  /** The key is as it was in `t0`, or holds a source entry of no lower version. */
  ghost predicate FromSource(t0: Target, all: seq<Entry>, t: Target, k: LookupKey) {
    || At(t, k) == At(t0, k)
    || exists e :: e in all && e.key == k && At(t, k) == Some(e.value) && (k in t0 ==> t0[k].rank <= e.value.rank)
  }

  ghost predicate Framed(t0: Target, all: seq<Entry>, t: Target) {
    forall k :: FromSource(t0, all, t, k)
  }

  lemma PutCovers(t0: Target, all: seq<Entry>, t: Target, e: Entry, held: Entry)
    requires NoTopTie(t0, all) && e in all && held in all
    ensures Covers(t0, all, Put(t, e), e)
    ensures Covers(t0, all, t, held) ==> Covers(t0, all, Put(t, e), held)
  {
  }

  lemma PutFrames(t0: Target, all: seq<Entry>, t: Target, e: Entry)
    requires Framed(t0, all, t) && e in all
    ensures Framed(t0, all, Put(t, e))
  {
    var t' := Put(t, e);
    forall k ensures FromSource(t0, all, t', k) {
      assert FromSource(t0, all, t, k);
      if k == e.key && t'[k] == e.value {
        assert At(t', k) == Some(e.value);
      } else {
        assert At(t', k) == At(t, k);
      }
    }
  }

  /** Inserting source entries: covered from then on, and what was covered stays so. */
  lemma {:induction false} InsertsCover(t0: Target, all: seq<Entry>, t: Target, es: seq<Entry>, held: seq<Entry>)
    requires NoTopTie(t0, all) && Framed(t0, all, t) && CoversAll(t0, all, t, held)
    requires (forall e :: e in es ==> e in all) && (forall e :: e in held ==> e in all)
    ensures var t' := PutAll(t, es);
            Framed(t0, all, t') && CoversAll(t0, all, t', held) && CoversAll(t0, all, t', es)
    decreases |es|
  {
    hide NoTopTie, Framed, Covers;
    if es != [] {
      var e, t1 := es[0], Put(t, es[0]);
      assert e in all;
      PutFrames(t0, all, t, e);
      PutCovers(t0, all, t, e, e);
      forall h | h in held ensures Covers(t0, all, t1, h) { PutCovers(t0, all, t, e, h); }
      InsertsCover(t0, all, t1, es[1..], held + [e]);
      var t' := PutAll(t1, es[1..]);
      forall h | h in held ensures Covers(t0, all, t', h) { assert h in held + [e]; }
      forall x | x in es ensures Covers(t0, all, t', x) {
        if x == e { assert x in held + [e]; }
      }
    }
  }

  /** The source entries that a table covers determine it. */
  lemma CoveredIsUnique(t0: Target, all: seq<Entry>, a: Target, b: Target)
    requires NoTopTie(t0, all)
    requires Framed(t0, all, a) && CoversAll(t0, all, a, all) && Framed(t0, all, b) && CoversAll(t0, all, b, all)
    ensures a == b
  {
    forall k ensures At(a, k) == At(b, k) { CoveredAgree(t0, all, a, b, k); }
    SameAt(a, b);
  }

  lemma CoveredAgree(t0: Target, all: seq<Entry>, a: Target, b: Target, k: LookupKey)
    requires NoTopTie(t0, all) && FromSource(t0, all, a, k) && FromSource(t0, all, b, k)
    requires CoversAll(t0, all, a, all) && CoversAll(t0, all, b, all)
    ensures At(a, k) == At(b, k)
  {
    if At(a, k) != At(t0, k) {
      var e :| e in all && e.key == k && At(a, k) == Some(e.value) && (k in t0 ==> t0[k].rank <= e.value.rank);
      HighestIsHeld(t0, all, a, b, e);
    } else if At(b, k) != At(t0, k) {
      var e :| e in all && e.key == k && At(b, k) == Some(e.value) && (k in t0 ==> t0[k].rank <= e.value.rank);
      HighestIsHeld(t0, all, b, a, e);
    }
  }

  /** An entry that one of them holds is the highest version of its key, so the other has it too. */
  lemma HighestIsHeld(t0: Target, all: seq<Entry>, a: Target, b: Target, e: Entry)
    requires NoTopTie(t0, all) && FromSource(t0, all, b, e.key) && e in all && At(a, e.key) == Some(e.value)
    requires e.key in t0 ==> t0[e.key].rank <= e.value.rank
    requires CoversAll(t0, all, a, all) && CoversAll(t0, all, b, all)
    ensures At(b, e.key) == Some(e.value)
  {
    forall c | c in all && c.key == e.key ensures c.value.rank <= e.value.rank {
      assert Covers(t0, all, a, c);
    }
    assert !Outdone(t0, all, e);
    assert Covers(t0, all, b, e);
  }

  lemma CoveredIsOneShot(t0: Target, all: seq<Entry>, t: Target)
    requires NoTopTie(t0, all) && Framed(t0, all, t) && CoversAll(t0, all, t, all)
    ensures t == PutAll(t0, all)
  {
    hide NoTopTie, FromSource, Covers;
    assert Framed(t0, all, t0) by { NothingChanged(t0, all); }
    InsertsCover(t0, all, t0, all, []);
    CoveredIsUnique(t0, all, t, PutAll(t0, all));
  }

  lemma NothingChanged(t0: Target, all: seq<Entry>)
    ensures Framed(t0, all, t0)
  {
  }

  lemma DistinctHasNoTie(t0: Target, all: seq<Entry>)
    requires DistinctKeys(all)
    ensures NoTopTie(t0, all)
  {
    forall a, b | a in all && b in all && a.key == b.key ensures a == b { DistinctUnique(all, a, b); }
  }

  lemma {:induction false} RankBound(t: Target, es: seq<Entry>, k: LookupKey, rank: nat)
    requires k in t ==> t[k].rank <= rank
    requires forall e :: e in es && e.key == k ==> e.value.rank <= rank
    ensures k in PutAll(t, es) ==> PutAll(t, es)[k].rank <= rank
    decreases |es|
  {
    if es != [] {
      assert es[0] in es;
      RankBound(Put(t, es[0]), es[1..], k, rank);
    }
  }

  /** The last entry inserted stays when nothing outranks it. */
  lemma LastStays(t: Target, es: seq<Entry>, e: Entry)
    requires e.key in t ==> t[e.key].rank <= e.value.rank
    requires forall c :: c in es && c.key == e.key ==> c.value.rank <= e.value.rank
    ensures At(PutAll(t, es + [e]), e.key) == Some(e.value)
  {
    RankBound(t, es, e.key, e.value.rank);
    PutAllConcat(t, es, [e]);
    assert PutAll(PutAll(t, es), [e]) == Put(PutAll(t, es), e) by { assert [e][1..] == []; }
  }

  // ---------- What the checksums add ----------

  function SourceColumnsOf(rows: seq<SourceRow>): multiset<Hashed> {
    if rows == [] then multiset{} else SourceColumnsOf(rows[1..]) + multiset{SourceColumns(rows[0])}
  }

  ghost function TableColumnsOf(t: Target): multiset<Hashed>
    decreases |t|
  {
    if t == map[] then multiset{}
    else var k := AnyKey(t); TableColumnsOf(t - {k}) + multiset{BindingColumns(k, t[k])}
  }

  /** No collision: equal sums come from equal columns. */
  ghost predicate SumsTellApart(hash: Hashed -> Word, rows: seq<SourceRow>, t: Target) {
    SourceSums(hash, rows) == TableSums(hash, t) ==> SourceColumnsOf(rows) == TableColumnsOf(t)
  }

  lemma {:induction false} InSourceColumns(rows: seq<SourceRow>, c: Hashed)
    requires c in SourceColumnsOf(rows)
    ensures exists r :: r in rows && SourceColumns(r) == c
  {
    if SourceColumns(rows[0]) != c { InSourceColumns(rows[1..], c); }
  }

  lemma {:induction false} InTableColumns(t: Target, k: LookupKey)
    requires k in t
    ensures BindingColumns(k, t[k]) in TableColumnsOf(t)
    decreases |t|
  {
    var first := AnyKey(t);
    if first != k { InTableColumns(t - {first}, k); }
  }

  /** The hashed columns say which lookup row a source row has; the name itself is not hashed. */
  ghost predicate ColumnsIdentify(norm: string -> string, rows: seq<SourceRow>) {
    forall a, b :: a in rows && b in rows && SourceColumns(a) == SourceColumns(b) ==>
      Project(norm, a) == Project(norm, b)
  }

  /** A table that shows rows of the past source versions `past` as well: without collisions, and
      if the hashed columns identify the lookup row, the comparison accepts exactly the image of
      the present rows. Here the checksums carry the proof: a stale row has columns that no
      present row has. */
  lemma AcceptedIffImage(norm: string -> string, hash: Hashed -> Word, rows: seq<SourceRow>, past: seq<SourceRow>,
                         t: Target)
    requires (forall r :: r in rows ==> r in past) && ColumnsIdentify(norm, past)
    requires WrittenBy(Visible(t), Entries(norm, past)) && SumsTellApart(hash, rows, Visible(t))
    ensures StatsMatch(hash, rows, t) <==>
              && Projectable(norm, rows) && DistinctKeys(Entries(norm, rows))
              && IsImage(Visible(t), Entries(norm, rows))
  {
    var es, shown := Entries(norm, rows), Visible(t);
    EntriesSize(norm, rows);
    if StatsMatch(hash, rows, t) {
      forall k | k in shown ensures Entry(k, shown[k]) in es {
        ShownIsPresent(norm, rows, past, shown, k);
      }
      CountMatchIsExact(shown, es, |rows|);
    } else if Projectable(norm, rows) && DistinctKeys(es) && IsImage(shown, es) {
      KeyCount(es);
      assert |shown| == |shown.Keys|;
      ImageSums(norm, hash, rows, shown);
    }
  }

  lemma ProjectedColumns(norm: string -> string, r: SourceRow)
    ensures Project(norm, r).Some? ==>
              var e := Project(norm, r).value; SourceColumns(r) == BindingColumns(e.key, e.value)
  {
  }

  lemma ShownIsPresent(norm: string -> string, rows: seq<SourceRow>, past: seq<SourceRow>, shown: Target, k: LookupKey)
    requires (forall r :: r in rows ==> r in past) && ColumnsIdentify(norm, past)
    requires WrittenBy(shown, Entries(norm, past)) && SourceColumnsOf(rows) == TableColumnsOf(shown) && k in shown
    ensures Entry(k, shown[k]) in Entries(norm, rows)
  {
    hide Project, Entries, BindingColumns, SourceColumns, TableColumnsOf, SourceColumnsOf;
    var e := Entry(k, shown[k]);
    EntryHolder(norm, past, e);
    var writer :| writer in past && Project(norm, writer) == Some(e);
    InTableColumns(shown, k);
    InSourceColumns(rows, BindingColumns(k, shown[k]));
    var r :| r in rows && SourceColumns(r) == BindingColumns(k, shown[k]);
    ProjectedColumns(norm, writer);
    EntryHolder(norm, rows, e);
  }

  /** Without that, count and checksums are blind to the name: this table shows the only source
      row under another name, and is accepted for every hash. */
  lemma NameIsNotCompared(hash: Hashed -> Word) returns (rows: seq<SourceRow>, t: Target)
    ensures var norm := (s: string) => s;
            && Projectable(norm, rows) && DistinctKeys(Entries(norm, rows))
            && StatsMatch(hash, rows, t) && !IsImage(Visible(t), Entries(norm, rows))
  {
    var norm := (s: string) => s;
    var row := SourceRow(Key("1", "OWNER", "r"), Some(7), "new", "new", "h", "h", 1, 0, false, true);
    var renamed := row.(rawName := "old", normalizedName := "old");
    rows := [row];
    var stale := Project(norm, renamed).value;
    t := map[stale.key := stale.value];
    assert Entries(norm, rows) == [Project(norm, row).value];
    var k := LookupKey("new", 7, "1", "r");
    assert k in Keys(Entries(norm, rows));
    assert "old"[0] != "new"[0];
    assert k !in t;
    assert Visible(t) == t && |t| == 1;
    TableSumsAnyRow(hash, t, stale.key);
    assert t - {stale.key} == map[];
    assert rows[1..] == [];
  }
}

/** One hash bucket: a flat run of 52-byte records (8 bytes scope, 8 bytes key, 36 bytes value),
    and the scan that splits it at the place of a (scope, key). */
module Buckets {
  import opened Wrappers
  import opened Words

  const RECORD_SIZE: nat := 52

  /** The content address stored for a row: always 36 bytes. */
  type Multihash = v: seq<Byte> | |v| == 36 witness seq(36, _ => 0)

  datatype Record = Record(scope: U64, key: U64, value: Multihash)

  // ---------- bytes and records ----------

  function EncodeRecord(r: Record): (bytes: seq<Byte>)
    ensures |bytes| == RECORD_SIZE
  {
    EncodeU64(r.scope) + EncodeU64(r.key) + r.value
  }

  function DecodeRecord(bytes: seq<Byte>): Record
    requires |bytes| == RECORD_SIZE
  {
    Record(DecodeU64(bytes[..8]), DecodeU64(bytes[8..16]), bytes[16..])
  }

  predicate WellSized(bytes: seq<Byte>) {
    |bytes| % RECORD_SIZE == 0
  }

  function RecordBytes(bytes: seq<Byte>, i: nat): (r: seq<Byte>)
    requires RECORD_SIZE * (i + 1) <= |bytes|
    ensures |r| == RECORD_SIZE
  {
    bytes[RECORD_SIZE * i..RECORD_SIZE * (i + 1)]
  }

  function DecodeBucket(bytes: seq<Byte>): (records: seq<Record>)
    requires WellSized(bytes)
    ensures RECORD_SIZE * |records| == |bytes|
  {
    seq(|bytes| / RECORD_SIZE, i requires 0 <= i < |bytes| / RECORD_SIZE => DecodeRecord(RecordBytes(bytes, i)))
  }

  function EncodeBucket(records: seq<Record>): (bytes: seq<Byte>)
    ensures |bytes| == RECORD_SIZE * |records|
  {
    if records == [] then [] else EncodeRecord(records[0]) + EncodeBucket(records[1..])
  }

  lemma RecordRoundTrip(r: Record, bytes: seq<Byte>)
    requires |bytes| == RECORD_SIZE
    ensures DecodeRecord(EncodeRecord(r)) == r
    ensures EncodeRecord(DecodeRecord(bytes)) == bytes
  {
    var e := EncodeRecord(r);
    assert e[..8] == EncodeU64(r.scope) && e[8..16] == EncodeU64(r.key) && e[16..] == r.value;
    U64RoundTrip(r.scope, bytes[..8]);
    U64RoundTrip(r.key, bytes[8..16]);
    assert bytes == bytes[..8] + bytes[8..16] + bytes[16..];
  }

  lemma SliceOfAppend(a: seq<Byte>, b: seq<Byte>, x: nat, y: nat)
    requires |a| <= x <= y <= |a| + |b|
    ensures (a + b)[x..y] == b[x - |a|..y - |a|]
  {
  }

  lemma DecodeAppend(a: seq<Byte>, b: seq<Byte>)
    requires WellSized(a) && WellSized(b)
    ensures WellSized(a + b) && DecodeBucket(a + b) == DecodeBucket(a) + DecodeBucket(b)
  {
    var whole, n := DecodeBucket(a + b), |DecodeBucket(a)|;
    forall i | 0 <= i < |whole| ensures whole[i] == (DecodeBucket(a) + DecodeBucket(b))[i] {
      if i < n {
        assert RecordBytes(a + b, i) == RecordBytes(a, i);
      } else {
        var x, y := RECORD_SIZE * i, RECORD_SIZE * (i + 1);
        assert x - |a| == RECORD_SIZE * (i - n) && y - |a| == RECORD_SIZE * (i - n + 1);
        SliceOfAppend(a, b, x, y);
      }
    }
  }

  lemma DecodeSlices(bytes: seq<Byte>, p: nat)
    requires WellSized(bytes) && RECORD_SIZE * p <= |bytes|
    ensures WellSized(bytes[..RECORD_SIZE * p]) && WellSized(bytes[RECORD_SIZE * p..])
    ensures DecodeBucket(bytes[..RECORD_SIZE * p]) == DecodeBucket(bytes)[..p]
    ensures DecodeBucket(bytes[RECORD_SIZE * p..]) == DecodeBucket(bytes)[p..]
  {
    var a, b := bytes[..RECORD_SIZE * p], bytes[RECORD_SIZE * p..];
    assert a + b == bytes;
    DecodeAppend(a, b);
  }

  /** Bytes and record sequences carry the same information. */
  lemma {:induction false} BucketRoundTrip(records: seq<Record>)
    ensures WellSized(EncodeBucket(records)) && DecodeBucket(EncodeBucket(records)) == records
  {
    if records != [] {
      BucketRoundTrip(records[1..]);
      var first := EncodeRecord(records[0]);
      RecordRoundTrip(records[0], first);
      assert RecordBytes(first, 0) == first;
      assert DecodeBucket(first) == [records[0]];
      DecodeAppend(first, EncodeBucket(records[1..]));
    }
  }

  lemma {:induction false} BytesRoundTrip(bytes: seq<Byte>)
    requires WellSized(bytes)
    ensures EncodeBucket(DecodeBucket(bytes)) == bytes
    decreases |bytes|
  {
    if bytes != [] {
      DecodeSlices(bytes, 1);
      var first := bytes[..RECORD_SIZE];
      BytesRoundTrip(bytes[RECORD_SIZE..]);
      assert RecordBytes(bytes, 0) == first;
      RecordRoundTrip(DecodeBucket(bytes)[0], first);
      assert bytes == first + bytes[RECORD_SIZE..];
    }
  }

  // ---------- the scan on records ----------

  /** The scan moves past a record whose scope is larger or whose key is smaller. */
  predicate Skips(r: Record, scope: U64, key: U64) {
    scope < r.scope || r.key < key
  }

  function StopAt(records: seq<Record>, scope: U64, key: U64): (p: nat)
    ensures p <= |records|
    ensures forall i :: 0 <= i < p ==> Skips(records[i], scope, key)
    ensures p < |records| ==> !Skips(records[p], scope, key)
  {
    if records == [] || !Skips(records[0], scope, key) then 0
    else 1 + StopAt(records[1..], scope, key)
  }

  predicate HitAt(records: seq<Record>, p: nat, scope: U64, key: U64)
    requires p <= |records|
  {
    p < |records| && records[p].scope == scope && records[p].key == key
  }

  /** What the scan reports for (scope, key). */
  function ScanFind(records: seq<Record>, scope: U64, key: U64): Option<Multihash> {
    var p := StopAt(records, scope, key);
    if HitAt(records, p, scope, key) then Some(records[p].value) else None
  }

  function InsertRecord(records: seq<Record>, r: Record): seq<Record> {
    var p := StopAt(records, r.scope, r.key);
    records[..p] + [r] + records[p..]
  }

  function ReplaceRecord(records: seq<Record>, r: Record): seq<Record>
    requires ScanFind(records, r.scope, r.key).Some?
  {
    records[StopAt(records, r.scope, r.key) := r]
  }

  function DeleteRecord(records: seq<Record>, scope: U64, key: U64): seq<Record>
    requires ScanFind(records, scope, key).Some?
  {
    var p := StopAt(records, scope, key);
    records[..p] + records[p + 1..]
  }

  // ---------- the invariant that makes the scan correct ----------

  /** r stops the scan for the place of later. */
  predicate Shadows(r: Record, later: Record) {
    r.scope <= later.scope && r.key >= later.key
  }

  ghost predicate NoShadow(records: seq<Record>) {
    forall i, j :: 0 <= i < j < |records| ==> !Shadows(records[i], records[j])
  }

  lemma StopAtUnique(records: seq<Record>, scope: U64, key: U64, p: nat)
    requires p <= |records|
    requires forall i :: 0 <= i < p ==> Skips(records[i], scope, key)
    requires p < |records| ==> !Skips(records[p], scope, key)
    ensures StopAt(records, scope, key) == p
  {
  }

  /** The scan reports a value exactly when a record with that scope, key and value is in the bucket. */
  lemma ScanIsMembership(records: seq<Record>, scope: U64, key: U64, v: Multihash)
    requires NoShadow(records)
    ensures ScanFind(records, scope, key) == Some(v) <==> Record(scope, key, v) in records
  {
  }

  /** The invariant is exactly what the scan needs: it holds if and only if the scan, sent to the
      place of any record of the bucket, stops at that very record. */
  lemma NoShadowIffEveryRecordIsReached(records: seq<Record>)
    ensures NoShadow(records)
       <==> forall j :: 0 <= j < |records| ==> StopAt(records, records[j].scope, records[j].key) == j
  {
  }

  lemma InsertKeepsNoShadow(records: seq<Record>, r: Record)
    requires NoShadow(records) && ScanFind(records, r.scope, r.key).None?
    ensures NoShadow(InsertRecord(records, r))
  {
  }

  lemma ReplaceKeepsNoShadow(records: seq<Record>, r: Record)
    requires NoShadow(records) && ScanFind(records, r.scope, r.key).Some?
    ensures NoShadow(ReplaceRecord(records, r))
  {
  }

  lemma DeleteKeepsNoShadow(records: seq<Record>, scope: U64, key: U64)
    requires NoShadow(records) && ScanFind(records, scope, key).Some?
    ensures NoShadow(DeleteRecord(records, scope, key))
  {
  }

  /** Two buckets that keep the invariant and hold the same record for a place answer alike there. */
  lemma SameAnswer(a: seq<Record>, b: seq<Record>, scope: U64, key: U64)
    requires NoShadow(a) && NoShadow(b)
    requires forall v: Multihash :: Record(scope, key, v) in a <==> Record(scope, key, v) in b
    ensures ScanFind(a, scope, key) == ScanFind(b, scope, key)
  {
  }

  /** Insert answers the new value at its place and leaves every other place alone. */
  lemma FindAfterInsert(records: seq<Record>, r: Record, scope: U64, key: U64)
    requires NoShadow(records) && ScanFind(records, r.scope, r.key).None?
    ensures ScanFind(InsertRecord(records, r), scope, key)
         == if scope == r.scope && key == r.key then Some(r.value) else ScanFind(records, scope, key)
  {
    InsertKeepsNoShadow(records, r);
    var p, out := StopAt(records, r.scope, r.key), InsertRecord(records, r);
    assert out[p] == r;
    if scope == r.scope && key == r.key {
      ScanIsMembership(out, scope, key, r.value);
    } else {
      SplitMembership(records, p, out, r, scope, key);
      SameAnswer(out, records, scope, key);
    }
  }

  lemma SplitMembership(records: seq<Record>, p: nat, out: seq<Record>, r: Record, scope: U64, key: U64)
    requires p <= |records| && out == records[..p] + [r] + records[p..]
    requires scope != r.scope || key != r.key
    ensures forall v: Multihash :: Record(scope, key, v) in out <==> Record(scope, key, v) in records
  {
  }

  lemma UpdateMembership(records: seq<Record>, p: nat, r: Record, scope: U64, key: U64)
    requires p < |records| && records[p].scope == r.scope && records[p].key == r.key
    requires scope != r.scope || key != r.key
    ensures forall v: Multihash :: Record(scope, key, v) in records[p := r] <==> Record(scope, key, v) in records
  {
    forall v: Multihash | Record(scope, key, v) in records ensures Record(scope, key, v) in records[p := r] {
      var j :| 0 <= j < |records| && records[j] == Record(scope, key, v);
      assert records[p := r][j] == records[j];
    }
  }

  lemma FindAfterReplace(records: seq<Record>, r: Record, scope: U64, key: U64)
    requires NoShadow(records) && ScanFind(records, r.scope, r.key).Some?
    ensures ScanFind(ReplaceRecord(records, r), scope, key)
         == if scope == r.scope && key == r.key then Some(r.value) else ScanFind(records, scope, key)
  {
    ReplaceKeepsNoShadow(records, r);
    var p, out := StopAt(records, r.scope, r.key), ReplaceRecord(records, r);
    assert out[p] == r;
    if scope == r.scope && key == r.key {
      ScanIsMembership(out, scope, key, r.value);
    } else {
      assert records[p].scope == r.scope && records[p].key == r.key;
      UpdateMembership(records, p, r, scope, key);
      SameAnswer(out, records, scope, key);
    }
  }

  lemma DeletedIsGone(records: seq<Record>, gone: Record, v: Multihash)
    requires NoShadow(records) && ScanFind(records, gone.scope, gone.key).Some?
    ensures Record(gone.scope, gone.key, v) !in DeleteRecord(records, gone.scope, gone.key)
  {
  }

  lemma FindAfterDelete(records: seq<Record>, gone: Record, scope: U64, key: U64)
    requires NoShadow(records) && ScanFind(records, gone.scope, gone.key) == Some(gone.value)
    ensures ScanFind(DeleteRecord(records, gone.scope, gone.key), scope, key)
         == if scope == gone.scope && key == gone.key then None else ScanFind(records, scope, key)
  {
    DeleteKeepsNoShadow(records, gone.scope, gone.key);
    var p, out := StopAt(records, gone.scope, gone.key), DeleteRecord(records, gone.scope, gone.key);
    if scope == gone.scope && key == gone.key {
      var found := ScanFind(out, scope, key);
      if found.Some? {
        ScanIsMembership(out, scope, key, found.value);
        assert false by { DeletedIsGone(records, gone, found.value); }
      }
    } else {
      assert records == out[..p] + [records[p]] + out[p..];
      SplitMembership(out, p, records, gone, scope, key);
      SameAnswer(out, records, scope, key);
    }
  }

  // ---------- the code: parse, then combine ----------

  datatype ParsedParts = ParsedParts(
    before: seq<Byte>, after: seq<Byte>, scope: U64, key: U64, value: seq<Byte>, present: bool)

  /** The parts a parse must return, in terms of the records the bytes hold. */
  ghost predicate PartsOf(bytes: seq<Byte>, scope: U64, key: U64, parts: ParsedParts)
    requires WellSized(bytes)
  {
    var records := DecodeBucket(bytes);
    var p := StopAt(records, scope, key);
    && parts.scope == scope && parts.key == key
    && parts.present == HitAt(records, p, scope, key)
    && parts.before == bytes[..RECORD_SIZE * p]
    && (if parts.present
        then parts.after == bytes[RECORD_SIZE * (p + 1)..] && parts.value == records[p].value
        else parts.after == bytes[RECORD_SIZE * p..] && parts.value == [])
  }

  method ParseCacheBucket(bytes: seq<Byte>, scope: U64, key: U64) returns (parts: ParsedParts)
    requires WellSized(bytes)
    ensures PartsOf(bytes, scope, key, parts)
  {
    parts := ParsedParts(bytes, [], scope, key, [], false);
    ghost var records := DecodeBucket(bytes);
    ghost var i := 0;
    var current := 0;
    while current < |bytes|
      invariant current == RECORD_SIZE * i && i <= |records|
      invariant forall j :: 0 <= j < i ==> Skips(records[j], scope, key)
      invariant parts == ParsedParts(bytes, [], scope, key, [], false)
      decreases |bytes| - current
    {
      var entryStart := current;
      var currentScope := DecodeU64(bytes[current..current + 8]);
      var currentKey := DecodeU64(bytes[current + 8..current + 16]);
      RecordFields(bytes, i);
      if scope < currentScope {
        current, i := current + RECORD_SIZE, i + 1;
        continue;
      }
      if currentKey < key {
        current, i := current + RECORD_SIZE, i + 1;
        continue;
      }
      current := current + 16;
      parts := parts.(before := bytes[..entryStart]);
      var copyEnd := entryStart;
      if currentKey == key && currentScope == scope {
        parts := parts.(value := bytes[current..current + 36], present := true);
        current := current + 36;
        copyEnd := current;
      }
      parts := parts.(after := bytes[copyEnd..]);
      StopAtUnique(records, scope, key, i);
      return;
    }
    StopAtUnique(records, scope, key, i);
    assert bytes[..|bytes|] == bytes;
  }

  lemma RecordFields(bytes: seq<Byte>, i: nat)
    requires WellSized(bytes) && RECORD_SIZE * i < |bytes|
    ensures RECORD_SIZE * (i + 1) <= |bytes|
    ensures DecodeBucket(bytes)[i].scope == DecodeU64(bytes[RECORD_SIZE * i..RECORD_SIZE * i + 8])
    ensures DecodeBucket(bytes)[i].key == DecodeU64(bytes[RECORD_SIZE * i + 8..RECORD_SIZE * i + 16])
    ensures DecodeBucket(bytes)[i].value == bytes[RECORD_SIZE * i + 16..RECORD_SIZE * (i + 1)]
  {
    var r, start := RecordBytes(bytes, i), RECORD_SIZE * i;
    assert start + RECORD_SIZE == RECORD_SIZE * (i + 1);
    assert r[..8] == bytes[start..start + 8];
    assert r[8..16] == bytes[start + 8..start + 16] by {
      assert forall j :: 8 <= j < 16 ==> r[j] == bytes[start + j];
    }
    assert r[16..] == bytes[start + 16..start + RECORD_SIZE];
  }

  function Combined(parts: ParsedParts): seq<Byte> {
    parts.before
    + (if parts.present then EncodeU64(parts.scope) + EncodeU64(parts.key) + parts.value else [])
    + parts.after
  }

  method CombineParsedBucketParts(parts: ParsedParts) returns (bytes: seq<Byte>)
    ensures bytes == Combined(parts)
  {
    bytes := parts.before;
    if parts.present {
      bytes := bytes + EncodeU64(parts.scope);
      bytes := bytes + EncodeU64(parts.key);
      bytes := bytes + parts.value;
    }
    bytes := bytes + parts.after;
  }

  /** Putting an untouched parse back together gives the same bytes, for every place. */
  lemma CombineUndoesParse(bytes: seq<Byte>, scope: U64, key: U64, parts: ParsedParts)
    requires WellSized(bytes) && PartsOf(bytes, scope, key, parts)
    ensures Combined(parts) == bytes
  {
    if parts.present {
      var p := StopAt(DecodeBucket(bytes), scope, key);
      RecordRoundTrip(DecodeBucket(bytes)[p], RecordBytes(bytes, p));
      assert bytes == bytes[..RECORD_SIZE * p] + RecordBytes(bytes, p) + bytes[RECORD_SIZE * (p + 1)..];
    }
  }

  lemma CombinedRecords(bytes: seq<Byte>, p: nat, q: nat, parts: ParsedParts)
    requires WellSized(bytes) && p <= q && RECORD_SIZE * q <= |bytes|
    requires parts.before == bytes[..RECORD_SIZE * p] && parts.after == bytes[RECORD_SIZE * q..]
    requires parts.present ==> |parts.value| == 36
    ensures WellSized(Combined(parts))
    ensures DecodeBucket(Combined(parts))
         == DecodeBucket(bytes)[..p]
          + (if parts.present then [Record(parts.scope, parts.key, parts.value)] else [])
          + DecodeBucket(bytes)[q..]
  {
    DecodeSlices(bytes, p);
    DecodeSlices(bytes, q);
    if parts.present {
      var r := Record(parts.scope, parts.key, parts.value);
      BucketRoundTrip([r]);
      assert EncodeBucket([r]) == EncodeRecord(r) + EncodeBucket([]);
      assert EncodeBucket([r]) == EncodeRecord(r);
      DecodeAppend(parts.before, EncodeRecord(r));
      DecodeAppend(parts.before + EncodeRecord(r), parts.after);
    } else {
      DecodeAppend(parts.before, parts.after);
      assert parts.before + [] == parts.before;
    }
  }

  /** The three edits of the table, on bytes, are insert, replace and delete on the records. */
  lemma EditedParts(bytes: seq<Byte>, scope: U64, key: U64, parts: ParsedParts, v: Multihash)
    requires WellSized(bytes) && PartsOf(bytes, scope, key, parts)
    ensures !parts.present ==>
      var out := Combined(parts.(value := v, present := true));
      WellSized(out) && DecodeBucket(out) == InsertRecord(DecodeBucket(bytes), Record(scope, key, v))
    ensures parts.present ==>
      var out := Combined(parts.(value := v));
      WellSized(out) && DecodeBucket(out) == ReplaceRecord(DecodeBucket(bytes), Record(scope, key, v))
    ensures parts.present ==>
      var out := Combined(parts.(present := false));
      WellSized(out) && DecodeBucket(out) == DeleteRecord(DecodeBucket(bytes), scope, key)
  {
    var records := DecodeBucket(bytes);
    var p := StopAt(records, scope, key);
    if parts.present {
      CombinedRecords(bytes, p, p + 1, parts.(value := v));
      CombinedRecords(bytes, p, p + 1, parts.(present := false));
    } else {
      CombinedRecords(bytes, p, p, parts.(value := v, present := true));
    }
  }

  // ---------- the same in bytes ----------

  /** The 64-bit word that lies at a position, lowest byte first. */
  function WordAt(bytes: seq<Byte>, i: nat): nat
    requires i + 8 <= |bytes|
  {
    Word(bytes[i], bytes[i + 1], bytes[i + 2], bytes[i + 3], bytes[i + 4], bytes[i + 5], bytes[i + 6], bytes[i + 7])
  }

  lemma WordIsDecoded(bytes: seq<Byte>, i: nat)
    requires i + 8 <= |bytes|
    ensures DecodeU64(bytes[i..i + 8]) == WordAt(bytes, i)
  {
    U64Layout(bytes[i..i + 8]);
  }

  lemma WordIsEncoded(a: seq<Byte>, n: U64, b: seq<Byte>)
    ensures WordAt(a + EncodeU64(n) + b, |a|) == n
  {
    var bytes := a + EncodeU64(n) + b;
    assert bytes[|a|..|a| + 8] == EncodeU64(n);
    WordIsDecoded(bytes, |a|);
    U64RoundTrip(n, EncodeU64(n));
  }

  /** The 52 bytes of a record: scope and key, each lowest byte first, and the value. */
  lemma RecordLayout(r: Record)
    ensures
      var e := EncodeRecord(r);
      && WordAt(e, 0) == r.scope && WordAt(e, 8) == r.key && e[16..] == r.value
      && forall i :: 0 <= i < 8 ==> e[i] == r.scope / Pow256(i) % 256 && e[8 + i] == r.key / Pow256(i) % 256
  {
    var e := EncodeRecord(r);
    assert e == [] + EncodeU64(r.scope) + (EncodeU64(r.key) + r.value);
    WordIsEncoded([], r.scope, EncodeU64(r.key) + r.value);
    WordIsEncoded(EncodeU64(r.scope), r.key, r.value);
    forall i | 0 <= i < 8 ensures e[i] == r.scope / Pow256(i) % 256 && e[8 + i] == r.key / Pow256(i) % 256 {
      ByteAt(r.scope, 8, i);
      ByteAt(r.key, 8, i);
      assert e[i] == EncodeU64(r.scope)[i] && e[8 + i] == EncodeU64(r.key)[i];
    }
  }

  lemma FieldsInBytes(bytes: seq<Byte>, i: nat)
    requires WellSized(bytes) && RECORD_SIZE * i < |bytes|
    ensures RECORD_SIZE * i + RECORD_SIZE <= |bytes|
    ensures DecodeBucket(bytes)[i].scope == WordAt(bytes, RECORD_SIZE * i)
    ensures DecodeBucket(bytes)[i].key == WordAt(bytes, RECORD_SIZE * i + 8)
    ensures DecodeBucket(bytes)[i].value == bytes[RECORD_SIZE * i + 16..RECORD_SIZE * i + RECORD_SIZE]
  {
    RecordFields(bytes, i);
    WordIsDecoded(bytes, RECORD_SIZE * i);
    WordIsDecoded(bytes, RECORD_SIZE * i + 8);
  }

  /** Record i lies within the bytes, and has a larger scope or a smaller key. */
  predicate PassedBy(bytes: seq<Byte>, i: nat, scope: nat, key: nat) {
    52 * i + 52 <= |bytes| && (WordAt(bytes, 52 * i) > scope || WordAt(bytes, 52 * i + 8) < key)
  }

  /** Where a parse splits the bytes: behind all records of a larger scope or a smaller key, and before
      the first that is neither. */
  lemma ParseInBytes(bytes: seq<Byte>, scope: U64, key: U64, parts: ParsedParts)
    requires WellSized(bytes) && PartsOf(bytes, scope, key, parts)
    ensures
      var n := |parts.before|;
      && n % 52 == 0 && n <= |bytes| && parts.before == bytes[..n]
      && (forall i: nat :: i < n / 52 ==> PassedBy(bytes, i, scope, key))
      && (if n == |bytes| then !parts.present && parts.after == [] else StopsInBytes(bytes, n, scope, key, parts))
  {
    var records, n := DecodeBucket(bytes), |parts.before|;
    var p := StopAt(records, scope, key);
    assert n == RECORD_SIZE * p;
    QuotientIs(n, 52, p);
    forall i: nat | i < p ensures PassedBy(bytes, i, scope, key) {
      FieldsInBytes(bytes, i);
      assert Skips(records[i], scope, key);
    }
    if n < |bytes| { StopInBytes(bytes, scope, key, parts, p); }
  }

  /** The record at n is neither; the parse is a hit if it has both the scope and the key. */
  predicate StopsInBytes(bytes: seq<Byte>, n: nat, scope: nat, key: nat, parts: ParsedParts) {
    && n + 52 <= |bytes| && WordAt(bytes, n) <= scope && WordAt(bytes, n + 8) >= key
    && (parts.present <==> WordAt(bytes, n) == scope && WordAt(bytes, n + 8) == key)
    && parts.after == bytes[if parts.present then n + 52 else n..]
    && (parts.present ==> parts.value == bytes[n + 16..n + 52])
  }

  lemma StopInBytes(bytes: seq<Byte>, scope: U64, key: U64, parts: ParsedParts, p: nat)
    requires WellSized(bytes) && PartsOf(bytes, scope, key, parts)
    requires p == StopAt(DecodeBucket(bytes), scope, key) && RECORD_SIZE * p < |bytes|
    ensures StopsInBytes(bytes, RECORD_SIZE * p, scope, key, parts)
  {
    FieldsInBytes(bytes, p);
    assert !Skips(DecodeBucket(bytes)[p], scope, key);
  }

  /** What is written back: the part before, the record if there is one, and the part after. */
  lemma CombinedInBytes(parts: ParsedParts)
    requires parts.present ==> |parts.value| == 36
    ensures
      var out, n := Combined(parts), |parts.before|;
      if parts.present then
        && |out| == n + 52 + |parts.after| && out[..n] == parts.before && out[n + 52..] == parts.after
        && WordAt(out, n) == parts.scope && WordAt(out, n + 8) == parts.key && out[n + 16..n + 52] == parts.value
      else out == parts.before + parts.after
  {
    if parts.present {
      var (a, b) := (parts.before, parts.after);
      var out := Combined(parts);
      assert out == a + EncodeU64(parts.scope) + (EncodeU64(parts.key) + parts.value + b);
      WordIsEncoded(a, parts.scope, EncodeU64(parts.key) + parts.value + b);
      assert out == (a + EncodeU64(parts.scope)) + EncodeU64(parts.key) + (parts.value + b);
      WordIsEncoded(a + EncodeU64(parts.scope), parts.key, parts.value + b);
    }
  }
}

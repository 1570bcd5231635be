/** Shards and manifests in the content store, and how a row is found through them. */
module Shards {
  import opened Wrappers
  import opened Words
  import opened Buckets
  import opened TableModel

  /** An address in the content store. */
  type Uri = nat

  datatype ManifestData = ManifestData(
    nextKey: Checksum256, shards: U32, bucketsPerShard: U32, shardbuckets: map<nat, Uri>)

  const EMPTY_MANIFEST := ManifestData(EMPTY_256, 0, 0, map[])

  /** What an address can hold: raw bytes, a shard (one address per bucket), or a manifest. */
  datatype Blob =
    | Raw(data: seq<Byte>)
    | ShardData(values: seq<Uri>)
    | Saved(manifest: ManifestData)

  /** The store: immutable, it only ever grows, so being a prefix is being an earlier state. */
  type Ipfs = seq<Blob>

  datatype ShardRow = ShardRow(uri: Uri, revision: U32)

  datatype VConfig = VConfig(nextKey: Checksum256, shards: U32, bucketsPerShard: U32, revision: U32)

  // ---------- geometry ----------

  datatype Place = Place(shard: nat, bucket: nat)

  /** Number of shards, buckets in each, and the hash of "scope-key" text, of which nothing is assumed. */
  datatype Geometry = Geometry(shards: U32, buckets: U32, hash: RowKey -> U64) {
    function PlaceOf(k: RowKey): Place
      requires shards >= 1 && buckets >= 1
    {
      Place(BitAnd(hash(k) / 64, shards - 1), BitAnd(hash(k), buckets - 1))
    }
  }

  type UsableGeometry = g: Geometry | g.shards >= 1 && g.buckets >= 1
    witness Geometry(1, 1, _ => 0)

  lemma PlaceInRange(g: UsableGeometry, k: RowKey)
    ensures g.PlaceOf(k).shard < g.shards && g.PlaceOf(k).bucket < g.buckets
  {
    BitAndBound(g.hash(k) / 64, g.shards - 1);
    BitAndBound(g.hash(k), g.buckets - 1);
  }

  /** The bucket is taken from the low bits of the hash, the shard from the bits above the lowest six. */
  lemma PlaceBits(g: UsableGeometry, k: RowKey, i: nat)
    ensures Bit(g.PlaceOf(k).bucket, i) == if Bit(g.hash(k), i) == 1 && Bit(g.buckets - 1, i) == 1 then 1 else 0
    ensures Bit(g.PlaceOf(k).shard, i) == if Bit(g.hash(k), i + 6) == 1 && Bit(g.shards - 1, i) == 1 then 1 else 0
  {
    BitAndBits(g.hash(k), g.buckets - 1, i);
    BitAndBits(g.hash(k) / 64, g.shards - 1, i);
    assert Pow2(i + 3) == 2 * Pow2(i + 2) == 4 * Pow2(i + 1) == 8 * Pow2(i);
    assert Pow2(i + 6) == 2 * Pow2(i + 5) == 4 * Pow2(i + 4) == 8 * Pow2(i + 3);
    DivideTwice(g.hash(k), 64, Pow2(i));
  }

  /** With 1024 shards of 64 buckets, as the contracts open their tables. */
  lemma PlaceIn1024By64(g: UsableGeometry, k: RowKey)
    requires g.shards == 1024 && g.buckets == 64
    ensures g.PlaceOf(k).bucket == g.hash(k) % 64 && g.PlaceOf(k).shard == g.hash(k) / 64 % 1024
  {
    assert Pow2(6) == 64 && Pow2(10) == 1024;
    BitAndIsRemainder(g.hash(k), 6);
    BitAndIsRemainder(g.hash(k) / 64, 10);
  }

  function ShardOf(g: UsableGeometry): RowKey -> nat {
    k => g.PlaceOf(k).shard
  }

  // ---------- well-formed content ----------

  ghost predicate BucketOk(ipfs: Ipfs, u: Uri) {
    u < |ipfs| && ipfs[u].Raw? && WellSized(ipfs[u].data) && NoShadow(DecodeBucket(ipfs[u].data))
  }

  ghost predicate ShardOk(ipfs: Ipfs, u: Uri, buckets: nat) {
    && u < |ipfs| && ipfs[u].ShardData? && |ipfs[u].values| == buckets
    && forall i :: 0 <= i < buckets ==> BucketOk(ipfs, ipfs[u].values[i])
  }

  function BucketBytes(ipfs: Ipfs, u: Uri, i: nat): seq<Byte>
    requires u < |ipfs| && ipfs[u].ShardData? && i < |ipfs[u].values|
    requires ipfs[u].values[i] < |ipfs| && ipfs[ipfs[u].values[i]].Raw?
  {
    ipfs[ipfs[u].values[i]].data
  }

  function ShardFind(ipfs: Ipfs, g: UsableGeometry, u: Uri, k: RowKey): Option<Multihash>
    requires ShardOk(ipfs, u, g.buckets)
  {
    PlaceInRange(g, k);
    ScanFind(DecodeBucket(BucketBytes(ipfs, u, g.PlaceOf(k).bucket)), k.scope, k.key)
  }

  // ---------- what a shard holds ----------

  /** The shard data at u, as shard x, answers exactly these rows. */
  ghost predicate HoldsRows(ipfs: Ipfs, g: UsableGeometry, u: Uri, x: nat, rows: Rows) {
    && ShardOk(ipfs, u, g.buckets)
    && AtHome(rows, x, ShardOf(g))
    && forall k: RowKey :: g.PlaceOf(k).shard == x ==> ShardFind(ipfs, g, u, k) == Lookup(rows, k)
  }

  /** Every address of the manifest holds what the backup says of its shard. */
  ghost predicate ManifestHolds(ipfs: Ipfs, g: UsableGeometry, m: map<nat, Uri>, shards: map<nat, Rows>) {
    && m.Keys == shards.Keys
    && forall x :: x in m ==> HoldsRows(ipfs, g, m[x], x, shards[x])
  }

  /** Every shard row holds what its shelf says, under the same revision. */
  ghost predicate RowsHold(ipfs: Ipfs, g: UsableGeometry, rows: map<nat, ShardRow>, shelves: map<nat, Shelf>) {
    && rows.Keys == shelves.Keys
    && forall x :: x in rows ==>
         rows[x].revision == shelves[x].revision && HoldsRows(ipfs, g, rows[x].uri, x, shelves[x].rows)
  }

  lemma RowReplaced(
      ipfs: Ipfs, g: UsableGeometry, rows: map<nat, ShardRow>, shelves: map<nat, Shelf>,
      x: nat, row: ShardRow, shelf: Shelf)
    requires RowsHold(ipfs, g, rows, shelves)
    requires row.revision == shelf.revision && HoldsRows(ipfs, g, row.uri, x, shelf.rows)
    ensures RowsHold(ipfs, g, rows[x := row], shelves[x := shelf])
  {
  }

  lemma ManifestShrinks(ipfs: Ipfs, g: UsableGeometry, m: map<nat, Uri>, shards: map<nat, Rows>, x: nat)
    requires ManifestHolds(ipfs, g, m, shards)
    ensures ManifestHolds(ipfs, g, m - {x}, shards - {x})
  {
  }

  ghost predicate ConfigMatches(shards: U32, buckets: U32, g: UsableGeometry, configured: bool) {
    if configured then shards == g.shards && buckets == g.buckets else shards == 0 && buckets == 0
  }

  ghost predicate SavedAs(ipfs: Ipfs, u: Uri, g: UsableGeometry, s: Snapshot) {
    && u < |ipfs| && ipfs[u].Saved?
    && var m := ipfs[u].manifest;
       && ManifestHolds(ipfs, g, m.shardbuckets, s.shards)
       && m.nextKey.Value() == s.nextKey && ConfigMatches(m.shards, m.bucketsPerShard, g, s.configured)
  }

  datatype Backup = Backup(uri: Uri, description: string)

  ghost predicate BackupsHold(ipfs: Ipfs, g: UsableGeometry, backups: seq<Backup>, snapshots: seq<Snapshot>) {
    && |backups| == |snapshots|
    && forall i :: 0 <= i < |backups| ==> SavedAs(ipfs, backups[i].uri, g, snapshots[i])
  }

  /** The manifest of a new backup: live shards come from their rows, the others from the residual manifest. */
  lemma OverlayHolds(
      ipfs: Ipfs, g: UsableGeometry, rows: map<nat, ShardRow>, residual: map<nat, Uri>, m: map<nat, Uri>, t: Table)
    requires RowsHold(ipfs, g, rows, t.shelves) && ManifestHolds(ipfs, g, residual, t.pending)
    requires forall x :: x in m <==> x in t.pending || t.IsLive(x)
    requires forall x :: x in m ==> m[x] == if t.IsLive(x) then rows[x].uri else residual[x]
    ensures ManifestHolds(ipfs, g, m, t.Overlay())
  {
  }

  lemma BackupAdded(
      ipfs: Ipfs, g: UsableGeometry, backups: seq<Backup>, snapshots: seq<Snapshot>, b: Backup, s: Snapshot)
    requires BackupsHold(ipfs, g, backups, snapshots) && SavedAs(ipfs, b.uri, g, s)
    ensures BackupsHold(ipfs, g, backups + [b], snapshots + [s])
  {
  }

  // ---------- the store only grows ----------

  lemma GrowShard(ipfs: Ipfs, ipfs': Ipfs, u: Uri, buckets: nat)
    requires ipfs <= ipfs' && ShardOk(ipfs, u, buckets)
    ensures ShardOk(ipfs', u, buckets) && ipfs'[u] == ipfs[u]
    ensures forall i :: 0 <= i < buckets ==> BucketBytes(ipfs', u, i) == BucketBytes(ipfs, u, i)
  {
  }

  /** Adding to the store changes what no shard holds. */
  lemma GrowRows(ipfs: Ipfs, ipfs': Ipfs, g: UsableGeometry, u: Uri, x: nat, rows: Rows)
    requires ipfs <= ipfs' && HoldsRows(ipfs, g, u, x, rows)
    ensures HoldsRows(ipfs', g, u, x, rows)
  {
    GrowShard(ipfs, ipfs', u, g.buckets);
    forall k: RowKey | g.PlaceOf(k).shard == x ensures ShardFind(ipfs', g, u, k) == Lookup(rows, k) {
      PlaceInRange(g, k);
      assert ShardFind(ipfs, g, u, k) == Lookup(rows, k);
    }
  }

  lemma GrowManifest(ipfs: Ipfs, ipfs': Ipfs, g: UsableGeometry, m: map<nat, Uri>, shards: map<nat, Rows>)
    requires ipfs <= ipfs' && ManifestHolds(ipfs, g, m, shards)
    ensures ManifestHolds(ipfs', g, m, shards)
  {
    forall x | x in m ensures HoldsRows(ipfs', g, m[x], x, shards[x]) {
      GrowRows(ipfs, ipfs', g, m[x], x, shards[x]);
    }
  }

  lemma GrowTable(ipfs: Ipfs, ipfs': Ipfs, g: UsableGeometry, rows: map<nat, ShardRow>, shelves: map<nat, Shelf>)
    requires ipfs <= ipfs' && RowsHold(ipfs, g, rows, shelves)
    ensures RowsHold(ipfs', g, rows, shelves)
  {
    forall x | x in rows ensures HoldsRows(ipfs', g, rows[x].uri, x, shelves[x].rows) {
      GrowRows(ipfs, ipfs', g, rows[x].uri, x, shelves[x].rows);
    }
  }

  lemma GrowSaved(ipfs: Ipfs, ipfs': Ipfs, u: Uri, g: UsableGeometry, s: Snapshot)
    requires ipfs <= ipfs' && SavedAs(ipfs, u, g, s)
    ensures SavedAs(ipfs', u, g, s)
  {
    GrowManifest(ipfs, ipfs', g, ipfs[u].manifest.shardbuckets, s.shards);
  }

  lemma GrowBackups(ipfs: Ipfs, ipfs': Ipfs, g: UsableGeometry, backups: seq<Backup>, snapshots: seq<Snapshot>)
    requires ipfs <= ipfs' && BackupsHold(ipfs, g, backups, snapshots)
    ensures BackupsHold(ipfs', g, backups, snapshots)
  {
    forall i | 0 <= i < |backups| ensures SavedAs(ipfs', backups[i].uri, g, snapshots[i]) {
      GrowSaved(ipfs, ipfs', backups[i].uri, g, snapshots[i]);
    }
  }

  // ---------- new shards ----------

  ghost predicate EmptyShard(ipfs: Ipfs, u: Uri, buckets: nat) {
    && ShardOk(ipfs, u, buckets)
    && forall i :: 0 <= i < buckets ==> BucketBytes(ipfs, u, i) == []
  }

  /** A shard of empty buckets holds no row, whichever shard it stands for. */
  lemma EmptyShardHoldsNothing(ipfs: Ipfs, g: UsableGeometry, u: Uri, x: nat)
    requires EmptyShard(ipfs, u, g.buckets)
    ensures HoldsRows(ipfs, g, u, x, map[])
  {
    forall k: RowKey ensures ShardFind(ipfs, g, u, k) == None {
      PlaceInRange(g, k);
      assert BucketBytes(ipfs, u, g.PlaceOf(k).bucket) == [];
      assert DecodeBucket([]) == [];
    }
  }

  /** u' is u with one bucket replaced. */
  ghost predicate BucketReplaced(
      ipfs: Ipfs, u: Uri, ipfs': Ipfs, u': Uri, buckets: nat, i: nat, data: seq<Byte>)
    requires ShardOk(ipfs, u, buckets)
  {
    && ShardOk(ipfs', u', buckets)
    && forall j :: 0 <= j < buckets ==> BucketBytes(ipfs', u', j) == if j == i then data else BucketBytes(ipfs, u, j)
  }

  /** After the edit of one key of a bucket, k answers v and every other place as before. */
  ghost predicate EditsOneKey(before: seq<Record>, after: seq<Record>, k: RowKey, v: Option<Multihash>) {
    forall scope: U64, key: U64 ::
      ScanFind(after, scope, key) == if RowKey(scope, key) == k then v else ScanFind(before, scope, key)
  }

  lemma WriteInShard(
      ipfs: Ipfs, ipfs': Ipfs, g: UsableGeometry, u: Uri, u': Uri,
      k: RowKey, v: Option<Multihash>, data: seq<Byte>, q: RowKey)
    requires g.PlaceOf(q).shard == g.PlaceOf(k).shard && g.PlaceOf(k).bucket < g.buckets
    requires ShardOk(ipfs, u, g.buckets) && WellSized(data)
    requires BucketReplaced(ipfs, u, ipfs', u', g.buckets, g.PlaceOf(k).bucket, data)
    requires EditsOneKey(DecodeBucket(BucketBytes(ipfs, u, g.PlaceOf(k).bucket)), DecodeBucket(data), k, v)
    ensures ShardFind(ipfs', g, u', q) == if q == k then v else ShardFind(ipfs, g, u, q)
  {
    PlaceInRange(g, q);
    assert RowKey(q.scope, q.key) == q;
    assert BucketBytes(ipfs', u', g.PlaceOf(q).bucket)
        == if g.PlaceOf(q).bucket == g.PlaceOf(k).bucket then data else BucketBytes(ipfs, u, g.PlaceOf(q).bucket);
  }

  /** A bucket written through new store entries changes exactly one key of its shard. */
  lemma WriteChangesOneKey(
      ipfs: Ipfs, ipfs': Ipfs, g: UsableGeometry, u: Uri, u': Uri, rows: Rows,
      k: RowKey, v: Option<Multihash>, data: seq<Byte>)
    requires g.PlaceOf(k).bucket < g.buckets && HoldsRows(ipfs, g, u, g.PlaceOf(k).shard, rows) && WellSized(data)
    requires BucketReplaced(ipfs, u, ipfs', u', g.buckets, g.PlaceOf(k).bucket, data)
    requires EditsOneKey(DecodeBucket(BucketBytes(ipfs, u, g.PlaceOf(k).bucket)), DecodeBucket(data), k, v)
    ensures HoldsRows(ipfs', g, u', g.PlaceOf(k).shard, Put(rows, k, v))
  {
    forall q: RowKey | g.PlaceOf(q).shard == g.PlaceOf(k).shard
      ensures ShardFind(ipfs', g, u', q) == Lookup(Put(rows, k, v), q)
    {
      WriteInShard(ipfs, ipfs', g, u, u', k, v, data, q);
      assert ShardFind(ipfs, g, u, q) == Lookup(rows, q);
    }
  }

  /** The store after a bucket of the shard at u was written: the bucket, and the shard that points to it. */
  function AfterWrite(ipfs: Ipfs, u: Uri, i: nat, data: seq<Byte>): Ipfs
    requires u < |ipfs| && ipfs[u].ShardData? && i < |ipfs[u].values|
  {
    ipfs + [Raw(data)] + [ShardData(ipfs[u].values[i := |ipfs|])]
  }

  lemma AfterWriteHolds(
      ipfs: Ipfs, g: UsableGeometry, u: Uri, rows: Rows, k: RowKey, v: Option<Multihash>, data: seq<Byte>)
    requires g.PlaceOf(k).bucket < g.buckets && HoldsRows(ipfs, g, u, g.PlaceOf(k).shard, rows)
    requires WellSized(data) && NoShadow(DecodeBucket(data))
    requires EditsOneKey(DecodeBucket(BucketBytes(ipfs, u, g.PlaceOf(k).bucket)), DecodeBucket(data), k, v)
    ensures HoldsRows(
      AfterWrite(ipfs, u, g.PlaceOf(k).bucket, data), g, |ipfs| + 1, g.PlaceOf(k).shard, Put(rows, k, v))
  {
    var i := g.PlaceOf(k).bucket;
    var ipfs', values := AfterWrite(ipfs, u, i, data), ipfs[u].values[i := |ipfs|];
    GrowShard(ipfs, ipfs', u, g.buckets);
    forall j | 0 <= j < g.buckets ensures BucketOk(ipfs', values[j]) {
      if j != i { assert BucketOk(ipfs', ipfs[u].values[j]); }
    }
    WriteChangesOneKey(ipfs, ipfs', g, u, |ipfs| + 1, rows, k, v, data);
  }

  // ---------- the three edits of a bucket ----------

  lemma AddEdits(data: seq<Byte>, k: RowKey, parts: ParsedParts, v: Multihash)
    requires WellSized(data) && NoShadow(DecodeBucket(data)) && PartsOf(data, k.scope, k.key, parts) && !parts.present
    ensures var out := Combined(parts.(value := v, present := true));
      && WellSized(out) && NoShadow(DecodeBucket(out))
      && EditsOneKey(DecodeBucket(data), DecodeBucket(out), k, Some(v))
  {
    var r := Record(k.scope, k.key, v);
    EditedParts(data, k.scope, k.key, parts, v);
    InsertKeepsNoShadow(DecodeBucket(data), r);
    forall scope: U64, key: U64
      ensures ScanFind(InsertRecord(DecodeBucket(data), r), scope, key)
           == if RowKey(scope, key) == k then Some(v) else ScanFind(DecodeBucket(data), scope, key)
    {
      FindAfterInsert(DecodeBucket(data), r, scope, key);
    }
  }

  lemma SetEdits(data: seq<Byte>, k: RowKey, parts: ParsedParts, v: Multihash)
    requires WellSized(data) && NoShadow(DecodeBucket(data)) && PartsOf(data, k.scope, k.key, parts) && parts.present
    ensures var out := Combined(parts.(value := v));
      && WellSized(out) && NoShadow(DecodeBucket(out))
      && EditsOneKey(DecodeBucket(data), DecodeBucket(out), k, Some(v))
  {
    var r := Record(k.scope, k.key, v);
    EditedParts(data, k.scope, k.key, parts, v);
    ReplaceKeepsNoShadow(DecodeBucket(data), r);
    forall scope: U64, key: U64
      ensures ScanFind(ReplaceRecord(DecodeBucket(data), r), scope, key)
           == if RowKey(scope, key) == k then Some(v) else ScanFind(DecodeBucket(data), scope, key)
    {
      FindAfterReplace(DecodeBucket(data), r, scope, key);
    }
  }

  lemma EraseEdits(data: seq<Byte>, k: RowKey, parts: ParsedParts)
    requires WellSized(data) && NoShadow(DecodeBucket(data)) && PartsOf(data, k.scope, k.key, parts) && parts.present
    ensures var out := Combined(parts.(present := false));
      && WellSized(out) && NoShadow(DecodeBucket(out))
      && EditsOneKey(DecodeBucket(data), DecodeBucket(out), k, None)
  {
    var r := Record(k.scope, k.key, parts.value);
    EditedParts(data, k.scope, k.key, parts, parts.value);
    DeleteKeepsNoShadow(DecodeBucket(data), k.scope, k.key);
    forall scope: U64, key: U64
      ensures ScanFind(DeleteRecord(DecodeBucket(data), k.scope, k.key), scope, key)
           == if RowKey(scope, key) == k then None else ScanFind(DecodeBucket(data), scope, key)
    {
      FindAfterDelete(DecodeBucket(data), r, scope, key);
    }
  }
}

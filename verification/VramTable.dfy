/** The sharded hash tree and the multi-index on top of it: the contract's RAM tables for one table
    name, changed in place, refining the abstract machine of TableModel. */
module VramTable {
  import opened Wrappers
  import opened Words
  import opened Buckets
  import opened TableModel
  import opened Shards

  function AsOutcome(r: Result<Unit>): Outcome {
    if r.Ok? then Done else Failed
  }

  class VramTable {
    const geometry: UsableGeometry
    var rows: map<nat, ShardRow>
    var config: VConfig
    var manifest: ManifestData
    var backups: seq<Backup>
    var ipfs: Ipfs
    ghost var model: Table

    ghost predicate Valid()
      reads this
    {
      && RowsHold(ipfs, geometry, rows, model.shelves)
      && ManifestHolds(ipfs, geometry, manifest.shardbuckets, model.pending)
      && model.revision == config.revision
      && model.nextKey == config.nextKey.Value()
      && ConfigMatches(config.shards, config.bucketsPerShard, geometry, model.configured)
      && BackupsHold(ipfs, geometry, backups, model.snapshots)
    }

    constructor (geometry: UsableGeometry)
      ensures Valid() && this.geometry == geometry && model == EMPTY_TABLE
    {
      this.geometry := geometry;
      rows, backups, ipfs := map[], [], [];
      config := VConfig(EMPTY_256, 0, 0, 0);
      manifest := EMPTY_MANIFEST;
      model := EMPTY_TABLE;
    }

    /** Every shard of the model holds only its own keys. */
    lemma ModelIsHomed()
      requires Valid()
      ensures Homed(model, ShardOf(geometry))
    {
      forall i | 0 <= i < |model.snapshots| ensures ShardsAtHome(model.snapshots[i].shards, ShardOf(geometry)) {
        assert SavedAs(ipfs, backups[i].uri, geometry, model.snapshots[i]);
      }
    }

    /** Growing the store keeps everything that was proved about it. */
    lemma Grown(before: Ipfs)
      requires before <= ipfs
      requires RowsHold(before, geometry, rows, model.shelves)
      requires ManifestHolds(before, geometry, manifest.shardbuckets, model.pending)
      requires BackupsHold(before, geometry, backups, model.snapshots)
      ensures RowsHold(ipfs, geometry, rows, model.shelves)
      ensures ManifestHolds(ipfs, geometry, manifest.shardbuckets, model.pending)
      ensures BackupsHold(ipfs, geometry, backups, model.snapshots)
    {
      GrowTable(before, ipfs, geometry, rows, model.shelves);
      GrowManifest(before, ipfs, geometry, manifest.shardbuckets, model.pending);
      GrowBackups(before, ipfs, geometry, backups, model.snapshots);
    }

    method SetData(blob: Blob) returns (u: Uri)
      modifies `ipfs
      ensures ipfs == old(ipfs) + [blob] && u == |old(ipfs)|
    {
      u := |ipfs|;
      ipfs := ipfs + [blob];
    }

    method MakeShardPointer() returns (u: Uri)
      modifies `ipfs
      ensures old(ipfs) <= ipfs && EmptyShard(ipfs, u, geometry.buckets)
    {
      var empty := SetData(Raw([]));
      var values: seq<Uri> := [];
      for i := 0 to geometry.buckets
        invariant |values| == i && forall j :: 0 <= j < i ==> values[j] == empty
      {
        values := values + [empty];
      }
      u := SetData(ShardData(values));
      assert DecodeBucket([]) == [];
      assert BucketOk(ipfs, empty);
    }

    /** Finds the bytes of a bucket. Even for a read, the shard is first loaded from the manifest,
        created, or reset, and none of these changes what it holds. */
    method GetBucket(sb: Place) returns (data: seq<Byte>)
      requires Valid() && sb.bucket < geometry.buckets
      modifies `rows, `manifest, `ipfs, `model
      ensures Valid() && model == old(model).Touch(sb.shard)
      ensures old(ipfs) <= ipfs && sb.shard in rows
      ensures data == BucketBytes(ipfs, rows[sb.shard].uri, sb.bucket)
    {
      if sb.shard in manifest.shardbuckets {
        LoadShard(sb.shard);
      }
      if sb.shard !in rows || rows[sb.shard].revision != config.revision {
        ResetShard(sb.shard);
        data := [];
        assert BucketBytes(ipfs, rows[sb.shard].uri, sb.bucket) == [];
      } else {
        data := BucketBytes(ipfs, rows[sb.shard].uri, sb.bucket);
      }
    }

    /** The row of a pending shard, new or old, gets the manifest's address, which leaves the manifest. */
    method LoadShard(x: nat)
      requires Valid() && x in manifest.shardbuckets
      modifies `rows, `manifest, `model
      ensures Valid() && model == old(model).Touch(x) && model.IsLive(x) && x !in model.pending
    {
      var row := ShardRow(manifest.shardbuckets[x], config.revision);
      RowReplaced(ipfs, geometry, rows, model.shelves, x, row, Shelf(model.revision, model.pending[x]));
      ManifestShrinks(ipfs, geometry, manifest.shardbuckets, model.pending, x);
      rows := rows[x := row];
      manifest := manifest.(shardbuckets := manifest.shardbuckets - {x});
      model := model.Touch(x);
    }

    /** A missing row, or one of another revision, gets a new shard of empty buckets. */
    method ResetShard(x: nat)
      requires Valid() && x !in model.pending && !model.IsLive(x)
      modifies `rows, `ipfs, `model
      ensures Valid() && model == old(model).Touch(x)
      ensures old(ipfs) <= ipfs && x in rows && EmptyShard(ipfs, rows[x].uri, geometry.buckets)
    {
      var u := MakeShardPointer();
      Grown(old(ipfs));
      EmptyShardHoldsNothing(ipfs, geometry, u, x);
      var row := ShardRow(u, config.revision);
      RowReplaced(ipfs, geometry, rows, model.shelves, x, row, Shelf(model.revision, map[]));
      rows := rows[x := row];
      model := model.Touch(x);
      assert model.pending == old(model).pending;
    }

    /** Stores the new bucket, and the shard with the one pointer replaced. */
    method WriteShard(u: Uri, i: nat, data: seq<Byte>) returns (uri: Uri)
      requires u < |ipfs| && ipfs[u].ShardData? && i < |ipfs[u].values|
      modifies `ipfs
      ensures ipfs == AfterWrite(old(ipfs), u, i, data) && uri == |old(ipfs)| + 1
    {
      var values := ipfs[u].values;
      var pointer := SetData(Raw(data));
      values := values[i := pointer];
      uri := SetData(ShardData(values));
    }

    /** Replaces the bytes of a bucket, where they differ from the old ones for the key k only. */
    method SetBucket(
        sb: Place, data: seq<Byte>, ghost was: seq<Byte>, ghost k: RowKey, ghost v: Option<Multihash>)
      requires Valid() && sb == geometry.PlaceOf(k) && sb.bucket < geometry.buckets
      requires sb.shard in rows && model.IsLive(sb.shard) && was == BucketBytes(ipfs, rows[sb.shard].uri, sb.bucket)
      requires WellSized(data) && NoShadow(DecodeBucket(data))
      requires EditsOneKey(DecodeBucket(was), DecodeBucket(data), k, v)
      modifies `rows, `ipfs, `model
      ensures Valid() && old(ipfs) <= ipfs
      ensures model == old(model).(shelves :=
        old(model).shelves[sb.shard := Shelf(old(model).revision, Put(old(model).shelves[sb.shard].rows, k, v))])
    {
      ghost var held := model.shelves[sb.shard].rows;
      var uri := StoreBucket(rows[sb.shard].uri, sb, data, was, k, v, held);
      ReplaceRow(sb.shard, ShardRow(uri, config.revision), Shelf(model.revision, Put(held, k, v)));
    }

    /** Stores the edited bucket and a shard that has it; the tables do not point there yet. */
    method StoreBucket(
        u: Uri, sb: Place, data: seq<Byte>,
        ghost was: seq<Byte>, ghost k: RowKey, ghost v: Option<Multihash>, ghost held: Rows) returns (uri: Uri)
      requires Valid() && sb == geometry.PlaceOf(k) && sb.bucket < geometry.buckets
      requires HoldsRows(ipfs, geometry, u, sb.shard, held)
      requires was == BucketBytes(ipfs, u, sb.bucket)
      requires WellSized(data) && NoShadow(DecodeBucket(data))
      requires EditsOneKey(DecodeBucket(was), DecodeBucket(data), k, v)
      modifies `ipfs
      ensures Valid() && old(ipfs) <= ipfs
      ensures HoldsRows(ipfs, geometry, uri, sb.shard, Put(held, k, v))
    {
      AfterWriteHolds(ipfs, geometry, u, held, k, v, data);
      uri := WriteShard(u, sb.bucket, data);
      Grown(old(ipfs));
    }

    method ReplaceRow(shard: nat, row: ShardRow, ghost shelf: Shelf)
      requires Valid() && row.revision == shelf.revision && HoldsRows(ipfs, geometry, row.uri, shard, shelf.rows)
      modifies `rows, `model
      ensures Valid() && model == old(model).(shelves := old(model).shelves[shard := shelf])
    {
      RowReplaced(ipfs, geometry, rows, model.shelves, shard, row, shelf);
      rows := rows[shard := row];
      model := model.(shelves := model.shelves[shard := shelf]);
    }

    // ---------- the hash tree: get, add, set, erase ----------

    /** The common start of the four operations: find the bucket of the key and split it there. */
    method Look(k: RowKey) returns (sb: Place, data: seq<Byte>, parts: ParsedParts)
      requires Valid()
      modifies `rows, `manifest, `ipfs, `model
      ensures Valid() && sb == geometry.PlaceOf(k) && sb.bucket < geometry.buckets
      ensures model == old(model).Touch(sb.shard) && old(ipfs) <= ipfs
      ensures sb.shard in rows && data == BucketBytes(ipfs, rows[sb.shard].uri, sb.bucket)
      ensures WellSized(data) && NoShadow(DecodeBucket(data)) && PartsOf(data, k.scope, k.key, parts)
      ensures Answer(old(model), k, ShardOf(geometry)) == if parts.present then Some(parts.value) else None
    {
      PlaceInRange(geometry, k);
      sb := geometry.PlaceOf(k);
      data := GetBucket(sb);
      BucketAnswers(k, data);
      parts := ParseCacheBucket(data, k.scope, k.key);
    }

    method Get(k: RowKey) returns (value: Option<Multihash>)
      requires Valid()
      modifies `rows, `manifest, `ipfs, `model
      ensures Valid() && (model, Found(value)) == Step(old(model), Find(k), ShardOf(geometry))
    {
      var sb, data, parts := Look(k);
      if !parts.present {
        return None;
      }
      value := Some(parts.value);
    }

    /** The same read from another contract: it writes nothing and does not look at the manifest, so
        it answers as the owner would if and only if the manifest does not hold the shard, or holds
        the same for the key as the shard row. */
    method ExternalGet(k: RowKey) returns (value: Option<Multihash>)
      requires Valid()
      ensures
        var x := geometry.PlaceOf(k).shard;
        && value == ForeignAnswer(model, k, ShardOf(geometry))
        && (value == Answer(model, k, ShardOf(geometry)) <==>
              (x in model.pending ==>
                 Lookup(model.pending[x], k) == if model.IsLive(x) then Lookup(model.shelves[x].rows, k) else None))
    {
      PlaceInRange(geometry, k);
      var sb := geometry.PlaceOf(k);
      if sb.shard !in rows {
        return None;
      } else if rows[sb.shard].revision != config.revision {
        return None;
      }
      var data := BucketBytes(ipfs, rows[sb.shard].uri, sb.bucket);
      BucketAnswers(k, data);
      var parts := ParseCacheBucket(data, k.scope, k.key);
      value := if parts.present then Some(parts.value) else None;
    }

    /** What a parse of the bucket reports is what the shard row holds. */
    lemma BucketAnswers(k: RowKey, data: seq<Byte>)
      requires Valid() && geometry.PlaceOf(k).bucket < geometry.buckets
      requires
        var sb := geometry.PlaceOf(k);
        sb.shard in rows && data == BucketBytes(ipfs, rows[sb.shard].uri, sb.bucket)
      ensures WellSized(data) && NoShadow(DecodeBucket(data))
      ensures ScanFind(DecodeBucket(data), k.scope, k.key) == Lookup(model.shelves[geometry.PlaceOf(k).shard].rows, k)
    {
      var sb := geometry.PlaceOf(k);
      assert BucketOk(ipfs, ipfs[rows[sb.shard].uri].values[sb.bucket]);
      assert ShardFind(ipfs, geometry, rows[sb.shard].uri, k) == Lookup(model.shelves[sb.shard].rows, k);
    }

    method Add(k: RowKey, value: Multihash) returns (r: Result<Unit>)
      requires Valid()
      modifies `rows, `manifest, `ipfs, `model
      ensures Valid()
      ensures Answer(old(model), k, ShardOf(geometry)).Some? ==>
        r == Aborted("key already exists") && model == old(model) && rows == old(rows) && manifest == old(manifest)
      ensures Answer(old(model), k, ShardOf(geometry)).None? ==>
        r == Ok(Unit) && model == WriteKey(old(model), k, Some(value), ShardOf(geometry))
    {
      var saved := (rows, manifest);
      var sb, data, parts := Look(k);
      if parts.present {
        Rollback(saved, old(ipfs), old(model));
        return Aborted("key already exists");
      }
      AddEdits(data, k, parts, value);
      parts := parts.(value := value, present := true);
      var edited := CombineParsedBucketParts(parts);
      SetBucket(sb, edited, data, k, Some(value));
      TouchThenWrite(old(model), k, Some(value), ShardOf(geometry));
      r := Ok(Unit);
    }

    method Set(k: RowKey, value: Multihash) returns (r: Result<Unit>)
      requires Valid()
      modifies `rows, `manifest, `ipfs, `model
      ensures Valid()
      ensures (model, AsOutcome(r)) == Step(old(model), Modify(k, value), ShardOf(geometry))
      ensures r.Aborted? ==> r.message == "key not found" && rows == old(rows) && manifest == old(manifest)
    {
      var saved := (rows, manifest);
      var sb, data, parts := Look(k);
      if !parts.present {
        Rollback(saved, old(ipfs), old(model));
        return Aborted("key not found");
      }
      SetEdits(data, k, parts, value);
      parts := parts.(value := value);
      var edited := CombineParsedBucketParts(parts);
      SetBucket(sb, edited, data, k, Some(value));
      TouchThenWrite(old(model), k, Some(value), ShardOf(geometry));
      r := Ok(Unit);
    }

    method EraseKey(k: RowKey) returns (r: Result<Unit>)
      requires Valid()
      modifies `rows, `manifest, `ipfs, `model
      ensures Valid()
      ensures (model, AsOutcome(r)) == Step(old(model), Erase(k), ShardOf(geometry))
      ensures r.Aborted? ==> r.message == "key not found" && rows == old(rows) && manifest == old(manifest)
    {
      var saved := (rows, manifest);
      var sb, data, parts := Look(k);
      if !parts.present {
        Rollback(saved, old(ipfs), old(model));
        return Aborted("key not found");
      }
      EraseEdits(data, k, parts);
      parts := parts.(present := false);
      var edited := CombineParsedBucketParts(parts);
      SetBucket(sb, edited, data, k, None);
      TouchThenWrite(old(model), k, None, ShardOf(geometry));
      r := Ok(Unit);
    }

    /** A failed check undoes the transaction: the RAM tables are what they were. The content store
        keeps what was pinned in between, to which nothing points. */
    method Rollback(saved: (map<nat, ShardRow>, ManifestData), ghost before: Ipfs, ghost model0: Table)
      requires before <= ipfs
      requires RowsHold(before, geometry, saved.0, model0.shelves)
      requires ManifestHolds(before, geometry, saved.1.shardbuckets, model0.pending)
      requires BackupsHold(before, geometry, backups, model0.snapshots)
      modifies `rows, `manifest, `model
      ensures rows == saved.0 && manifest == saved.1 && model == model0
      ensures RowsHold(ipfs, geometry, rows, model.shelves)
      ensures ManifestHolds(ipfs, geometry, manifest.shardbuckets, model.pending)
      ensures BackupsHold(ipfs, geometry, backups, model.snapshots)
    {
      rows, manifest, model := saved.0, saved.1, model0;
      Grown(before);
    }

    // ---------- the multi-index: configuration, keys, clear ----------

    method AvailablePrimaryKey() returns (key: U64)
      requires Valid()
      ensures (model, KeyIs(key)) == Step(model, AvailableKey, ShardOf(geometry))
    {
      KeyToPrimaryIsLowWord(config.nextKey);
      key := KeyToPrimary(config.nextKey);
    }

    method EmplaceRow(k: RowKey, value: Multihash) returns (r: Result<Unit>)
      requires Valid()
      modifies `rows, `manifest, `ipfs, `model, `config
      ensures Valid()
      ensures (model, AsOutcome(r)) == Step(old(model), Emplace(k, value), ShardOf(geometry))
      ensures r.Aborted? ==>
        r.message == "key already exists" && rows == old(rows) && manifest == old(manifest) && config == old(config)
    {
      var saved := config;
      PrepareEmplace(k);
      r := Add(k, value);
      EmplaceCountsThenAdds(old(model), k, value, ShardOf(geometry));
      if r.Aborted? {
        config, model := saved, old(model);
      }
    }

    /** Raises the key counter, and records the geometry if this is the first row. */
    method PrepareEmplace(k: RowKey)
      requires Valid()
      modifies `config, `model
      ensures Valid() && config.revision == old(config).revision
      ensures model == Counted(old(model), k.key + 1)
    {
      var next := Increment256(PrimaryToKey(k.key));
      Increment256IsSuccessor(config.nextKey, next);
      if config.nextKey.Less(next) {
        config := config.(nextKey := next);
      }
      if config.shards == 0 && config.bucketsPerShard == 0 {
        config := config.(shards := geometry.shards, bucketsPerShard := geometry.buckets);
      } else {
        // The two checks here, on the numbers of shards and of buckets, pass for a table that is
        // always opened with one geometry.
        assert config.shards == geometry.shards && config.bucketsPerShard == geometry.buckets;
      }
      model := Counted(model, k.key + 1);
    }

    method ModifyRow(k: RowKey, value: Multihash) returns (r: Result<Unit>)
      requires Valid()
      modifies `rows, `manifest, `ipfs, `model
      ensures Valid()
      ensures (model, AsOutcome(r)) == Step(old(model), Modify(k, value), ShardOf(geometry))
    {
      r := Set(k, value);
    }

    /** Constant-time clear: only the revision, which wraps, and the key counter change. */
    method ClearTable()
      requires Valid()
      modifies `config, `model
      ensures Valid() && (model, Done) == Step(old(model), Clear, ShardOf(geometry))
    {
      config := config.(revision := (config.revision + 1) % TWO_32);
      config := config.(nextKey := EMPTY_256);
      model := Step(model, Clear, ShardOf(geometry)).0;
    }

    // ---------- backups ----------

    /** Saves the residual manifest overlaid with every shard row of the current revision. */
    method CreateBackup(description: string)
      requires Valid()
      modifies `ipfs, `backups, `model
      ensures Valid() && (model, Done) == Step(old(model), CreateManifest, ShardOf(geometry))
      ensures |backups| == |old(backups)| + 1 && backups[..|old(backups)|] == old(backups)
      ensures backups[|old(backups)|].description == description
    {
      var m := manifest;
      m := m.(nextKey := config.nextKey, shards := config.shards, bucketsPerShard := config.bucketsPerShard);
      var todo := rows.Keys;
      while todo != {}
        invariant todo <= rows.Keys
        invariant m.nextKey == config.nextKey
        invariant m.shards == config.shards && m.bucketsPerShard == config.bucketsPerShard
        invariant forall x :: x in m.shardbuckets <==> x in model.pending || (model.IsLive(x) && x !in todo)
        invariant forall x :: x in m.shardbuckets ==>
          m.shardbuckets[x] == if model.IsLive(x) && x !in todo then rows[x].uri else manifest.shardbuckets[x]
        decreases todo
      {
        var shard :| shard in todo;
        if rows[shard].revision == config.revision {
          m := m.(shardbuckets := m.shardbuckets[shard := rows[shard].uri]);
        }
        todo := todo - {shard};
      }
      OverlayHolds(ipfs, geometry, rows, manifest.shardbuckets, m.shardbuckets, model);
      var uri := SetData(Saved(m));
      Grown(old(ipfs));
      GrowManifest(old(ipfs), ipfs, geometry, m.shardbuckets, model.Overlay());
      BackupAdded(ipfs, geometry, backups, model.snapshots, Backup(uri, description),
        Snapshot(model.Overlay(), model.nextKey, model.configured));
      backups := backups + [Backup(uri, description)];
      model := Step(model, CreateManifest, ShardOf(geometry)).0;
    }

    /** Makes the manifest of a backup the residual manifest; its shards load one by one afterwards. */
    method LoadBackup(id: nat, description: string) returns (r: Result<Unit>)
      requires Valid()
      modifies `ipfs, `backups, `model, `manifest, `config
      ensures Valid() && (model, AsOutcome(r)) == Step(old(model), LoadManifest(id), ShardOf(geometry))
      ensures if r.Ok? then
          && |backups| == |old(backups)| + 1 && backups[..|old(backups)|] == old(backups)
          && backups[|old(backups)|].description == description
        else r.message == "invalid backup id" && backups == old(backups)
    {
      if id >= |backups| {
        return Aborted("invalid backup id");
      }
      var m := ipfs[backups[id].uri].manifest;
      ghost var s := model.snapshots[id];
      assert SavedAs(ipfs, backups[id].uri, geometry, s);
      var uri := SetData(Saved(m));
      Grown(old(ipfs));
      GrowManifest(old(ipfs), ipfs, geometry, m.shardbuckets, s.shards);
      manifest := m;
      config := VConfig(m.nextKey, m.shards, m.bucketsPerShard, (config.revision + 1) % TWO_32);
      backups := backups + [Backup(uri, description)];
      model := Step(model, LoadManifest(id), ShardOf(geometry)).0;
      r := Ok(Unit);
    }

    // ---------- every run ----------

    method Execute(op: Op) returns (o: Outcome)
      requires Valid()
      modifies this
      ensures Valid() && (model, o) == Step(old(model), op, ShardOf(geometry))
    {
      match op {
        case Find(k) => var v := Get(k); o := Found(v);
        case Emplace(k, v) => var r := EmplaceRow(k, v); o := AsOutcome(r);
        case Modify(k, v) => var r := ModifyRow(k, v); o := AsOutcome(r);
        case Erase(k) => var r := EraseKey(k); o := AsOutcome(r);
        case AvailableKey => var key := AvailablePrimaryKey(); o := KeyIs(key);
        case Clear => ClearTable(); o := Done;
        case CreateManifest => CreateBackup(""); o := Done;
        case LoadManifest(id) => var r := LoadBackup(id, ""); o := AsOutcome(r);
      }
    }

    /** Every run, however long, is a run of the abstract machine. */
    method ExecuteAll(ops: seq<Op>) returns (os: seq<Outcome>)
      requires Valid()
      modifies this
      ensures Valid() && (model, os) == Run(old(model), ops, ShardOf(geometry))
      decreases |ops|
    {
      os := [];
      if ops != [] {
        var first := Execute(ops[0]);
        var rest := ExecuteAll(ops[1..]);
        os := [first] + rest;
      }
    }

    /** Takes a backup, runs anything, loads the backup, although every shard may by then have been
        loaded, reset and written any number of times. All keys answer as they did before exactly when
        no pending shard had a differing live row at first, and no shard outside the backup has rows
        under the revision that the load moves to. */
    method TakeRunRestore(ops: seq<Op>)
      requires Valid()
      modifies this
      ensures Valid() && model == TakeRunLoad(old(model), ops, ShardOf(geometry))
      ensures
        var later := BeforeLoad(old(model), ops, ShardOf(geometry));
        (forall k: RowKey :: Answer(model, k, ShardOf(geometry)) == Answer(old(model), k, ShardOf(geometry)))
        <==> NoConflict(old(model)) && NothingAt(later, later.NextRevision(), old(model).Overlay().Keys)
    {
      ModelIsHomed();
      RestoreUndoesTheRunIff(model, ops, ShardOf(geometry));
      StepKeepsHomed(model, CreateManifest, ShardOf(geometry));
      RunKeepsHomed(Step(model, CreateManifest, ShardOf(geometry)).0, ops, ShardOf(geometry));
      var id := |backups|;
      CreateBackup("");
      var os := ExecuteAll(ops);
      var r := LoadBackup(id, "");
    }

    /** A key that was read just before the backup answers the same after the restore, in every case:
        the read has made its shard live, so the backup has it. */
    method RestoreRoundTrip(k: RowKey, ops: seq<Op>) returns (before: Option<Multihash>, after: Option<Multihash>)
      requires Valid()
      modifies this
      ensures Valid() && before == Answer(old(model), k, ShardOf(geometry)) && after == before
    {
      before := Get(k);
      ModelIsHomed();
      ReadKeyComesBack(old(model), k, ops, ShardOf(geometry));
      TakeRunRestore(ops);
      after := Get(k);
    }
  }
}

/** Merging a vision tower back into a snapshot (scripts/tmax_merge_vision.py). */
module VisionMerge {
  import opened Wrappers
  import opened Snapshot
  import opened VisionStrip

  /** The HF base: its shards in file-name order, and its config. */
  datatype HfBase = HfBase(shards: seq<Shard>, config: Option<Config>)

  function VisionPart(shard: Shard, prefixes: seq<string>): Shard {
    map k | k in shard && HasVisionPrefix(k, prefixes) :: shard[k]
  }

  /** All vision tensors of the base; a later shard's copy of a key replaces an earlier one. */
  function Collected(shards: seq<Shard>, prefixes: seq<string>): (vision: Shard)
    ensures forall k :: k in vision ==> HasVisionPrefix(k, prefixes)
  {
    if shards == [] then map[]
    else Collected(shards[..|shards| - 1], prefixes) + VisionPart(shards[|shards| - 1], prefixes)
  }

  /** Shards that the key scan reads: the tool's own shard, and every other one whose name does not contain that
      shard's name. */
  predicate Scanned(name: ShardName) {
    name == VISION_SHARD_NAME || !IsPart(VISION_SHARD_NAME, name)
  }

  /** The vision keys that the snapshot already has. */
  function Existing(shards: Shards, prefixes: seq<string>): set<Key> {
    set n, k | n in shards && Scanned(n) && k in shards[n] && HasVisionPrefix(k, prefixes) :: k
  }

  function OwnShard(shards: Shards): Shard {
    if VISION_SHARD_NAME in shards then shards[VISION_SHARD_NAME] else map[]
  }

  /** The new contents of the dedicated shard: the base's tensors, and, unless forced, the vision tensors that only the
      old dedicated shard has. */
  function MergedShard(own: Shard, vision: Shard, prefixes: seq<string>, force: bool): Shard {
    if force then vision else VisionPart(own, prefixes) + vision
  }

  function Missing(shards: Shards, vision: Shard, prefixes: seq<string>): set<Key> {
    vision.Keys - Existing(shards, prefixes)
  }

  predicate NeedsWrite(shards: Shards, vision: Shard, prefixes: seq<string>, force: bool) {
    vision != map[] && (force || Missing(shards, vision, prefixes) != {})
  }

  function MergedShards(shards: Shards, vision: Shard, prefixes: seq<string>, force: bool): Shards {
    if NeedsWrite(shards, vision, prefixes, force)
    then shards[VISION_SHARD_NAME := MergedShard(OwnShard(shards), vision, prefixes, force)]
    else shards
  }

  function JsonAt(entries: map<string, Json>, key: string): Json {
    if key in entries then entries[key] else Null
  }

  /** The base's entries at `keys` that differ replace or complete the given ones.  A null entry of the base equals a
      missing one. */
  function Copied(entries: map<string, Json>, hf: map<string, Json>, keys: seq<string>): map<string, Json> {
    entries + map k | k in hf && k in keys && JsonAt(entries, k) != hf[k] :: hf[k]
  }

  function RestoredEntries(entries: map<string, Json>, hf: map<string, Json>): map<string, Json> {
    Copied(entries, hf, VISION_CONFIG_KEYS) - {LANGUAGE_MODEL_ONLY}
  }

  /** An absent or empty list becomes the multimodal architecture. */
  function RestoredArchitectures(archs: Option<seq<string>>): Option<seq<string>> {
    if archs.GetOr([]) == [] then Some([VISION_ARCH]) else Some(Renamed(archs.value, TEXT_ARCH, VISION_ARCH))
  }

  function RestoredConfig(config: Config, hf: Config): Config {
    Config(RestoredEntries(config.entries, hf.entries), RestoredArchitectures(config.architectures))
  }

  function MergedConfig(config: Option<Config>, hf: Option<Config>): Option<Config> {
    if config.Some? && hf.Some? then Some(RestoredConfig(config.value, hf.value)) else config
  }

  function LinkedWeightMap(weightMap: map<Key, ShardName>, keys: set<Key>): map<Key, ShardName> {
    weightMap + map k | k in keys :: VISION_SHARD_NAME
  }

  /** The index after the merged keys have been linked; a referenced file that does not exist makes the tool fail and
      leaves the index as it was. */
  ghost function LinkedIndex(index: Index, shards: Shards, keys: set<Key>, size: SizeOf): Index {
    var linked := LinkedWeightMap(index.weightMap, keys);
    if linked.Values <= shards.Keys then Index(linked, Some(SizeSum(shards, linked.Values, size))) else index
  }

  datatype Status = NoVisionInBase | AlreadyMerged | Done | Failed

  ghost function MergeStatus(s: Snap, hf: HfBase, prefixes: seq<string>, force: bool): Status {
    var vision := Collected(hf.shards, prefixes);
    if vision == map[] then NoVisionInBase
    else if !NeedsWrite(s.shards, vision, prefixes, force) then AlreadyMerged
    else if s.index.Some?
         && !(LinkedWeightMap(s.index.value.weightMap, vision.Keys).Values
              <= MergedShards(s.shards, vision, prefixes, force).Keys)
    then Failed
    else Done
  }

  ghost function Merged(s: Snap, hf: HfBase, prefixes: seq<string>, force: bool, size: SizeOf): Snap {
    var vision := Collected(hf.shards, prefixes);
    if vision == map[] then s
    else
      var shards := MergedShards(s.shards, vision, prefixes, force);
      Snap(shards, MergedConfig(s.config, hf.config),
           if s.index.Some? && NeedsWrite(s.shards, vision, prefixes, force)
           then Some(LinkedIndex(s.index.value, shards, vision.Keys, size))
           else s.index)
  }

  /** The vision tensors of a shard without those at `todo`. */
  function VisionPartWithout(shard: Shard, prefixes: seq<string>, todo: set<Key>): Shard {
    map k | k in shard && k !in todo && HasVisionPrefix(k, prefixes) :: shard[k]
  }

  lemma VisionPartEnds(shard: Shard, prefixes: seq<string>)
    ensures VisionPartWithout(shard, prefixes, shard.Keys) == map[]
    ensures VisionPartWithout(shard, prefixes, {}) == VisionPart(shard, prefixes)
  {
    hide HasVisionPrefix;
  }

  lemma VisionPartStep(shard: Shard, prefixes: seq<string>, todo: set<Key>, k: Key)
    requires k in shard && k in todo
    ensures VisionPartWithout(shard, prefixes, todo - {k})
         == if HasVisionPrefix(k, prefixes) then VisionPartWithout(shard, prefixes, todo)[k := shard[k]]
            else VisionPartWithout(shard, prefixes, todo)
  {
    hide HasVisionPrefix;
  }

  lemma NothingCollected(prefixes: seq<string>)
    ensures Collected([], prefixes) == map[]
  {
  }

  lemma CollectedSnoc(shards: seq<Shard>, shard: Shard, prefixes: seq<string>)
    ensures Collected(shards + [shard], prefixes) == Collected(shards, prefixes) + VisionPart(shard, prefixes)
  {
    assert (shards + [shard])[..|shards|] == shards;
  }

  /** The base offers exactly the keys with a vision prefix, each with the tensor of the last shard that has it. */
  lemma {:induction false} CollectedAre(shards: seq<Shard>, prefixes: seq<string>, k: Key)
    ensures k in Collected(shards, prefixes)
       <==> HasVisionPrefix(k, prefixes) && exists i :: 0 <= i < |shards| && k in shards[i]
    ensures forall i :: 0 <= i < |shards| && k in shards[i] && HasVisionPrefix(k, prefixes)
                        && (forall j :: i < j < |shards| ==> k !in shards[j]) ==>
              Collected(shards, prefixes)[k] == shards[i][k]
    decreases |shards|
  {
    hide HasVisionPrefix;
    if shards == [] {
    } else {
      var init, last := shards[..|shards| - 1], shards[|shards| - 1];
      CollectedAre(init, prefixes, k);
      assert k in last && HasVisionPrefix(k, prefixes) ==> k in VisionPart(last, prefixes);
      assert forall i :: 0 <= i < |init| ==> init[i] == shards[i];
    }
  }

  /** The scan counts a key of a shard unless the shard's name only contains the tool's own shard name. */
  lemma ExistingAre(shards: Shards, prefixes: seq<string>, k: Key)
    ensures k in Existing(shards, prefixes)
       <==> HasVisionPrefix(k, prefixes)
            && exists n :: n in shards && k in shards[n]
                 && (n == "model-vision.safetensors" || !exists a, b :: n == a + "model-vision.safetensors" + b)
  {
    hide HasVisionPrefix, IsPart;
    forall n ensures Scanned(n)
                <==> n == "model-vision.safetensors" || !exists a, b :: n == a + "model-vision.safetensors" + b {
      PartIs(VISION_SHARD_NAME, n);
    }
  }

  /** Reads the base's shards in order. */
  method CollectVision(shards: seq<Shard>, prefixes: seq<string>) returns (vision: Shard)
    ensures vision == Collected(shards, prefixes)
  {
    hide *;
    vision := map[];
    NothingCollected(prefixes);
    for i := 0 to |shards|
      invariant vision == Collected(shards[..i], prefixes)
    {
      var shard := shards[i];
      assert shards[..i + 1] == shards[..i] + [shard];
      CollectedSnoc(shards[..i], shard, prefixes);
      VisionPartEnds(shard, prefixes);
      var todo := shard.Keys;
      ghost var before := vision;
      while todo != {}
        invariant todo <= shard.Keys
        invariant vision == before + VisionPartWithout(shard, prefixes, todo)
        decreases todo
      {
        var k :| k in todo;
        VisionPartStep(shard, prefixes, todo, k);
        todo := todo - {k};
        if HasVisionPrefix(k, prefixes) {
          vision := vision[k := shard[k]];
        }
      }
    }
    assert shards[..|shards|] == shards;
  }

  /** Collects the vision keys of the scanned shards. */
  method SnapshotVisionKeys(shards: Shards, prefixes: seq<string>) returns (found: set<Key>)
    ensures found == Existing(shards, prefixes)
  {
    hide HasVisionPrefix, IsPart;
    found := {};
    var todo := shards.Keys;
    while todo != {}
      invariant todo <= shards.Keys
      invariant found == set n, k | n in shards && n !in todo && Scanned(n) && k in shards[n]
                                    && HasVisionPrefix(k, prefixes) :: k
      decreases todo
    {
      var n :| n in todo;
      todo := todo - {n};
      if n != VISION_SHARD_NAME && IsPart(VISION_SHARD_NAME, n) {
        continue;
      }
      found := found + set k | k in shards[n] && HasVisionPrefix(k, prefixes);
    }
  }

  ghost predicate Distinct(keys: seq<string>) {
    forall i, j :: 0 <= i < j < |keys| ==> keys[i] != keys[j]
  }

  lemma CopiedSnoc(entries: map<string, Json>, hf: map<string, Json>, keys: seq<string>, key: string)
    requires key !in keys
    ensures JsonAt(Copied(entries, hf, keys), key) == JsonAt(entries, key)
    ensures Copied(entries, hf, keys + [key])
         == if key in hf && JsonAt(entries, key) != hf[key] then Copied(entries, hf, keys)[key := hf[key]]
            else Copied(entries, hf, keys)
  {
  }

  /** Copies the entries at `keys` one by one, and reports whether any differed. */
  method CopyEntries(entries: map<string, Json>, hf: map<string, Json>, keys: seq<string>)
    returns (copied: map<string, Json>, changed: bool)
    requires Distinct(keys)
    ensures copied == Copied(entries, hf, keys)
    ensures changed <==> copied != entries
  {
    copied, changed := entries, false;
    assert Copied(entries, hf, []) == entries;
    hide Copied;
    for i := 0 to |keys|
      invariant copied == Copied(entries, hf, keys[..i])
      invariant changed <==> copied != entries
    {
      var key := keys[i];
      assert keys[..i + 1] == keys[..i] + [key];
      CopiedSnoc(entries, hf, keys[..i], key);
      if key in hf && JsonAt(copied, key) != hf[key] {
        copied := copied[key := hf[key]];
        assert JsonAt(copied, key) != JsonAt(entries, key);
        changed := true;
      }
    }
    assert keys[..|keys|] == keys;
  }

  lemma VisionKeysDistinct()
    ensures Distinct(VISION_CONFIG_KEYS)
    ensures LANGUAGE_MODEL_ONLY !in VISION_CONFIG_KEYS
  {
  }

  /** Tops up the config, and reports whether anything changed. */
  method RestoreConfig(config: Config, hf: Config) returns (restored: Config, changed: bool)
    ensures restored == RestoredConfig(config, hf)
    ensures changed <==> restored != config
  {
    VisionKeysDistinct();
    var entries, entriesChanged := CopyEntries(config.entries, hf.entries, VISION_CONFIG_KEYS);
    changed := entriesChanged;
    var archs := config.architectures.GetOr([]);
    var newArchs := Renamed(archs, TEXT_ARCH, VISION_ARCH);
    if newArchs == [] {
      newArchs := [VISION_ARCH];
    }
    var architectures := config.architectures;
    if newArchs != archs {
      architectures := Some(newArchs);
      changed := true;
    }
    if LANGUAGE_MODEL_ONLY in entries {
      assert LANGUAGE_MODEL_ONLY in config.entries;
      entries := entries - {LANGUAGE_MODEL_ONLY};
      assert LANGUAGE_MODEL_ONLY !in entries;
      changed := true;
    }
    assert entries == RestoredEntries(config.entries, hf.entries);
    restored := Config(entries, architectures);
  }

  /** Points the keys at the dedicated shard, and reports whether any pointed elsewhere. */
  method LinkKeys(weightMap: map<Key, ShardName>, keys: set<Key>)
    returns (linked: map<Key, ShardName>, changed: bool)
    ensures linked == LinkedWeightMap(weightMap, keys)
    ensures changed <==> linked != weightMap
  {
    hide *;
    var todo := keys;
    linked, changed := weightMap, false;
    ghost var done: set<Key> := {};
    LinkNone(weightMap);
    while todo != {}
      invariant todo !! done && todo + done == keys
      invariant linked == LinkedWeightMap(weightMap, done)
      invariant changed <==> linked != weightMap
      decreases todo
    {
      var k :| k in todo;
      LinkOne(weightMap, done, k);
      todo := todo - {k};
      done := done + {k};
      if k !in linked || linked[k] != VISION_SHARD_NAME {
        linked := linked[k := VISION_SHARD_NAME];
        changed := true;
      }
    }
    assert done == keys;
  }

  lemma LinkNone(weightMap: map<Key, ShardName>)
    ensures LinkedWeightMap(weightMap, {}) == weightMap
  {
  }

  /** A key that has not been linked is still as it was, and linking it makes a difference unless it was linked. */
  lemma LinkOne(weightMap: map<Key, ShardName>, done: set<Key>, k: Key)
    requires k !in done
    ensures var linked := LinkedWeightMap(weightMap, done);
      if k in linked && linked[k] == VISION_SHARD_NAME
      then LinkedWeightMap(weightMap, done + {k}) == linked
      else LinkedWeightMap(weightMap, done + {k}) == linked[k := VISION_SHARD_NAME] != weightMap
  {
    hide VISION_SHARD_NAME;
    var linked := LinkedWeightMap(weightMap, done);
    assert k in linked <==> k in weightMap;
    assert k in LinkedWeightMap(weightMap, done + {k});
    assert LinkedWeightMap(weightMap, done + {k}) == linked[k := VISION_SHARD_NAME];
  }

  /** Links the keys to the dedicated shard and recomputes the size; writes only when something changed. */
  method UpdateIndex(dir: SnapshotDir, keys: set<Key>, size: SizeOf) returns (failed: bool, changed: bool)
    requires dir.index.Some?
    modifies dir`index
    ensures dir.index == Some(LinkedIndex(old(dir.index).value, dir.shards, keys, size))
    ensures failed <==> !(LinkedWeightMap(old(dir.index).value.weightMap, keys).Values <= dir.shards.Keys)
    ensures !failed ==> (changed <==> dir.index != old(dir.index))
  {
    hide LinkedWeightMap;
    failed := false;
    var was := dir.index.value;
    var weightMap;
    weightMap, changed := LinkKeys(was.weightMap, keys);
    var total := TotalSize(weightMap, dir.shards, size);
    if total.None? {
      failed := true;
      return;
    }
    if was.totalSize != Some(total.value) {
      changed := true;
    }
    if changed {
      dir.index := Some(Index(weightMap, Some(total.value)));
    }
  }

  /** The whole tool. */
  method Merge(dir: SnapshotDir, hf: HfBase, prefixes: seq<string>, force: bool, size: SizeOf) returns (status: Status)
    modifies dir
    ensures dir.View() == Merged(old(dir.View()), hf, prefixes, force, size)
    ensures status == MergeStatus(old(dir.View()), hf, prefixes, force)
  {
    hide HasVisionPrefix, Existing, Collected, RestoredConfig, LinkedWeightMap;
    var vision := CollectVision(hf.shards, prefixes);
    if vision == map[] {
      return NoVisionInBase;
    }
    var existing := SnapshotVisionKeys(dir.shards, prefixes);
    var missing := vision.Keys - existing;
    var write := force || missing != {};
    if write {
      var contents := vision;
      if !force && VISION_SHARD_NAME in dir.shards {
        var own := dir.shards[VISION_SHARD_NAME];
        contents := (map k | k in own && HasVisionPrefix(k, prefixes) && k !in vision :: own[k]) + vision;
      }
      assert contents == MergedShard(OwnShard(dir.shards), vision, prefixes, force);
      dir.shards := dir.shards[VISION_SHARD_NAME := contents];
    }
    if hf.config.Some? && dir.config.Some? {
      var restored, changed := RestoreConfig(dir.config.value, hf.config.value);
      if changed {
        dir.config := Some(restored);
      }
    }
    status := if write then Done else AlreadyMerged;
    if dir.index.Some? && write {
      var failed, changed := UpdateIndex(dir, vision.Keys, size);
      if failed {
        status := Failed;
      }
    }
  }
}

/** Removing the vision tower from a snapshot (scripts/tmax_strip_vision.py). */
module VisionStrip {
  import opened Wrappers
  import opened Snapshot

  function StrippedEntries(entries: map<string, Json>): map<string, Json> {
    map k | k in entries && k !in VISION_CONFIG_KEYS && k != LANGUAGE_MODEL_ONLY :: entries[k]
  }

  function StrippedArchitectures(archs: Option<seq<string>>): Option<seq<string>> {
    var renamed := Renamed(archs.GetOr([]), VISION_ARCH, TEXT_ARCH);
    if renamed != archs.GetOr([]) then Some(renamed) else archs
  }

  function StrippedConfig(config: Config): Config {
    Config(StrippedEntries(config.entries), StrippedArchitectures(config.architectures))
  }

  function StrippedShard(shard: Shard, prefixes: seq<string>): Shard {
    map k | k in shard && !HasVisionPrefix(k, prefixes) :: shard[k]
  }

  function StrippedShards(shards: Shards, prefixes: seq<string>): Shards {
    map n | n in shards :: StrippedShard(shards[n], prefixes)
  }

  function PrunedWeightMap(weightMap: map<Key, ShardName>, prefixes: seq<string>): map<Key, ShardName> {
    map k | k in weightMap && !HasVisionPrefix(k, prefixes) :: weightMap[k]
  }

  /** The index after stripping.  The size is only recomputed when an entry goes, and an entry that is left but names
      a missing file then makes the tool fail and leaves the index as it was. */
  ghost function PrunedIndex(index: Index, shards: Shards, prefixes: seq<string>, size: SizeOf): Index {
    var pruned := PrunedWeightMap(index.weightMap, prefixes);
    if pruned != index.weightMap && pruned.Values <= shards.Keys
    then Index(pruned, Some(SizeSum(shards, pruned.Values, size)))
    else index
  }

  ghost function Stripped(s: Snap, prefixes: seq<string>, size: SizeOf): Snap {
    var shards := StrippedShards(s.shards, prefixes);
    Snap(shards,
         if s.config.Some? then Some(StrippedConfig(s.config.value)) else None,
         if s.index.Some? then Some(PrunedIndex(s.index.value, shards, prefixes, size)) else None)
  }

  ghost predicate StripFails(s: Snap, prefixes: seq<string>) {
    && s.index.Some?
    && var pruned := PrunedWeightMap(s.index.value.weightMap, prefixes);
       pruned != s.index.value.weightMap && !(pruned.Values <= s.shards.Keys)
  }

  /** Drops the entries at `keys`, and reports whether there were any. */
  method DropKeys(entries: map<string, Json>, keys: seq<string>) returns (left: map<string, Json>, changed: bool)
    ensures left == map k | k in entries && k !in keys :: entries[k]
    ensures changed <==> left != entries
  {
    left, changed := entries, false;
    for i := 0 to |keys|
      invariant left == map k | k in entries && k !in keys[..i] :: entries[k]
      invariant changed <==> left != entries
    {
      var key := keys[i];
      if key in left {
        left := map j | j in left && j != key :: left[j];
        assert key in entries && key !in left;
        changed := true;
      }
      assert keys[..i + 1] == keys[..i] + [key];
    }
    assert keys[..|keys|] == keys;
  }

  /** Rewrites the multimodal architecture to the text one. */
  method RenameArchitectures(archs: seq<string>) returns (newArchs: seq<string>, changed: bool)
    ensures newArchs == Renamed(archs, VISION_ARCH, TEXT_ARCH)
    ensures changed <==> newArchs != archs
  {
    newArchs, changed := [], false;
    for i := 0 to |archs|
      invariant |newArchs| == i
      invariant forall j :: 0 <= j < i ==> newArchs[j] == if archs[j] == VISION_ARCH then TEXT_ARCH else archs[j]
      invariant changed <==> exists j :: 0 <= j < i && newArchs[j] != archs[j]
    {
      if archs[i] == VISION_ARCH {
        newArchs := newArchs + [TEXT_ARCH];
        assert newArchs[i] != archs[i] by { assert |VISION_ARCH| != |TEXT_ARCH|; }
        changed := true;
      } else {
        newArchs := newArchs + [archs[i]];
      }
    }
  }

  /** Rewrites the config and reports whether anything changed. */
  method StripConfig(config: Config) returns (stripped: Config, changed: bool)
    ensures stripped == StrippedConfig(config)
    ensures changed <==> stripped != config
  {
    var entries, keysChanged := DropKeys(config.entries, VISION_CONFIG_KEYS);
    var archs := config.architectures.GetOr([]);
    var newArchs, archsChanged := RenameArchitectures(archs);
    var architectures := if newArchs != archs then Some(newArchs) else config.architectures;
    changed := keysChanged || archsChanged;
    if LANGUAGE_MODEL_ONLY in entries {
      entries := map j | j in entries && j != LANGUAGE_MODEL_ONLY :: entries[j];
      assert LANGUAGE_MODEL_ONLY in config.entries && LANGUAGE_MODEL_ONLY !in entries;
      changed := true;
    }
    assert entries == StrippedEntries(config.entries);
    stripped := Config(entries, architectures);
  }

  /** The first pass over a shard: which keys stay, which go. */
  method PartitionKeys(shard: Shard, prefixes: seq<string>) returns (kept: set<Key>, dropped: set<Key>)
    ensures kept == StrippedShard(shard, prefixes).Keys
    ensures kept !! dropped && kept + dropped == shard.Keys
  {
    hide HasVisionPrefix;
    kept, dropped := {}, {};
    var todo := shard.Keys;
    while todo != {}
      invariant kept !! dropped && todo !! (kept + dropped) && kept + dropped + todo == shard.Keys
      invariant forall k :: k in kept ==> !HasVisionPrefix(k, prefixes)
      invariant forall k :: k in dropped ==> HasVisionPrefix(k, prefixes)
      decreases todo
    {
      var k :| k in todo;
      todo := todo - {k};
      if HasVisionPrefix(k, prefixes) {
        dropped := dropped + {k};
      } else {
        kept := kept + {k};
      }
    }
  }

  /** Rewrites one shard; a shard without vision tensors is left alone. */
  method StripShard(shard: Shard, prefixes: seq<string>) returns (stripped: Shard, kept: nat, dropped: nat)
    ensures stripped == StrippedShard(shard, prefixes)
    ensures kept == |stripped| && kept + dropped == |shard|
    ensures dropped == 0 ==> stripped == shard
  {
    hide HasVisionPrefix;
    var keptKeys, droppedKeys := PartitionKeys(shard, prefixes);
    assert |keptKeys + droppedKeys| == |keptKeys| + |droppedKeys|;
    kept, dropped := |keptKeys|, |droppedKeys|;
    if droppedKeys == {} {
      stripped := shard;
    } else {
      stripped := map k | k in keptKeys :: shard[k];
    }
    assert stripped.Keys == keptKeys;
  }

  /** Strips every shard file in place. */
  method StripShards(dir: SnapshotDir, prefixes: seq<string>)
    modifies dir`shards
    ensures dir.shards == StrippedShards(old(dir.shards), prefixes)
  {
    hide HasVisionPrefix, StrippedShard;
    var todo := dir.shards.Keys;
    while todo != {}
      invariant todo <= dir.shards.Keys == old(dir.shards).Keys
      invariant forall n :: n in dir.shards ==>
                  dir.shards[n] == if n in todo then old(dir.shards)[n] else StrippedShard(old(dir.shards)[n], prefixes)
      decreases todo
    {
      var n :| n in todo;
      todo := todo - {n};
      var stripped, kept, dropped := StripShard(dir.shards[n], prefixes);
      if dropped > 0 {
        dir.shards := dir.shards[n := stripped];
      }
    }
  }

  /** The whole tool: config, then every shard, then the index. */
  method Strip(dir: SnapshotDir, prefixes: seq<string>, size: SizeOf) returns (failed: bool)
    modifies dir
    ensures dir.View() == Stripped(old(dir.View()), prefixes, size)
    ensures failed <==> StripFails(old(dir.View()), prefixes)
  {
    hide PrunedIndex, PrunedWeightMap, StrippedConfig;
    failed := false;
    if dir.config.Some? {
      var stripped, changed := StripConfig(dir.config.value);
      if changed {
        dir.config := Some(stripped);
      }
    }
    StripShards(dir, prefixes);
    if dir.index.Some? {
      failed := PruneIndex(dir, prefixes, size);
    }
  }

  /** Drops the vision entries of the index; nothing is written when there are none or when a size is missing. */
  method PruneIndex(dir: SnapshotDir, prefixes: seq<string>, size: SizeOf) returns (failed: bool)
    requires dir.index.Some?
    modifies dir`index
    ensures dir.index == Some(PrunedIndex(old(dir.index).value, dir.shards, prefixes, size))
    ensures failed <==>
      var pruned := PrunedWeightMap(old(dir.index).value.weightMap, prefixes);
      pruned != old(dir.index).value.weightMap && !(pruned.Values <= dir.shards.Keys)
  {
    hide HasVisionPrefix;
    failed := false;
    var weightMap := dir.index.value.weightMap;
    var pruned := PrunedWeightMap(weightMap, prefixes);
    if pruned != weightMap {
      var total := TotalSize(pruned, dir.shards, size);
      if total.None? {
        failed := true;
      } else {
        dir.index := Some(Index(pruned, Some(total.value)));
      }
    }
  }

  /** What is left of the config: everything but the vision entries and the flag, with the multimodal architecture
      replaced by the text one, position by position. */
  lemma StrippedConfigIs(config: Config)
    ensures var after := StrippedConfig(config);
      && (forall k :: k in after.entries <==>
            k in config.entries && k != "language_model_only"
            && k !in ["vision_config", "image_token_id", "video_token_id", "vision_start_token_id", "vision_end_token_id"])
      && (forall k :: k in after.entries ==> after.entries[k] == config.entries[k])
      && (after.architectures.Some? <==> config.architectures.Some?)
      && (config.architectures.Some? ==>
            && |after.architectures.value| == |config.architectures.value|
            && forall i :: 0 <= i < |after.architectures.value| ==>
                 after.architectures.value[i] == if config.architectures.value[i] == "Qwen3_5ForConditionalGeneration"
                                                 then "Qwen3_5ForCausalLM" else config.architectures.value[i])
  {
  }

  /** So the multimodal architecture is gone. */
  lemma NoVisionArchitecture(config: Config)
    ensures "Qwen3_5ForConditionalGeneration" !in StrippedConfig(config).architectures.GetOr([])
  {
    StrippedConfigIs(config);
    hide StrippedConfig;
    assert |"Qwen3_5ForConditionalGeneration"| != |"Qwen3_5ForCausalLM"|;
  }

  /** What is left of the shards: all of them, with exactly the tensors that have no vision prefix. */
  lemma StrippedShardsAre(s: Snap, prefixes: seq<string>, size: SizeOf)
    ensures var after := Stripped(s, prefixes, size).shards;
      && after.Keys == s.shards.Keys
      && (forall n, k :: n in after ==> (k in after[n] <==> k in s.shards[n] && !HasVisionPrefix(k, prefixes)))
      && (forall n, k :: n in after && k in after[n] ==> after[n][k] == s.shards[n][k])
  {
    hide HasVisionPrefix, PrunedIndex, StrippedConfig;
  }

  /** The tool fails if and only if the index has a vision entry to drop and keeps an entry that names a missing file. */
  lemma StripFailsExactly(s: Snap, prefixes: seq<string>)
    requires s.index.Some?
    ensures var wm := s.index.value.weightMap;
      StripFails(s, prefixes)
      <==> (exists k :: k in wm && HasVisionPrefix(k, prefixes))
           && (exists k :: k in wm && !HasVisionPrefix(k, prefixes) && wm[k] !in s.shards)
  {
    hide HasVisionPrefix;
    var wm := s.index.value.weightMap;
    var pruned := PrunedWeightMap(wm, prefixes);
    if k :| k in wm && HasVisionPrefix(k, prefixes) {
      assert k !in pruned;
    }
    if !(pruned.Values <= s.shards.Keys) {
      var n :| n in pruned.Values && n !in s.shards;
      var k :| k in pruned && pruned[k] == n;
    }
    if k :| k in wm && !HasVisionPrefix(k, prefixes) && wm[k] !in s.shards {
      assert k in pruned && pruned[k] in pruned.Values;
    }
  }

  /** What is left of the index: exactly the entries without a vision prefix, with the size of their shards if any
      entry went.  An index that makes the tool fail stays. */
  lemma StrippedIndexIs(s: Snap, prefixes: seq<string>, size: SizeOf)
    requires s.index.Some?
    ensures var index, after := s.index.value, Stripped(s, prefixes, size).index;
      && after.Some?
      && (StripFails(s, prefixes) ==> after.value == index)
      && (!StripFails(s, prefixes) ==>
            && (forall k :: k in after.value.weightMap <==> k in index.weightMap && !HasVisionPrefix(k, prefixes))
            && (forall k :: k in after.value.weightMap ==> after.value.weightMap[k] == index.weightMap[k])
            && (after.value.weightMap == index.weightMap ==> after.value == index)
            && (after.value.weightMap != index.weightMap ==>
                  && after.value.weightMap.Values <= s.shards.Keys
                  && after.value.totalSize
                     == Some(SizeSum(StrippedShards(s.shards, prefixes), after.value.weightMap.Values, size))))
  {
    hide HasVisionPrefix, StrippedShard, SizeSum, StrippedConfig;
  }

  /** Running the tool twice is running it once. */
  lemma StripIdempotent(s: Snap, prefixes: seq<string>, size: SizeOf)
    ensures Stripped(Stripped(s, prefixes, size), prefixes, size) == Stripped(s, prefixes, size)
  {
    var once := Stripped(s, prefixes, size);
    var twice := Stripped(once, prefixes, size);
    assert twice.shards == once.shards by {
      forall n | n in s.shards
        ensures StrippedShard(StrippedShard(s.shards[n], prefixes), prefixes) == StrippedShard(s.shards[n], prefixes)
      {
      }
    }
    if s.config.Some? {
      StripConfigIdempotent(s.config.value);
    }
    if s.index.Some? {
      var wm := s.index.value.weightMap;
      var pruned := PrunedWeightMap(wm, prefixes);
      assert PrunedWeightMap(pruned, prefixes) == pruned;
    }
  }

  lemma StripConfigIdempotent(config: Config)
    ensures StrippedConfig(StrippedConfig(config)) == StrippedConfig(config)
  {
  }

  /** Stripping keeps a coherent index coherent: the entries that go are those of the tensors that go. */
  lemma StripKeepsCoherence(s: Snap, prefixes: seq<string>, size: SizeOf)
    requires Coherent(s)
    ensures Coherent(Stripped(s, prefixes, size)) && !StripFails(s, prefixes)
    ensures s.index.Some? ==>
              Stripped(s, prefixes, size).index.value.weightMap == PrunedWeightMap(s.index.value.weightMap, prefixes)
  {
  }
}

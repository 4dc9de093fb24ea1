/** What the vision merge and strip tools promise of each other. */
module VisionProperties {
  import opened Wrappers
  import opened Snapshot
  import opened VisionStrip
  import opened VisionMerge

  ghost predicate Wrote(s: Snap, hf: HfBase, prefixes: seq<string>, force: bool) {
    NeedsWrite(s.shards, Collected(hf.shards, prefixes), prefixes, force)
  }

  // ---- what a merge leaves

  /** The tool writes if and only if the base has a vision tensor, and it is forced or one of these is missing. */
  lemma WroteExactly(s: Snap, hf: HfBase, prefixes: seq<string>, force: bool)
    ensures Wrote(s, hf, prefixes, force)
       <==> exists k :: k in Collected(hf.shards, prefixes) && (force || k !in Existing(s.shards, prefixes))
  {
    hide HasVisionPrefix, Existing, Collected;
    var vision := Collected(hf.shards, prefixes);
    if Wrote(s, hf, prefixes, force) && force {
      var k :| k in vision;
    }
    assert forall k :: k in Missing(s.shards, vision, prefixes) <==> k in vision && k !in Existing(s.shards, prefixes);
  }

  lemma StatusExactly(s: Snap, hf: HfBase, prefixes: seq<string>, force: bool)
    ensures var status := MergeStatus(s, hf, prefixes, force);
      && (status == NoVisionInBase <==> forall k :: k !in Collected(hf.shards, prefixes))
      && (status == AlreadyMerged <==> status != NoVisionInBase && !Wrote(s, hf, prefixes, force))
      && (status in {Done, Failed} <==> Wrote(s, hf, prefixes, force))
  {
    hide HasVisionPrefix, Existing, Collected, MergedShard, LinkedWeightMap;
    assert Collected(hf.shards, prefixes) == map[] <==> forall k :: k !in Collected(hf.shards, prefixes);
  }

  /** The config entries after a merge: the base's at the five vision keys, the snapshot's at all others, and no
      `language_model_only`.  A null of the base adds no entry. */
  lemma RestoredEntriesAre(config: Config, hf: Config)
    ensures var keys := ["vision_config", "image_token_id", "video_token_id", "vision_start_token_id", "vision_end_token_id"];
      var before, base, after := config.entries, hf.entries, RestoredConfig(config, hf).entries;
      && "language_model_only" !in after
      && (forall k :: k in keys && k in base ==>
            && (k in after <==> k in before || base[k] != Null)
            && (k in after ==> after[k] == base[k]))
      && (forall k :: (k !in keys || k !in base) && k != "language_model_only" ==>
            && (k in after <==> k in before)
            && (k in after ==> after[k] == before[k]))
  {
    VisionKeysDistinct();
    var keys := ["vision_config", "image_token_id", "video_token_id", "vision_start_token_id", "vision_end_token_id"];
    assert keys == VISION_CONFIG_KEYS && LANGUAGE_MODEL_ONLY == "language_model_only";
    var before, base := config.entries, hf.entries;
    var after := RestoredConfig(config, hf).entries;
    hide *;
    forall k
      ensures k in keys && k in base ==> (k in after <==> k in before || base[k] != Null) && (k in after ==> after[k] == base[k])
      ensures (k !in keys || k !in base) && k != "language_model_only" ==>
                (k in after <==> k in before) && (k in after ==> after[k] == before[k])
      ensures k == "language_model_only" ==> k !in after
    {
      RestoredEntry(before, base, k);
    }
  }

  lemma RestoredEntry(before: map<string, Json>, base: map<string, Json>, k: string)
    ensures var after := RestoredEntries(before, base);
      && LANGUAGE_MODEL_ONLY !in after
      && (k in VISION_CONFIG_KEYS && k in base && k != LANGUAGE_MODEL_ONLY ==>
            (k in after <==> k in before || base[k] != Null) && (k in after ==> after[k] == base[k]))
      && ((k !in VISION_CONFIG_KEYS || k !in base) && k != LANGUAGE_MODEL_ONLY ==>
            (k in after <==> k in before) && (k in after ==> after[k] == before[k]))
  {
    hide VISION_CONFIG_KEYS, LANGUAGE_MODEL_ONLY;
  }

  /** The architectures after a merge: the text architecture is replaced by the multimodal one, position by position,
      and a snapshot that declared none declares the multimodal one. */
  lemma RestoredArchitecturesAre(config: Config, hf: Config)
    ensures var before, after := config.architectures.GetOr([]), RestoredConfig(config, hf).architectures;
      && after.Some?
      && (before == [] ==> after.value == ["Qwen3_5ForConditionalGeneration"])
      && (before != [] ==>
            && |after.value| == |before|
            && forall i :: 0 <= i < |before| ==>
                 after.value[i] == if before[i] == "Qwen3_5ForCausalLM" then "Qwen3_5ForConditionalGeneration" else before[i])
  {
  }

  /** Which of this a merge does: nothing without a vision tensor in the base; otherwise the config is restored if both
      sides have one, and without a write neither shards nor index change. */
  lemma MergedParts(s: Snap, hf: HfBase, prefixes: seq<string>, force: bool, size: SizeOf)
    ensures var after := Merged(s, hf, prefixes, force, size);
      && (MergeStatus(s, hf, prefixes, force) == NoVisionInBase ==> after == s)
      && (MergeStatus(s, hf, prefixes, force) != NoVisionInBase ==>
            after.config == if s.config.Some? && hf.config.Some?
                            then Some(RestoredConfig(s.config.value, hf.config.value)) else s.config)
      && (!Wrote(s, hf, prefixes, force) ==> after.shards == s.shards && after.index == s.index)
      && (after.index.Some? <==> s.index.Some?)
  {
    hide HasVisionPrefix, Existing, Collected, MergedShard, LinkedIndex, RestoredConfig;
  }

  /** The index after a write that does not fail: the written keys lead to the dedicated shard, all others are as
      before. */
  lemma MergedIndexIs(s: Snap, hf: HfBase, prefixes: seq<string>, force: bool, size: SizeOf)
    requires s.index.Some? && MergeStatus(s, hf, prefixes, force) == Done
    ensures var vision, wm := Collected(hf.shards, prefixes), s.index.value.weightMap;
      var after := Merged(s, hf, prefixes, force, size).index.value.weightMap;
      && (forall k :: k in after <==> k in vision || k in wm)
      && (forall k :: k in after ==> after[k] == if k in vision then "model-vision.safetensors" else wm[k])
  {
    hide HasVisionPrefix, Existing, MergedShard, MergedConfig, Collected, SizeSum;
  }

  // ---- coherence of the weight index

  /** The index entries that a write would leave pointing at tensors that are gone: those for keys of the dedicated
      shard that the base lacks, and that the rewrite does not keep. */
  ghost predicate LeavesDangling(s: Snap, hf: HfBase, prefixes: seq<string>, force: bool) {
    s.index.Some? &&
    exists k :: k in s.index.value.weightMap && s.index.value.weightMap[k] == VISION_SHARD_NAME
      && k !in Collected(hf.shards, prefixes) && (force || !HasVisionPrefix(k, prefixes))
  }

  /** On a snapshot with a coherent index the tool does not fail, and it leaves the index coherent exactly when no
      entry points at a dedicated-shard key that is not rewritten. */
  lemma MergeCoherence(s: Snap, hf: HfBase, prefixes: seq<string>, force: bool, size: SizeOf)
    requires Coherent(s)
    ensures MergeStatus(s, hf, prefixes, force) != Failed
    ensures Coherent(Merged(s, hf, prefixes, force, size))
       <==> !(Wrote(s, hf, prefixes, force) && LeavesDangling(s, hf, prefixes, force))
  {
    hide HasVisionPrefix, Existing, MergedConfig;
    var vision := Collected(hf.shards, prefixes);
    if s.index.Some? && Wrote(s, hf, prefixes, force) {
      var wm, shards := s.index.value.weightMap, MergedShards(s.shards, vision, prefixes, force);
      var linked := LinkedWeightMap(wm, vision.Keys);
      forall n | n in linked.Values ensures n in shards {
        var k :| k in linked && linked[k] == n;
        assert k !in vision ==> k in wm && wm[k] in s.shards;
      }
      var after := Merged(s, hf, prefixes, force, size);
      assert after.index.value.weightMap == linked && after.shards == shards;
      forall k | k in linked
        ensures linked[k] in shards
        ensures k in shards[linked[k]]
           <==> !(k in wm && wm[k] == VISION_SHARD_NAME && k !in vision && (force || !HasVisionPrefix(k, prefixes)))
      {
        if k !in vision {
          assert k in wm && wm[k] in s.shards && k in s.shards[wm[k]];
        }
      }
      if LeavesDangling(s, hf, prefixes, force) {
        var k :| k in wm && wm[k] == VISION_SHARD_NAME && k !in vision && (force || !HasVisionPrefix(k, prefixes));
        assert k in linked && k !in shards[linked[k]];
      }
    }
  }

  /** By default, and with a dedicated shard that holds only vision tensors, the index stays coherent. */
  lemma DefaultMergeKeepsCoherence(s: Snap, hf: HfBase, prefixes: seq<string>, size: SizeOf)
    requires Coherent(s) && VisionOnly(OwnShard(s.shards), prefixes)
    ensures Coherent(Merged(s, hf, prefixes, false, size))
  {
    hide *;
    MergeCoherence(s, hf, prefixes, false, size);
    NothingDangles(s, hf, prefixes);
  }

  lemma NothingDangles(s: Snap, hf: HfBase, prefixes: seq<string>)
    requires Coherent(s) && VisionOnly(OwnShard(s.shards), prefixes)
    ensures !LeavesDangling(s, hf, prefixes, false)
  {
  }

  /** Unless the tool fails, the total size after a write is that of all distinct referenced shards. */
  lemma MergedTotalSize(s: Snap, hf: HfBase, prefixes: seq<string>, force: bool, size: SizeOf)
    requires MergeStatus(s, hf, prefixes, force) != Failed
    requires s.index.Some? && Wrote(s, hf, prefixes, force)
    ensures var after := Merged(s, hf, prefixes, force, size);
      && after.index.value.weightMap.Values <= after.shards.Keys
      && after.index.value.totalSize == Some(SizeSum(after.shards, after.index.value.weightMap.Values, size))
      && after.index.value.weightMap == LinkedWeightMap(s.index.value.weightMap, Collected(hf.shards, prefixes).Keys)
  {
    hide HasVisionPrefix, Existing, MergedConfig;
  }

  // ---- which tensors win

  /** After a write the dedicated shard holds every vision tensor of the base, and by default those of its own vision
      tensors that the base lacks. */
  lemma DedicatedShardAfterMerge(s: Snap, hf: HfBase, prefixes: seq<string>, force: bool, size: SizeOf)
    requires Wrote(s, hf, prefixes, force)
    ensures var vision, own := Collected(hf.shards, prefixes), OwnShard(s.shards);
      var shards := Merged(s, hf, prefixes, force, size).shards;
      && VISION_SHARD_NAME in shards
      && (forall k :: k in vision ==> k in shards[VISION_SHARD_NAME] && shards[VISION_SHARD_NAME][k] == vision[k])
      && (forall k :: k !in vision ==>
            (k in shards[VISION_SHARD_NAME] <==> !force && k in own && HasVisionPrefix(k, prefixes)))
      && (forall k :: k in shards[VISION_SHARD_NAME] && k !in vision ==> shards[VISION_SHARD_NAME][k] == own[k])
      && shards.Keys == s.shards.Keys + {VISION_SHARD_NAME}
      && (forall n :: n in s.shards && n != VISION_SHARD_NAME ==> n in shards && shards[n] == s.shards[n])
  {
  }

  /** Every text tensor of the snapshot is still in its shard. */
  ghost predicate TextTensorsStay(before: Shards, after: Shards, prefixes: seq<string>) {
    forall n, k :: n in before && k in before[n] && !HasVisionPrefix(k, prefixes) ==>
      n in after && k in after[n] && after[n][k] == before[n][k]
  }

  ghost predicate VisionOnly(shard: Shard, prefixes: seq<string>) {
    forall k :: k in shard ==> HasVisionPrefix(k, prefixes)
  }

  /** A merge keeps all text tensors in place if and only if it does not write or the dedicated shard has none. */
  lemma MergeKeepsTextTensors(s: Snap, hf: HfBase, prefixes: seq<string>, force: bool, size: SizeOf)
    ensures TextTensorsStay(s.shards, Merged(s, hf, prefixes, force, size).shards, prefixes)
       <==> !Wrote(s, hf, prefixes, force) || VisionOnly(OwnShard(s.shards), prefixes)
  {
    hide HasVisionPrefix, Existing, MergedConfig;
    var vision, own := Collected(hf.shards, prefixes), OwnShard(s.shards);
    if Wrote(s, hf, prefixes, force) {
      var after := Merged(s, hf, prefixes, force, size).shards;
      assert VisionOnly(after[VISION_SHARD_NAME], prefixes);
      if k :| k in own && !HasVisionPrefix(k, prefixes) {
        assert k !in after[VISION_SHARD_NAME];
      }
    }
  }

  /** The documentation says that by default the existing vision tensors win.  In the dedicated shard they all survive
      exactly when nothing is missing, or the base has the same tensors. */
  lemma OwnTensorsWin(s: Snap, hf: HfBase, prefixes: seq<string>, size: SizeOf)
    ensures var vision, own := Collected(hf.shards, prefixes), OwnShard(s.shards);
      var after := OwnShard(Merged(s, hf, prefixes, false, size).shards);
      (forall k :: k in own && HasVisionPrefix(k, prefixes) ==> k in after && after[k] == own[k])
      <==> Missing(s.shards, vision, prefixes) == {} || forall k :: k in own && k in vision ==> own[k] == vision[k]
  {
    hide HasVisionPrefix, Existing, MergedConfig, LinkedIndex;
  }

  /** The index leads to a tensor for the key. */
  predicate Resolves(s: Snap, k: Key) {
    s.index.Some? && k in s.index.value.weightMap
    && s.index.value.weightMap[k] in s.shards && k in s.shards[s.index.value.weightMap[k]]
  }

  function TensorOf(s: Snap, k: Key): Tensor
    requires Resolves(s, k)
  {
    s.shards[s.index.value.weightMap[k]][k]
  }

  /** Every vision tensor that the index led to is still what it leads to. */
  ghost predicate VisionTensorsStay(before: Snap, after: Snap, prefixes: seq<string>) {
    forall k :: Resolves(before, k) && HasVisionPrefix(k, prefixes) ==>
      Resolves(after, k) && TensorOf(after, k) == TensorOf(before, k)
  }

  /** The keys whose entry leads to the base's copy after a write: all that the base has, or, when the tool fails
      before it writes the index, those that are in the dedicated shard already. */
  predicate TakenFromBase(s: Snap, vision: Shard, failed: bool, k: Key) {
    Resolves(s, k) && k in vision && (failed ==> s.index.value.weightMap[k] == VISION_SHARD_NAME)
  }

  /** Through the index all existing vision tensors win a default merge, wherever they are stored, if and only if it
      does not write, or the base has the same tensor for every key that is taken from it. */
  lemma ExistingTensorsWin(s: Snap, hf: HfBase, prefixes: seq<string>, size: SizeOf)
    ensures var vision := Collected(hf.shards, prefixes);
      var failed := !OthersExist(s.index, vision.Keys, s.shards.Keys);
      VisionTensorsStay(s, Merged(s, hf, prefixes, false, size), prefixes)
      <==> !Wrote(s, hf, prefixes, false)
           || forall k :: TakenFromBase(s, vision, failed, k) ==> TensorOf(s, k) == vision[k]
  {
    hide HasVisionPrefix, Existing, MergedConfig, OthersExist, SizeSum;
    if Wrote(s, hf, prefixes, false) && s.index.Some? {
      WriteFails(s, hf, prefixes, false);
      var vision := Collected(hf.shards, prefixes);
      var after, failed := Merged(s, hf, prefixes, false, size), !OthersExist(s.index, vision.Keys, s.shards.Keys);
      forall k | Resolves(s, k) && HasVisionPrefix(k, prefixes)
        ensures Resolves(after, k)
        ensures TensorOf(after, k) == if TakenFromBase(s, vision, failed, k) then vision[k] else TensorOf(s, k)
      {
      }
    }
  }

  // ---- idempotence

  lemma RestoreConfigIdempotent(config: Config, hf: Config)
    ensures RestoredConfig(RestoredConfig(config, hf), hf) == RestoredConfig(config, hf)
  {
    var once := RestoredConfig(config, hf);
    var archs := once.architectures.value;
    assert Renamed(archs, TEXT_ARCH, VISION_ARCH) == archs by {
      assert |TEXT_ARCH| != |VISION_ARCH|;
    }
    VisionKeysDistinct();
    RestoreEntriesIdempotent(config.entries, hf.entries);
  }

  lemma RestoreEntriesIdempotent(entries: map<string, Json>, hf: map<string, Json>)
    requires LANGUAGE_MODEL_ONLY !in VISION_CONFIG_KEYS
    ensures RestoredEntries(RestoredEntries(entries, hf), hf) == RestoredEntries(entries, hf)
  {
  }

  lemma MergedConfigIdempotent(config: Option<Config>, hf: Option<Config>)
    ensures MergedConfig(MergedConfig(config, hf), hf) == MergedConfig(config, hf)
  {
    if config.Some? && hf.Some? {
      RestoreConfigIdempotent(config.value, hf.value);
    }
  }

  /** After a write nothing is missing any more. */
  lemma NothingMissingAfterWrite(shards: Shards, vision: Shard, prefixes: seq<string>, force: bool)
    requires NeedsWrite(shards, vision, prefixes, force)
    requires forall k :: k in vision ==> HasVisionPrefix(k, prefixes)
    ensures Missing(MergedShards(shards, vision, prefixes, force), vision, prefixes) == {}
  {
    hide HasVisionPrefix, IsPart;
    var after := MergedShards(shards, vision, prefixes, force);
    forall k | k in vision ensures k in Existing(after, prefixes) {
      assert VISION_SHARD_NAME in after && Scanned(VISION_SHARD_NAME) && k in after[VISION_SHARD_NAME];
    }
  }

  lemma MergedShardsIdempotent(shards: Shards, vision: Shard, prefixes: seq<string>, force: bool)
    requires forall k :: k in vision ==> HasVisionPrefix(k, prefixes)
    ensures MergedShards(MergedShards(shards, vision, prefixes, force), vision, prefixes, force)
         == MergedShards(shards, vision, prefixes, force)
  {
  }

  /** Running the tool twice leaves the snapshot as running it once, in either mode and whatever happened. */
  lemma MergeIdempotent(s: Snap, hf: HfBase, prefixes: seq<string>, force: bool, size: SizeOf)
    ensures Merged(Merged(s, hf, prefixes, force, size), hf, prefixes, force, size) == Merged(s, hf, prefixes, force, size)
  {
    var vision := Collected(hf.shards, prefixes);
    if vision != map[] {
      var once := Merged(s, hf, prefixes, force, size);
      MergedConfigIdempotent(s.config, hf.config);
      MergedShardsIdempotent(s.shards, vision, prefixes, force);
      hide HasVisionPrefix, Collected, Existing, MergedConfig, MergedShard;
      if s.index.Some? && Wrote(s, hf, prefixes, force) {
        LinkTwice(s.index.value.weightMap, vision.Keys);
        if !force {
          NothingMissingAfterWrite(s.shards, vision, prefixes, force);
        }
      }
    }
  }

  lemma LinkTwice(weightMap: map<Key, ShardName>, keys: set<Key>)
    ensures LinkedWeightMap(LinkedWeightMap(weightMap, keys), keys) == LinkedWeightMap(weightMap, keys)
  {
  }

  /** Every tensor that the base offers is listed in the dedicated shard, if there is an index. */
  ghost predicate AllLinked(index: Option<Index>, keys: set<Key>) {
    index.Some? ==> forall k :: k in keys ==> k in index.value.weightMap && index.value.weightMap[k] == VISION_SHARD_NAME
  }

  /** Every other entry of the index names a file that is there after a write. */
  ghost predicate OthersExist(index: Option<Index>, keys: set<Key>, files: set<ShardName>) {
    index.Some? ==> forall k :: k in index.value.weightMap && k !in keys ==>
      index.value.weightMap[k] in files || index.value.weightMap[k] == VISION_SHARD_NAME
  }

  /** A write fails exactly over another entry's missing file. */
  lemma WriteFails(s: Snap, hf: HfBase, prefixes: seq<string>, force: bool)
    requires Wrote(s, hf, prefixes, force)
    ensures MergeStatus(s, hf, prefixes, force) == Failed
       <==> !OthersExist(s.index, Collected(hf.shards, prefixes).Keys, s.shards.Keys)
  {
    hide HasVisionPrefix, Existing, Collected, MergedShard;
    if s.index.Some? {
      var vision := Collected(hf.shards, prefixes);
      var wm, files := s.index.value.weightMap, s.shards.Keys;
      var linked := LinkedWeightMap(wm, vision.Keys);
      if OthersExist(s.index, vision.Keys, files) {
        forall n | n in linked.Values ensures n in files + {VISION_SHARD_NAME} {
          var k :| k in linked && linked[k] == n;
        }
      } else {
        var k :| k in wm && k !in vision && wm[k] !in files && wm[k] != VISION_SHARD_NAME;
        assert k in linked && linked[k] in linked.Values;
      }
    }
  }

  /** After a write the index lists what was written if and only if it did before, or no other entry names a missing
      file.  Otherwise the tool fails between writing the shard and writing the index. */
  lemma WriteIsLinked(s: Snap, hf: HfBase, prefixes: seq<string>, force: bool, size: SizeOf)
    requires Wrote(s, hf, prefixes, force)
    ensures var keys := Collected(hf.shards, prefixes).Keys;
      AllLinked(Merged(s, hf, prefixes, force, size).index, keys)
      <==> AllLinked(s.index, keys) || OthersExist(s.index, keys, s.shards.Keys)
  {
    hide HasVisionPrefix, Existing, Collected, MergedShard, MergedConfig, OthersExist;
    WriteFails(s, hf, prefixes, force);
  }

  /** The run after any write reports that everything is merged already, and changes nothing. */
  lemma NextRunReportsMerged(s: Snap, hf: HfBase, prefixes: seq<string>, force: bool, size: SizeOf)
    requires Wrote(s, hf, prefixes, force)
    ensures var after := Merged(s, hf, prefixes, force, size);
      && MergeStatus(after, hf, prefixes, false) == AlreadyMerged
      && Merged(after, hf, prefixes, false, size) == after
  {
    var vision := Collected(hf.shards, prefixes);
    NothingMissingAfterWrite(s.shards, vision, prefixes, force);
    MergedConfigIdempotent(s.config, hf.config);
    hide HasVisionPrefix, Collected, Existing, MergedConfig, MergedShard;
  }

  /** So its report is true of the index if and only if the index listed the tensors before the write, or no other
      entry named a missing file. */
  lemma FailedMergeIsNotRepaired(s: Snap, hf: HfBase, prefixes: seq<string>, force: bool, size: SizeOf)
    requires Wrote(s, hf, prefixes, force)
    ensures var after, keys := Merged(s, hf, prefixes, force, size), Collected(hf.shards, prefixes).Keys;
      var again := Merged(after, hf, prefixes, false, size);
      && MergeStatus(after, hf, prefixes, false) == AlreadyMerged
      && (AllLinked(again.index, keys) <==> AllLinked(s.index, keys) || OthersExist(s.index, keys, s.shards.Keys))
      && (MergeStatus(s, hf, prefixes, force) == Failed ==> again.index == s.index)
  {
    hide *;
    NextRunReportsMerged(s, hf, prefixes, force, size);
    WriteIsLinked(s, hf, prefixes, force, size);
    FailureKeepsIndex(s, hf, prefixes, force, size);
  }

  lemma FailureKeepsIndex(s: Snap, hf: HfBase, prefixes: seq<string>, force: bool, size: SizeOf)
    ensures MergeStatus(s, hf, prefixes, force) == Failed ==> Merged(s, hf, prefixes, force, size).index == s.index
  {
    hide HasVisionPrefix, Existing, Collected, MergedShard, MergedConfig;
  }

  // ---- strip after merge

  /** Stripping a merged config gives the stripped config exactly when the snapshot declared an architecture. */
  lemma StripAfterRestore(config: Config, hf: Config)
    ensures StrippedConfig(RestoredConfig(config, hf)).entries == StrippedConfig(config).entries
    ensures StrippedConfig(RestoredConfig(config, hf)) == StrippedConfig(config)
       <==> config.architectures.GetOr([]) != []
  {
    assert StrippedEntries(RestoredEntries(config.entries, hf.entries)) == StrippedEntries(config.entries);
    var archs := config.architectures.GetOr([]);
    assert |TEXT_ARCH| != |VISION_ARCH|;
    if archs != [] {
      var there := Renamed(archs, TEXT_ARCH, VISION_ARCH);
      var back := Renamed(there, VISION_ARCH, TEXT_ARCH);
      assert back == Renamed(archs, VISION_ARCH, TEXT_ARCH);
    } else {
      assert Renamed([VISION_ARCH], VISION_ARCH, TEXT_ARCH) == [TEXT_ARCH] != [VISION_ARCH];
      assert Renamed(archs, VISION_ARCH, TEXT_ARCH) == [];
    }
  }

  /** Stripping undoes the shard rewrite, up to an empty dedicated shard. */
  lemma StripAfterMergeShards(shards: Shards, vision: Shard, prefixes: seq<string>, force: bool)
    requires forall k :: k in vision ==> HasVisionPrefix(k, prefixes)
    ensures StrippedShards(MergedShards(shards, vision, prefixes, force), prefixes)
         == if NeedsWrite(shards, vision, prefixes, force) then StrippedShards(shards, prefixes)[VISION_SHARD_NAME := map[]]
            else StrippedShards(shards, prefixes)
  {
  }

  lemma StripAfterLink(weightMap: map<Key, ShardName>, keys: set<Key>, prefixes: seq<string>)
    requires forall k :: k in keys ==> HasVisionPrefix(k, prefixes)
    ensures PrunedWeightMap(LinkedWeightMap(weightMap, keys), prefixes) == PrunedWeightMap(weightMap, prefixes)
  {
  }

  /** Strip fails on the snapshot over a file that only the merge supplies: the dedicated shard. */
  ghost predicate MergeRepairsStrip(s: Snap, hf: HfBase, prefixes: seq<string>, force: bool) {
    && StripFails(s, prefixes) && Wrote(s, hf, prefixes, force)
    && PrunedWeightMap(s.index.value.weightMap, prefixes).Values <= s.shards.Keys + {VISION_SHARD_NAME}
  }

  /** Strip after merge is strip, up to an emptied dedicated shard and the recorded size.  The weight map is the same
      unless strip alone fails and the merge repairs that, the config is the same exactly when the merge left it alone
      or the snapshot had declared an architecture, and all text tensors are still there exactly when the merge did
      not write or the dedicated shard had none. */
  lemma StripUndoesMerge(s: Snap, hf: HfBase, prefixes: seq<string>, force: bool, size: SizeOf)
    ensures var direct := Stripped(s, prefixes, size);
      var around := Stripped(Merged(s, hf, prefixes, force, size), prefixes, size);
      && around.shards == (if Wrote(s, hf, prefixes, force) then direct.shards[VISION_SHARD_NAME := map[]] else direct.shards)
      && (TextTensorsStay(s.shards, around.shards, prefixes)
          <==> !Wrote(s, hf, prefixes, force) || VisionOnly(OwnShard(s.shards), prefixes))
      && (around.index.Some? <==> direct.index.Some?)
      && (direct.index.Some? ==>
            (around.index.value.weightMap == direct.index.value.weightMap
             <==> !MergeRepairsStrip(s, hf, prefixes, force)))
      && (around.config == direct.config
          <==> s.config.None? || hf.config.None? || Collected(hf.shards, prefixes) == map[]
               || s.config.value.architectures.GetOr([]) != [])
  {
    hide HasVisionPrefix, Collected, MergedShards, MergedConfig, StrippedShards, StrippedConfig, PrunedIndex, LinkedIndex,
         TextTensorsStay, VisionOnly, MergeRepairsStrip;
    var vision := Collected(hf.shards, prefixes);
    if vision != map[] {
      StripAfterMergeShards(s.shards, vision, prefixes, force);
      StripAfterMergeConfig(s.config, hf.config);
    }
    TextAfterStrip(s.shards, prefixes);
    if s.index.Some? {
      StripAfterMergeIndex(s, hf, prefixes, force, size);
    }
  }

  /** Strip keeps all text tensors; emptying the dedicated shard keeps them exactly when it has none. */
  lemma TextAfterStrip(shards: Shards, prefixes: seq<string>)
    ensures TextTensorsStay(shards, StrippedShards(shards, prefixes), prefixes)
    ensures TextTensorsStay(shards, StrippedShards(shards, prefixes)[VISION_SHARD_NAME := map[]], prefixes)
       <==> VisionOnly(OwnShard(shards), prefixes)
  {
    hide HasVisionPrefix;
    var own, emptied := OwnShard(shards), StrippedShards(shards, prefixes)[VISION_SHARD_NAME := map[]];
    if k :| k in own && !HasVisionPrefix(k, prefixes) {
      assert VISION_SHARD_NAME in shards && k !in emptied[VISION_SHARD_NAME];
    }
  }

  lemma StripAfterMergeConfig(config: Option<Config>, hf: Option<Config>)
    ensures MergedConfig(config, hf).Some? <==> config.Some?
    ensures config.Some? ==>
      (StrippedConfig(MergedConfig(config, hf).value) == StrippedConfig(config.value)
       <==> hf.None? || config.value.architectures.GetOr([]) != [])
  {
    hide StrippedConfig, RestoredConfig;
    if config.Some? && hf.Some? {
      StripAfterRestore(config.value, hf.value);
    }
  }

  /** The weight map that strip leaves, given the files that are there. */
  function PrunedOrKept(weightMap: map<Key, ShardName>, files: set<ShardName>, prefixes: seq<string>): map<Key, ShardName> {
    var pruned := PrunedWeightMap(weightMap, prefixes);
    if pruned.Values <= files then pruned else weightMap
  }

  lemma StrippedWeightMap(s: Snap, prefixes: seq<string>, size: SizeOf)
    requires s.index.Some?
    ensures Stripped(s, prefixes, size).index.Some?
    ensures Stripped(s, prefixes, size).index.value.weightMap
         == PrunedOrKept(s.index.value.weightMap, s.shards.Keys, prefixes)
  {
    hide HasVisionPrefix, StrippedConfig, StrippedShard, PrunedWeightMap, SizeSum;
  }

  lemma MergedWeightMap(s: Snap, hf: HfBase, prefixes: seq<string>, force: bool, size: SizeOf)
    requires s.index.Some?
    ensures var merged := Merged(s, hf, prefixes, force, size);
      var linked := LinkedWeightMap(s.index.value.weightMap, Collected(hf.shards, prefixes).Keys);
      && merged.index.Some?
      && merged.shards.Keys == (if Wrote(s, hf, prefixes, force) then s.shards.Keys + {VISION_SHARD_NAME} else s.shards.Keys)
      && merged.index.value.weightMap
         == if Wrote(s, hf, prefixes, force) && linked.Values <= merged.shards.Keys then linked else s.index.value.weightMap
  {
    hide HasVisionPrefix, Existing, Collected, MergedShard, MergedConfig, LinkedWeightMap, SizeSum;
  }

  lemma StripAfterMergeIndex(s: Snap, hf: HfBase, prefixes: seq<string>, force: bool, size: SizeOf)
    requires s.index.Some?
    ensures var direct, around := Stripped(s, prefixes, size), Stripped(Merged(s, hf, prefixes, force, size), prefixes, size);
      && direct.index.Some? && around.index.Some?
      && (around.index.value.weightMap == direct.index.value.weightMap <==> !MergeRepairsStrip(s, hf, prefixes, force))
  {
    hide HasVisionPrefix, Collected, Wrote, Merged, Stripped, PrunedWeightMap, LinkedWeightMap;
    var wm, vision := s.index.value.weightMap, Collected(hf.shards, prefixes);
    MergedWeightMap(s, hf, prefixes, force, size);
    StrippedWeightMap(s, prefixes, size);
    StrippedWeightMap(Merged(s, hf, prefixes, force, size), prefixes, size);
    StripAfterLink(wm, vision.Keys, prefixes);
    PrunedFilesExist(LinkedWeightMap(wm, vision.Keys), s.shards.Keys + {VISION_SHARD_NAME}, prefixes);
  }

  lemma PrunedFilesExist(weightMap: map<Key, ShardName>, files: set<ShardName>, prefixes: seq<string>)
    ensures weightMap.Values <= files ==> PrunedWeightMap(weightMap, prefixes).Values <= files
  {
    var pruned := PrunedWeightMap(weightMap, prefixes);
    forall n | n in pruned.Values ensures n in weightMap.Values {
      var k :| k in pruned && pruned[k] == n;
    }
  }

  // ---- inputs that show each failure

  const VA: Key := "v.a"
  const VB: Key := "v.b"
  const V_PREFIXES: seq<string> := ["v."]

  lemma OneShardBase(shard: Shard, config: Option<Config>) returns (hf: HfBase)
    requires forall k :: k in shard ==> k == VA || k == VB
    ensures Collected(hf.shards, V_PREFIXES) == shard && hf.config == config && VisionOnly(shard, V_PREFIXES)
  {
    hf := HfBase([shard], config);
    assert V_PREFIXES[0] <= VA && V_PREFIXES[0] <= VB;
    NothingCollected(V_PREFIXES);
    var none: seq<Shard> := [];
    CollectedSnoc(none, shard, V_PREFIXES);
    assert none + [shard] == [shard];
    assert VisionPart(shard, V_PREFIXES) == shard;
  }

  /** A snapshot whose only shard is the dedicated one. */
  function OwnOnly(own: Shard, config: Option<Config>, index: Option<Index>): Snap {
    Snap(map[VISION_SHARD_NAME := own], config, index)
  }

  lemma NowhereExisting(shards: Shards, k: Key)
    requires forall n :: n in shards ==> k !in shards[n]
    ensures k !in Existing(shards, V_PREFIXES)
  {
  }

  /** A forced merge with a tensor that the base lacks leaves its index entry dangling. */
  lemma ForcedMergeDangles() returns (s: Snap, hf: HfBase, prefixes: seq<string>, size: SizeOf)
    ensures Coherent(s) && VisionOnly(OwnShard(s.shards), prefixes)
    ensures !Coherent(Merged(s, hf, prefixes, true, size))
  {
    hide HasVisionPrefix, Existing, Collected, VA, VB;
    NamesDiffer();
    prefixes, size := V_PREFIXES, shard => 0;
    s := OwnOnly(map[VA := 1], None, Some(Index(map[VA := VISION_SHARD_NAME], None)));
    hf := OneShardBase(map[VB := 2], None);
    var unused := OneShardBase(map[VA := 1], None);
    assert VA in s.index.value.weightMap && VB in Collected(hf.shards, prefixes);
    MergeCoherence(s, hf, prefixes, true, size);
  }

  lemma NamesDiffer()
    ensures VA != VB
  {
    assert VA[2] != VB[2];
  }

  /** A default merge that adds a missing tensor replaces one that is already there. */
  lemma DefaultMergeReplaces() returns (s: Snap, hf: HfBase, prefixes: seq<string>, size: SizeOf)
    ensures VISION_SHARD_NAME in s.shards && VA in s.shards[VISION_SHARD_NAME]
    ensures var after := Merged(s, hf, prefixes, false, size).shards[VISION_SHARD_NAME];
      VA in after && after[VA] != s.shards[VISION_SHARD_NAME][VA]
  {
    hide HasVisionPrefix, Existing, Collected, VA, VB;
    NamesDiffer();
    prefixes, size := V_PREFIXES, shard => 0;
    s := OwnOnly(map[VA := 1], None, None);
    hf := OneShardBase(map[VA := 2, VB := 3], None);
    NowhereExisting(s.shards, VB);
    assert VB in Missing(s.shards, Collected(hf.shards, prefixes), prefixes);
  }

  /** A default merge replaces a tensor that is in an ordinary shard: the index leads to the base's copy after it. */
  lemma DefaultMergeRelinks() returns (s: Snap, hf: HfBase, prefixes: seq<string>, size: SizeOf)
    ensures Coherent(s) && MergeStatus(s, hf, prefixes, false) == Done
    ensures VISION_SHARD_NAME !in s.shards && !VisionTensorsStay(s, Merged(s, hf, prefixes, false, size), prefixes)
  {
    hide HasVisionPrefix, Existing, Collected, VA, VB, Merged, MergeStatus;
    NamesDiffer();
    prefixes, size := V_PREFIXES, shard => 0;
    var shards: Shards := map["a" := map[VA := 1]];
    s := Snap(shards, None, Some(Index(map[VA := "a"], None)));
    hf := OneShardBase(map[VA := 2, VB := 3], None);
    assert |"a"| != |VISION_SHARD_NAME|;
    NowhereExisting(shards, VB);
    assert VB in Missing(shards, Collected(hf.shards, prefixes), prefixes);
    WriteFails(s, hf, prefixes, false);
    WriteIsDone(s, hf, prefixes, false);
    assert TakenFromBase(s, Collected(hf.shards, prefixes), false, VA);
    ExistingTensorsWin(s, hf, prefixes, size);
  }

  lemma WriteIsDone(s: Snap, hf: HfBase, prefixes: seq<string>, force: bool)
    requires Wrote(s, hf, prefixes, force)
    ensures MergeStatus(s, hf, prefixes, force) in {Done, Failed}
  {
  }

  /** A default merge fails over another entry's missing file; the next run reports success without having listed the
      new tensor. */
  lemma MergeFailsForGood() returns (s: Snap, hf: HfBase, prefixes: seq<string>, size: SizeOf)
    ensures Wrote(s, hf, prefixes, false) && MergeStatus(s, hf, prefixes, false) == Failed
    ensures var after := Merged(s, hf, prefixes, false, size);
      && MergeStatus(after, hf, prefixes, false) == AlreadyMerged
      && !AllLinked(Merged(after, hf, prefixes, false, size).index, Collected(hf.shards, prefixes).Keys)
  {
    hide HasVisionPrefix, Existing, Collected, VA, VB, Merged, MergeStatus;
    NamesDiffer();
    prefixes, size := V_PREFIXES, shard => 0;
    s := OwnOnly(map[], None, Some(Index(map[VA := "lost"], None)));
    hf := OneShardBase(map[VB := 2], None);
    NowhereExisting(s.shards, VB);
    assert VB in Missing(s.shards, Collected(hf.shards, prefixes), prefixes);
    assert |"lost"| != |VISION_SHARD_NAME|;
    assert VA in s.index.value.weightMap && VA !in Collected(hf.shards, prefixes);
    WriteFails(s, hf, prefixes, false);
    FailedMergeIsNotRepaired(s, hf, prefixes, false, size);
  }

  /** A snapshot that declares no architecture is not the same again after merge and strip, and a text tensor in the
      dedicated shard is gone. */
  lemma MergeAndStripLose() returns (s: Snap, hf: HfBase, prefixes: seq<string>, size: SizeOf)
    ensures var direct := Stripped(s, prefixes, size);
      var around := Stripped(Merged(s, hf, prefixes, false, size), prefixes, size);
      around.config != direct.config && !TextTensorsStay(s.shards, around.shards, prefixes)
  {
    hide HasVisionPrefix, Existing, Collected, VB, Merged, Stripped;
    var config := Config(map[], None);
    prefixes, size := V_PREFIXES, shard => 0;
    s := OwnOnly(map["t" := 1], Some(config), None);
    hf := OneShardBase(map[VA := 2], Some(config));
    TextName();
    NowhereExisting(s.shards, VA);
    assert "t" in OwnShard(s.shards);
    assert VA in Missing(s.shards, Collected(hf.shards, prefixes), prefixes);
    StripUndoesMerge(s, hf, prefixes, false, size);
  }

  /** Strip alone fails over the dedicated shard's missing file, and after a merge it does not. */
  lemma MergeCanRepairStrip() returns (s: Snap, hf: HfBase, prefixes: seq<string>)
    ensures MergeRepairsStrip(s, hf, prefixes, false)
  {
    hide HasVisionPrefix, Existing, Collected, VA, VB;
    prefixes := V_PREFIXES;
    var shards: Shards := map["a" := map[]];
    var weightMap: map<Key, ShardName> := map[VA := "a", "t" := VISION_SHARD_NAME];
    s := Snap(shards, None, Some(Index(weightMap, None)));
    hf := OneShardBase(map[VA := 2], None);
    TextName();
    var pruned := PrunedWeightMap(weightMap, prefixes);
    assert VA in weightMap && VA !in pruned && "t" in pruned;
    assert pruned == map["t" := VISION_SHARD_NAME];
    assert pruned["t"] in pruned.Values && |VISION_SHARD_NAME| != |"a"|;
    NowhereExisting(shards, VA);
    assert VA in Missing(shards, Collected(hf.shards, prefixes), prefixes);
  }

  lemma TextName()
    ensures "t" != VA && !HasVisionPrefix("t", V_PREFIXES)
  {
  }
}

/** Model snapshots on disk as the vision merge and strip tools see them: safetensors shards, a config and an
    optional weight index (scripts/tmax_merge_vision.py, scripts/tmax_strip_vision.py). */
module Snapshot {
  import opened Wrappers

  type Key = string
  type ShardName = string
  type Tensor = nat
  type Shard = map<Key, Tensor>
  type Shards = map<ShardName, Shard>

  /** A JSON value; only whether it is null matters. */
  datatype Json = Null | Value(id: nat)

  /** `config.json`: the architectures list and all other entries.  A null list counts as absent. */
  datatype Config = Config(entries: map<string, Json>, architectures: Option<seq<string>>)

  /** `model.safetensors.index.json`. */
  datatype Index = Index(weightMap: map<Key, ShardName>, totalSize: Option<nat>)

  datatype Snap = Snap(shards: Shards, config: Option<Config>, index: Option<Index>)

  /** The size on disk of a shard file. */
  type SizeOf = Shard -> nat

  const VISION_CONFIG_KEYS: seq<string> :=
    ["vision_config", "image_token_id", "video_token_id", "vision_start_token_id", "vision_end_token_id"]
  const LANGUAGE_MODEL_ONLY := "language_model_only"
  const TEXT_ARCH := "Qwen3_5ForCausalLM"
  const VISION_ARCH := "Qwen3_5ForConditionalGeneration"
  const VISION_SHARD_NAME: ShardName := "model-vision.safetensors"

  predicate HasVisionPrefix(key: Key, prefixes: seq<string>) {
    exists i :: 0 <= i < |prefixes| && prefixes[i] <= key
  }

  /** A key has a vision prefix if and only if it is one of the prefixes with something behind it. */
  lemma VisionPrefixIs(key: Key, prefixes: seq<string>)
    ensures HasVisionPrefix(key, prefixes) <==> exists p, rest :: p in prefixes && key == p + rest
  {
    if HasVisionPrefix(key, prefixes) {
      var i :| 0 <= i < |prefixes| && prefixes[i] <= key;
      assert prefixes[i] in prefixes && key == prefixes[i] + key[|prefixes[i]|..];
    }
  }

  /** Replaces one name by another throughout a list. */
  function Renamed(names: seq<string>, from: string, to: string): (r: seq<string>)
    ensures |r| == |names|
    ensures forall i :: 0 <= i < |r| ==> r[i] == if names[i] == from then to else names[i]
  {
    seq(|names|, i requires 0 <= i < |names| => if names[i] == from then to else names[i])
  }

  function SizeIn(shards: Shards, size: SizeOf): ShardName -> nat {
    name => if name in shards then size(shards[name]) else 0
  }

  const PLUS: (nat, nat) -> nat := (a, b) => a + b

  /** The sizes of a set of shards together. */
  ghost function SizeSum(shards: Shards, names: set<ShardName>, size: SizeOf): nat
    requires names <= shards.Keys
  {
    Fold(names, SizeIn(shards, size), PLUS, 0)
  }

  /** The order in which the shards are added up does not matter. */
  lemma SizeSumRemove(shards: Shards, names: set<ShardName>, size: SizeOf, n: ShardName)
    requires names <= shards.Keys && n in names
    ensures SizeSum(shards, names, size) == size(shards[n]) + SizeSum(shards, names - {n}, size)
  {
    FoldRemove(names, SizeIn(shards, size), PLUS, 0, n);
  }

  lemma SizeSumNone(shards: Shards, size: SizeOf)
    ensures SizeSum(shards, {}, size) == 0
  {
  }

  lemma SizeSumAdd(shards: Shards, names: set<ShardName>, size: SizeOf, n: ShardName)
    requires names <= shards.Keys && n in shards && n !in names
    ensures SizeSum(shards, names + {n}, size) == SizeSum(shards, names, size) + size(shards[n])
  {
    SizeSumRemove(shards, names + {n}, size, n);
    assert names + {n} - {n} == names;
  }

  /** `total_size` of a weight map: every referenced shard once.  A referenced file that does not exist is an error. */
  method TotalSize(weightMap: map<Key, ShardName>, shards: Shards, size: SizeOf) returns (total: Option<nat>)
    ensures total.Some? <==> weightMap.Values <= shards.Keys
    ensures total.Some? ==> total.value == SizeSum(shards, weightMap.Values, size)
  {
    var sum, seen: set<ShardName>, todo := 0, {}, weightMap.Keys;
    while todo != {}
      invariant todo <= weightMap.Keys && seen <= shards.Keys
      invariant seen == set k | k in weightMap && k !in todo :: weightMap[k]
      invariant sum == SizeSum(shards, seen, size)
      decreases todo
    {
      var k :| k in todo;
      var shard := weightMap[k];
      todo := todo - {k};
      if shard in seen {
        continue;
      }
      if shard !in shards {
        assert weightMap[k] in weightMap.Values;
        return None;
      }
      SizeSumAdd(shards, seen, size, shard);
      seen := seen + {shard};
      sum := sum + size(shards[shard]);
    }
    assert seen == weightMap.Values;
    total := Some(sum);
  }

  /** Every entry of the weight map names a shard that holds the key. */
  ghost predicate Coherent(s: Snap) {
    s.index.Some? ==>
      forall k :: k in s.index.value.weightMap ==>
        s.index.value.weightMap[k] in s.shards && k in s.shards[s.index.value.weightMap[k]]
  }

  /** A snapshot directory, updated in place. */
  class SnapshotDir {
    var shards: Shards
    var config: Option<Config>
    var index: Option<Index>

    constructor (s: Snap)
      ensures View() == s
    {
      shards, config, index := s.shards, s.config, s.index;
    }

    function View(): Snap
      reads this
    {
      Snap(shards, config, index)
    }
  }
}

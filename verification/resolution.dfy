/** What the linter makes of the written files: following a config's parent
    references down to a root yields the rule maps it stacks, root first. The
    legacy files chain through `extends`, the flat files through the spread of
    the parent array, and a flat delta reads its rules from the legacy file of
    the same category. */
module Resolution {
  import opened Wrappers
  import opened Entries
  import opened Severity
  import opened Categories
  import opened Compose

  type RuleMap<O> = Entries<Setting<O>>

  /** `require('../lib/configs/<name>').rules`: the rules property of a legacy
      file, which is the category's own rule map, not its merged one. */
  function OwnRules<O>(files: map<OutputPath, Document<O>>, name: string): Option<RuleMap<O>>
  {
    var p := LegacyFile(name + ".js");
    if p !in files then None
    else match files[p]
      case Full(Legacy, rules) => Some(rules)
      case LegacyDelta(_, rules) => Some(rules)
      case _ => None
  }

  /** The rule maps a config stacks, root first; `None` when a referenced
      file is missing or of the wrong kind, or after `fuel` references. */
  function Layers<O>(files: map<OutputPath, Document<O>>, p: OutputPath, fuel: nat): Option<seq<RuleMap<O>>>
    decreases fuel
  {
    if fuel == 0 || p !in files then None
    else match (p, files[p])
      case (LegacyFile(_), Full(Legacy, rules)) => Some([rules])
      case (LegacyFile(_), LegacyDelta(parent, rules)) =>
        (match Layers(files, LegacyFile(parent + ".js"), fuel - 1)
         case Some(below) => Some(below + [rules])
         case None => None)
      case (FlatFile(_), Full(Flat, rules)) => Some([rules])
      case (FlatFile(_), FlatDelta(parentFile, rulesFrom)) =>
        (match (Layers(files, FlatFile(parentFile + ".js"), fuel - 1), OwnRules(files, rulesFrom))
         case (Some(below), Some(own)) => Some(below + [own])
         case _ => None)
      case _ => None
  }

  /** Later entries replace earlier ones rule by rule; a rule new to `base`
      goes last. */
  function Override<V>(base: Entries<V>, top: Entries<V>): (r: Entries<V>)
    ensures forall k :: Get(r, k) == (if LastValue(top, k).Some? then LastValue(top, k) else Get(base, k))
    decreases |top|
  {
    if |top| == 0 then base
    else Put(Override(base, top[..|top| - 1]), top[|top| - 1].0, top[|top| - 1].1)
  }

  /** The effective rule table of a stack of rule maps, merged root first. */
  function Effective<V>(layers: seq<Entries<V>>): Entries<V>
  {
    if |layers| == 0 then []
    else Override(Effective(layers[..|layers| - 1]), layers[|layers| - 1])
  }

  /** The value the nearest layer that mentions `k` gives it, searching from
      the last (most specific) layer towards the root. */
  function NearestValue<V>(layers: seq<Entries<V>>, k: string): Option<V>
  {
    if |layers| == 0 then None
    else if Get(layers[|layers| - 1], k).Some? then Get(layers[|layers| - 1], k)
    else NearestValue(layers[..|layers| - 1], k)
  }

  /** Merging root first with later entries overriding earlier ones gives
      every rule the value of the most specific layer that mentions it. */
  lemma {:induction false} ChildOverridesParent<V>(layers: seq<Entries<V>>, k: string)
    requires forall i :: 0 <= i < |layers| ==> DistinctKeys(layers[i])
    ensures Get(Effective(layers), k) == NearestValue(layers, k)
  {
    if |layers| > 0 {
      ChildOverridesParent(layers[..|layers| - 1], k);
      LastValueOfDistinct(layers[|layers| - 1], k);
    }
  }

  /** The files written for a known catalog, category by category: a listed
      category's legacy document and, if it has one, its flat document sit at
      its two paths; an unlisted category's paths are unwritten. */
  ghost predicate WrittenAsComposed<O>(files: map<OutputPath, Document<O>>, cats: seq<Category<O>>)
  {
    forall x {:trigger ComposedAt(files, cats, x)} :: x in KnownIds ==> ComposedAt(files, cats, x)
  }

  ghost predicate ComposedAt<O>(files: map<OutputPath, Document<O>>, cats: seq<Category<O>>, x: string)
  {
    var legacy := LegacyFile(x + ".js");
    var flat := FlatFile(FlatName(x) + ".js");
    if Lists(cats, x) then
      && legacy in files
      && files[legacy] == (if IsRoot(x) then Full(Legacy, RuleMapOf(cats, x))
                           else LegacyDelta(LegacyParent(x).value, RuleMapOf(cats, x)))
      && (ProducesFlat(x) ==>
            && flat in files
            && files[flat] == (if IsRoot(x) then Full(Flat, RuleMapOf(cats, x))
                               else FlatDelta(FlatName(LegacyParent(x).value), x)))
    else
      legacy !in files && flat !in files
  }

  lemma FilesWrittenAsComposed<O>(cats: seq<Category<O>>)
    requires KnownCatalog(cats)
    ensures WrittenAsComposed(Files(cats), cats)
  {
    forall x | x in KnownIds
      ensures ComposedAt(Files(cats), cats, x)
    {
      FilesOfCategory(cats, x);
      if Lists(cats, x) {
        var i :| 0 <= i < |cats| && cats[i].categoryId == x;
        RuleMapOfListed(cats, i);
      }
    }
  }

  /** The flat config of every flat-producing category stacks exactly the rule
      maps its legacy config stacks, in the same order, so the two outputs give
      every rule the same effective setting however the linter merges them. */
  lemma FlatMirrorsLegacy<O>(cats: seq<Category<O>>, id: string, fuel: nat)
    requires KnownCatalog(cats) && id in KnownIds && ProducesFlat(id)
    ensures Layers(Files(cats), FlatFile(FlatName(id) + ".js"), fuel) ==
            Layers(Files(cats), LegacyFile(id + ".js"), fuel)
  {
    FilesWrittenAsComposed(cats);
    MirroredStacks(Files(cats), cats, id, fuel);
  }

  lemma {:induction false} MirroredStacks<O>(files: map<OutputPath, Document<O>>, cats: seq<Category<O>>,
                                             id: string, fuel: nat)
    requires WrittenAsComposed(files, cats) && id in KnownIds && ProducesFlat(id)
    ensures Layers(files, FlatFile(FlatName(id) + ".js"), fuel) == Layers(files, LegacyFile(id + ".js"), fuel)
    decreases fuel
  {
    var legacy := LegacyFile(id + ".js");
    var flat := FlatFile(FlatName(id) + ".js");
    assert ComposedAt(files, cats, id);
    if fuel == 0 {
    } else if Lists(cats, id) {
      var rules := RuleMapOf(cats, id);
      if IsRoot(id) {
        assert files[legacy] == Full(Legacy, rules) && files[flat] == Full(Flat, rules);
        RootLayers(files, legacy, flat, rules, fuel);
      } else {
        var parent := LegacyParent(id).value;
        assert files[legacy] == LegacyDelta(parent, rules);
        assert files[flat] == FlatDelta(FlatName(parent), id);
        FlatParentIsGenerated(id);
        MirroredStacks(files, cats, parent, fuel - 1);
        DeltaLayers(files, id, parent, rules, fuel);
      }
    } else {
      assert legacy !in files && flat !in files;
    }
  }

  lemma RootLayers<O>(files: map<OutputPath, Document<O>>, legacy: OutputPath, flat: OutputPath,
                      rules: RuleMap<O>, fuel: nat)
    requires legacy.LegacyFile? && flat.FlatFile? && fuel > 0
    requires legacy in files && files[legacy] == Full(Legacy, rules)
    requires flat in files && files[flat] == Full(Flat, rules)
    ensures Layers(files, legacy, fuel) == Layers(files, flat, fuel) == Some([rules])
  {
  }

  lemma DeltaLayers<O>(files: map<OutputPath, Document<O>>, id: string, parent: string,
                       rules: RuleMap<O>, fuel: nat)
    requires fuel > 0
    requires LegacyFile(id + ".js") in files && files[LegacyFile(id + ".js")] == LegacyDelta(parent, rules)
    requires FlatFile(FlatName(id) + ".js") in files
    requires files[FlatFile(FlatName(id) + ".js")] == FlatDelta(FlatName(parent), id)
    requires Layers(files, FlatFile(FlatName(parent) + ".js"), fuel - 1) ==
             Layers(files, LegacyFile(parent + ".js"), fuel - 1)
    ensures Layers(files, FlatFile(FlatName(id) + ".js"), fuel) == Layers(files, LegacyFile(id + ".js"), fuel)
  {
    assert OwnRules(files, id) == Some(rules);
  }

  /** Hence both outputs give every rule the same effective setting. */
  lemma EffectiveTablesAgree<O>(cats: seq<Category<O>>, id: string, fuel: nat, rule: string)
    requires KnownCatalog(cats) && id in KnownIds && ProducesFlat(id)
    requires Layers(Files(cats), LegacyFile(id + ".js"), fuel).Some?
    ensures Layers(Files(cats), FlatFile(FlatName(id) + ".js"), fuel).Some?
    ensures Get(Effective(Layers(Files(cats), FlatFile(FlatName(id) + ".js"), fuel).value), rule) ==
            Get(Effective(Layers(Files(cats), LegacyFile(id + ".js"), fuel).value), rule)
  {
    FlatMirrorsLegacy(cats, id, fuel);
  }

  /** The rule map of category `id` in the catalog (empty when absent). */
  function RuleMapOf<O>(cats: seq<Category<O>>, id: string): RuleMap<O>
  {
    if |cats| == 0 then []
    else if cats[0].categoryId == id then FormatRules(cats[0].rules, id)
    else RuleMapOf(cats[1..], id)
  }

  /** The rule maps of a chain, listed root first. */
  function ChainLayers<O>(cats: seq<Category<O>>, chain: seq<string>): (layers: seq<RuleMap<O>>)
    ensures |layers| == |chain|
  {
    if |chain| == 0 then []
    else ChainLayers(cats, chain[1..]) + [RuleMapOf(cats, chain[0])]
  }

  predicate Lists<O>(cats: seq<Category<O>>, id: string)
  {
    exists i :: 0 <= i < |cats| && cats[i].categoryId == id
  }

  lemma {:induction false} RuleMapOfListed<O>(cats: seq<Category<O>>, i: nat)
    requires KnownCatalog(cats) && i < |cats|
    ensures RuleMapOf(cats, cats[i].categoryId) == FormatRules(cats[i].rules, cats[i].categoryId)
  {
    if i > 0 {
      assert cats[0].categoryId != cats[i].categoryId;
      assert KnownCatalog(cats[1..]);
      RuleMapOfListed(cats[1..], i - 1);
    }
  }

  /** The catalog lists every category the generator knows. */
  predicate CompleteCatalog<O>(cats: seq<Category<O>>)
  {
    KnownCatalog(cats) && forall x :: x in KnownIds ==> Lists(cats, x)
  }

  /** In a complete catalog, a legacy config stacks the own rule maps of its
      legacy chain, from `base` down to the category itself: no rule map is
      skipped, repeated or taken from elsewhere. */
  lemma LegacyLayersFollowChain<O>(cats: seq<Category<O>>, id: string, fuel: nat)
    requires CompleteCatalog(cats) && id in KnownIds && id in Depth && fuel > Depth[id]
    ensures Layers(Files(cats), LegacyFile(id + ".js"), fuel) ==
            Some(ChainLayers(cats, LegacyChain(id, Depth[id])))
  {
    var files := Files(cats);
    var chain := LegacyChain(id, Depth[id]);
    LegacyChainsEndAtBase(id, Depth[id]);
    forall k | 0 <= k < |chain|
      ensures LegacyFile(chain[k] + ".js") in files
      ensures k < |chain| - 1 ==>
                files[LegacyFile(chain[k] + ".js")] == LegacyDelta(chain[k + 1], RuleMapOf(cats, chain[k]))
      ensures k == |chain| - 1 ==>
                files[LegacyFile(chain[k] + ".js")] == Full(Legacy, RuleMapOf(cats, chain[k]))
    {
      var x := chain[k];
      assert Lists(cats, x);
      var i :| 0 <= i < |cats| && cats[i].categoryId == x;
      FilesOfCategory(cats, x);
      RuleMapOfListed(cats, i);
      var doc := FormatCategory(cats[i])[0];
      if k < |chain| - 1 {
        assert LegacyParent(x) == Some(chain[k + 1]);
        assert doc == LegacyDelta(chain[k + 1], doc.rules);
      } else {
        assert x == "base";
        BaseIsRoot();
        assert IsRoot(x);
        assert doc == Full(Legacy, doc.rules);
      }
    }
    StackedChain(files, cats, chain, fuel);
  }

  /** Following `extends` along a chain of legacy files, each a delta over
      the next and the last a full document, stacks their rule maps. */
  lemma {:induction false} StackedChain<O>(files: map<OutputPath, Document<O>>, cats: seq<Category<O>>,
                                           chain: seq<string>, fuel: nat)
    requires 1 <= |chain| <= fuel
    requires forall k :: 0 <= k < |chain| ==> LegacyFile(chain[k] + ".js") in files
    requires forall k :: 0 <= k < |chain| - 1 ==>
               files[LegacyFile(chain[k] + ".js")] == LegacyDelta(chain[k + 1], RuleMapOf(cats, chain[k]))
    requires files[LegacyFile(chain[|chain| - 1] + ".js")] == Full(Legacy, RuleMapOf(cats, chain[|chain| - 1]))
    ensures Layers(files, LegacyFile(chain[0] + ".js"), fuel) == Some(ChainLayers(cats, chain))
  {
    var legacy := LegacyFile(chain[0] + ".js");
    var rules := RuleMapOf(cats, chain[0]);
    var above := chain[1..];
    assert chain == [chain[0]] + above;
    ChainLayersCons(cats, chain[0], above);
    if |chain| == 1 {
      LegacyRootLayers(files, legacy, rules, fuel);
      assert ChainLayers(cats, above) == [];
      assert ChainLayers(cats, chain) == [rules];
      assert Layers(files, legacy, fuel) == Some([rules]);
    } else {
      StackedChain(files, cats, above, fuel - 1);
      LegacyDeltaLayers(files, legacy, chain[1], rules, fuel);
    }
  }

  lemma ChainLayersCons<O>(cats: seq<Category<O>>, id: string, above: seq<string>)
    ensures ChainLayers(cats, [id] + above) == ChainLayers(cats, above) + [RuleMapOf(cats, id)]
  {
    assert ([id] + above)[1..] == above;
  }

  lemma LegacyRootLayers<O>(files: map<OutputPath, Document<O>>, legacy: OutputPath,
                            rules: RuleMap<O>, fuel: nat)
    requires fuel > 0 && legacy.LegacyFile?
    requires legacy in files && files[legacy] == Full(Legacy, rules)
    ensures Layers(files, legacy, fuel) == Some([rules])
  {
  }

  lemma LegacyDeltaLayers<O>(files: map<OutputPath, Document<O>>, legacy: OutputPath, parent: string,
                             rules: RuleMap<O>, fuel: nat)
    requires fuel > 0 && legacy.LegacyFile?
    requires legacy in files && files[legacy] == LegacyDelta(parent, rules)
    requires Layers(files, LegacyFile(parent + ".js"), fuel - 1).Some?
    ensures Layers(files, legacy, fuel) == Some(Layers(files, LegacyFile(parent + ".js"), fuel - 1).value + [rules])
  {
  }

  /** The rule-map layers of a catalog's chain all have distinct keys. */
  lemma {:induction false} ChainLayersDistinct<O>(cats: seq<Category<O>>, chain: seq<string>)
    ensures forall i :: 0 <= i < |ChainLayers(cats, chain)| ==> DistinctKeys(ChainLayers(cats, chain)[i])
  {
    if |chain| > 0 {
      ChainLayersDistinct(cats, chain[1..]);
      RuleMapOfDistinct(cats, chain[0]);
    }
  }

  lemma {:induction false} RuleMapOfDistinct<O>(cats: seq<Category<O>>, id: string)
    ensures DistinctKeys(RuleMapOf(cats, id))
  {
    if |cats| > 0 && cats[0].categoryId != id {
      RuleMapOfDistinct(cats[1..], id);
    }
  }

  /** In a complete catalog, the effective setting a config gives a rule is
      the one in the nearest category of its legacy chain that declares the
      rule; the flat config of the same category gives the same setting. */
  lemma EffectiveIsNearestDeclaration<O>(cats: seq<Category<O>>, id: string, fuel: nat, k: string)
    requires CompleteCatalog(cats) && id in KnownIds && id in Depth && fuel > Depth[id]
    ensures var legacy := Layers(Files(cats), LegacyFile(id + ".js"), fuel);
            legacy.Some? &&
            Get(Effective(legacy.value), k) == NearestValue(ChainLayers(cats, LegacyChain(id, Depth[id])), k)
    ensures ProducesFlat(id) ==>
              Layers(Files(cats), FlatFile(FlatName(id) + ".js"), fuel) ==
              Layers(Files(cats), LegacyFile(id + ".js"), fuel)
  {
    var chain := LegacyChain(id, Depth[id]);
    LegacyLayersFollowChain(cats, id, fuel);
    ChainLayersDistinct(cats, chain);
    ChildOverridesParent(ChainLayers(cats, chain), k);
    if ProducesFlat(id) {
      FlatMirrorsLegacy(cats, id, fuel);
    }
  }

  /** Example: a rule declared in `essential` and left alone by
      `strongly-recommended` stays an error in the `strongly-recommended`
      config; one that `strongly-recommended` declares again becomes a warning
      there. */
  lemma {:induction false} NearestDeclarationWins<O>(cats: seq<Category<O>>, k: string)
    requires KnownCatalog(cats)
    requires Lists(cats, "strongly-recommended") && Lists(cats, "essential")
    ensures var chain := LegacyChain("strongly-recommended", 4);
            var setting := NearestValue(ChainLayers(cats, chain), k);
            (Get(RuleMapOf(cats, "strongly-recommended"), k).Some? ==>
               setting.Some? && setting.value.level == Warn) &&
            (Get(RuleMapOf(cats, "strongly-recommended"), k).None? &&
             Get(RuleMapOf(cats, "essential"), k).Some? ==>
               setting.Some? && setting.value.level == Error)
  {
    var id := "strongly-recommended";
    var chain := [id, "essential", "base"];
    assert LegacyChain(id, 4) == chain by {
      LegacyChainStep(id, 4);
      LegacyChainStep("essential", 3);
      LegacyChainStep("base", 2);
      BaseIsRoot();
    }
    var layers := ChainLayers(cats, chain);
    assert layers == [RuleMapOf(cats, "base"), RuleMapOf(cats, "essential"), RuleMapOf(cats, id)] by {
      ChainLayersCons(cats, "base", []);
      ChainLayersCons(cats, "essential", ["base"]);
      ChainLayersCons(cats, id, ["essential", "base"]);
    }
    assert layers[..2] == [RuleMapOf(cats, "base"), RuleMapOf(cats, "essential")];
    RuleMapOfLevels(cats, id, k);
    RuleMapOfLevels(cats, "essential", k);
  }

  /** A category's rule map gives every rule the category's own level. */
  lemma RuleMapOfLevels<O>(cats: seq<Category<O>>, id: string, k: string)
    requires KnownCatalog(cats) && Lists(cats, id)
    ensures Get(RuleMapOf(cats, id), k).Some? ==>
              (Get(RuleMapOf(cats, id), k).value.level == Error <==> id in ErrorCategories)
  {
    var i :| 0 <= i < |cats| && cats[i].categoryId == id;
    RuleMapOfListed(cats, i);
  }
}

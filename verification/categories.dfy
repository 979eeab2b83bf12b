/** The inheritance tables: each category's legacy parent (`extendsCategories`)
    and the names some categories take in the flat-config output
    (`flatConfigCategories`). Reading a table yields `None` both for an entry
    that is `null` and for an id the table does not list. Ids that name a
    member `Object.prototype` supplies, such as `constructor` or `toString`,
    read an inherited function in the source; this model does not cover
    them. */
module Categories {
  import opened Wrappers
  import opened Entries

  const ExtendsCategories: map<string, Option<string>> := map[
    "base" := None,
    "essential" := Some("base"),
    "vue3-essential" := Some("base"),
    "strongly-recommended" := Some("essential"),
    "vue3-strongly-recommended" := Some("vue3-essential"),
    "recommended" := Some("strongly-recommended"),
    "vue3-recommended" := Some("vue3-strongly-recommended"),
    "use-with-caution" := Some("recommended"),
    "vue3-use-with-caution" := Some("vue3-recommended")
  ]

  const FlatConfigCategories: map<string, Option<string>> := map[
    "base" := None,
    "essential" := Some("vue2-essential"),
    "strongly-recommended" := Some("vue2-strongly-recommended"),
    "recommended" := Some("vue2-recommended"),
    "vue3-essential" := Some("essential"),
    "vue3-strongly-recommended" := Some("strongly-recommended"),
    "vue3-recommended" := Some("recommended")
  ]

  /** The category ids the generator knows, in the order of
      `extendsCategories`. */
  const KnownOrder: seq<string> := [
    "base", "essential", "vue3-essential", "strongly-recommended",
    "vue3-strongly-recommended", "recommended", "vue3-recommended",
    "use-with-caution", "vue3-use-with-caution"
  ]

  const KnownIds: set<string> := set id | id in KnownOrder

  /** `table[id]`, with `undefined` and `null` both read as `None`. */
  function Lookup(table: map<string, Option<string>>, id: string): Option<string>
  {
    if id in table then table[id] else None
  }

  /** JavaScript truthiness of a looked-up string. */
  predicate Truthy(o: Option<string>)
  {
    o.Some? && o.value != ""
  }

  function LegacyParent(id: string): Option<string>
  {
    Lookup(ExtendsCategories, id)
  }

  /** `extendsCategories[id] == null`: the category is composed from scratch.
      Any other id the table does not list is a root as well, except the names
      of `Object.prototype` members, which this model does not cover. */
  predicate IsRoot(id: string)
  {
    LegacyParent(id).None?
  }

  predicate HasFlatAlias(id: string)
  {
    Truthy(Lookup(FlatConfigCategories, id))
  }

  /** `flatConfigCategories[id] || id`: the name of a category in the flat
      output. */
  function FlatName(id: string): string
  {
    if HasFlatAlias(id) then Lookup(FlatConfigCategories, id).value else id
  }

  /** Whether the category gets a flat config: roots always do, other
      categories only with a truthy flat alias. */
  predicate ProducesFlat(id: string)
  {
    IsRoot(id) || HasFlatAlias(id)
  }

  /** The legacy chain from `id` upwards, at most `fuel` steps long. */
  function LegacyChain(id: string, fuel: nat): (chain: seq<string>)
    ensures |chain| >= 1 && chain[0] == id
    ensures forall i :: 0 <= i < |chain| - 1 ==> LegacyParent(chain[i]) == Some(chain[i + 1])
    decreases fuel
  {
    match LegacyParent(id)
    case None => [id]
    case Some(p) => if fuel == 0 then [id] else [id] + LegacyChain(p, fuel - 1)
  }

  lemma LegacyChainStep(id: string, fuel: nat)
    ensures IsRoot(id) ==> LegacyChain(id, fuel) == [id]
    ensures !IsRoot(id) && fuel > 0 ==>
              LegacyChain(id, fuel) == [id] + LegacyChain(LegacyParent(id).value, fuel - 1)
  {
  }

  /** The first of `ids` that writes the flat file `configs/<name>.js`. */
  function FirstFlatWriter(ids: seq<string>, name: string): (w: Option<string>)
    ensures w.Some? ==> w.value in ids && ProducesFlat(w.value) && FlatName(w.value) == name
    ensures w.None? ==> forall i :: 0 <= i < |ids| && ProducesFlat(ids[i]) ==> FlatName(ids[i]) != name
  {
    if |ids| == 0 then None
    else if ProducesFlat(ids[0]) && FlatName(ids[0]) == name then Some(ids[0])
    else FirstFlatWriter(ids[1..], name)
  }

  /** The known category that writes the flat file `configs/<name>.js`, if
      there is one. */
  function FlatWriter(name: string): Option<string>
  {
    FirstFlatWriter(KnownOrder, name)
  }

  /** The flat chain from the flat file `name` upwards, at most `fuel` steps
      long: the category writing `name` spreads `./FlatName(parent)`, which
      is the next file of the chain. A file nobody writes, or one written by
      a root, ends the chain. */
  function FlatChain(name: string, fuel: nat): (chain: seq<string>)
    ensures |chain| >= 1 && chain[0] == name
  {
    FollowFlat(FlatWriter, name, fuel)
  }

  /** `FlatChain` for any assignment `writer` of flat files to the categories
      writing them. */
  function FollowFlat(writer: string -> Option<string>, name: string, fuel: nat): (chain: seq<string>)
    ensures |chain| >= 1 && chain[0] == name
    decreases fuel
  {
    match writer(name)
    case None => [name]
    case Some(id) =>
      match LegacyParent(id)
      case None => [name]
      case Some(p) => if fuel == 0 then [name] else [name] + FollowFlat(writer, FlatName(p), fuel - 1)
  }

  /** The two tables name only known categories, and the legacy table covers
      every known category. */
  lemma TablesAreClosed()
    ensures ExtendsCategories.Keys == KnownIds
    ensures FlatConfigCategories.Keys <= KnownIds
    ensures forall id :: id in KnownIds && LegacyParent(id).Some? ==> LegacyParent(id).value in KnownIds
  {
  }

  /** How many legacy steps separate a known category from `base`. */
  const Depth: map<string, nat> := map[
    "base" := 0,
    "essential" := 1,
    "vue3-essential" := 1,
    "strongly-recommended" := 2,
    "vue3-strongly-recommended" := 2,
    "recommended" := 3,
    "vue3-recommended" := 3,
    "use-with-caution" := 4,
    "vue3-use-with-caution" := 4
  ]

  /** `base` is the one root, and every other known category sits exactly one
      step below its parent. */
  lemma ParentIsOneStepUp(id: string)
    requires id in KnownIds
    ensures id in Depth
    ensures IsRoot(id) <==> id == "base"
    ensures !IsRoot(id) ==>
              LegacyParent(id).value in KnownIds && LegacyParent(id).value in Depth &&
              Depth[LegacyParent(id).value] + 1 == Depth[id]
  {
  }

  /** Every known category's legacy chain is free of cycles and ends at
      `base` after `Depth[id]` steps. */
  lemma {:induction false} LegacyChainsEndAtBase(id: string, fuel: nat)
    requires id in KnownIds && id in Depth && fuel >= Depth[id]
    ensures var chain := LegacyChain(id, fuel);
            |chain| == Depth[id] + 1 && chain[|chain| - 1] == "base" &&
            (forall i :: 0 <= i < |chain| ==>
               chain[i] in KnownIds && chain[i] in Depth && Depth[chain[i]] == Depth[id] - i) &&
            Distinct(chain)
    decreases fuel
  {
    ParentIsOneStepUp(id);
    var chain := LegacyChain(id, fuel);
    match LegacyParent(id)
    case None =>
    case Some(p) =>
      LegacyChainsEndAtBase(p, fuel - 1);
      assert chain == [id] + LegacyChain(p, fuel - 1);
  }

  lemma BaseIsRoot()
    ensures IsRoot("base")
  {
  }

  /** No two known categories share a flat file name. */
  lemma FlatNamesUnique(a: string, b: string)
    requires a in KnownIds && b in KnownIds
    requires FlatName(a) == FlatName(b)
    ensures a == b
  {
  }

  /** Exactly the two `use-with-caution` categories go without a flat config. */
  lemma FlatProducers(id: string)
    requires id in KnownIds
    ensures !ProducesFlat(id) <==> id == "use-with-caution" || id == "vue3-use-with-caution"
  {
  }

  /** A flat-producing category's parent produces a flat config too, so the
      file a flat delta spreads is one the generator writes. */
  lemma FlatParentIsGenerated(id: string)
    requires id in KnownIds && ProducesFlat(id) && !IsRoot(id)
    ensures LegacyParent(id).value in KnownIds
    ensures ProducesFlat(LegacyParent(id).value)
  {
  }

  /** The flat file of a flat-producing known category is written by that
      category and by no other. */
  lemma FlatWriterOf(id: string)
    requires id in KnownIds && ProducesFlat(id)
    ensures FlatWriter(FlatName(id)) == Some(id)
  {
    var w := FlatWriter(FlatName(id));
    var i :| 0 <= i < |KnownOrder| && KnownOrder[i] == id;
    assert w.Some?;
    FlatNamesUnique(w.value, id);
  }

  /** Following the flat files from a flat-producing category's own flat file
      visits the flat names of its legacy chain, in order, and every member
      of that chain produces a flat config. */
  lemma FlatChainIsRenamedLegacyChain(id: string, fuel: nat)
    requires id in KnownIds && ProducesFlat(id)
    ensures var legacy := LegacyChain(id, fuel);
            var flat := FlatChain(FlatName(id), fuel);
            |flat| == |legacy| &&
            (forall i :: 0 <= i < |legacy| ==> flat[i] == FlatName(legacy[i]) && ProducesFlat(legacy[i]))
  {
    var legacy := LegacyChain(id, fuel);
    ChainMembersProduceFlat(id, fuel);
    forall i | 0 <= i < |legacy|
      ensures FlatWriter(FlatName(legacy[i])) == Some(legacy[i])
    {
      FlatWriterOf(legacy[i]);
    }
    FlatChainFollowsWriters(FlatWriter, id, fuel);
  }

  /** Every member of a flat-producing known category's legacy chain is a
      known category that produces a flat config. */
  lemma {:induction false} ChainMembersProduceFlat(id: string, fuel: nat)
    requires id in KnownIds && ProducesFlat(id)
    ensures var chain := LegacyChain(id, fuel);
            forall i :: 0 <= i < |chain| ==> chain[i] in KnownIds && ProducesFlat(chain[i])
    decreases fuel
  {
    LegacyChainStep(id, fuel);
    if !IsRoot(id) && fuel > 0 {
      var p := LegacyParent(id).value;
      FlatParentIsGenerated(id);
      ChainMembersProduceFlat(p, fuel - 1);
    }
  }

  /** When every member of a legacy chain writes its own flat file, the flat
      chain from the first member's flat file is the legacy chain renamed. */
  lemma {:induction false} FlatChainFollowsWriters(writer: string -> Option<string>, id: string, fuel: nat)
    requires var chain := LegacyChain(id, fuel);
             forall i :: 0 <= i < |chain| ==> writer(FlatName(chain[i])) == Some(chain[i])
    ensures var legacy := LegacyChain(id, fuel);
            var flat := FollowFlat(writer, FlatName(id), fuel);
            |flat| == |legacy| && (forall i :: 0 <= i < |legacy| ==> flat[i] == FlatName(legacy[i]))
    decreases fuel
  {
    var legacy := LegacyChain(id, fuel);
    assert legacy[0] == id;
    LegacyChainStep(id, fuel);
    if !IsRoot(id) && fuel > 0 {
      var p := LegacyParent(id).value;
      var up := LegacyChain(p, fuel - 1);
      forall i | 0 <= i < |up|
        ensures writer(FlatName(up[i])) == Some(up[i])
      {
        assert up[i] == legacy[i + 1];
      }
      FlatChainFollowsWriters(writer, p, fuel - 1);
      var flat, flatUp := FollowFlat(writer, FlatName(id), fuel), FollowFlat(writer, FlatName(p), fuel - 1);
      forall i | 0 <= i < |legacy|
        ensures flat[i] == FlatName(legacy[i])
      {
        if i > 0 {
          assert legacy[i] == up[i - 1] && flat[i] == flatUp[i - 1];
        }
      }
    }
  }

  /** The flat hierarchy reroutes the vue3 track: `vue3-essential` writes the
      flat file `essential`, which spreads `base`; `vue3-strongly-recommended`
      writes `strongly-recommended`, which spreads `essential`, the flat file
      of `vue3-essential`; the vue2 categories move to `vue2-*` names. */
  lemma FlatReroute()
    ensures FlatName("vue3-essential") == "essential"
    ensures FlatName(LegacyParent("vue3-essential").value) == "base"
    ensures FlatName("vue3-strongly-recommended") == "strongly-recommended"
    ensures FlatName(LegacyParent("vue3-strongly-recommended").value) == "essential"
    ensures FlatName("essential") == "vue2-essential"
    ensures FlatName(LegacyParent("strongly-recommended").value) == "vue2-essential"
    ensures FlatName("base") == "base"
  {
  }
}

/** The document composer (`formatCategory`) and the output loop that names
    and writes the files. Documents are values, not text: the comment header
    and the parser/plugin wiring are fixed boilerplate, recorded only as the
    document's format. */
module Compose {
  import opened Wrappers
  import opened Entries
  import opened Severity
  import opened Categories

  /** Which fixed boilerplate a full document carries: the legacy
      `module.exports = { parser, parserOptions, env, plugins, rules }` object,
      or the flat array whose first element wires parser and processor for
      `.vue` files and whose second registers the plugin and the rules. */
  datatype Format = Legacy | Flat

  datatype Document<O> =
    | Full(format: Format, rules: Entries<Setting<O>>)
      /** `extends: require.resolve('./<parent>')` plus the category's own rules. */
    | LegacyDelta(parent: string, rules: Entries<Setting<O>>)
      /** `[...require('./<parentFile>'), { rules: require('../lib/configs/<rulesFrom>').rules }]`. */
    | FlatDelta(parentFile: string, rulesFrom: string)

  datatype Category<O> = Category(categoryId: string, rules: seq<Rule<O>>)

  /** `formatCategory(category)`: one legacy document, then the flat document
      when the category has one. */
  function FormatCategory<O>(c: Category<O>): (docs: seq<Document<O>>)
    ensures |docs| == 2 <==> ProducesFlat(c.categoryId)
    ensures |docs| == 1 <==> !ProducesFlat(c.categoryId)
    ensures docs[0].Full? <==> IsRoot(c.categoryId)
    ensures docs[0].Full? ==> docs[0].format == Legacy
    ensures docs[0].LegacyDelta? <==> !IsRoot(c.categoryId)
    ensures docs[0].LegacyDelta? ==> Some(docs[0].parent) == LegacyParent(c.categoryId)
    ensures !docs[0].FlatDelta? && docs[0].rules == FormatRules(c.rules, c.categoryId)
    ensures |docs| == 2 && IsRoot(c.categoryId) ==> docs[1] == Full(Flat, docs[0].rules)
    ensures |docs| == 2 && !IsRoot(c.categoryId) ==>
              docs[1] == FlatDelta(FlatName(LegacyParent(c.categoryId).value), c.categoryId)
  {
    var id := c.categoryId;
    match LegacyParent(id)
    case None =>
      [Full(Legacy, FormatRules(c.rules, id)), Full(Flat, FormatRules(c.rules, id))]
    case Some(parent) =>
      if !HasFlatAlias(id) then
        [LegacyDelta(parent, FormatRules(c.rules, id))]
      else
        [LegacyDelta(parent, FormatRules(c.rules, id)),
         FlatDelta(FlatName(parent), id)]
  }

  /** A written file: `lib/configs/<name>` or `configs/<name>`. */
  datatype OutputPath = LegacyFile(name: string) | FlatFile(name: string)

  /** The paths the loop writes for one category. */
  function PathsOf<O>(c: Category<O>): (ps: set<OutputPath>)
    ensures forall n :: LegacyFile(n) in ps <==> n == c.categoryId + ".js"
    ensures forall n :: FlatFile(n) in ps <==> ProducesFlat(c.categoryId) && n == FlatName(c.categoryId) + ".js"
  {
    {LegacyFile(c.categoryId + ".js")} +
    (if ProducesFlat(c.categoryId) then {FlatFile(FlatName(c.categoryId) + ".js")} else {})
  }

  /** The document one category writes at one of its paths. */
  function DocumentAt<O>(c: Category<O>, p: OutputPath): Document<O>
    requires p in PathsOf(c)
  {
    var docs := FormatCategory(c);
    if p.LegacyFile? then docs[0] else docs[1]
  }

  /** One pass of the output loop: write the legacy document, then the flat
      one if there is one. A later write to the same path replaces an earlier
      one. */
  function Write<O>(files: map<OutputPath, Document<O>>, c: Category<O>): (r: map<OutputPath, Document<O>>)
    ensures forall p :: p in r <==> p in files || p in PathsOf(c)
    ensures forall p :: p in PathsOf(c) ==> r[p] == DocumentAt(c, p)
    ensures forall p :: p in files && p !in PathsOf(c) ==> r[p] == files[p]
  {
    var docs := FormatCategory(c);
    var written := files[LegacyFile(c.categoryId + ".js") := docs[0]];
    if |docs| == 2 then written[FlatFile(FlatName(c.categoryId) + ".js") := docs[1]]
    else written
  }

  /** The files the whole loop leaves behind. */
  function Files<O>(cats: seq<Category<O>>): (files: map<OutputPath, Document<O>>)
    ensures forall p :: p in files <==> exists i :: 0 <= i < |cats| && p in PathsOf(cats[i])
  {
    if |cats| == 0 then map[]
    else
      var files := Write(Files(cats[..|cats| - 1]), cats[|cats| - 1]);
      assert forall p :: p in files <==> exists i :: 0 <= i < |cats| && p in PathsOf(cats[i]) by {
        forall p
          ensures p in files <==> exists i :: 0 <= i < |cats| && p in PathsOf(cats[i])
        {
          if p in files && p !in PathsOf(cats[|cats| - 1]) {
            var i :| 0 <= i < |cats| - 1 && p in PathsOf(cats[..|cats| - 1][i]);
            assert p in PathsOf(cats[i]);
          }
          if p !in PathsOf(cats[|cats| - 1]) && (exists i :: 0 <= i < |cats| && p in PathsOf(cats[i])) {
            var i :| 0 <= i < |cats| && p in PathsOf(cats[i]);
            assert i < |cats| - 1;
            assert p in PathsOf(cats[..|cats| - 1][i]);
          }
        }
      }
      files
  }

  /** A path that only one category writes holds that category's document. */
  lemma {:induction false} FileOfSoleWriter<O>(cats: seq<Category<O>>, i: nat, p: OutputPath)
    requires i < |cats| && p in PathsOf(cats[i])
    requires forall k :: 0 <= k < |cats| && k != i ==> p !in PathsOf(cats[k])
    ensures p in Files(cats) && Files(cats)[p] == DocumentAt(cats[i], p)
  {
    var init := cats[..|cats| - 1];
    if i < |cats| - 1 {
      forall k | 0 <= k < |init| && k != i
        ensures p !in PathsOf(init[k])
      {
        assert init[k] == cats[k];
      }
      FileOfSoleWriter(init, i, p);
      assert p !in PathsOf(cats[|cats| - 1]);
    }
  }

  /** The category ids of a catalog are all known and pairwise distinct, as
      the category catalog guarantees. */
  predicate KnownCatalog<O>(cats: seq<Category<O>>)
  {
    && (forall i :: 0 <= i < |cats| ==> cats[i].categoryId in KnownIds)
    && (forall i, j :: 0 <= i < j < |cats| ==> cats[i].categoryId != cats[j].categoryId)
  }

  lemma AppendSuffixInjective(a: string, b: string, suffix: string)
    requires a + suffix == b + suffix
    ensures a == b
  {
    assert |a| == |b|;
    assert a == (a + suffix)[..|a|];
    assert b == (b + suffix)[..|b|];
  }

  /** In a known catalog, `lib/configs/<id>.js` holds the legacy document of
      category `id`, and `configs/<FlatName(id)>.js` its flat document; a
      category the catalog does not list leaves both paths unwritten. */
  lemma {:induction false} FilesOfCategory<O>(cats: seq<Category<O>>, id: string)
    requires KnownCatalog(cats) && id in KnownIds
    ensures forall i :: 0 <= i < |cats| && cats[i].categoryId == id ==>
              LegacyFile(id + ".js") in Files(cats) &&
              Files(cats)[LegacyFile(id + ".js")] == FormatCategory(cats[i])[0]
    ensures forall i :: 0 <= i < |cats| && cats[i].categoryId == id && ProducesFlat(id) ==>
              FlatFile(FlatName(id) + ".js") in Files(cats) &&
              Files(cats)[FlatFile(FlatName(id) + ".js")] == FormatCategory(cats[i])[1]
    ensures (forall i :: 0 <= i < |cats| ==> cats[i].categoryId != id) ==>
              LegacyFile(id + ".js") !in Files(cats) && FlatFile(FlatName(id) + ".js") !in Files(cats)
  {
    var legacy := LegacyFile(id + ".js");
    var flat := FlatFile(FlatName(id) + ".js");
    forall k | 0 <= k < |cats| && cats[k].categoryId != id
      ensures legacy !in PathsOf(cats[k]) && flat !in PathsOf(cats[k])
    {
      if legacy in PathsOf(cats[k]) {
        AppendSuffixInjective(id, cats[k].categoryId, ".js");
      }
      if flat in PathsOf(cats[k]) {
        AppendSuffixInjective(FlatName(id), FlatName(cats[k].categoryId), ".js");
        FlatNamesUnique(id, cats[k].categoryId);
      }
    }
    forall i | 0 <= i < |cats| && cats[i].categoryId == id
      ensures legacy in Files(cats) && Files(cats)[legacy] == FormatCategory(cats[i])[0]
    {
      FileOfSoleWriter(cats, i, legacy);
    }
    forall i | 0 <= i < |cats| && cats[i].categoryId == id && ProducesFlat(id)
      ensures flat in Files(cats) && Files(cats)[flat] == FormatCategory(cats[i])[1]
    {
      FileOfSoleWriter(cats, i, flat);
    }
  }

  /** The flat `base` config lists `vue/comment-directive` and
      `vue/jsx-uses-vars` as errors, in that order, when `base` declares just
      those two rules, and is written to `configs/base.js`. */
  lemma BaseFlatConfig<O>()
    ensures var c: Category<O> := Category("base", [Rule("vue/comment-directive", None), Rule("vue/jsx-uses-vars", None)]);
            FormatCategory(c)[1] == Full(Flat, [("vue/comment-directive", Bare(Error)), ("vue/jsx-uses-vars", Bare(Error))]) &&
            FlatFile("base.js") in PathsOf(c)
  {
    var c: Category<O> := Category("base", [Rule("vue/comment-directive", None), Rule("vue/jsx-uses-vars", None)]);
    assert DistinctRuleIds(c.rules);
    BaseIsRoot();
    assert "base" + ".js" == "base.js";
  }

  /** `vue3-essential` writes its flat delta to `configs/essential.js`, and
      that delta spreads `./base`, not the vue2 `essential` config, which
      goes to `configs/vue2-essential.js`. */
  lemma Vue3EssentialFlatDelta<O>(rules: seq<Rule<O>>)
    ensures var docs := FormatCategory(Category("vue3-essential", rules));
            |docs| == 2 && docs[1] == FlatDelta("base", "vue3-essential")
    ensures FlatFile("essential.js") in PathsOf(Category("vue3-essential", rules))
    ensures FlatFile("vue2-essential.js") in PathsOf(Category("essential", rules))
  {
    FlatReroute();
    assert "essential" + ".js" == "essential.js";
    assert "vue2-essential" + ".js" == "vue2-essential.js";
  }
}

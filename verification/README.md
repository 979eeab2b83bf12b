# Config generator of eslint-plugin-vue, in Dafny

This project models `tools/update-lib-configs.js`, the script that turns the
plugin's category catalog into config files. Each category gets a legacy
config under `lib/configs/` and, for most categories, a flat config under
`configs/`. The model has three parts:

- **Severity resolver** (`formatRules`, module `Severity`). Every rule of a
  category gets `error` when the category is `base`, `essential` or
  `vue3-essential`, and `warn` otherwise. If the rule declares default
  options, the category id picks the `vue3` set (ids starting with `vue3`)
  or the `vue2` set (all other ids). The value then becomes
  `[level, ...options]`. The result is an ordered rule map. Module `Entries`
  models `Object.fromEntries` on it: a key stays at its first position and
  takes its last value.
- **Inheritance tables** (`extendsCategories`, `flatConfigCategories`,
  module `Categories`). They are kept as data. Reading a missing entry and
  reading a `null` entry both give `None`; ids naming `Object.prototype`
  members are not covered (see "Left out"). `FlatName(id)` is
  `flatConfigCategories[id] || id`.
- **Document composer** (`formatCategory` and the output loop, module
  `Compose`). A root category gets two full documents. A category without a
  flat name gets one legacy delta. Every other category gets a legacy delta
  and a flat delta. The flat delta spreads `./FlatName(parent)` and reads its
  `rules` from the category's own legacy file. The loop writes the legacy
  document to `lib/configs/<id>.js` and the flat document to
  `configs/<FlatName(id)>.js`. Writes are modelled as updates of a map from
  path to document, so a later write to a path replaces an earlier one.

Module `Resolution` states what the written files mean to the linter. From
any config, following parent references down to a root yields a stack of
rule maps. The main theorem (`FlatMirrorsLegacy`) says: for every category
that has a flat config, the flat config stacks exactly the rule maps its
legacy config stacks, in the same order. So both formats give every rule the
same effective setting, however the linter merges them.

Documents are datatypes, not text. `Full(format, rules)` is a root document.
`LegacyDelta(parent, rules)` is a legacy delta. `FlatDelta(parentFile,
rulesFrom)` is a flat delta. The comment header and the
parser/processor/plugin wiring are fixed boilerplate, recorded only by
`format`. Option values are an opaque type parameter.

Behaviour of the generator worth noting:
- An unknown category id raises no lookup error. An id that is neither listed
  in `extendsCategories` nor the name of an `Object.prototype` member reads
  `undefined` there, so the code treats it as a root (`IsRoot`).
- A missing option set raises no metadata error. The rule keeps its bare
  level.
- The flat delta of `vue3-essential` does not reference `essential`. Its own
  file is `configs/essential.js`, and it spreads `./base`
  (`Vue3EssentialFlatDelta`, `FlatReroute`).

## Model

| member | source | states |
|---|---|---|
| Severity.ResolveSetting | tools/update-lib-configs.js:43-54 | The level is `error` exactly for `base`, `essential` and `vue3-essential`. The value is a tuple exactly when default options exist and contain the selected key. The tuple's options are the `vue3` set when the id starts with `vue3`, and the `vue2` set otherwise. |
| Severity.FormatRules | tools/update-lib-configs.js:41-57 | The rule map has distinct keys, in first-occurrence order of the category's own rule ids. It has a value exactly for those ids, so no inherited rule is added. Each value is the setting of the last rule with that id, at the category's own level. With distinct ids, entry i is rule i with its resolved setting. |
| Severity.LevelIgnoresParentTier | tools/update-lib-configs.js:17-26 | The tier is decided per category. `vue3-strongly-recommended` and `strongly-recommended` warn, although their parents are in the error tier. |
| Entries.Put | tools/update-lib-configs.js:42-56 | Assigning a key gives it the new value and leaves every other key's value alone. A present key keeps its position and a new key goes last. Distinct keys stay distinct. |
| Entries.FromEntries | tools/update-lib-configs.js:42-56 | `Object.fromEntries`: keys are distinct and in first-occurrence order, and each key has the last value listed for it. |
| Entries.FromEntriesOfDistinct | tools/update-lib-configs.js:42-56 | Entries whose keys are already distinct come out unchanged. |
| Categories.TablesAreClosed | tools/update-lib-configs.js:19-39 | The legacy table covers exactly the known ids. The flat table names only known ids. Every parent is a known id. |
| Categories.ParentIsOneStepUp | tools/update-lib-configs.js:19-29 | `base` is the only root. Every other known category is one level below its parent. |
| Categories.LegacyChainsEndAtBase | tools/update-lib-configs.js:19-29 | From every known category, the legacy chain is cycle-free, has all members known, and ends at `base` after `Depth[id]` steps. |
| Categories.FlatNamesUnique | tools/update-lib-configs.js:31-39 | No two known categories share a flat name, so no two write the same flat file. |
| Categories.FlatProducers | tools/update-lib-configs.js:110-123 | Among known categories, exactly `use-with-caution` and `vue3-use-with-caution` get no flat config. |
| Categories.FlatParentIsGenerated | tools/update-lib-configs.js:143-145 | The parent of every non-root flat-producing category also produces a flat config, so the file the delta spreads is written. |
| Categories.FlatChainIsRenamedLegacyChain | tools/update-lib-configs.js:143-168 | Start at a flat-producing category's flat file. Find the known category that writes it, move to the file that category's flat delta spreads, and repeat. This visits the category's legacy chain with `FlatName` applied to every member, in order. Every member produces a flat config. Each file has exactly one known writer, because flat names are unique. |
| Categories.FlatWriterOf | tools/update-lib-configs.js:163-171 | Looking up which known category writes the flat file `configs/<FlatName(id)>.js` of a flat-producing known category finds that category itself, because flat names are unique. |
| Categories.FlatReroute | tools/update-lib-configs.js:31-39 | `vue3-essential` is flat `essential` and spreads `base`. `vue3-strongly-recommended` is flat `strongly-recommended` and spreads `essential`. `essential` becomes `vue2-essential`. `base` keeps its name. |
| Compose.FormatCategory | tools/update-lib-configs.js:60-154 | Two documents exactly for roots and flat-aliased categories, one otherwise. The first is a full legacy document exactly for roots, and a legacy delta naming the legacy parent otherwise. It always carries the category's own rule map. A root's second document is a full flat document with the same rule map. Any other second document is a flat delta over `FlatName(parent)` that takes its rules from the category's own legacy file. |
| Compose.PathsOf | tools/update-lib-configs.js:159-172 | A category writes `lib/configs/<id>.js`. It also writes `configs/<FlatName(id)>.js` exactly when it produces a flat config. |
| Compose.Write | tools/update-lib-configs.js:160-171 | One loop pass adds the category's paths. Each of its paths holds the category's document. Every other path keeps its earlier document. |
| Compose.Files | tools/update-lib-configs.js:159-172 | After the loop, a path is written exactly when some category of the catalog writes it. |
| Compose.FileOfSoleWriter | tools/update-lib-configs.js:159-172 | A path that only one category writes holds that category's document. |
| Compose.FilesOfCategory | tools/update-lib-configs.js:160-171 | Assume a catalog of known, distinct ids. Then `lib/configs/<id>.js` holds the category's legacy document, and `configs/<FlatName(id)>.js` holds its flat one. A category the catalog does not list leaves both paths unwritten. |
| Compose.BaseFlatConfig | configs/base.js:17-22 | With the rules `vue/comment-directive` and `vue/jsx-uses-vars`, the flat `base` document gives both `error`, in that order, and is written to `configs/base.js`. |
| Compose.Vue3EssentialFlatDelta | tools/update-lib-configs.js:136-153 | The flat delta of `vue3-essential` spreads `./base` and is written to `configs/essential.js`. The vue2 `essential` category writes `configs/vue2-essential.js`. |
| Resolution.FlatMirrorsLegacy | tools/update-lib-configs.js:119-149 | For every known flat-producing category, resolving the flat config stacks the same rule maps, in the same order, as resolving the legacy config. This holds at every reference depth. |
| Resolution.EffectiveTablesAgree | tools/update-lib-configs.js:119-149 | Hence the legacy and flat configs give every rule the same effective setting. |
| Resolution.LegacyLayersFollowChain | tools/update-lib-configs.js:117-134 | In a complete catalog, a legacy config stacks the own rule maps of its legacy chain, from `base` down to the category. |
| Resolution.ChildOverridesParent | tools/update-lib-configs.js:142-151 | Merging a stack root first, with later rule maps overriding earlier ones, gives each rule the value from the most specific rule map that mentions it. |
| Resolution.EffectiveIsNearestDeclaration | tools/update-lib-configs.js:117-151 | In a complete catalog, a config gives each rule the setting from the nearest category in its chain that declares the rule. The flat config of the same category agrees. |
| Resolution.NearestDeclarationWins | tools/update-lib-configs.js:17-25 | Within `strongly-recommended`, a rule it redeclares is `warn`. A rule declared only in `essential` stays `error`. |

## Left out

- File I/O and paths. `fs.writeFileSync`, `path.resolve`, `path.join` and the two directory roots are not modelled. Paths are the relative names `LegacyFile(name)` (under `lib/configs/`) and `FlatFile(name)` (under `configs/`).
- The `format()` pass with `FlatESLint` (lines 176-182). It is an asynchronous external formatter.
- Text rendering. The model has no `JSON.stringify` output, comment header or template text. The no-flat legacy template (line 121) lacks the trailing newline that the other legacy template (line 134) has. That difference is textual and is not modelled.
- The category catalog `./lib/categories` is not part of this model. It is an input sequence of `Category(categoryId, rules)`. Lemmas about a whole catalog assume what that catalog guarantees: known, distinct ids (`KnownCatalog`), and all of them for `CompleteCatalog`.
- Category ids that name `Object.prototype` members (`constructor`, `toString`, `valueOf`, `hasOwnProperty`, `__proto__` and the like). Reading `extendsCategories[id]` or `flatConfigCategories[id]` for them yields an inherited value (a function, or `Object.prototype` itself for `__proto__`), which is neither `null` nor falsy, so the source writes a legacy delta extending that value's text and a flat delta. `Lookup` reads only own entries, so the model treats these ids as roots instead. None of the nine known categories has such a name.
- Option values that are truthy but not arrays. `[options, ...defaultOption]` (line 51) spreads a string into its characters and throws a `TypeError` for a non-iterable object. `Rule.defaultOptions` maps each key to a list, so neither case can be expressed.
- Rule metadata nesting. `rule.meta && rule.meta.docs && rule.meta.docs.defaultOptions` is one `Option` of a map from option-set key to an option list. A key whose value is a non-array falsy value is modelled as absent. An empty array is truthy in JavaScript, so it gives the tuple `[level]`.
- `Object.fromEntries` puts integer-like keys before all others. The ordered-map model assumes rule ids are not array indices, which holds for ids of the form `vue/<name>`.
- How the linter merges rule settings. `Layers` models only which rule maps a config stacks and in which order. `FlatMirrorsLegacy` is stated on the stacks, so it holds for any merge. `ChildOverridesParent` uses plain overriding. ESLint's own merge, which keeps a parent's options when a child gives only a level, is not modelled.
- Layers: references are followed at most `fuel` times. `ParentIsOneStepUp` and `LegacyChainsEndAtBase` show that four steps reach `base` from every known category.

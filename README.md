# exp-mvc core, modelled in Dafny

exp-mvc is a command-line scaffolding tool for Express/Mongoose projects. It
generates model, validation and view files from `name:type` field lists. It
patches earlier generated files to add relationships, and it registers routes
in `src/routes/index.js`. A watch mode and two project scans look for packages
that the code uses but `package.json` does not declare, and install them with
npm.

This project models the parts of the tool that decide things:

- the text generators and patchers;
- the route-index rewriter;
- the dependency detection;
- the watcher's event filter.

Each is proved against the behaviour the code has. The project directory is a
value (`Workspace.FileSystem`): a map from path to content plus the set of
created directories. Existence checks, reads, writes and `mkdir` become
operations on that value. JavaScript's string built-ins are modelled with the
JavaScript semantics the code relies on (`JsString`):

- `indexOf` and `lastIndexOf` clamp their start position;
- `slice` counts a negative index from the end;
- `replace` with a string replaces only the first occurrence, and expands the
  `$$`, `$&`, `` $` `` and `$'` patterns in the replacement;
- a global `replace` replaces every occurrence, left to right;
- `split` and `join`;
- `trim` removes JavaScript white space.

Files, one Dafny module each:

- `wrappers.dfy` — module `Wrappers`: `Option`
- `js_string.dfy` — module `JsString`: string built-ins and their laws
- `workspace.dfy` — module `Workspace`: the project directory, model and view paths
- `templates.dfy` — module `Templates`: indentation
- `package_json.dfy` — module `PackageJson`: `package.json`, JSON values, `in` versus truthiness
- `field_spec.dfy` — module `FieldSpec`: `name:type` parsing
- `model_gen.dfy` — module `ModelGenerator`: `createModel`
- `relationship.dfy` — module `Relationship`: `createRelationship`
- `relationship_scaffold.dfy` — module `RelationshipScaffold`: `createRelationshipScaffold`
- `relationship_views.dfy` — module `RelationshipViews`: `createRelationshipViews`
- `register_route.dfy` — module `RegisterRoute`: `registerRouteInIndex`
- `validation.dfy` — module `Validation`: `createValidation`
- `view_scaffold.dfy` — module `ViewScaffold`: `createViewScaffold`
- `dependency_checker.dfy` — module `DependencyChecker`: `DependencyChecker` (class `Checker`)
- `dependency_scan.dfy` — module `DependencyScan`: `autoInstallDependencies` and `checkDeps`
- `file_watcher.dfy` — module `FileWatcher`: `FileWatcher` (class `Watcher`)

The code works in three different styles, and the model keeps each one:

- **Pure code stays as functions.** This covers the generators and the
  relationship patchers. They are functions over the workspace value.
- **Objects that update their fields become classes.** `DependencyChecker`
  fills its dependency cache lazily. `FileWatcher` updates its flag, its
  watcher, the cooldown map and the shared timer slot. Each becomes a class
  whose methods are proved against step functions on a state value.
- **Loops become methods.** This covers the route parser's loop, the
  directory walk, the detection loops and the orchestration of the
  relationship scaffold. Each method is proved equal to a specification
  function, and the properties are proved about that function.

Behaviours of the code worth noting:

- **Virtual name.** The hasMany scaffold names the parent's virtual
  `<child lower>Details`, for example `postDetails`
  (`RelationshipScaffold.HasManyFieldShape` and the scaffold patch).
- **Repeated patches.** `createRelationship` and `createRelationshipViews`
  add another field, section or select on every call
  (`Relationship.RelationshipNotIdempotent`,
  `RelationshipViews.CreateViewsNotIdempotent`). A repeated
  `createRelationshipScaffold` is a no-op because its writes are gated on
  the files' existence (`RelationshipScaffold.ScaffoldRepeatIsNoop`).
- **Missing markers.** Every patcher still inserts when its marker is missing:
  - With no `}, {`, the field goes before the last character
    (`Relationship.FieldWithoutSchemaMarker`).
  - With no `</div>`, the section goes before the last character
    (`RelationshipViews.SectionWithoutDiv`).
  - With no `<form`, the select goes after the first `>`
    (`RelationshipViews.SelectWithoutForm`).
- **Unreadable `package.json`.** The dependency checker's cache stays `null`,
  and `isInstalled` then throws a `TypeError`
  (`DependencyChecker.UnreadableManifestThrows`). The watcher's
  `checkFileDependencies` catches it.

## Model

| member | source | states |
|---|---|---|
| `JsString.IndexOf` | lib/generators/relationship.js:38 | `indexOf` returns -1 or an occurrence at or after the clamped start, and no occurrence lies between the start and the result |
| `JsString.LastIndexOf` | lib/generators/relationship.js:39 | `lastIndexOf` returns -1 or an occurrence at or before the clamped position, and no later occurrence lies up to that position |
| `JsString.Includes` | lib/helpers/registerRoute.js:43 | `includes` holds exactly when the pattern occurs somewhere |
| `JsString.CharAt` | lib/helpers/registerRoute.js:29 | `charAt` gives the one character at an index in range, and the empty string otherwise (index -1 included) |
| `JsString.RelIndex` | lib/generators/relationship.js:41-43 | a `slice` bound in range is kept, one past the end is clamped, and a negative one counts from the end, clamped at 0 |
| `JsString.Splice` | lib/generators/relationshipViews.js:55-58 | `s.slice(0, at) + ins + s.slice(at)` is the text with `ins` at the resolved index, and removing `ins` gives back `s` |
| `JsString.ReplaceFirst` | lib/generators/relationshipScaffold.js:140-144 | a string `replace` changes nothing without an occurrence, and otherwise replaces exactly the first occurrence by the replacement with its `$` patterns expanded; a replacement without `$` is inserted as it is |
| `JsString.Expand` | lib/generators/relationshipScaffold.js:140-144 | a replacement without `$` stands for itself |
| `JsString.ExpandPatterns` | lib/generators/relationshipScaffold.js:140-144 | `$$` gives `$`, `` $& `` the match, `` $` `` the text before it, `$'` the text after it, and any other `$` stays |
| `JsString.ReplaceAllAbsent` | lib/generators/validation.js:41 | a global replace leaves a text without the pattern unchanged |
| `JsString.JoinReplaceAll` | lib/generators/validation.js:41 | a global replace of a pattern without line breaks acts on a `\n`-joined text line by line |
| `JsString.Lower` | lib/generators/model.js:30 | `toLowerCase` keeps the length and lower-cases each character |
| `JsString.TrimInfix` | lib/generators/model.js:59 | `trim` returns an infix of the text with only white space before and after it |
| `JsString.TrimEmptyIffAllSpace` | lib/generators/viewScaffold.js:216 | `trim` yields the empty string exactly when the text is all white space |
| `JsString.TrimAround` | lib/generators/viewScaffold.js:216 | `trim` of white space around a core that starts and ends with non-space is that core |
| `JsString.Split` | lib/helpers/registerRoute.js:58 | `split` gives one more part than there are separators, no part holds the separator, and joining the parts gives back the text |
| `JsString.SplitJoin` | lib/helpers/registerRoute.js:58 | splitting a join of separator-free lines gives back the lines |
| `Workspace.Write` | lib/generators/model.js:59 | `writeFileSync` into an existing directory sets exactly one file, and every other file and every directory stays as it was |
| `Workspace.EnsureDir` | lib/generators/model.js:9-11 | creating a directory adds it and changes no file |
| `Workspace.ModelPath` | lib/generators/model.js:13 | the model file lies under `src/models/`, ends in `.model.js`, and has the lower-cased name in between (the path is concatenated; for a name without `/` this is what `path.join` gives) |
| `Workspace.ModelPathIffLower` | lib/generators/model.js:13 | two names share a model file exactly when their lower-cased forms are equal |
| `Workspace.ViewsDir` | lib/generators/viewScaffold.js:5 | the views directory lies under `src/views/`, ends in the plural `s`, and has the lower-cased name in between (the path is concatenated; for a name without `/` this is what `path.join` gives) |
| `Workspace.ViewsDirIffLower` | lib/generators/viewScaffold.js:5 | two names share a views directory exactly when their lower-cased forms are equal |
| `Workspace.ModelPathNormal` | lib/generators/model.js:13 | for a name without `/`, the model path splits into exactly `src`, `models` and the file name, none empty, `.` or `..`, so `path.join` leaves it as it is |
| `Workspace.ViewsDirNormal` | lib/generators/viewScaffold.js:5 | for a name without `/`, the views directory splits into exactly `src`, `views` and the plural name, none empty, `.` or `..` |
| `PackageJson.Merged` | lib/helpers/dependency-checker.js:20-23 | the merged dependency object has the keys of both maps, and a key in both takes its `devDependencies` value |
| `PackageJson.InAndTruthyDiffer` | bin/cli.js:84-85 | for every object and key, `in` finds the key but property truthiness reads it as missing exactly when the key's value is falsy (an empty version string, for one); truthiness implies presence |
| `FieldSpec.FieldName` | lib/generators/validation.js:17 | the field name has no `:`, is the whole specification when it has none, and is never longer than the specification |
| `FieldSpec.FieldType` | lib/generators/model.js:17-18 | a specification without `:` gets the default type, and otherwise the type is a `:`-free part |
| `FieldSpec.ParseFormat` | lib/generators/viewScaffold.js:17-18 | `name:rest` parses back to `name`, and its type is the part of `rest` before any further `:` |
| `ModelGenerator.SchemaType` | lib/generators/model.js:20-30 | the six own keys of the type table, matched after lower-casing, map to their Mongoose type; a name that is neither a key nor inherited from `Object.prototype` maps to `String`; the result is never empty |
| `ModelGenerator.SchemaTypeIgnoresCase` | lib/generators/model.js:30 | the type lookup is case-insensitive, and any casing of `string` gives `String` |
| `ModelGenerator.FieldFragmentLines` | lib/generators/model.js:29-33 | a field's fragment is five lines, its `trim: true,` line is there exactly when the lowercased type is `string`, and it is required with the message `<name> is required` |
| `ModelGenerator.TrimLineMarks` | lib/generators/model.js:31 | the third fragment line reads `trim: true,` exactly when the lowercased type is `string` |
| `ModelGenerator.Fragments` | lib/generators/model.js:16-34 | one fragment per field, the i-th built from the i-th field |
| `ModelGenerator.FieldBlockShape` | lib/generators/model.js:34-39 | no fields give the placeholder comment; otherwise the fragments are joined with `,\n\n` in input order |
| `ModelGenerator.ModelTextShape` | lib/generators/model.js:36-59 | the trimmed model text is the head, the field block, the `}, {` marker and the tail that holds the `// Virtuals` line, in that order |
| `ModelGenerator.CreateModel` | lib/generators/model.js:5-59 | `src/models` exists afterwards and the model path holds the generated text, whatever was there before |
| `Relationship.DefaultField` | lib/generators/relationship.js:15-16 | without options the field is named after the lowercased target model and refers to the target model |
| `Relationship.DefShape` | lib/generators/relationship.js:22-35 | an array reference defaults to `[]`; a single one defaults to `null` and has `required: true,` exactly when required |
| `Relationship.RequiredLineMarks` | lib/generators/relationship.js:32 | the optional line reads `required: true,` exactly when the option is set |
| `Relationship.VirtualShape` | lib/generators/relationship.js:51-63 | the virtual is `<field>Details`, joined through the field, and only a single reference is `justOne` |
| `Relationship.AddField` | lib/generators/relationship.js:38-43 | the field splice inserts `,\n\n` + definition at the resolved offset, and deleting it gives back the original |
| `Relationship.AddVirtual` | lib/generators/relationship.js:46-70 | without `// Virtuals` nothing changes, and otherwise a line break and the virtual are added |
| `Relationship.PatchModel` | lib/generators/relationship.js:38-74 | every patch makes the model text longer |
| `Relationship.CreateRelationship` | lib/generators/relationship.js:6-74 | a missing model file means no change; otherwise only the model file is rewritten, with the patched text |
| `Relationship.FieldBeforeSchemaClose` | lib/generators/relationship.js:38-43 | when the first `}, {` starts a line, the field goes right before that line |
| `Relationship.FieldWithoutSchemaMarker` | lib/generators/relationship.js:38-43 | without `}, {` the field goes before the last character (at the front when the text starts with a line break) |
| `Relationship.VirtualAfterMarkerLine` | lib/generators/relationship.js:66-69 | the virtual goes right after the line holding the first `// Virtuals` |
| `Relationship.VirtualWithoutLineBreak` | lib/generators/relationship.js:66-69 | when no line break follows the first `// Virtuals`, `indexOf` gives -1 and the line break and the virtual go to the very front |
| `Relationship.InsertAfterMarkerLine` | lib/generators/relationship.js:48-69 | the search finds the first marker and the insert lands after the line break that ends its line |
| `Relationship.RelationshipNotIdempotent` | lib/generators/relationship.js:38-43 | a second call grows the model file again: nothing detects the existing field |
| `Relationship.RelationshipOnGeneratedModel` | lib/generators/relationship.js:38-70 | on a generated model the field becomes the last entry of the field block and the virtual the first line after the `// Virtuals` comment |
| `RelationshipScaffold.ServicePath` | lib/generators/relationshipScaffold.js:160 | the service lives under `src/services/`, ends in `.service.js`, and has the lower-cased parent name in between (the path is concatenated; for a name without `/` this is what `path.join` gives) |
| `RelationshipScaffold.ServicePathIffLower` | lib/generators/relationshipScaffold.js:160 | two parents share a service file exactly when their lower-cased forms are equal |
| `RelationshipScaffold.ServicePathNormal` | lib/generators/relationshipScaffold.js:160 | for a parent name without `/`, the service path splits into exactly `src`, `services` and the file name, none empty, `.` or `..` |
| `RelationshipScaffold.EnsureParentModel` | lib/generators/relationshipScaffold.js:11-38 | the parent model file exists afterwards |
| `RelationshipScaffold.PatchParentModel` | lib/generators/relationshipScaffold.js:104-146 | the parent file is rewritten with the patched parent text and nothing else changes |
| `RelationshipScaffold.CreateModels` | lib/generators/relationshipScaffold.js:11-151 | the parent and child steps, each gated on its file's existence, give the modelled result; a model write while `src/models` is missing ends the call with `ENOENT` |
| `RelationshipScaffold.CreateService` | lib/generators/relationshipScaffold.js:153-277 | the services directory and a service file that did not exist yet are written as modelled |
| `RelationshipScaffold.CreateRelationshipScaffold` | lib/generators/relationshipScaffold.js:4-285 | the whole run equals the specification `Scaffold` |
| `RelationshipScaffold.RunRepeatIsNoop` | lib/generators/relationshipScaffold.js:11-161 | for any templates, running again on the result changes nothing |
| `RelationshipScaffold.ScaffoldRepeatIsNoop` | lib/generators/relationshipScaffold.js:11-161 | a repeated scaffold call leaves every file as the first call left it |
| `RelationshipScaffold.RunPatchesParentForNewHasManyChild` | lib/generators/relationshipScaffold.js:40-147 | with hasMany, a missing child and an existing `src/models`, the parent file ends up patched |
| `RelationshipScaffold.RunKeepsParentOtherwise` | lib/generators/relationshipScaffold.js:40-147 | for another kind, an existing child or a missing child template, an existing parent file is left as it was |
| `RelationshipScaffold.ScaffoldPatchesParent` | lib/generators/relationshipScaffold.js:82-146 | the hasMany scaffold with a new child patches an existing parent in an existing `src/models` |
| `RelationshipScaffold.ScaffoldKeepsParent` | lib/generators/relationshipScaffold.js:40-147 | the scaffold leaves an existing parent alone unless it creates a hasMany child |
| `RelationshipScaffold.RunStopsWithoutChildText` | lib/generators/relationshipScaffold.js:43-149 | with no child template the run stops after the parent step: the child file is not written and no service is made; if the parent has to be created without `src/models`, that write throws first and nothing changes |
| `RelationshipScaffold.UnknownKindStopsAfterParent` | lib/generators/relationshipScaffold.js:43-149 | a kind other than belongsTo or hasMany with a missing child writes only the parent and then fails on the undefined child content; without `src/models` and the parent, the parent write fails first and nothing changes |
| `RelationshipScaffold.RunFailsWithoutModelsDir` | lib/generators/relationshipScaffold.js:8-36 | the call never creates `src/models`: without it, the call fails with `ENOENT` exactly when it would write a model file (a new parent, or a new child with a text), and then nothing has changed; the only directory it adds is `src/services` |
| `RelationshipScaffold.ScaffoldNeedsModelsDir` | lib/generators/relationshipScaffold.js:8-36 | on a workspace without `src/models` and without the parent model, the call fails and changes nothing, whatever the kind |
| `RelationshipScaffold.RunServiceGate` | lib/generators/relationshipScaffold.js:154-161 | a completed run leaves a service file; a new one gets the service text; an existing one is kept |
| `RelationshipScaffold.ServiceChildMethods` | lib/generators/relationshipScaffold.js:245-270 | a hasMany service has `add<Child>` and `remove<Child>`; for other kinds the service does not depend on the child |
| `RelationshipScaffold.HasManyFieldShape` | lib/generators/relationshipScaffold.js:106-110 | the hasMany field is `<child lower>s`, an array of references to the child defaulting to `[]` |
| `RelationshipScaffold.VirtualAfterExistingMarker` | lib/generators/relationshipScaffold.js:126-131 | with a `// Virtuals` line the virtual goes right after that line |
| `RelationshipScaffold.VirtualWithoutLineBreakAtFront` | lib/generators/relationshipScaffold.js:127-131 | when no line break follows the first `// Virtuals`, the line break and the virtual go to the very front |
| `RelationshipScaffold.VirtualSectionBeforeExports` | lib/generators/relationshipScaffold.js:132-138 | without `// Virtuals` a new `// Virtuals` section goes right before the last `\nmodule.exports` |
| `RelationshipScaffold.SettingsBeforeFirstExports` | lib/generators/relationshipScaffold.js:140-144 | the toJSON/toObject lines, with their `$` patterns expanded, go before the first `module.exports` only; without `$` they go in literally |
| `RelationshipScaffold.PatchOnUnmarkedParent` | lib/generators/relationshipScaffold.js:104-144 | on a parent like the scaffold's own template, the patch adds the field before `}, {`, the virtual section and then the settings, all before `module.exports`; the settings have their `$` patterns expanded and go in literally when they hold no `$` |
| `RelationshipScaffold.ChildModelReferences` | lib/generators/relationshipScaffold.js:44-81 | the belongsTo child has a `<parent lower>Id` field referring to the parent; the hasMany child does not depend on the parent |
| `RelationshipViews.SectionBeforeLastDiv` | lib/generators/relationshipViews.js:55-58 | the section goes right before the last `</div>`, and the rest is unchanged |
| `RelationshipViews.SectionWithoutDiv` | lib/generators/relationshipViews.js:55-58 | without `</div>` the section goes before the final character |
| `RelationshipViews.SelectAfterFormTag` | lib/generators/relationshipViews.js:87-91 | the select goes right after the `>` that closes the first `<form` tag |
| `RelationshipViews.SelectWithoutForm` | lib/generators/relationshipViews.js:116-120 | without `<form` the select goes after the first `>` of the text |
| `RelationshipViews.SelectWithoutTagEnd` | lib/generators/relationshipViews.js:116-120 | without any `>` the select goes at the front |
| `RelationshipViews.RunCreatesViewsDir` | lib/generators/relationshipViews.js:6-10 | every run ensures the parent's views directory and no other |
| `RelationshipViews.RunOtherKinds` | lib/generators/relationshipViews.js:12-125 | other relationship kinds change no file |
| `RelationshipViews.RunHasMany` | lib/generators/relationshipViews.js:12-62 | hasMany patches the parent's `show.ejs` if it exists, and nothing otherwise |
| `RelationshipViews.RunBelongsTo` | lib/generators/relationshipViews.js:63-124 | belongsTo patches the child's `new.ejs` and `edit.ejs` where they exist, each with its own select, and nothing else |
| `RelationshipViews.RunNotIdempotent` | lib/generators/relationshipViews.js:55-60 | two hasMany runs insert the section twice |
| `RelationshipViews.SelectComparisons` | lib/generators/relationshipViews.js:79-109 | the new select compares `<parent lower>Id`, the edit select `<child lower>.<parent lower>Id` |
| `RelationshipViews.CreateViewsNotIdempotent` | lib/generators/relationshipViews.js:5-62 | each call grows the parent's `show.ejs` |
| `RegisterRoute.Plural` | lib/helpers/registerRoute.js:24-38 | the plural ends in `s`; a name ending in `s`, `x`, `z`, `ch` or `sh` takes `es`; one ending in a vowel and `y` takes `s`; any other name ending in `y` swaps the `y` for `ies`; every other name takes `s` |
| `RegisterRoute.PluralSibilant` | lib/helpers/registerRoute.js:24-26 | any stem followed by `s`, `x`, `z`, `ch` or `sh` takes `es` |
| `RegisterRoute.PluralVowelY` | lib/helpers/registerRoute.js:27-32 | any stem followed by a vowel and `y` takes `s` |
| `RegisterRoute.PluralConsonantY` | lib/helpers/registerRoute.js:33-35 | any stem followed by a non-vowel and `y` has the `y` replaced by `ies` |
| `RegisterRoute.PluralLoneY` | lib/helpers/registerRoute.js:29-34 | a lone `y` has no letter before it (`charAt(-1)` is empty) and becomes `ies` |
| `RegisterRoute.ParseSections` | lib/helpers/registerRoute.js:56-82 | the parsing loop computes the specification's four sections |
| `RegisterRoute.RegisterRouteInIndex` | lib/helpers/registerRoute.js:6-105 | the whole registration equals the specification `Register` |
| `RegisterRoute.PickPartition` | lib/helpers/registerRoute.js:61-82 | the four sections together hold exactly the file's lines |
| `RegisterRoute.LabelOf` | lib/helpers/registerRoute.js:64-81 | each line's section follows from the section before it and the brace count including the line |
| `RegisterRoute.MarkerLines` | lib/helpers/registerRoute.js:69-74 | a home-route line goes to homeRoute, and another `module.exports` line goes to exports |
| `RegisterRoute.HomePatternSubsumed` | lib/helpers/registerRoute.js:69 | the second home-route pattern adds nothing to the first |
| `RegisterRoute.HomeRouteEnd` | lib/helpers/registerRoute.js:75-78 | in homeRoute an ordinary line moves to otherRoutes exactly when the count, including that line, is 0, so the closing line itself lands there |
| `RegisterRoute.RequireAfterImports` | lib/helpers/registerRoute.js:84-96 | the rebuilt imports are the non-blank imports followed by the new require |
| `RegisterRoute.BlankSeparatorDropped` | lib/helpers/registerRoute.js:87-100 | the rebuilt other routes are their non-blank lines followed by the new `router.use` |
| `RegisterRoute.RebuiltKeepsLines` | lib/helpers/registerRoute.js:95-103 | every non-blank line of the file is in the rebuilt lines |
| `RegisterRoute.RebuiltRegisters` | lib/helpers/registerRoute.js:84-103 | the rebuilt text holds the require guard and the `router.use` line |
| `RegisterRoute.RebuiltTextKeepsLine` | lib/helpers/registerRoute.js:95-103 | the rebuilt text contains every non-blank original line and the guard |
| `RegisterRoute.RegisterTwiceIsNoop` | lib/helpers/registerRoute.js:42-46 | registering twice is registering once |
| `RegisterRoute.RegisterMissingIndex` | lib/helpers/registerRoute.js:9-12 | without the index file nothing changes |
| `RegisterRoute.RegisterKeepsLines` | lib/helpers/registerRoute.js:94-105 | a registration rewrites only the index, keeping its non-blank lines and adding the guard |
| `DependencyChecker.Dedup` | lib/helpers/dependency-checker.js:69 | de-duplication keeps exactly the same names, each once |
| `DependencyChecker.DedupAppend` | lib/helpers/dependency-checker.js:69 | de-duplicating a concatenation keeps the first part's result as a prefix and adds only new names |
| `DependencyChecker.NotInstalled` | lib/helpers/dependency-checker.js:109-115 | the names kept are exactly the required ones that `in` does not find |
| `DependencyChecker.Checker.constructor` | lib/helpers/dependency-checker.js:7-11 | the cache starts `null` |
| `DependencyChecker.Checker.LoadDependencies` | lib/helpers/dependency-checker.js:13-29 | a parsed file caches and returns the merged dependencies; a missing or unparsable one returns `{}` and leaves the cache alone |
| `DependencyChecker.Checker.IsInstalled` | lib/helpers/dependency-checker.js:31-36 | the cache is loaded only while `null`; the answer is `in` on the cache, or a `TypeError` when it is still `null` |
| `DependencyChecker.Checker.ExtractRequiredPackages` | lib/helpers/dependency-checker.js:39-70 | the extraction loops compute the specification `RequiredPackages` |
| `DependencyChecker.Checker.PushNotLocal` | lib/helpers/dependency-checker.js:52-58 | the loop appends the non-local matches in order |
| `DependencyChecker.Checker.CheckAndInstallForFile` | lib/helpers/dependency-checker.js:107-121 | the decision and the cache afterwards are those of the specification `CheckForFile` |
| `DependencyChecker.LineCommentRemoved` | lib/helpers/dependency-checker.js:48 | a `//` comment is removed up to, not including, the line terminator |
| `DependencyChecker.BlockCommentRemoved` | lib/helpers/dependency-checker.js:48 | a `/* */` comment is removed up to the first `*/` |
| `DependencyChecker.RequireMatchSound` | lib/helpers/dependency-checker.js:51-53 | a `require` match is `require(`, a quote, a non-empty quote-free name, a quote and `)` |
| `DependencyChecker.FromMatchSound` | lib/helpers/dependency-checker.js:61-63 | a `from` match is `from`, white space, a quote, a non-empty quote-free name and a quote |
| `DependencyChecker.RequireFound` | lib/helpers/dependency-checker.js:51 | `require('name')` with any two quotes is matched with that name |
| `DependencyChecker.FromFound` | lib/helpers/dependency-checker.js:61 | `from` with white space and a quoted name is matched with that name |
| `DependencyChecker.CapturesSound` | lib/helpers/dependency-checker.js:51-53 | every captured name comes from a match somewhere in the text |
| `DependencyChecker.RequiredPackagesMembers` | lib/helpers/dependency-checker.js:51-67 | a name is extracted exactly when it is non-local and captured by either pattern in the comment-free text, and no scoped name is extracted |
| `DependencyChecker.RequiresBeforeImports` | lib/helpers/dependency-checker.js:51-69 | the require hits come first, and the names after them are import-only |
| `DependencyChecker.NoPackagesNoLoad` | lib/helpers/dependency-checker.js:111-121 | with nothing required the answer is no install, and the cache is not touched |
| `DependencyChecker.UnreadableManifestThrows` | lib/helpers/dependency-checker.js:25-35 | without a readable `package.json`, a file that requires something makes `isInstalled` throw |
| `DependencyChecker.InstallsExactlyMissing` | lib/helpers/dependency-checker.js:107-121 | with a cache, nothing is installed exactly when all required names are found, and otherwise exactly the missing ones are |
| `DependencyChecker.CacheNotReloaded` | lib/helpers/dependency-checker.js:32-34 | once filled, the cache ignores later changes to `package.json` |
| `DependencyChecker.InheritedNamesCountAsInstalled` | lib/helpers/dependency-checker.js:35 | names on `Object.prototype` are never installed, because `in` finds them |
| `DependencyChecker.InstallCommandNames` | lib/helpers/dependency-checker.js:93 | the install command starts with the save flag and names every package |
| `DependencyScan.FindAllJsFiles` | bin/cli.js:28-43 | the recursive walk appends exactly the specification's file list to the accumulator |
| `DependencyScan.JsFilesSound` | bin/cli.js:35-39 | every collected file is below the walked directory, ends in `.js`, and has no `node_modules` in any path component below it |
| `DependencyScan.JsFilesComplete` | commands/check-deps.js:25-40 | every `.js` file of the listing, and everything collected in a walked subdirectory, is collected, unless its name contains `node_modules` |
| `DependencyScan.GitDirectoryWalked` | bin/cli.js:35-36 | `.git` is walked like any directory |
| `DependencyScan.ScanContentMembers` | bin/cli.js:78-88 | one file adds the listed packages it mentions that are not truthily declared, and keeps the set duplicate-free |
| `DependencyScan.DetectedMembers` | bin/cli.js:71-92 | a package is flagged exactly when it is listed, not truthily declared and mentioned in a readable file; each is flagged once |
| `DependencyScan.ScanFile` | commands/check-deps.js:75-85 | the loop over the listed packages computes the one-file specification |
| `DependencyScan.DetectPackages` | commands/check-deps.js:68-89 | the loop over the files computes the detection specification |
| `DependencyScan.AutoInstallDependencies` | bin/cli.js:9-136 | the whole scan equals the specification `Scan` |
| `DependencyScan.ScanFlags` | bin/cli.js:84-87 | with a parsed `package.json` the flagged packages are distinct, and flagged exactly when listed, not truthily declared and mentioned |
| `DependencyScan.EmptyVersionReinstalled` | commands/check-deps.js:81-84 | a package declared with an empty version is still flagged, although `in` would find it |
| `DependencyScan.CommandsPartition` | bin/cli.js:95-118 | `nodemon` goes to the dev install and all others to the regular one, the regular command comes first, and no packages means no command |
| `DependencyScan.NoManifestNoScan` | bin/cli.js:16-21 | without `package.json`, or with one that does not parse, nothing is walked or installed |
| `FileWatcher.Extname` | lib/helpers/file-watcher.js:95 | the extension is empty or starts with `.` |
| `FileWatcher.ExtnameOfComponent` | lib/helpers/file-watcher.js:95 | as POSIX `path.extname`: trailing slashes are skipped; the extension is empty exactly when the final component is `..` or has no `.` after its first character; otherwise it is a proper, slash-free ending of that component that starts at its last `.` |
| `FileWatcher.ComponentExtnameShape` | lib/helpers/file-watcher.js:95 | on one path component: empty exactly for `..` or a component without a `.` after its first character; otherwise a proper ending that starts at the last `.` |
| `FileWatcher.ExtnameSkipsTrailingSlash` | lib/helpers/file-watcher.js:95 | a trailing `/` does not change the extension |
| `FileWatcher.EndsInExtension` | lib/helpers/file-watcher.js:95-98 | a path ending in a one-dot extension has that extension, unless the final component is the extension itself or `..` |
| `FileWatcher.Watcher.constructor` | lib/helpers/file-watcher.js:7-21 | a new watcher is not watching and holds no state |
| `FileWatcher.Watcher.Start` | lib/helpers/file-watcher.js:23-86 | `start` makes the `StartStep` transition |
| `FileWatcher.Watcher.Stop` | lib/helpers/file-watcher.js:104-110 | `stop` makes the `StopStep` transition |
| `FileWatcher.Watcher.HandleChange` | lib/helpers/file-watcher.js:57-72 | an event makes the `EventStep` transition |
| `FileWatcher.Watcher.FireTimeout` | lib/helpers/file-watcher.js:67-71 | the debounce timer firing makes the `FireStep` transition |
| `FileWatcher.Watcher.FireOrphan` | lib/helpers/file-watcher.js:53-71 | a timer left from an earlier session still runs its check |
| `FileWatcher.StepsKeepValid` | lib/helpers/file-watcher.js:104-110 | every step keeps `isWatching` true exactly while a watcher is open |
| `FileWatcher.StartTwiceIsStartOnce` | lib/helpers/file-watcher.js:24-27 | `start` while watching does nothing |
| `FileWatcher.OpenWatcherBlocksStart` | lib/helpers/file-watcher.js:23-27 | the initial state is valid; in a valid state an open watcher makes `start` do nothing, so no second watcher opens, and an event changes the state only while watching |
| `FileWatcher.RestartForgetsCooldowns` | lib/helpers/file-watcher.js:53-55 | a restart starts with fresh cooldowns and an empty slot, and keeps the old pending timer alive |
| `FileWatcher.DroppedEvents` | lib/helpers/file-watcher.js:40-43 | ignored paths, and events without an open watcher, change nothing |
| `FileWatcher.AcceptedEventTakesSlot` | lib/helpers/file-watcher.js:62-71 | an event outside the cooldown replaces the pending timer with one for itself, 1000 ms later |
| `FileWatcher.DebounceKeepsLast` | lib/helpers/file-watcher.js:66-71 | of two accepted events before the timer fires, only the second path is checked |
| `FileWatcher.CooldownAfterFire` | lib/helpers/file-watcher.js:58-70 | within 2000 ms of a check completing, events for that path are dropped |
| `FileWatcher.EventsDoNotRecord` | lib/helpers/file-watcher.js:57-71 | an event alone neither records a time nor runs a check |
| `FileWatcher.GithubIgnored` | lib/helpers/file-watcher.js:14 | the `.git` pattern also ignores `.github` paths |
| `FileWatcher.EjsNeverChecked` | lib/helpers/file-watcher.js:95-98 | `.ejs` events never reach the dependency check |
| `FileWatcher.JsExtension` | lib/helpers/file-watcher.js:95 | a `.js` file with a name before the extension has extension `.js` |
| `Validation.ValidationPath` | lib/generators/validation.js:13 | the file lies under `src/validations/`, ends in `.validation.js`, and has the lower-cased name in between (the path is concatenated; for a name without `/` this is what `path.join` gives) |
| `Validation.ValidationPathIffLower` | lib/generators/validation.js:13 | two names share a validation file exactly when their lower-cased forms are equal |
| `Validation.ValidationPathNormal` | lib/generators/validation.js:13 | for a name without `/`, the validation path splits into exactly `src`, `validations` and the file name, none empty, `.` or `..` |
| `Validation.CreateRulesShape` | lib/generators/validation.js:16-19 | no fields give the placeholder; otherwise one rule line per field, in input order |
| `Validation.RuleIgnoresType` | lib/generators/validation.js:17-18 | every rule is `Joi.string().required()` for the name before the first `:`, whatever the type |
| `Validation.RuleUpdated` | lib/generators/validation.js:41 | the global replace turns a rule's `.required()` into `.optional()` |
| `Validation.UpdateRulesShape` | lib/generators/validation.js:41 | the update block is the create block with every rule optional |
| `Validation.EmptyUpdateRules` | lib/generators/validation.js:19-41 | without fields the update block is the placeholder comment |
| `Validation.LinesShape` | lib/generators/validation.js:21-71 | the template places the create rules, the update rules and the 24-hex `id` rule on their lines |
| `Validation.ValidationTextShape` | lib/generators/validation.js:21-73 | the trimmed file is the template's lines joined, and holds both rule blocks and the `id` rule |
| `Validation.CreateValidation` | lib/generators/validation.js:5-73 | `src/validations` exists afterwards and the validation path holds the generated text |
| `ViewScaffold.InputType` | lib/generators/viewScaffold.js:22-59 | number, date, email and password, in any casing, give that input type; everything else gives `text` |
| `ViewScaffold.InputTypeIgnoresCase` | lib/generators/viewScaffold.js:23 | the input type depends only on the lowercased type |
| `ViewScaffold.ControlFor` | lib/generators/viewScaffold.js:15-76 | a field's control carries its name, is a checkbox exactly for `boolean`, has the mapped input type otherwise, and is bound to the record exactly in edit mode |
| `ViewScaffold.BareFieldIsText` | lib/generators/viewScaffold.js:17-18 | a field without `:` is a text input |
| `ViewScaffold.BindingChangesOneLine` | lib/generators/viewScaffold.js:62-76 | edit and new blocks differ only in the binding (`value` or `checked`) on the control's closing line |
| `ViewScaffold.FieldRendersTyped` | lib/generators/viewScaffold.js:27-76 | a boolean field renders a checkbox, and any other field renders an input of its mapped type |
| `ViewScaffold.Names` | lib/generators/viewScaffold.js:94-97 | one name per field, in input order |
| `ViewScaffold.IndexColumns` | lib/generators/viewScaffold.js:94-108 | the index view has a header cell and a data cell for every field |
| `ViewScaffold.IndexRowsInOrder` | lib/generators/viewScaffold.js:94-108 | the header row holds one cell per field and the data row one cell per field, in field order, joined by a line break and the row's indentation |
| `ViewScaffold.ShowEntries` | lib/generators/viewScaffold.js:146-150 | the show view has a detail entry for every field |
| `ViewScaffold.ShowEntriesInOrder` | lib/generators/viewScaffold.js:146-150 | the detail entries are one per field, in field order, separated by a blank line |
| `ViewScaffold.NewFormControls` | lib/generators/viewScaffold.js:169-176 | the new form renders every field's unbound control |
| `ViewScaffold.EditFormControls` | lib/generators/viewScaffold.js:188-195 | the edit form renders every field's bound control |
| `ViewScaffold.ViewTrimmed` | lib/generators/viewScaffold.js:216 | trimming a view drops only the template's surrounding white space |
| `ViewScaffold.WriteViews` | lib/generators/viewScaffold.js:206-218 | the views directory is ensured and exactly the four view files are written |
| `ViewScaffold.ViewPathsDistinct` | lib/generators/viewScaffold.js:207-215 | the four view files are distinct and inside the views directory |
| `ViewScaffold.WritesFourViews` | lib/generators/viewScaffold.js:207-218 | each view file holds its own text, and every other file is untouched |
| `ViewScaffold.WriteViewsTwice` | lib/generators/viewScaffold.js:214-218 | writing the same views again changes nothing |
| `ViewScaffold.ScaffoldRerun` | lib/generators/viewScaffold.js:4-218 | running the view scaffold twice gives the same workspace as once |

## Left out

- File-system calls are operations on a workspace value. A failing `readdirSync`, `statSync` or `mkdirSync` is not modelled. A `writeFileSync` into a missing directory is modelled only where it can happen: the relationship scaffold's writes into `src/models`, which it never creates. An unreadable file during a scan is modelled by the file's `None` content.
- The `npm` subprocesses (`execSync`) are left out, including `installPackage` and the `npm start` call; only the decision of what to install and the command text are modelled. Whether an install succeeds is not modelled.
- The manual-command fallback after a failed install is left out. It refers to constants declared inside the `try` block. `commands/check-deps.js` never imports `execSync`, so its install always throws there; the model gives both scans the same decision.
- `checkProjectDependencies` and `watchForChanges` in the dependency checker are left out: they walk directories and print.
- Chokidar is left out: its glob matching, `awaitWriteFinish`, `ignoreInitial` and its event names. Its events become explicit steps. The `**/*.js` and `**/*.ejs` globs are read as suffix tests.
- Timers and asynchrony are left out. A check runs to completion in one step, so overlapping checks are not modelled. Time is an integer clock passed to each step.
- Console output everywhere is left out.
- The regular-expression engine is left out. The fixed patterns are hand-written scanners. The `i` flag is case folding of ASCII letters, since the patterns and package names are ASCII.
- `Lower` folds ASCII letters only. `toLowerCase` on other letters is not modelled.
- Strings are sequences of characters, not of UTF-16 code units.
- Non-object `dependencies` or `devDependencies` values, which a spread would turn into index keys, are left out. So is JSON's special handling of a `__proto__` key.
- Command-line wiring is left out: the commander setup, the `generate` dispatch (which passes relationship arguments in another order than the callees expect) and the SIGINT handling of `watch`.
- Fixed templates with only name interpolation are left out: controllers, routes, plain views, `scaffold` call order, `new` and the package entry point. The service and model templates are kept where their text matters to the properties.
- `RelationshipScaffold.ChildModelReferences`: states the belongsTo child's `<parent lower>Id` reference but not its `required: true` line or its `justOne` virtual.
- `RelationshipScaffold.EnsureParentModel`: states only that the parent file exists afterwards. That an existing file is kept is stated by `RelationshipScaffold.RunKeepsParentOtherwise` and `RelationshipScaffold.RunRepeatIsNoop`.
- `Relationship.PatchModel`: states only that the text grows. The placement is stated by the splice lemmas and `Relationship.RelationshipOnGeneratedModel`.
- `Relationship.AddVirtual`: states the length change. The placement is stated by `Relationship.VirtualAfterMarkerLine` and `Relationship.VirtualWithoutLineBreak`.
- `JsString.ReplaceAll`: inserts the replacement as it is, without expanding `$` patterns. Its one use replaces with `.optional()`, which holds no `$`.
- `Validation.UpdateRulesShape`: assumes no field name contains `.required()`. Such a name would have its own occurrence replaced too.
- `RegisterRoute.RegisterKeepsLines`: states that each non-blank line is kept, not the order of the rebuilt file. The order is stated on the line level by `RegisterRoute.RequireAfterImports` and `RegisterRoute.BlankSeparatorDropped`.
- `ModelGenerator.FieldFragmentLines`, `Validation.CreateRulesShape` and `Relationship.DefShape`: state the line structure only for names and types without a line break.
- `DependencyChecker.RequireMatchSound` and `DependencyChecker.FromMatchSound`: state one match's shape. Restarting the global search after each match is stated by `DependencyChecker.CapturesSound`, which is one direction only.
- `Workspace.ModelPath`, `Workspace.ModelPathIffLower`, `Workspace.ViewsDir`, `Workspace.ViewsDirIffLower`, `Validation.ValidationPath`, `Validation.ValidationPathIffLower`, `RelationshipScaffold.ServicePath` and `RelationshipScaffold.ServicePathIffLower`: the paths are concatenated. The normalisation `path.join` applies to `.`, `..` and empty segments inside a name is not modelled, so these rows describe the real path for names without `/` only (`Workspace.ModelPathNormal` and its siblings prove those paths are already normal).
- `FileWatcher.Extname`: its own contract states only the leading `.`; the full characterisation is `FileWatcher.ExtnameOfComponent`. Only the POSIX separator `/` is modelled, not Windows `\`.
- `RelationshipScaffold.UnknownKindStopsAfterParent`: assumes `fs.writeFileSync` throws when its content is `undefined`, as current Node versions do (a `TypeError` for an argument that is neither a string nor a buffer). Older Node versions wrote the text `undefined` instead.
- `Workspace.Write`: does not check that the file's directory exists. Every caller creates the directory first or rewrites a file that exists, except the relationship scaffold's model writes, whose `ENOENT` failure `RelationshipScaffold.Models` states.

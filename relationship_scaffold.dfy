/** `createRelationshipScaffold` (lib/generators/relationshipScaffold.js):
    creates the parent and child models when they are missing, patches the
    parent of a new `hasMany` child with an array field, a virtual and the
    `toJSON`/`toObject` settings, and creates the parent's service when it
    is missing. Every step is gated on whether its file exists, and the
    parent is written before the child.
 */
module RelationshipScaffold {
  import opened Wrappers
  import opened JsString
  import opened Workspace
  import Relationship
  import opened Templates

  // ---- Templates -------------------------------------------------------------
  // Each template literal is a list of lines joined with line breaks; the
  // blocks the templates share are defined once.

  function ModelPreamble(name: string): seq<string>
  {
    ["const mongoose = " + "require('mongoose');",
     "",
     "const " + name + "Schema = new mongoose.Schema({"]
  }

  /** The schema options and the blank line after them. */
  const SchemaOptions: seq<string> :=
    ["}, {",
     Indent(1) + "timestamps: true",
     "});",
     ""]

  function ModelExport(name: string): string
  {
    "module.exports = " + "mongoose.model('" + name + "', " + name + "Schema);"
  }

  /** `toJSON` and `toObject` include virtuals. */
  function VirtualSettings(name: string): seq<string>
  {
    [name + "Schema.set('toJSON', { " + "virtuals: true });",
     name + "Schema.set('toObject', { " + "virtuals: true });"]
  }

  const NameField: seq<string> :=
    [Indent(1) + "name: {",
     Indent(2) + "type: String,",
     Indent(2) + "required: [true, 'Name is " + "required'],",
     Indent(2) + "trim: true",
     Indent(1) + "},"]

  const EmailField: seq<string> :=
    [Indent(1) + "email: {",
     Indent(2) + "type: String,",
     Indent(2) + "required: [true, 'Email is " + "required'],",
     Indent(2) + "trim: true,",
     Indent(2) + "unique: true,",
     Indent(2) + "lowercase: true",
     Indent(1) + "}"]

  const TitleField: seq<string> :=
    [Indent(1) + "title: {",
     Indent(2) + "type: String,",
     Indent(2) + "required: [true, 'Title is " + "required'],",
     Indent(2) + "trim: true",
     Indent(1) + "},"]

  /** The `content` field; a comma follows it unless it is the last one. */
  function ContentField(last: bool): seq<string>
  {
    [Indent(1) + "content: {",
     Indent(2) + "type: String,",
     Indent(2) + "required: [true, 'Content is " + "required']",
     if last then "    }" else "    },"]
  }

  /** The parent model written when none exists: `name` and `email`. */
  function ParentModelLines(parent: string): seq<string>
  {
    ModelPreamble(parent) + NameField + EmailField + SchemaOptions
    + [parent + "Schema.index({ email: 1 });",
       "",
       ModelExport(parent)]
  }

  function ParentModelText(parent: string): string
  {
    Join(ParentModelLines(parent), "\n")
  }

  /** The required `<parent>Id` reference of a `belongsTo` child. */
  function ParentIdField(parent: string): seq<string>
  {
    [Indent(1) + Lower(parent) + "Id: {",
     Indent(2) + "type: " + "mongoose.Schema.Types.ObjectId" + ",",
     Indent(2) + "ref: '" + parent + "',",
     Indent(2) + "required: true",
     Indent(1) + "}"]
  }

  /** The single-valued `<parent>Details` virtual of a `belongsTo` child. */
  function ParentVirtual(parent: string, child: string): seq<string>
  {
    ["// Virtual for parent details",
     child + "Schema.virtual('" + Lower(parent) + "Details', {",
     Indent(1) + "ref: '" + parent + "',",
     Indent(1) + "localField: '" + Lower(parent) + "Id',",
     Indent(1) + "foreignField: '_id',",
     Indent(1) + "justOne: true",
     "});"]
  }

  /** The child model of `belongsTo`. */
  function BelongsToChildLines(parent: string, child: string): seq<string>
  {
    ModelPreamble(child) + TitleField + ContentField(false) + ParentIdField(parent) + SchemaOptions
    + [child + "Schema.index({ " + Lower(parent) + "Id: 1 });",
       child + "Schema.index({ createdAt: -1 " + "});",
       ""]
    + ParentVirtual(parent, child) + [""] + VirtualSettings(child) + ["", ModelExport(child)]
  }

  /** The child model of `hasMany`: no reference back to the parent. */
  function HasManyChildLines(child: string): seq<string>
  {
    ModelPreamble(child) + TitleField + ContentField(true) + SchemaOptions
    + [child + "Schema.index({ createdAt: -1 " + "});",
       "",
       ModelExport(child)]
  }

  /** `childContent`, which stays `undefined` for any other relationship
      type. */
  function ChildContent(parent: string, child: string, kind: string): Option<string>
  {
    if kind == "belongsTo" then Some(Join(BelongsToChildLines(parent, child), "\n"))
    else if kind == "hasMany" then Some(Join(HasManyChildLines(child), "\n"))
    else None
  }

  /** `hasManyField`: the same array reference `createRelationship` writes,
      named `<child>s`. */
  function HasManyField(child: string): string
  {
    Relationship.RelationshipDef(Lower(child) + "s", child, true, false)
  }

  /** `virtualContent`: named `<child>Details`, over the `<child>s` field. */
  function HasManyVirtual(parent: string, child: string): string
  {
    Join([parent + "Schema.virtual('" + Lower(child) + "Details', {",
          Indent(1) + "ref: '" + child + "',",
          Indent(1) + "localField: '" + Lower(child) + "s',",
          Indent(1) + "foreignField: '_id'",
          "});"], "\n")
  }

  /** The replacement for the first `module.exports`. */
  function SetLines(parent: string): string
  {
    Join(VirtualSettings(parent) + ["", "module.exports"], "\n")
  }

  // The service template, one block per generated method.

  function ServiceHeader(parent: string): seq<string>
  {
    ["const " + parent + " = require('../models/" + Lower(parent) + ".model');",
     "",
     "class " + parent + "Service {"]
  }

  /** `getAll`: filtering, population, sorting and paging. */
  function GetAllQuery(parent: string): seq<string>
  {
    [Indent(1) + "async getAll(query = {}) {",
     Indent(2) + "try {",
     Indent(3) + "const { page = 1, limit = 10, " + "sort = '-createdAt', populate " + "= '', ...filters } = query;",
     Indent(3),
     Indent(3) + "let queryBuilder = " + parent + ".find(filters);",
     Indent(3),
     Indent(3) + "if (populate) {",
     Indent(4) + "const populateFields = " + "populate.split(',');",
     Indent(4) + "populateFields.forEach(field " + "=> {",
     Indent(5) + "queryBuilder = " + "queryBuilder.populate(field);",
     Indent(4) + "});",
     Indent(3) + "}",
     Indent(3),
     Indent(3) + "const " + Lower(parent) + "s = await queryBuilder",
     Indent(4) + ".sort(sort)",
     Indent(4) + ".limit(limit * 1)",
     Indent(4) + ".skip((page - 1) * limit);",
     Indent(3)]
  }

  function GetAllResult(parent: string): seq<string>
  {
    [Indent(3) + "const total = await " + parent + ".countDocuments(filters);",
     Indent(3),
     Indent(3) + "return {",
     Indent(4) + Lower(parent) + "s,",
     Indent(4) + "pagination: {",
     Indent(5) + "total,",
     Indent(5) + "page: parseInt(page),",
     Indent(5) + "limit: parseInt(limit),",
     Indent(5) + "pages: Math.ceil(total / " + "limit)",
     Indent(4) + "}",
     Indent(3) + "};",
     Indent(2) + "} catch (error) {",
     Indent(3) + "throw new Error(`Error " + "fetching " + Lower(parent) + "s: ${error.message}`);",
     Indent(2) + "}",
     Indent(1) + "}"]
  }

  function GetById(parent: string): seq<string>
  {
    [Indent(1) + "async getById(id, populate = " + "'') {",
     Indent(2) + "try {",
     Indent(3) + "let query = " + parent + ".findById(id);",
     Indent(3),
     Indent(3) + "if (populate) {",
     Indent(4) + "const populateFields = " + "populate.split(',');",
     Indent(4) + "populateFields.forEach(field " + "=> {",
     Indent(5) + "query = query.populate(field);",
     Indent(4) + "});",
     Indent(3) + "}",
     Indent(3),
     Indent(3) + "return await query;",
     Indent(2) + "} catch (error) {",
     Indent(3) + "throw new Error(`Error " + "fetching " + Lower(parent) + ": ${error.message}`);",
     Indent(2) + "}",
     Indent(1) + "}"]
  }

  function Create(parent: string): seq<string>
  {
    [Indent(1) + "async create(data) {",
     Indent(2) + "try {",
     Indent(3) + "const " + Lower(parent) + " = new " + parent + "(data);",
     Indent(3) + "return await " + Lower(parent) + ".save();",
     Indent(2) + "} catch (error) {",
     Indent(3) + "throw new Error(`Error " + "creating " + Lower(parent) + ": ${error.message}`);",
     Indent(2) + "}",
     Indent(1) + "}"]
  }

  function Update(parent: string): seq<string>
  {
    [Indent(1) + "async update(id, data) {",
     Indent(2) + "try {",
     Indent(3) + "return await " + parent + ".findByIdAndUpdate(",
     Indent(4) + "id,",
     Indent(4) + "{ $set: data },",
     Indent(4) + "{ new: true, runValidators: " + "true }",
     Indent(3) + ");",
     Indent(2) + "} catch (error) {",
     Indent(3) + "throw new Error(`Error " + "updating " + Lower(parent) + ": ${error.message}`);",
     Indent(2) + "}",
     Indent(1) + "}"]
  }

  function Delete(parent: string): seq<string>
  {
    [Indent(1) + "async delete(id) {",
     Indent(2) + "try {",
     Indent(3) + "return await " + parent + ".findByIdAndDelete(id);",
     Indent(2) + "} catch (error) {",
     Indent(3) + "throw new Error(`Error " + "deleting " + Lower(parent) + ": ${error.message}`);",
     Indent(2) + "}",
     Indent(1) + "}"]
  }

  /** The service up to the relationship methods; it ends inside an
      indented line. */
  function ServiceBase(parent: string): seq<string>
  {
    ServiceHeader(parent) + GetAllQuery(parent) + GetAllResult(parent)
    + [""] + GetById(parent) + [""] + Create(parent) + [""] + Update(parent)
    + [""] + Delete(parent) + [Indent(1), Indent(1)]
  }

  /** `add<Child>` (verb `add`, operator `$push`) and `remove<Child>` (verb
      `remove`, operator `$pull`) differ only in those words. */
  function ChildMethod(verb: string, operator: string, gerund: string, parent: string, child: string): seq<string>
  {
    [Indent(1) + "async " + verb + child + "(" + Lower(parent) + "Id, " + Lower(child) + "Id) {",
     Indent(2) + "try {",
     Indent(3) + "return await " + parent + ".findByIdAndUpdate(",
     Indent(4) + Lower(parent) + "Id,",
     Indent(4) + "{ " + operator + ": { " + Lower(child) + "s: " + Lower(child) + "Id } },",
     Indent(4) + "{ new: true }",
     Indent(3) + ");",
     Indent(2) + "} catch (error) {",
     Indent(3) + "throw new Error(`Error " + gerund + " " + Lower(child) + ": ${error.message}`);",
     Indent(2) + "}",
     Indent(1) + "}"]
  }

  /** The methods a `hasMany` service adds. */
  function ServiceRelation(parent: string, child: string): seq<string>
  {
    ["", Indent(1) + "// " + child + " relationship methods"]
    + ChildMethod("add", "$push", "adding", parent, child) + [""]
    + ChildMethod("remove", "$pull", "removing", parent, child) + [Indent(1)]
  }

  /** The class closes and one instance is exported. */
  function ServiceFoot(parent: string): seq<string>
  {
    ["",
     "}",
     "",
     "module.exports = new " + parent + "Service();"]
  }

  /** The service file: the CRUD methods, then the relationship methods
      only for `hasMany`. */
  function ServiceText(parent: string, child: string, kind: string): string
  {
    Join(ServiceBase(parent), "\n")
    + (if kind == "hasMany" then Join(ServiceRelation(parent, child), "\n") else "")
    + Join(ServiceFoot(parent), "\n")
  }

  function ServicePath(parent: string): (p: string)
    ensures StartsWith(p, "src/services/") && EndsWith(p, ".service.js")
    ensures |p| == 13 + |parent| + 11 && p[13..13 + |parent|] == Lower(parent)
  {
    "src/services/" + Lower(parent) + ".service.js"
  }

  /** Two parents share a service file exactly when they agree after
      lower-casing. */
  lemma ServicePathIffLower(a: string, b: string)
    ensures ServicePath(a) == ServicePath(b) <==> Lower(a) == Lower(b)
  {
    SameAffixes("src/services/", Lower(a), Lower(b), ".service.js");
  }

  /** For a parent without `/`, the service file's path is already normal. */
  lemma ServicePathNormal(parent: string)
    requires '/' !in parent
    ensures Split(ServicePath(parent), '/') == ["src", "services", Lower(parent) + ".service.js"]
    ensures NormalPath(ServicePath(parent))
  {
    LowerKeepsOut(parent, '/');
    var file := Lower(parent) + ".service.js";
    assert ServicePath(parent) == "src" + "/" + "services" + "/" + file;
    ThreeSegments("src", "services", file);
    assert |file| > 2;
  }

  // ---- The parent patch ------------------------------------------------------

  /** The virtual goes after the first `// Virtuals` line when there is one;
      otherwise a new `// Virtuals` section goes before the last
      `\nmodule.exports`. */
  function AddVirtualSection(content: string, virtual: string): string
  {
    if Includes(content, "// Virtuals") then Relationship.AddVirtual(content, virtual)
    else Splice(content, LastIndexOf(content, "\nmodule.exports", |content|), "\n\n// Virtuals\n" + virtual)
  }

  /** The three rebindings of `parentContent` in the `hasMany` branch, with
      the texts they insert as parameters. */
  function PatchWith(content: string, field: string, virtual: string, settings: string): string
  {
    var withField := Relationship.AddField(content, field);
    var withVirtual := AddVirtualSection(withField, virtual);
    ReplaceFirst(withVirtual, "module.exports", settings)
  }

  function PatchParent(content: string, parent: string, child: string): string
  {
    PatchWith(content, HasManyField(child), HasManyVirtual(parent, child), SetLines(parent))
  }

  // ---- Orchestration ---------------------------------------------------------

  datatype Outcome =
    | Completed
      /** `fs.writeFileSync(childModelFile, undefined)` throws a `TypeError`
          and ends the call; earlier writes stay. */
    | ChildContentUndefined
      /** A `fs.writeFileSync` into `src/models` while that directory is
          missing throws `ENOENT`; the call never creates it. */
    | MissingModelsDir

  /** Creates the parent model when it is missing. */
  function EnsureParentModel(fs: FileSystem, parent: string, text: string): (r: FileSystem)
    ensures ModelPath(parent) in r.files
  {
    if ModelPath(parent) in fs.files then fs
    else Write(fs, ModelPath(parent), text)
  }

  /** Creates the child model when it is missing, patching the parent first
      for `hasMany`; with no child text the call stops here. */
  function EnsureChildModel(fs: FileSystem, parent: string, child: string, kind: string, text: Option<string>): (FileSystem, Outcome)
    requires ModelPath(parent) in fs.files
  {
    var pf, cf := ModelPath(parent), ModelPath(child);
    if cf in fs.files then (fs, Completed)
    else if text.None? then (fs, ChildContentUndefined)
    else
      var patched := if kind == "hasMany" then Write(fs, pf, PatchParent(fs.files[pf], parent, child)) else fs;
      (Write(patched, cf, text.value), Completed)
  }

  /** Whether the models half of the call writes into `src/models`: the
      parent is created, or a child with a text is (for `hasMany` after
      rewriting the parent). */
  predicate WritesModels(fs: FileSystem, parent: string, child: string, text: Option<string>)
  {
    ModelPath(parent) !in fs.files || (ModelPath(child) !in fs.files && text.Some?)
  }

  /** The models half of the call. Without `src/models` its first write
      throws and nothing has changed yet; `writeFileSync` rejects an
      undefined child text before it opens the file. */
  function Models(fs: FileSystem, parent: string, child: string, kind: string,
                  parentText: string, childText: Option<string>): (FileSystem, Outcome)
  {
    if "src/models" !in fs.dirs && WritesModels(fs, parent, child, childText) then (fs, MissingModelsDir)
    else EnsureChildModel(EnsureParentModel(fs, parent, parentText), parent, child, kind, childText)
  }

  /** Ensures `src/services` and writes the parent's service if missing. */
  function EnsureService(fs: FileSystem, parent: string, text: string): FileSystem
  {
    var withDir := EnsureDir(fs, "src/services");
    if ServicePath(parent) in withDir.files then withDir
    else Write(withDir, ServicePath(parent), text)
  }

  /** The call, file by file, with the texts it writes as parameters. */
  function Run(fs: FileSystem, parent: string, child: string, kind: string,
               parentText: string, childText: Option<string>, serviceText: string): (FileSystem, Outcome)
  {
    var models := Models(fs, parent, child, kind, parentText, childText);
    if models.1 == Completed then (EnsureService(models.0, parent, serviceText), Completed)
    else models
  }

  /** The whole call. */
  function Scaffold(fs: FileSystem, parent: string, child: string, kind: string): (FileSystem, Outcome)
  {
    Run(fs, parent, child, kind, ParentModelText(parent), ChildContent(parent, child, kind), ServiceText(parent, child, kind))
  }

  /** The `hasMany` update of an existing parent model: `parentContent` is
      read, rebound three times and written back. */
  method PatchParentModel(fs0: FileSystem, parent: string, child: string) returns (fs: FileSystem)
    requires ModelPath(parent) in fs0.files
    ensures fs == Write(fs0, ModelPath(parent), PatchParent(fs0.files[ModelPath(parent)], parent, child))
  {
    var parentModelFile := ModelPath(parent);
    var parentContent := fs0.files[parentModelFile];
    parentContent := Relationship.AddField(parentContent, HasManyField(child));
    parentContent := AddVirtualSection(parentContent, HasManyVirtual(parent, child));
    parentContent := ReplaceFirst(parentContent, "module.exports", SetLines(parent));
    fs := Write(fs0, parentModelFile, parentContent);
  }

  /** The first half of `createRelationshipScaffold`: the parent model,
      then the child model with the parent patch of `hasMany`. */
  method CreateModels(fs0: FileSystem, parent: string, child: string, kind: string)
    returns (fs: FileSystem, outcome: Outcome)
    ensures (fs, outcome) == Models(fs0, parent, child, kind, ParentModelText(parent), ChildContent(parent, child, kind))
  {
    fs := fs0;
    var hasDir := "src/models" in fs.dirs;
    var parentModelFile, childModelFile := ModelPath(parent), ModelPath(child);
    if parentModelFile !in fs.files {
      if !hasDir {
        return fs, MissingModelsDir;
      }
      fs := Write(fs, parentModelFile, ParentModelText(parent));
    }
    outcome := Completed;
    if childModelFile !in fs.files {
      var childContent: Option<string> := None;
      if kind == "belongsTo" {
        childContent := Some(Join(BelongsToChildLines(parent, child), "\n"));
      } else if kind == "hasMany" {
        childContent := Some(Join(HasManyChildLines(child), "\n"));
        if !hasDir {
          return fs, MissingModelsDir;
        }
        fs := PatchParentModel(fs, parent, child);
      }
      assert childContent == ChildContent(parent, child, kind);
      if childContent.None? {
        return fs, ChildContentUndefined;
      }
      if !hasDir {
        return fs, MissingModelsDir;
      }
      fs := Write(fs, childModelFile, childContent.value);
    }
  }

  /** The second half of `createRelationshipScaffold`: the services
      directory, then the parent's service when it is missing. */
  method CreateService(fs0: FileSystem, parent: string, child: string, kind: string)
    returns (fs: FileSystem)
    ensures fs == EnsureService(fs0, parent, ServiceText(parent, child, kind))
  {
    fs := EnsureDir(fs0, "src/services");
    var parentServiceFile := ServicePath(parent);
    if parentServiceFile !in fs.files {
      fs := Write(fs, parentServiceFile, ServiceText(parent, child, kind));
    }
  }

  /** `createRelationshipScaffold(parentModel, childModel, relationshipType)`:
      the models, then the service unless the models step threw. */
  method CreateRelationshipScaffold(fs0: FileSystem, parent: string, child: string, kind: string)
    returns (fs: FileSystem, outcome: Outcome)
    ensures (fs, outcome) == Scaffold(fs0, parent, child, kind)
  {
    fs, outcome := CreateModels(fs0, parent, child, kind);
    if outcome == Completed {
      fs := CreateService(fs, parent, child, kind);
    }
  }

  // ---- Properties ------------------------------------------------------------

  lemma ModelAndServicePathsDiffer(a: string, b: string)
    ensures ModelPath(a) != ServicePath(b)
  {
    assert ModelPath(a)[4] == 'm' && ServicePath(b)[4] == 's';
  }

  /** Whatever the texts, a second run changes nothing and ends the same
      way: every write is gated on a file the first run created, and a run
      that stopped stops again at the same point. */
  lemma RunRepeatIsNoop(fs: FileSystem, parent: string, child: string, kind: string,
                        parentText: string, childText: Option<string>, serviceText: string)
    ensures var (fs1, o1) := Run(fs, parent, child, kind, parentText, childText, serviceText);
            Run(fs1, parent, child, kind, parentText, childText, serviceText) == (fs1, o1)
  {
    ModelAndServicePathsDiffer(parent, parent);
    ModelAndServicePathsDiffer(child, parent);
  }

  lemma ScaffoldRepeatIsNoop(fs: FileSystem, parent: string, child: string, kind: string)
    ensures var (fs1, o1) := Scaffold(fs, parent, child, kind);
            Scaffold(fs1, parent, child, kind) == (fs1, o1)
  {
    RunRepeatIsNoop(fs, parent, child, kind, ParentModelText(parent), ChildContent(parent, child, kind), ServiceText(parent, child, kind));
  }

  /** Whatever the texts, a `hasMany` call that creates the child rewrites
      an existing parent model with the patch, provided `src/models` exists
      (without it the rewrite throws, as `RunFailsWithoutModelsDir` states). */
  lemma RunPatchesParentForNewHasManyChild(fs: FileSystem, parent: string, child: string, kind: string,
                                           parentText: string, childText: Option<string>, serviceText: string)
    requires ModelPath(parent) in fs.files && "src/models" in fs.dirs
    requires kind == "hasMany" && ModelPath(child) !in fs.files && childText.Some?
    ensures var pf := ModelPath(parent);
      var fs1 := Run(fs, parent, child, kind, parentText, childText, serviceText).0;
      pf in fs1.files && fs1.files[pf] == PatchParent(fs.files[pf], parent, child)
  {
    var pf := ModelPath(parent);
    ModelAndServicePathsDiffer(parent, parent);
    var (withChild, outcome) := EnsureChildModel(fs, parent, child, kind, childText);
    if pf != ModelPath(child) {
      assert withChild.files[pf] == PatchParent(fs.files[pf], parent, child);
    }
  }

  /** Whatever the texts, any other call leaves an existing parent model as
      it was. */
  lemma RunKeepsParentOtherwise(fs: FileSystem, parent: string, child: string, kind: string,
                                parentText: string, childText: Option<string>, serviceText: string)
    requires ModelPath(parent) in fs.files
    requires kind != "hasMany" || ModelPath(child) in fs.files || childText.None?
    ensures var pf := ModelPath(parent);
      var fs1 := Run(fs, parent, child, kind, parentText, childText, serviceText).0;
      pf in fs1.files && fs1.files[pf] == fs.files[pf]
  {
    ModelAndServicePathsDiffer(parent, parent);
  }

  /** A `hasMany` call that creates the child patches an existing parent
      model in an existing `src/models`. */
  lemma ScaffoldPatchesParent(fs: FileSystem, parent: string, child: string)
    requires ModelPath(parent) in fs.files && ModelPath(child) !in fs.files && "src/models" in fs.dirs
    ensures var pf := ModelPath(parent);
      var fs1 := Scaffold(fs, parent, child, "hasMany").0;
      pf in fs1.files && fs1.files[pf] == PatchParent(fs.files[pf], parent, child)
  {
    var pt, ct, st := ParentModelText(parent), ChildContent(parent, child, "hasMany"), ServiceText(parent, child, "hasMany");
    HasManyChildText(parent, child);
    assert Scaffold(fs, parent, child, "hasMany") == Run(fs, parent, child, "hasMany", pt, ct, st);
    RunPatchesParentForNewHasManyChild(fs, parent, child, "hasMany", pt, ct, st);
  }

  lemma HasManyChildText(parent: string, child: string)
    ensures ChildContent(parent, child, "hasMany").Some?
  {
  }

  /** Any other call leaves an existing parent model as it was. */
  lemma ScaffoldKeepsParent(fs: FileSystem, parent: string, child: string, kind: string)
    requires ModelPath(parent) in fs.files
    requires kind != "hasMany" || ModelPath(child) in fs.files
    ensures var pf := ModelPath(parent);
      var fs1 := Scaffold(fs, parent, child, kind).0;
      pf in fs1.files && fs1.files[pf] == fs.files[pf]
  {
    var pt, ct, st := ParentModelText(parent), ChildContent(parent, child, kind), ServiceText(parent, child, kind);
    assert Scaffold(fs, parent, child, kind) == Run(fs, parent, child, kind, pt, ct, st);
    RunKeepsParentOtherwise(fs, parent, child, kind, pt, ct, st);
  }

  /** Without a child text a missing child stops the run right after the
      parent step: the parent model exists, the child does not, and no
      directory or service is created. When the parent has to be created
      and `src/models` is missing, the parent write throws first. */
  lemma RunStopsWithoutChildText(fs: FileSystem, parent: string, child: string, kind: string,
                                 parentText: string, serviceText: string)
    requires ModelPath(child) !in fs.files && Lower(parent) != Lower(child)
    ensures var (fs1, outcome) := Run(fs, parent, child, kind, parentText, None, serviceText);
      && outcome == (if "src/models" in fs.dirs || ModelPath(parent) in fs.files then ChildContentUndefined else MissingModelsDir)
      && (outcome == MissingModelsDir ==> fs1 == fs)
      && (outcome == ChildContentUndefined ==>
            fs1 == EnsureParentModel(fs, parent, parentText)
            && ModelPath(parent) in fs1.files && ModelPath(child) !in fs1.files)
  {
    ModelPathIffLower(parent, child);
  }

  /** The `TypeError` of an unknown relationship type, after the parent
      model has been written. */
  lemma UnknownKindStopsAfterParent(fs: FileSystem, parent: string, child: string, kind: string)
    requires kind != "belongsTo" && kind != "hasMany"
    requires ModelPath(child) !in fs.files && Lower(parent) != Lower(child)
    ensures var (fs1, outcome) := Scaffold(fs, parent, child, kind);
      && outcome == (if "src/models" in fs.dirs || ModelPath(parent) in fs.files then ChildContentUndefined else MissingModelsDir)
      && (outcome == MissingModelsDir ==> fs1 == fs)
      && (outcome == ChildContentUndefined ==>
            fs1 == EnsureParentModel(fs, parent, ParentModelText(parent))
            && ModelPath(parent) in fs1.files && ModelPath(child) !in fs1.files)
  {
    assert ChildContent(parent, child, kind) == None;
    RunStopsWithoutChildText(fs, parent, child, kind, ParentModelText(parent), ServiceText(parent, child, kind));
  }

  /** `createRelationshipScaffold` creates `src/services` but never
      `src/models`: without it the call throws at its first model write,
      before anything has changed, and it writes a model file exactly when
      it creates the parent or a child with a text. */
  lemma RunFailsWithoutModelsDir(fs: FileSystem, parent: string, child: string, kind: string,
                                 parentText: string, childText: Option<string>, serviceText: string)
    ensures var (fs1, outcome) := Run(fs, parent, child, kind, parentText, childText, serviceText);
      && (outcome == MissingModelsDir <==> "src/models" !in fs.dirs && WritesModels(fs, parent, child, childText))
      && (outcome == MissingModelsDir ==> fs1 == fs)
      && fs1.dirs <= fs.dirs + {"src/services"}
  {
  }

  /** On a workspace without `src/models` and without the parent model,
      the call changes nothing, whatever the kind. */
  lemma ScaffoldNeedsModelsDir(fs: FileSystem, parent: string, child: string, kind: string)
    requires "src/models" !in fs.dirs && ModelPath(parent) !in fs.files
    ensures Scaffold(fs, parent, child, kind) == (fs, MissingModelsDir)
  {
    RunFailsWithoutModelsDir(fs, parent, child, kind, ParentModelText(parent), ChildContent(parent, child, kind), ServiceText(parent, child, kind));
  }

  /** A run that completes leaves a service and the services directory; an
      existing service is never rewritten. */
  lemma RunServiceGate(fs: FileSystem, parent: string, child: string, kind: string,
                       parentText: string, childText: Option<string>, serviceText: string)
    ensures var (fs1, outcome) := Run(fs, parent, child, kind, parentText, childText, serviceText);
      && (outcome == Completed ==> ServicePath(parent) in fs1.files && "src/services" in fs1.dirs)
      && (outcome == Completed && ServicePath(parent) !in fs.files ==> fs1.files[ServicePath(parent)] == serviceText)
      && (ServicePath(parent) in fs.files ==>
            ServicePath(parent) in fs1.files && fs1.files[ServicePath(parent)] == fs.files[ServicePath(parent)])
  {
    ModelAndServicePathsDiffer(parent, parent);
    ModelAndServicePathsDiffer(child, parent);
  }

  /** The first line of a child method names it. */
  lemma ChildMethodHeader(verb: string, operator: string, gerund: string, parent: string, child: string)
    ensures Contains(ChildMethod(verb, operator, gerund, parent, child)[0], "async " + verb + child + "(")
  {
    var name := "async " + verb + child + "(";
    var rest := Lower(parent) + "Id, " + Lower(child) + "Id) {";
    assert ChildMethod(verb, operator, gerund, parent, child)[0] == Indent(1) + name + rest;
    OccursAtStart(name);
    ContainsInfix(Indent(1), name, rest, name);
  }

  /** The relationship block holds `add<Child>` and `remove<Child>`. */
  lemma RelationMethods(parent: string, child: string)
    ensures Contains(Join(ServiceRelation(parent, child), "\n"), "async add" + child + "(")
    ensures Contains(Join(ServiceRelation(parent, child), "\n"), "async remove" + child + "(")
  {
    var relation := ServiceRelation(parent, child);
    assert relation[2] == ChildMethod("add", "$push", "adding", parent, child)[0];
    assert relation[14] == ChildMethod("remove", "$pull", "removing", parent, child)[0];
    ChildMethodHeader("add", "$push", "adding", parent, child);
    ChildMethodHeader("remove", "$pull", "removing", parent, child);
    assert "async " + "add" + child + "(" == "async add" + child + "(";
    assert "async " + "remove" + child + "(" == "async remove" + child + "(";
    JoinContainsPart(relation, "\n", 2);
    JoinContainsPart(relation, "\n", 14);
    ContainsWithin(Join(relation, "\n"), relation[2], "async add" + child + "(");
    ContainsWithin(Join(relation, "\n"), relation[14], "async remove" + child + "(");
  }

  /** The `hasMany` service has `add<Child>` and `remove<Child>`; for any
      other type the service does not depend on the child at all. */
  lemma ServiceChildMethods(parent: string, child: string, kind: string)
    ensures kind == "hasMany" ==>
      && Contains(ServiceText(parent, child, kind), "async add" + child + "(")
      && Contains(ServiceText(parent, child, kind), "async remove" + child + "(")
    ensures kind != "hasMany" ==> forall other :: ServiceText(parent, child, kind) == ServiceText(parent, other, kind)
  {
    if kind == "hasMany" {
      var base, foot := Join(ServiceBase(parent), "\n"), Join(ServiceFoot(parent), "\n");
      RelationMethods(parent, child);
      ContainsInfix(base, Join(ServiceRelation(parent, child), "\n"), foot, "async add" + child + "(");
      ContainsInfix(base, Join(ServiceRelation(parent, child), "\n"), foot, "async remove" + child + "(");
    }
  }

  /** The `hasMany` field is the array reference `<child>s: [{ ... }]` to
      the child, defaulting to `[]`. */
  lemma HasManyFieldShape(child: string)
    requires '\n' !in child
    ensures var lines := Split(HasManyField(child), '\n');
      && |lines| == 5
      && lines[0] == "    " + (Lower(child) + "s") + ": [{"
      && lines[2] == "        ref: '" + child + "',"
      && lines[3] == "        default: []"
  {
    var name := Lower(child) + "s";
    LowerKeepsOut(child, '\n');
    Relationship.DefShape(name, child, true, false);
    Relationship.DefLinesSingle(name, child, true, false);
    SplitJoin(Relationship.DefLines(name, child, true, false), '\n');
  }

  /** Without a `// Virtuals` line, the virtual opens a new section right
      before the last `\nmodule.exports`. */
  lemma VirtualSectionBeforeExports(content: string, x: string, z: string, virtual: string)
    requires content == x + "\nmodule.exports" + z
    requires !Contains(content, "// Virtuals") && !Contains(z, "\nmodule.exports")
    ensures AddVirtualSection(content, virtual)
            == x + ("\n\n// Virtuals\n" + virtual) + "\n" + "module.exports" + z
  {
    ExportsBorderFree();
    UnmarkedSection(content, virtual);
    SpliceBeforeLast(x, "\nmodule.exports", z, "\n\n// Virtuals\n" + virtual);
    assert "\nmodule.exports" + z == "\n" + "module.exports" + z;
  }

  lemma UnmarkedSection(content: string, virtual: string)
    requires !Contains(content, "// Virtuals")
    ensures AddVirtualSection(content, virtual)
            == Splice(content, LastIndexOf(content, "\nmodule.exports", |content|), "\n\n// Virtuals\n" + virtual)
  {
  }

  lemma ExportsBorderFree()
    ensures BorderFree("\nmodule.exports")
  {
    BorderFreeByHead("\nmodule.exports");
  }

  /** With a `// Virtuals` line, the virtual goes right after it. */
  lemma VirtualAfterExistingMarker(x: string, m: string, z: string, virtual: string)
    requires !Contains(x, "// Virtuals") && '\n' !in m
    ensures AddVirtualSection(x + "// Virtuals" + (m + "\n") + z, virtual)
            == x + "// Virtuals" + (m + "\n") + "\n" + virtual + z
  {
    var s := x + "// Virtuals" + (m + "\n") + z;
    assert s[|x|..|x| + 11] == "// Virtuals";
    assert OccursAt(s, "// Virtuals", |x|);
    Relationship.VirtualAfterMarkerLine(x, m, z, virtual);
  }

  /** With a `// Virtuals` line that ends the text without a line break,
      the virtual goes at the very front. */
  lemma VirtualWithoutLineBreakAtFront(x: string, m: string, virtual: string)
    requires !Contains(x, "// Virtuals") && '\n' !in m
    ensures AddVirtualSection(x + "// Virtuals" + m, virtual) == "\n" + virtual + x + "// Virtuals" + m
  {
    var s := x + "// Virtuals" + m;
    assert s[|x|..|x| + 11] == "// Virtuals";
    assert OccursAt(s, "// Virtuals", |x|);
    Relationship.VirtualWithoutLineBreak(x, m, virtual);
  }

  /** The settings end with the `module.exports` they replace, so the export
      itself stays. */
  lemma SetLinesEndWithExports(parent: string)
    ensures EndsWith(SetLines(parent), "\nmodule.exports")
  {
    var lines := VirtualSettings(parent) + ["", "module.exports"];
    calc {
      EndsWith(SetLines(parent), "\nmodule.exports");
      { assert "\nmodule.exports" == "\n" + "module.exports"; }
      EndsWith(Join(lines, "\n"), "\n" + "module.exports");
      { assert |lines| == 4 && lines[3] == "module.exports";
        EndsWithLastLine(lines, "module.exports"); }
      true;
    }
  }

  lemma EndsWithLastLine(lines: seq<string>, last: string)
    requires |lines| >= 2 && lines[|lines| - 1] == last
    ensures EndsWith(Join(lines, "\n"), "\n" + last)
  {
    JoinEndsWithLast(lines, "\n");
  }

  /** The settings replace the first `module.exports`; any replacement
      pattern in them (a `$` in the parent's name) is expanded against that
      occurrence. */
  lemma SettingsBeforeFirstExports(content: string, y: string, z: string, settings: string)
    requires content == y + "module.exports" + z && !Contains(y, "module.exports")
    ensures ReplaceFirst(content, "module.exports", settings) == y + Expand(settings, "module.exports", y, z) + z
    ensures '$' !in settings ==> ReplaceFirst(content, "module.exports", settings) == y + settings + z
  {
    BorderFreeByHead("module.exports");
    ReplaceFirstAfter(y, "module.exports", z, settings);
  }

  /** The three steps of the patch on a parent whose first `}, {` opens the
      schema options and that has no `// Virtuals` line: the field closes the
      field block, a virtual section opens before the last
      `\nmodule.exports`, and the settings replace the first
      `module.exports`. */
  lemma PatchOnUnmarkedParent(h: string, t: string, z: string, field: string, virtual: string, settings: string)
    requires !Contains(h, "}, {")
    requires !Contains(h + Relationship.FieldInsert(field) + "\n}, {" + t + "\nmodule.exports" + z, "// Virtuals")
    requires !Contains(z, "\nmodule.exports")
    requires !Contains(h + Relationship.FieldInsert(field) + "\n}, {" + t
                       + ("\n\n// Virtuals\n" + virtual) + "\n", "module.exports")
    ensures var y := h + Relationship.FieldInsert(field) + "\n}, {" + t + ("\n\n// Virtuals\n" + virtual) + "\n";
            PatchWith(h + "\n}, {" + t + "\nmodule.exports" + z, field, virtual, settings)
            == y + Expand(settings, "module.exports", y, z) + z
    ensures '$' !in settings ==>
            PatchWith(h + "\n}, {" + t + "\nmodule.exports" + z, field, virtual, settings)
            == h + Relationship.FieldInsert(field) + "\n}, {" + t
               + ("\n\n// Virtuals\n" + virtual) + "\n" + settings + z
  {
    var content := h + "\n}, {" + t + "\nmodule.exports" + z;
    var x := h + Relationship.FieldInsert(field) + "\n}, {" + t;
    var y := x + ("\n\n// Virtuals\n" + virtual) + "\n";
    var w1 := x + "\nmodule.exports" + z;
    var w2 := y + "module.exports" + z;
    calc {
      PatchWith(content, field, virtual, settings);
      ReplaceFirst(AddVirtualSection(Relationship.AddField(content, field), virtual), "module.exports", settings);
      { FieldStep(h, t, z, field); }
      ReplaceFirst(AddVirtualSection(w1, virtual), "module.exports", settings);
      { VirtualSectionBeforeExports(w1, x, z, virtual); }
      ReplaceFirst(w2, "module.exports", settings);
      { SettingsBeforeFirstExports(w2, y, z, settings); }
      y + Expand(settings, "module.exports", y, z) + z;
    }
  }

  // The field step of `PatchOnUnmarkedParent`.
  lemma FieldStep(h: string, t: string, z: string, field: string)
    requires !Contains(h, "}, {")
    ensures Relationship.AddField(h + "\n}, {" + t + "\nmodule.exports" + z, field)
            == h + Relationship.FieldInsert(field) + "\n}, {" + t + "\nmodule.exports" + z
  {
    var tail := t + "\nmodule.exports" + z;
    calc {
      Relationship.AddField(h + "\n}, {" + t + "\nmodule.exports" + z, field);
      { assert h + "\n}, {" + t + "\nmodule.exports" + z == h + "\n}, {" + tail; }
      Relationship.AddField(h + "\n}, {" + tail, field);
      { Relationship.FieldBeforeSchemaClose(h, tail, field); }
      h + Relationship.FieldInsert(field) + "\n}, {" + tail;
      { assert h + Relationship.FieldInsert(field) + "\n}, {" + tail
          == h + Relationship.FieldInsert(field) + "\n}, {" + t + "\nmodule.exports" + z; }
      h + Relationship.FieldInsert(field) + "\n}, {" + t + "\nmodule.exports" + z;
    }
  }

  /** A `belongsTo` child holds the required `<parent>Id` reference to the
      parent; a `hasMany` child does not depend on the parent at all. */
  lemma ChildModelReferences(parent: string, child: string)
    ensures var text := ChildContent(parent, child, "belongsTo").value;
      && Contains(text, Indent(1) + Lower(parent) + "Id: {")
      && Contains(text, Indent(2) + "ref: '" + parent + "',")
    ensures forall other :: ChildContent(parent, child, "hasMany") == ChildContent(other, child, "hasMany")
  {
    var lines := BelongsToChildLines(parent, child);
    assert lines[12] == ParentIdField(parent)[0];
    assert lines[14] == ParentIdField(parent)[2];
    JoinContainsPart(lines, "\n", 12);
    JoinContainsPart(lines, "\n", 14);
  }
}

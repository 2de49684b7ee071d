/** `createRelationship` (lib/generators/relationship.js): adds a reference
    field to an existing model file, spliced in before the line that holds
    the first `}, {`, and a `<field>Details` virtual after the first
    `// Virtuals` line when the file has one. */
module Relationship {
  import opened JsString
  import opened Workspace
  import opened ModelGenerator

  /** The `options` object; an empty string stands for an option that is
      absent or falsy. */
  datatype Options = Options(fieldName: string, refModel: string, required: bool)

  /** `options.fieldName || toModel.toLowerCase()`. */
  function FieldNameOf(toModel: string, opts: Options): string
  {
    if opts.fieldName != "" then opts.fieldName else Lower(toModel)
  }

  /** `options.refModel || toModel`. */
  function RefOf(toModel: string, opts: Options): string
  {
    if opts.refModel != "" then opts.refModel else toModel
  }

  predicate IsArray(kind: string)
  {
    kind == "hasMany" || kind == "belongsToMany"
  }

  /** The lines of `relationshipDef`. */
  function DefLines(fieldName: string, ref: string, isArray: bool, required: bool): seq<string>
  {
    if isArray then
      ["    " + fieldName + ": [{",
       ObjectIdTypeLine,
       "        ref: '" + ref + "',",
       "        default: []",
       "    }]"]
    else
      ["    " + fieldName + ": {",
       ObjectIdTypeLine,
       "        ref: '" + ref + "',",
       "        " + (if required then "required: true," else ""),
       "        default: null",
       "    }"]
  }

  const ObjectIdTypeLine := "        type: " + "mongoose.Schema.Types.ObjectId,"

  function RelationshipDef(fieldName: string, ref: string, isArray: bool, required: bool): string
  {
    Join(DefLines(fieldName, ref, isArray, required), "\n")
  }

  /** An array reference defaults to `[]`; a single one defaults to `null`
      and carries `required: true,` exactly when the option asks for it. */
  lemma DefShape(fieldName: string, ref: string, isArray: bool, required: bool)
    requires '\n' !in fieldName && '\n' !in ref
    ensures var lines := Split(RelationshipDef(fieldName, ref, isArray, required), '\n');
      && (isArray ==> |lines| == 5 && lines[3] == "        default: []")
      && (!isArray ==> |lines| == 6 && lines[4] == "        default: null"
                       && (lines[3] == "        required: true," <==> required))
      && lines[2] == "        ref: '" + ref + "',"
  {
    var lines := DefLines(fieldName, ref, isArray, required);
    DefLinesSingle(fieldName, ref, isArray, required);
    SplitJoin(lines, '\n');
    RequiredLineMarks(required);
  }

  lemma RequiredLineMarks(required: bool)
    ensures "        " + (if required then "required: true," else "") == "        required: true," <==> required
  {
    if !required {
      assert |"        " + ""| == 8;
    }
  }

  /** Without options the field is named after the lower-cased target
      model and refers to the target model as given. */
  lemma DefaultField(toModel: string, kind: string, required: bool)
    requires '\n' !in toModel
    ensures var lines := Split(DefFor(toModel, kind, Options("", "", required)), '\n');
      && |lines| >= 3
      && lines[0] == "    " + Lower(toModel) + (if IsArray(kind) then ": [{" else ": {")
      && lines[2] == "        ref: '" + toModel + "',"
  {
    LowerKeepsOut(toModel, '\n');
    var lines := DefLines(Lower(toModel), toModel, IsArray(kind), required);
    DefLinesSingle(Lower(toModel), toModel, IsArray(kind), required);
    SplitJoin(lines, '\n');
  }

  /** The virtual is `<field>Details`, joined through the field, and only
      a single reference is `justOne`. */
  lemma VirtualShape(fromModel: string, fieldName: string, ref: string, isArray: bool)
    ensures var lines := VirtualLines(fromModel, fieldName, ref, isArray);
      && |lines| == (if isArray then 5 else 6)
      && lines[0] == fromModel + "Schema.virtual('" + fieldName + "Details', {"
      && lines[2] == "    localField: '" + fieldName + "',"
      && ("    justOne: true" in lines <==> !isArray)
  {
    var lines := VirtualLines(fromModel, fieldName, ref, isArray);
    var j := "    justOne: true";
    forall i | 0 <= i < |lines| && (isArray || i != 4) ensures lines[i] != j {
      var l := lines[i];
      assert l != [] && l[|l| - 1] != 'e';
    }
    if !isArray {
      assert lines[4] == j;
    }
  }

  lemma DefLinesSingle(fieldName: string, ref: string, isArray: bool, required: bool)
    requires '\n' !in fieldName && '\n' !in ref
    ensures var lines := DefLines(fieldName, ref, isArray, required);
      forall i :: 0 <= i < |lines| ==> '\n' !in lines[i]
  {
    assert '\n' !in ObjectIdTypeLine;
  }

  /** The lines of `virtualContent`; only a single reference is `justOne`. */
  function VirtualLines(fromModel: string, fieldName: string, ref: string, isArray: bool): seq<string>
  {
    [fromModel + "Schema.virtual('" + fieldName + "Details', {",
     "    ref: '" + ref + "',",
     "    localField: '" + fieldName + "',"]
    + (if isArray then ["    foreignField: '_id'"]
       else ["    foreignField: '_id',", "    justOne: true"])
    + ["});"]
  }

  function VirtualDef(fromModel: string, fieldName: string, ref: string, isArray: bool): string
  {
    Join(VirtualLines(fromModel, fieldName, ref, isArray), "\n")
  }

  /** `beforeSchemaEnd`: the last line break at or before the first `}, {`.
      With no `}, {` the search position is -1, which JavaScript clamps to
      0. */
  function SchemaEndOffset(content: string): int
  {
    LastIndexOf(content, "\n", IndexOf(content, "}, {", 0))
  }

  /** The text the field splice inserts. */
  function FieldInsert(def: string): string
  {
    ",\n\n" + def
  }

  /** `content.slice(0, beforeSchemaEnd) + ',\n\n' + def + content.slice(beforeSchemaEnd)`. */
  function AddField(content: string, def: string): (r: string)
    ensures |r| == |content| + |FieldInsert(def)|
    ensures var k := RelIndex(SchemaEndOffset(content), |content|);
      r[..k] + r[k + |FieldInsert(def)|..] == content && r[k..k + |FieldInsert(def)|] == FieldInsert(def)
  {
    Splice(content, SchemaEndOffset(content), FieldInsert(def))
  }

  /** The virtual goes right after the line break that ends the first
      `// Virtuals` line (position 0 when that line has none); without the
      marker nothing changes. */
  function AddVirtual(content: string, virtual: string): (r: string)
    ensures !Contains(content, "// Virtuals") ==> r == content
    ensures Contains(content, "// Virtuals") ==> |r| == |content| + 1 + |virtual|
  {
    var virtualIndex := IndexOf(content, "// Virtuals", 0);
    if virtualIndex == -1 then content
    else Splice(content, IndexOf(content, "\n", virtualIndex) + 1, "\n" + virtual)
  }

  /** The field definition for a call. */
  function DefFor(toModel: string, kind: string, opts: Options): string
  {
    RelationshipDef(FieldNameOf(toModel, opts), RefOf(toModel, opts), IsArray(kind), opts.required)
  }

  /** The virtual for a call. */
  function VirtualFor(fromModel: string, toModel: string, kind: string, opts: Options): string
  {
    VirtualDef(fromModel, FieldNameOf(toModel, opts), RefOf(toModel, opts), IsArray(kind))
  }

  /** The patched model text. */
  function PatchModel(content: string, fromModel: string, toModel: string, kind: string, opts: Options): (r: string)
    ensures |r| > |content|
  {
    AddVirtual(AddField(content, DefFor(toModel, kind, opts)), VirtualFor(fromModel, toModel, kind, opts))
  }

  /** `createRelationship(fromModel, toModel, relationshipType, options)`. */
  function CreateRelationship(fs: FileSystem, fromModel: string, toModel: string, kind: string,
                              opts: Options): (r: FileSystem)
    ensures ModelPath(fromModel) !in fs.files ==> r == fs
    ensures ModelPath(fromModel) in fs.files ==>
      r == Write(fs, ModelPath(fromModel), PatchModel(fs.files[ModelPath(fromModel)], fromModel, toModel, kind, opts))
  {
    var file := ModelPath(fromModel);
    if file !in fs.files then fs
    else Write(fs, file, PatchModel(fs.files[file], fromModel, toModel, kind, opts))
  }

  // ---- Properties of the splice ----------------------------------------------

  lemma SchemaMarkerBorderFree()
    ensures BorderFree("}, {")
  {
    BorderFreeByHead("}, {");
  }

  lemma VirtualsMarkerBorderFree()
    ensures BorderFree("// Virtuals") && '\n' !in "// Virtuals"
  {
    var p := "// Virtuals";
    forall d | 0 < d < |p| ensures !StartsWith(p, p[d..]) {
      if d == 1 {
        assert p[d..][1] != p[1];
      } else {
        assert p[d..][0] != p[0];
      }
    }
  }

  /** When the text before the schema's closing line holds no `}, {`, the
      field lands at the end of the field block, before that line, and the
      rest is unchanged. */
  lemma FieldBeforeSchemaClose(h: string, t: string, def: string)
    requires !Contains(h, "}, {")
    ensures AddField(h + "\n}, {" + t, def) == h + FieldInsert(def) + "\n}, {" + t
  {
    var s := h + "\n}, {" + t;
    ContainsExtendChar(h, '\n', "}, {");
    SchemaMarkerBorderFree();
    assert s == (h + "\n") + "}, {" + t;
    FirstOccurrence(h + "\n", "}, {", t);
    assert s[|h| + 1] == '}' && s[|h|] == '\n';
    assert !OccursAt(s, "\n", |h| + 1);
    assert OccursAt(s, "\n", |h|);
    assert SchemaEndOffset(s) == |h|;
    assert s[..|h|] == h && s[|h|..] == "\n}, {" + t;
  }

  /** With no `}, {` at all the search position becomes 0: a text starting
      with a line break gets the field in front, any other text gets it
      before its final character. */
  lemma FieldWithoutSchemaMarker(content: string, def: string)
    requires !Contains(content, "}, {")
    ensures |content| > 0 && content[0] == '\n' ==> AddField(content, def) == FieldInsert(def) + content
    ensures |content| > 0 && content[0] != '\n' ==>
      AddField(content, def) == content[..|content| - 1] + FieldInsert(def) + content[|content| - 1..]
    ensures content == [] ==> AddField(content, def) == FieldInsert(def)
  {
    assert IndexOf(content, "}, {", 0) == -1;
    if |content| > 0 {
      assert content[0..1][0] == content[0];
    }
  }

  /** The virtual goes on the line after the first `// Virtuals` line. */
  lemma VirtualAfterMarkerLine(x: string, m: string, z: string, virtual: string)
    requires !Contains(x, "// Virtuals") && '\n' !in m
    ensures AddVirtual(x + "// Virtuals" + (m + "\n") + z, virtual)
            == x + "// Virtuals" + (m + "\n") + "\n" + virtual + z
  {
    VirtualsMarkerBorderFree();
    InsertAfterMarkerLine(x, "// Virtuals", m, z, "\n" + virtual);
    Regroup4(x + "// Virtuals" + (m + "\n"), "\n", virtual, z);
  }

  /** When the first `// Virtuals` line is the text's last line, with no
      line break after it, the search for `\n` fails and `-1 + 1` puts the
      virtual at the very front. */
  lemma VirtualWithoutLineBreak(x: string, m: string, virtual: string)
    requires !Contains(x, "// Virtuals") && '\n' !in m
    ensures AddVirtual(x + "// Virtuals" + m, virtual) == "\n" + virtual + x + "// Virtuals" + m
  {
    var p := "// Virtuals";
    var s := x + p + m;
    VirtualsMarkerBorderFree();
    FirstOccurrence(x, p, m);
    NoLineBreakAfter(s, |x|);
    assert IndexOf(s, "\n", |x|) == -1;
  }

  /** A text whose tail from `k` holds no line break has no `\n` at or
      after `k`. */
  lemma NoLineBreakAfter(s: string, k: nat)
    requires k <= |s| && '\n' !in s[k..]
    ensures forall j :: k <= j ==> !OccursAt(s, "\n", j)
  {
    forall j | k <= j ensures !OccursAt(s, "\n", j) {
      if j < |s| {
        assert s[k..][j - k] == s[j] != '\n';
      }
    }
  }

  lemma Regroup4(a: string, b: string, c: string, d: string)
    ensures a + (b + c) + d == a + b + c + d
  {
  }

  /** Inserting after the line of the first occurrence of a marker. */
  lemma InsertAfterMarkerLine(x: string, p: string, m: string, z: string, ins: string)
    requires !Contains(x, p) && BorderFree(p) && '\n' !in p && '\n' !in m
    ensures var s := x + p + (m + "\n") + z;
            var vi := IndexOf(s, p, 0);
            vi == |x| && Splice(s, IndexOf(s, "\n", vi) + 1, ins) == x + p + (m + "\n") + ins + z
  {
    var s := x + p + (m + "\n") + z;
    assert s == x + p + (m + "\n" + z);
    FirstOccurrence(x, p, m + "\n" + z);
    assert s == x + (p + m) + "\n" + z;
    assert '\n' !in p + m;
    NextChar(x, p + m, '\n', z);
    var k := |x| + |p + m| + 1;
    assert s[..k] == x + p + (m + "\n");
    assert s[k..] == z;
  }

  /** Nothing guards against a repeat: every call adds one more field
      definition, so the model grows with each call. */
  lemma RelationshipNotIdempotent(fs: FileSystem, fromModel: string, toModel: string, kind: string, opts: Options)
    requires ModelPath(fromModel) in fs.files
    ensures var once := CreateRelationship(fs, fromModel, toModel, kind, opts);
            var twice := CreateRelationship(once, fromModel, toModel, kind, opts);
            |twice.files[ModelPath(fromModel)]| > |once.files[ModelPath(fromModel)]| > |fs.files[ModelPath(fromModel)]|
  {
  }

  /** On a model generated by `createModel` whose names put no marker
      early, the field becomes the last entry of the field block and the
      virtual the first line after the `// Virtuals` comment. */
  lemma RelationshipOnGeneratedModel(fs: FileSystem, fromModel: string, fields: seq<string>,
                                     toModel: string, kind: string, opts: Options)
    requires ModelPath(fromModel) in fs.files
    requires fs.files[ModelPath(fromModel)] == ModelText(fromModel, fields)
    requires !Contains(ModelHead(fromModel) + FieldBlock(fields), "}, {")
    requires !Contains(ModelHead(fromModel) + FieldBlock(fields) + FieldInsert(DefFor(toModel, kind, opts))
                       + "\n}, {" + ModelTailBeforeVirtuals(fromModel), "// Virtuals")
    ensures CreateRelationship(fs, fromModel, toModel, kind, opts).files[ModelPath(fromModel)]
            == ModelHead(fromModel) + FieldBlock(fields) + FieldInsert(DefFor(toModel, kind, opts))
               + "\n}, {" + ModelTailBeforeVirtuals(fromModel) + "// Virtuals" + " or Methods can be added here\n"
               + "\n" + VirtualFor(fromModel, toModel, kind, opts) + ModelTailAfterVirtuals(fromModel)
  {
    var hb := ModelHead(fromModel) + FieldBlock(fields);
    var def := DefFor(toModel, kind, opts);
    ModelTextShape(fromModel, fields);
    FieldBeforeSchemaClose(hb, ModelTail(fromModel), def);
    var a := hb + FieldInsert(def) + "\n}, {";
    var tb, ta := ModelTailBeforeVirtuals(fromModel), ModelTailAfterVirtuals(fromModel);
    var m := " or Methods can be added here";
    var line := " or Methods can be added here\n";
    MarkerLineRest();
    Regroup(a, tb, "// Virtuals", line, ta);
    VirtualAfterMarkerLine(a + tb, m, ta, VirtualFor(fromModel, toModel, kind, opts));
  }

  lemma MarkerLineRest()
    ensures " or Methods can be added here\n" == " or Methods can be added here" + "\n"
    ensures '\n' !in " or Methods can be added here"
  {
  }

  lemma Regroup(a: string, b: string, c: string, d: string, e: string)
    ensures a + (b + c + d + e) == a + b + c + d + e
  {
  }
}

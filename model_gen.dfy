/** `createModel` (lib/generators/model.js): the Mongoose schema file
    generated from a model name and a list of `name:type` field
    specifications. Its text carries the two markers the relationship
    patchers look for: the `}, {` that closes the field block and the
    `// Virtuals` comment line. */
module ModelGenerator {
  import opened Wrappers
  import opened JsString
  import opened Workspace
  import opened FieldSpec

  /** The own entries of the `typeMapping` object literal. */
  const TypeMapping: map<string, string> :=
    map["string" := "String", "number" := "Number", "boolean" := "Boolean",
        "date" := "Date", "array" := "Array", "objectid" := "Schema.Types.ObjectId"]

  /** What `typeMapping[key]` finds on `Object.prototype`, as a template
      literal prints it. Only `constructor` and `__proto__` can be reached:
      every other inherited name has an upper-case letter, and the key has
      been lower-cased. */
  function Inherited(key: string): Option<string>
  {
    if key == "constructor" then Some("function Object() " + "{ [native code] }")
    else if key == "__proto__" then Some("[object Object]")
    else None
  }

  /** `typeMapping[fieldType.toLowerCase()] || 'String'`. */
  function SchemaType(fieldType: string): (r: string)
    ensures Lower(fieldType) in TypeMapping ==> r == TypeMapping[Lower(fieldType)]
    ensures Lower(fieldType) !in TypeMapping && Inherited(Lower(fieldType)).None? ==> r == "String"
    ensures r != []
  {
    var key := Lower(fieldType);
    if key in TypeMapping then TypeMapping[key]
    else match Inherited(key)
      case Some(v) => v
      case None => "String"
  }

  lemma LowerIdempotent(s: string)
    ensures Lower(Lower(s)) == Lower(s)
  {
    assert forall i :: 0 <= i < |s| ==> LowerChar(LowerChar(s[i])) == LowerChar(s[i]);
  }

  /** The lookup ignores case: a type and its lower-cased spelling map alike. */
  lemma SchemaTypeIgnoresCase(fieldType: string)
    ensures SchemaType(fieldType) == SchemaType(Lower(fieldType))
    ensures Lower(fieldType) == "string" ==> SchemaType(fieldType) == "String"
  {
    LowerIdempotent(fieldType);
  }

  /** The optional third line of a field definition. */
  function TrimLine(fieldType: string): string
  {
    if Lower(fieldType) == "string" then "trim: true," else ""
  }

  /** The lines of one entry of the `fields.map(…)`: the schema definition
      of a field, typed `String` when the specification has no colon. */
  function FragmentLines(f: string): seq<string>
  {
    var ty := FieldType(f, "String");
    FragmentBlock(FieldName(f), SchemaType(ty), TrimLine(ty))
  }

  function FragmentBlock(name: string, schema: string, trim: string): seq<string>
  {
    ["    " + name + ": {",
     "        type: " + schema + ",",
     "        " + trim,
     "        required: [true, '" + name + " is required']",
     "    }"]
  }

  function FieldFragment(f: string): string
  {
    Join(FragmentLines(f), "\n")
  }

  /** A field definition (for a specification without a line break) is
      five lines: the name opens the block, the third line holds
      `trim: true,` exactly when the type is `string` in any case, and the
      field is always required with the message `<name> is required`. */
  lemma FieldFragmentLines(f: string)
    requires '\n' !in f
    ensures Split(FieldFragment(f), '\n') == FragmentLines(f)
    ensures Split(FieldFragment(f), '\n')[2] == "        trim: true," <==>
      Lower(FieldType(f, "String")) == "string"
    ensures Split(FieldFragment(f), '\n')[3] ==
      "        required: [true, '" + FieldName(f) + " is required']"
  {
    var ty := FieldType(f, "String");
    SingleLineParts(f, "String");
    SchemaTypeSingleLine(ty);
    TrimLineSingle(ty);
    BlockSingle(FieldName(f), SchemaType(ty), TrimLine(ty));
    SplitJoin(FragmentLines(f), '\n');
    TrimLineMarks(ty);
  }

  lemma TrimLineSingle(ty: string)
    ensures '\n' !in TrimLine(ty)
  {
  }

  // The third line is `trim: true,` exactly when the type is `string`.
  lemma TrimLineMarks(ty: string)
    ensures "        " + TrimLine(ty) == "        trim: true," <==> Lower(ty) == "string"
  {
    var l2 := "        " + TrimLine(ty);
    if l2 == "        trim: true," {
      assert |TrimLine(ty)| == 11;
    }
  }

  lemma BlockSingle(name: string, schema: string, trim: string)
    requires '\n' !in name && '\n' !in schema && '\n' !in trim
    ensures forall i :: 0 <= i < 5 ==> '\n' !in FragmentBlock(name, schema, trim)[i]
  {
  }

  lemma SchemaTypeSingleLine(ty: string)
    ensures '\n' !in SchemaType(ty)
  {
    var key := Lower(ty);
    if key in TypeMapping {
      MappedSingleLine(key);
    } else if Inherited(key).Some? {
      InheritedSingleLine(key);
    }
  }

  lemma MappedSingleLine(key: string)
    requires key in TypeMapping
    ensures '\n' !in TypeMapping[key]
  {
  }

  lemma InheritedSingleLine(key: string)
    requires Inherited(key).Some?
    ensures '\n' !in Inherited(key).value
  {
  }

  /** `fields.map(…)`: one fragment per field, in order. */
  function Fragments(fields: seq<string>): (r: seq<string>)
    ensures |r| == |fields|
    ensures forall i :: 0 <= i < |fields| ==> r[i] == FieldFragment(fields[i])
  {
    if fields == [] then [] else [FieldFragment(fields[0])] + Fragments(fields[1..])
  }

  /** `fieldDefinitions || '    // Add your fields here'`: the fragments
      joined by a blank line, or a placeholder comment for no fields. */
  function FieldBlock(fields: seq<string>): string
  {
    var joined := Join(Fragments(fields), ",\n\n");
    if joined == [] then "    // Add your fields here" else joined
  }

  /** The field block has one fragment per field, in input order, and the
      placeholder appears exactly when there are no fields. */
  lemma {:induction false} FieldBlockShape(fields: seq<string>)
    ensures fields == [] ==> FieldBlock(fields) == "    // Add your fields here"
    ensures |fields| == 1 ==> FieldBlock(fields) == FieldFragment(fields[0])
    ensures |fields| > 1 ==> FieldBlock(fields) == FieldFragment(fields[0]) + ",\n\n" + FieldBlock(fields[1..])
  {
    if |fields| > 1 {
      var rest := Fragments(fields[1..]);
      assert Fragments(fields)[1..] == rest;
      FieldFragmentNonEmpty(fields[1]);
      JoinStartsWithHead(rest, ",\n\n");
    }
  }

  lemma FieldFragmentNonEmpty(f: string)
    ensures FieldFragment(f) != []
  {
    assert FieldFragment(f)[0] == ' ';
  }

  lemma JoinStartsWithHead(parts: seq<string>, sep: string)
    requires |parts| > 0 && parts[0] != []
    ensures Join(parts, sep) != []
  {
  }

  function ModelHead(name: string): string
  {
    "const mongoose = require('mongoose');\n" + "\nconst " + name + "Schema = new mongoose.Schema({\n"
  }

  /** The text between the `// Virtuals` marker line and the rest. */
  function ModelTailBeforeVirtuals(name: string): string
  {
    "\n    timestamps: true\n});\n\n// Indexes\n" + name + "Schema.index({ createdAt: -1 });\n\n"
  }

  function ModelTailAfterVirtuals(name: string): string
  {
    var v := Lower(name);
    name + "Schema.methods.toJSON = function() {\n    const " + v + " = this.toObject();\n    "
    + v + ".id = " + v + "._id;\n    delete " + v + "._id;\n    delete " + v + ".__v;\n    return "
    + v + ";\n};\n\nmodule.exports = mongoose.model('" + name + "', " + name + "Schema);"
  }

  /** The text after the `}, {` that closes the field block. */
  function ModelTail(name: string): string
  {
    ModelTailBeforeVirtuals(name) + "// Virtuals" + " or Methods can be added here\n" + ModelTailAfterVirtuals(name)
  }

  /** The template literal, before `trim()`. */
  function ModelSource(name: string, fields: seq<string>): string
  {
    ModelHead(name) + FieldBlock(fields) + "\n}, {" + ModelTail(name) + "\n"
  }

  /** The file content: `content.trim()`. */
  function ModelText(name: string, fields: seq<string>): string
  {
    Trim(ModelSource(name, fields))
  }

  /** Trimming only drops the template's final line break, so the written
      text is the head, the field block, the `}, {` marker and the tail, in
      that order. */
  lemma ModelTextShape(name: string, fields: seq<string>)
    ensures ModelText(name, fields) == ModelHead(name) + FieldBlock(fields) + "\n}, {" + ModelTail(name)
  {
    var head, tail := ModelHead(name), ModelTail(name);
    ModelEnds(name);
    var core := head + FieldBlock(fields) + "\n}, {" + tail;
    assert core[0] == head[0];
    assert core[|core| - 1] == tail[|tail| - 1];
    assert ModelSource(name, fields) == core + "\n";
    TrimFinalNewline(core);
  }

  /** The template starts with `const` and ends with `);`. */
  lemma ModelEnds(name: string)
    ensures ModelHead(name) != [] && ModelHead(name)[0] == 'c'
    ensures ModelTail(name) != [] && ModelTail(name)[|ModelTail(name)| - 1] == ';'
  {
    var lead := "const mongoose = require('mongoose');\n";
    assert lead[0] == 'c';
    assert ModelHead(name) == lead + ("\nconst " + name + "Schema = new mongoose.Schema({\n");
    var after := ModelTailAfterVirtuals(name);
    var last := "Schema);";
    assert last[7] == ';';
    assert after[|after| - 1] == ';';
    assert ModelTail(name) == (ModelTailBeforeVirtuals(name) + "// Virtuals" + " or Methods can be added here\n") + after;
  }

  /** `createModel(name, fields)`: ensures `src/models` and writes the
      trimmed schema text to the model path, whatever was there before. */
  function CreateModel(fs: FileSystem, name: string, fields: seq<string>): (r: FileSystem)
    ensures r.files == fs.files[ModelPath(name) := ModelText(name, fields)]
    ensures r.dirs == fs.dirs + {"src/models"}
  {
    Write(EnsureDir(fs, "src/models"), ModelPath(name), ModelText(name, fields))
  }
}

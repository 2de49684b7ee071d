/** `createValidation` (lib/generators/validation.js): the Joi middleware
    file for a model. Every field becomes a required string rule for
    `create`; the `update` rules are the same text with every
    `.required()` turned into `.optional()`; `idParam` checks a
    24-character hexadecimal `id`. */
module Validation {
  import opened JsString
  import opened Workspace
  import opened FieldSpec
  import opened Templates

  /** `src/validations/<name lowercased>.validation.js`. */
  function ValidationPath(name: string): (p: string)
    ensures StartsWith(p, "src/validations/") && EndsWith(p, ".validation.js")
    ensures |p| == 16 + |name| + 14 && p[16..16 + |name|] == Lower(name)
  {
    "src/validations/" + Lower(name) + ".validation.js"
  }

  /** Two names share a validation file exactly when they agree after
      lower-casing. */
  lemma ValidationPathIffLower(a: string, b: string)
    ensures ValidationPath(a) == ValidationPath(b) <==> Lower(a) == Lower(b)
  {
    SameAffixes("src/validations/", Lower(a), Lower(b), ".validation.js");
  }

  /** For a name without `/`, the validation file's path is already normal. */
  lemma ValidationPathNormal(name: string)
    requires '/' !in name
    ensures Split(ValidationPath(name), '/') == ["src", "validations", Lower(name) + ".validation.js"]
    ensures NormalPath(ValidationPath(name))
  {
    LowerKeepsOut(name, '/');
    var file := Lower(name) + ".validation.js";
    assert ValidationPath(name) == "src" + "/" + "validations" + "/" + file;
    ThreeSegments("src", "validations", file);
    assert |file| > 2;
  }

  /** The create rule of one field: its name and a required string,
      whatever type the specification declares. */
  function Rule(f: string): string
  {
    Indent(2) + FieldName(f) + ": Joi.string()" + ".required(),"
  }

  /** The same rule with the field optional. */
  function OptionalRule(f: string): string
  {
    Indent(2) + FieldName(f) + ": Joi.string()" + ".optional(),"
  }

  function Rules(fields: seq<string>): (r: seq<string>)
    ensures |r| == |fields|
  {
    seq(|fields|, i requires 0 <= i < |fields| => Rule(fields[i]))
  }

  function OptionalRules(fields: seq<string>): (r: seq<string>)
    ensures |r| == |fields|
  {
    seq(|fields|, i requires 0 <= i < |fields| => OptionalRule(fields[i]))
  }

  function Placeholder(): string
  {
    Indent(2) + "// Add validation rules here"
  }

  /** `fields.map(…).join('\n') || placeholder`. */
  function CreateRules(fields: seq<string>): string
  {
    var joined := Join(Rules(fields), "\n");
    if joined == [] then Placeholder() else joined
  }

  /** `createRules.replace(/\.required\(\)/g, '.optional()')`. */
  function UpdateRules(fields: seq<string>): string
  {
    ReplaceAll(CreateRules(fields), ".required()", ".optional()")
  }

  // ---- The rule blocks ----------------------------------------------------------

  lemma RuleNotEmpty(f: string)
    ensures Rule(f) != [] && Rule(f)[0] == ' '
  {
    assert Indent(2) == "        ";
  }

  /** The rule block holds the placeholder exactly when there are no
      fields, and otherwise one rule line per field, in input order (for
      specifications without a line break). */
  lemma CreateRulesShape(fields: seq<string>)
    requires forall i :: 0 <= i < |fields| ==> '\n' !in fields[i]
    ensures fields == [] ==> CreateRules(fields) == Placeholder()
    ensures fields != [] ==> Split(CreateRules(fields), '\n') == Rules(fields)
  {
    if fields != [] {
      var rules := Rules(fields);
      RuleNotEmpty(fields[0]);
      JoinFirstChar(rules, "\n");
      forall i | 0 <= i < |rules| ensures '\n' !in rules[i] {
        RuleSingleLine(fields[i]);
      }
      SplitJoin(rules, '\n');
    }
  }

  lemma RuleSingleLine(f: string)
    requires '\n' !in f
    ensures '\n' !in Rule(f)
  {
    SingleLineParts(f, "");
    assert Indent(2) == "        ";
    var tail := ": Joi.string()" + ".required(),";
    assert '\n' !in tail;
    assert Rule(f) == Indent(2) + FieldName(f) + tail;
  }

  /** The declared type plays no part: two specifications with the same
      name give the same rule, a required string. */
  lemma RuleIgnoresType(name: string, t1: string, t2: string)
    requires ':' !in name
    ensures Rule(Format(name, t1)) == Rule(Format(name, t2))
    ensures Rule(Format(name, t1)) == Indent(2) + name + ": Joi.string().required(),"
  {
    ParseFormat(name, t1, "");
    ParseFormat(name, t2, "");
  }

  /** Only the rule's own `.required()` is replaced when the field name
      does not itself contain one: no occurrence can straddle the colon. */
  lemma RuleUpdated(f: string)
    requires !Contains(FieldName(f), ".required()")
    ensures ReplaceAll(Rule(f), ".required()", ".optional()") == OptionalRule(f)
  {
    var p := ".required()";
    var name := FieldName(f);
    var ind := Indent(2);
    var t := ": Joi.string()" + ".required(),";
    var x := ind + name + ": Joi.string()";
    assert ind == "        ";
    assert Rule(f) == ind + name + t == x + ".required(),";
    TailNoMatch(t);
    PrefixClear(ind, name, t);
    ReplaceAllKeepsPrefix(x, ".required(),", p, ".optional()");
    TailReplaced();
  }

  /** No occurrence of `.required()` starts before the tail's own one. */
  lemma PrefixClear(ind: string, name: string, t: string)
    requires forall i :: 0 <= i < |ind| ==> ind[i] == ' '
    requires |t| == 26 && t[0] == ':' && forall k :: 0 <= k < 14 ==> !OccursAt(t, ".required()", k)
    requires !Contains(name, ".required()")
    ensures forall k :: 0 <= k < |ind| + |name| + 14 ==> !OccursAt(ind + name + t, ".required()", k)
  {
    var s := ind + name + t;
    forall k | 0 <= k < |ind| + |name| + 14 ensures !OccursAt(s, ".required()", k) {
      if k < |ind| {
        if k + 11 <= |s| {
          assert s[k..k + 11][0] == s[k] == ' ';
        }
      } else if k < |ind| + |name| {
        NameNoMatch(ind, name, t, k);
      } else if k + 11 <= |s| {
        var o := k - |ind| - |name|;
        assert !OccursAt(t, ".required()", o);
        assert s[k..k + 11] == t[o..o + 11];
      }
    }
  }

  lemma TailReplaced()
    ensures ReplaceAll(".required(),", ".required()", ".optional()") == ".optional(),"
  {
    var s := ".required(),";
    assert s[..11] == ".required()" && s[11..] == ",";
  }

  /** An occurrence starting inside the name would have to end inside it,
      because the colon after the name is not part of `.required()`. */
  lemma NameNoMatch(ind: string, name: string, t: string, k: nat)
    requires |ind| <= k < |ind| + |name| && t != [] && t[0] == ':'
    requires !Contains(name, ".required()")
    ensures !OccursAt(ind + name + t, ".required()", k)
  {
    var s := ind + name + t;
    var n := |ind| + |name|;
    if k + 11 <= n {
      assert s[k..k + 11] == name[k - |ind|..k - |ind| + 11];
      assert !OccursAt(name, ".required()", k - |ind|);
    } else if k + 11 <= |s| {
      assert s[n] == ':';
      assert s[k..k + 11][n - k] == ':';
    }
  }

  /** In the text after the name, `.required()` occurs only at its own
      place. */
  lemma TailNoMatch(t: string)
    requires t == ": Joi.string()" + ".required(),"
    ensures forall k :: 0 <= k < 14 ==> !OccursAt(t, ".required()", k)
  {
    forall k | 0 <= k < 14 ensures !OccursAt(t, ".required()", k) {
      if k == 5 {
        assert t[k + 1] == 's';
      } else {
        assert t[k] != '.';
      }
    }
  }

  /** The update block is the create block with each rule made optional,
      line for line, when no field name contains `.required()`. */
  lemma UpdateRulesShape(fields: seq<string>)
    requires fields != []
    requires forall i :: 0 <= i < |fields| ==> !Contains(FieldName(fields[i]), ".required()")
    ensures UpdateRules(fields) == Join(OptionalRules(fields), "\n")
  {
    RuleNotEmpty(fields[0]);
    JoinFirstChar(Rules(fields), "\n");
    JoinUpdated(fields);
  }

  /** Without fields the update block is the create block's placeholder
      comment, which holds no `.required()` to replace. */
  lemma EmptyUpdateRules()
    ensures UpdateRules([]) == Placeholder()
  {
    var x := Placeholder();
    assert Join(Rules([]), "\n") == [];
    assert Indent(1) == "    " + Indent(0);
    assert Indent(2) == "    " + "    ";
    assert '.' !in x;
    ReplaceAllSkipsPrefix(x, [], ".required()", ".optional()");
    assert x + [] == x;
  }

  lemma JoinFirstChar(parts: seq<string>, sep: string)
    requires parts != [] && parts[0] != []
    ensures Join(parts, sep) != [] && Join(parts, sep)[0] == parts[0][0]
  {
  }

  lemma JoinUpdated(fields: seq<string>)
    requires fields != []
    requires forall i :: 0 <= i < |fields| ==> !Contains(FieldName(fields[i]), ".required()")
    ensures ReplaceAll(Join(Rules(fields), "\n"), ".required()", ".optional()") == Join(OptionalRules(fields), "\n")
  {
    forall i | 0 <= i < |fields|
      ensures ReplaceAll(Rules(fields)[i], ".required()", ".optional()") == OptionalRules(fields)[i]
    {
      RuleUpdated(fields[i]);
    }
    JoinReplaceAll(Rules(fields), OptionalRules(fields), ".required()", ".optional()");
  }

  // ---- The file -------------------------------------------------------------------

  /** One handler: the schema built from `rules`, validated against
      `req.<source>`, answering 400 with `message` on error. */
  function HandlerLines(key: string, rules: string, source: string, message: string): seq<string>
  {
    [Indent(1) + key + ": (req, res, next) => {",
     Indent(2) + "const schema = Joi.object({",
     rules,
     Indent(2) + "});",
     "",
     Indent(2) + "const { error } = " + "schema.validate(req." + source + ");",
     Indent(2) + "if (error) {",
     Indent(3) + "return res.status(400)" + ".json({",
     Indent(4) + "success: false,",
     Indent(4) + "message: " + message,
     Indent(3) + "});",
     Indent(2) + "}",
     Indent(2) + "next();"]
  }

  /** The `idParam` rule: exactly 24 hexadecimal characters. */
  function IdRule(): string
  {
    Indent(3) + "id: Joi.string()" + ".length(24).hex()" + ".required()"
  }

  const DetailMessage := "error.details[0].message"

  /** The file's lines for the two rule blocks. */
  function ValidationLines(name: string, createRules: string, updateRules: string): seq<string>
  {
    ["const Joi = require('joi');", "", "const " + name + "Validation = {"]
    + HandlerLines("create", createRules, "body", DetailMessage) + [Indent(1) + "},", ""]
    + HandlerLines("update", updateRules, "body", DetailMessage) + [Indent(1) + "},", ""]
    + HandlerLines("idParam", IdRule(), "params", "'Invalid ID format'")
    + [Indent(1) + "}", "};", "", "module.exports = " + name + "Validation;"]
  }

  /** The template literal, before `trim()`: it ends with a line break. */
  function ValidationSource(name: string, fields: seq<string>): string
  {
    Join(ValidationLines(name, CreateRules(fields), UpdateRules(fields)), "\n") + "\n"
  }

  function ValidationText(name: string, fields: seq<string>): string
  {
    Trim(ValidationSource(name, fields))
  }

  /** The lines start with `const` and end with `;`, and carry the two rule
      blocks and the `idParam` rule as lines of their own. */
  lemma LinesShape(name: string, createRules: string, updateRules: string)
    ensures var lines := ValidationLines(name, createRules, updateRules);
      |lines| >= 36 && lines[0] != [] && lines[0][0] == 'c'
      && lines[|lines| - 1] != [] && lines[|lines| - 1][|lines[|lines| - 1]| - 1] == ';'
      && lines[5] == createRules && lines[20] == updateRules && lines[35] == IdRule()
  {
    var first := "const Joi = require('joi');";
    assert first[0] == 'c';
    var last := "module.exports = " + name + "Validation;";
    assert last[|last| - 1] == ';';
  }

  /** Trimming only drops the final line break, and the file holds the
      create block, the update block and the `idParam` rule as written. */
  lemma ValidationTextShape(name: string, fields: seq<string>)
    ensures ValidationText(name, fields)
            == Join(ValidationLines(name, CreateRules(fields), UpdateRules(fields)), "\n")
    ensures Contains(ValidationText(name, fields), CreateRules(fields))
    ensures Contains(ValidationText(name, fields), UpdateRules(fields))
    ensures Contains(ValidationText(name, fields), IdRule())
  {
    var lines := ValidationLines(name, CreateRules(fields), UpdateRules(fields));
    LinesShape(name, CreateRules(fields), UpdateRules(fields));
    TrimmedJoin(lines);
    JoinContainsPart(lines, "\n", 5);
    JoinContainsPart(lines, "\n", 20);
    JoinContainsPart(lines, "\n", 35);
  }

  /** Lines that start and end with a visible character lose only the
      final line break to `trim()`. */
  lemma TrimmedJoin(lines: seq<string>)
    requires |lines| >= 2 && lines[0] != [] && lines[|lines| - 1] != []
    requires !IsJsSpace(lines[0][0]) && !IsJsSpace(lines[|lines| - 1][|lines[|lines| - 1]| - 1])
    ensures Trim(Join(lines, "\n") + "\n") == Join(lines, "\n")
  {
    var core := Join(lines, "\n");
    JoinFirstChar(lines, "\n");
    var last := lines[|lines| - 1];
    JoinEndsWithLast(lines, "\n");
    assert core[|core| - 1] == ("\n" + last)[|last|];
    TrimFinalNewline(core);
  }

  /** `createValidation(name, fields)`: ensures `src/validations` and
      writes the trimmed text to the validation path, whatever was there. */
  function CreateValidation(fs: FileSystem, name: string, fields: seq<string>): (r: FileSystem)
    ensures r.files == fs.files[ValidationPath(name) := ValidationText(name, fields)]
    ensures r.dirs == fs.dirs + {"src/validations"}
  {
    Write(EnsureDir(fs, "src/validations"), ValidationPath(name), ValidationText(name, fields))
  }
}

/** The CRUD views of a resource: a list view, a detail view and the
    create and edit forms, written as four `.ejs` files into the resource's
    views directory. Each field specification contributes one column, one
    detail entry and one form control, in the order given. */
module ViewScaffold {
  import opened JsString
  import opened Workspace
  import opened Templates
  import opened FieldSpec
  import ModelGenerator

  /** Which form a control is rendered for: `generateFormFields('new')` or
      `generateFormFields('edit')`. */
  datatype Mode = New | Edit

  /** A form control. `bound` controls show the record's current value:
      the checkbox is checked from it, the input is filled from it. */
  datatype Control =
    | Checkbox(name: string, bound: bool)
    | Input(ty: string, name: string, bound: bool)

  // ---- Choosing the control ---------------------------------------------------------

  /** The `type` attribute of a non-checkbox input: the lower-cased field
      type when it is number, date, email or password, and text otherwise. */
  function InputType(fieldType: string): (t: string)
    ensures t == "text" || t == Lower(fieldType)
    ensures t != "text" <==> Lower(fieldType) in {"number", "date", "email", "password"}
  {
    var k := Lower(fieldType);
    if k == "number" || k == "date" || k == "email" || k == "password" then k else "text"
  }

  /** The input type ignores the case of the field type. */
  lemma InputTypeIgnoresCase(fieldType: string)
    ensures InputType(fieldType) == InputType(Lower(fieldType))
  {
    ModelGenerator.LowerIdempotent(fieldType);
  }

  /** The control of one field: a checkbox for a `boolean` field (in any
      case), an input of the mapped type otherwise; only the edit form binds
      the control to the record. A field without a colon has type `string`. */
  function ControlFor(f: string, mode: Mode): (c: Control)
    ensures c.name == FieldName(f)
    ensures c.Checkbox? <==> Lower(FieldType(f, "string")) == "boolean"
    ensures c.Input? ==> c.ty == InputType(FieldType(f, "string"))
    ensures c.bound <==> mode == Edit
  {
    var ty := FieldType(f, "string");
    if Lower(ty) == "boolean" then Checkbox(FieldName(f), mode == Edit)
    else Input(InputType(ty), FieldName(f), mode == Edit)
  }

  /** A bare field name is a plain text input, filled from the record in the
      edit form only. */
  lemma BareFieldIsText(f: string, mode: Mode)
    requires ':' !in f
    ensures ControlFor(f, mode) == Input("text", f, mode == Edit)
  {
    var s := "string";
    assert Lower(s) == s by {
      forall i | 0 <= i < |s| ensures LowerChar(s[i]) == s[i] {
        assert 'a' <= s[i] <= 'z';
      }
    }
  }

  // ---- Rendering a control ----------------------------------------------------------

  /** `<%= v.n ? "checked" : "" %>` */
  function CheckedExpr(v: string, n: string): string
  {
    "<%= " + v + "." + n + " ? \"checked\" : \"\" %>"
  }

  /** `value="<%= v.n || "" %>"` */
  function ValueAttr(v: string, n: string): string
  {
    "value=\"<%= " + v + "." + n + " || \"\" %>\""
  }

  /** What a bound control adds to its `name` line, before the closing `>`. */
  function Binding(c: Control, v: string): string
  {
    match c
    case Checkbox(n, _) => " " + CheckedExpr(v, n)
    case Input(_, n, _) => " " + ValueAttr(v, n)
  }

  /** The index of the line that closes the `<input …>` tag. */
  function BindingLine(c: Control): nat
  {
    if c.Checkbox? then 4 else 3
  }

  /** `name="n"`: the key the control is submitted under. */
  function NameAttr(n: string): string
  {
    "name=\"" + n + "\""
  }

  /** The line closing the `<input …>` tag. */
  function NameLine(c: Control, v: string, level: nat): string
  {
    Indent(level) + "   " + NameAttr(c.name) + ((if c.bound then Binding(c, v) else "") + ">")
  }

  /** The line opening the `<input …>` tag. */
  function InputLine(c: Control, level: nat): string
  {
    Indent(level) + "<input " + TypeAttr(c) + " "
    + (if c.Checkbox? then "class=\"form-check-input\" " else "class=\"form-control\" ")
    + "id=\"" + c.name + "\" "
  }

  /** The type attribute of the rendered `<input>`: `checkbox` for a
      checkbox, the control's input type otherwise. */
  function TypeAttr(c: Control): string
  {
    if c.Checkbox? then "type=\"checkbox\"" else "type=\"" + c.ty + "\""
  }

  function LabelFor(n: string): string
  {
    "<label for=\"" + n + "\">" + n + "</label>"
  }

  /** The lines of a control's block; `v` is the record's variable. Only
      the line closing the `<input>` tag depends on the binding. */
  function ControlLines(c: Control, v: string): seq<string>
  {
    Skeleton(c.(bound := false), NameLine(c, v, NameIndent(c)))
  }

  function NameIndent(c: Control): nat
  {
    if c.Checkbox? then 8 else 5
  }

  /** A control's block with `closing` as the line closing the `<input>` tag. */
  function Skeleton(c: Control, closing: string): (lines: seq<string>)
    ensures |lines| == (if c.Checkbox? then 8 else 5)
    ensures lines[BindingLine(c)] == closing
  {
    match c
    case Checkbox(n, _) =>
      [Indent(5) + "<div class=\"form-group\">",
       Indent(6) + LabelFor(n),
       Indent(6) + "<div class=\"form-check\">",
       InputLine(c, 7),
       closing,
       Indent(7) + "<label class=\"form-check-label\" " + "for=\"" + n + "\">" + n + "</label>",
       Indent(6) + "</div>",
       Indent(5) + "</div>"]
    case Input(ty, n, _) =>
      [Indent(3) + "<div class=\"form-group\">",
       Indent(4) + LabelFor(n),
       InputLine(c, 4),
       closing,
       Indent(3) + "</div>"]
  }

  /** Two skeletons differ at most in their closing lines. */
  lemma SkeletonsAgree(c: Control, x: string, y: string)
    ensures forall i :: 0 <= i < |Skeleton(c, x)| && i != BindingLine(c) ==> Skeleton(c, x)[i] == Skeleton(c, y)[i]
  {
  }

  /** The block of one control: the template literal opens with a line break. */
  function Render(c: Control, v: string): string
  {
    "\n" + Join(ControlLines(c, v), "\n")
  }

  /** Binding a control changes one line only: the line closing the
      `<input>` tag gains the checked expression (checkbox) or the value
      attribute (input) before its final `>`; every other line is the same. */
  lemma BindingChangesOneLine(c: Control, v: string)
    ensures var free := ControlLines(c.(bound := false), v);
            var bound := ControlLines(c.(bound := true), v);
            var k := BindingLine(c);
            |free| == |bound| && k < |free|
            && (forall i :: 0 <= i < |free| && i != k ==> free[i] == bound[i])
            && free[k] != [] && free[k][|free[k]| - 1] == '>'
            && bound[k] == free[k][..|free[k]| - 1] + Binding(c, v) + ">"
  {
    var u := c.(bound := false);
    assert c.(bound := true).(bound := false) == u;
    SkeletonsAgree(u, NameLine(u, v, NameIndent(c)), NameLine(c.(bound := true), v, NameIndent(c)));
    ClosingLines(c, v);
  }

  /** The closing line of a bound control is that of the unbound one with
      the binding inserted before the final `>`. */
  lemma ClosingLines(c: Control, v: string)
    ensures var nf := NameLine(c.(bound := false), v, NameIndent(c));
            var nb := NameLine(c.(bound := true), v, NameIndent(c));
            nf != [] && nf[|nf| - 1] == '>' && nb == nf[..|nf| - 1] + Binding(c, v) + ">"
  {
    var pre := Indent(NameIndent(c)) + "   " + NameAttr(c.name);
    var nf := NameLine(c.(bound := false), v, NameIndent(c));
    assert nf == pre + ("" + ">") == pre + ">";
    assert nf[..|nf| - 1] == pre;
  }

  /** The control is submitted under the field's name. */
  lemma RenderNamesField(c: Control, v: string)
    ensures Contains(Render(c, v), NameAttr(c.name))
  {
    var lines := ControlLines(c, v);
    var k := BindingLine(c);
    var lvl := if c.Checkbox? then 8 else 5;
    var p := NameAttr(c.name);
    assert lines[k] == NameLine(c, v, lvl);
    NameLineNamesField(c, v, lvl);
    JoinContainsPart(lines, "\n", k);
    var j := Join(lines, "\n");
    ContainsWithin(j, lines[k], p);
    assert Render(c, v)[1..] == j;
    ContainsTransitive(Render(c, v), j, p, 1);
  }

  /** The rendered block carries the control's type attribute. */
  lemma RenderTyped(c: Control, v: string)
    ensures Contains(Render(c, v), TypeAttr(c))
  {
    var lines := ControlLines(c, v);
    var k := if c.Checkbox? then 3 else 2;
    var lvl := if c.Checkbox? then 7 else 4;
    var t := TypeAttr(c);
    assert lines[k] == InputLine(c, lvl);
    InputLineTyped(c, lvl);
    JoinContainsPart(lines, "\n", k);
    var j := Join(lines, "\n");
    ContainsWithin(j, lines[k], t);
    assert Render(c, v)[1..] == j;
    ContainsTransitive(Render(c, v), j, t, 1);
  }

  /** A `boolean` field (in any case) renders as a checkbox; any other
      field renders as an input of its mapped type, `text` by default. */
  lemma FieldRendersTyped(f: string, mode: Mode, v: string)
    ensures var ty := FieldType(f, "string");
            Contains(Render(ControlFor(f, mode), v),
                     if Lower(ty) == "boolean" then "type=\"checkbox\""
                     else "type=\"" + InputType(ty) + "\"")
  {
    RenderTyped(ControlFor(f, mode), v);
  }

  lemma InputLineTyped(c: Control, level: nat)
    ensures Contains(InputLine(c, level), TypeAttr(c))
  {
    var pre := Indent(level) + "<input ";
    var t := TypeAttr(c);
    var post := InputLine(c, level)[|pre| + |t|..];
    assert InputLine(c, level) == pre + t + post;
    assert OccursAt(pre + t + post, t, |pre|);
  }

  lemma NameLineNamesField(c: Control, v: string, level: nat)
    ensures Contains(NameLine(c, v, level), NameAttr(c.name))
  {
    InfixContained(Indent(level) + "   ", NameAttr(c.name), (if c.bound then Binding(c, v) else "") + ">");
  }

  lemma InfixContained(a: string, b: string, c: string)
    ensures Contains(a + b + c, b)
  {
    assert OccursAt(a + b + c, b, |a|);
  }

  // ---- Per-field pieces -------------------------------------------------------------

  /** `xs.map(f)`. */
  function MapText(xs: seq<string>, f: string -> string): (r: seq<string>)
    ensures |r| == |xs|
    ensures forall i :: 0 <= i < |xs| ==> r[i] == f(xs[i])
  {
    if xs == [] then [] else MapText(xs[..|xs| - 1], f) + [f(xs[|xs| - 1])]
  }

  /** The field names, in order. */
  function Names(fields: seq<string>): (r: seq<string>)
    ensures |r| == |fields|
    ensures forall i :: 0 <= i < |fields| ==> r[i] == FieldName(fields[i])
  {
    MapText(fields, FieldName)
  }

  /** `generateFormFields(mode)`: the fields' blocks joined by line breaks. */
  function FormFields(fields: seq<string>, v: string, mode: Mode): string
  {
    Join(Blocks(fields, v, mode), "\n")
  }

  /** The fields' controls, in order. */
  function Controls(fields: seq<string>, mode: Mode): (r: seq<Control>)
    ensures |r| == |fields|
  {
    seq(|fields|, i requires 0 <= i < |fields| => ControlFor(fields[i], mode))
  }

  /** The controls' blocks, in order. */
  function RenderAll(cs: seq<Control>, v: string): (r: seq<string>)
    ensures |r| == |cs|
  {
    seq(|cs|, i requires 0 <= i < |cs| => Render(cs[i], v))
  }

  function Blocks(fields: seq<string>, v: string, mode: Mode): (r: seq<string>)
  {
    RenderAll(Controls(fields, mode), v)
  }

  function HeaderCell(n: string): string
  {
    "<th>" + n + "</th>"
  }

  function DataCell(lower: string, n: string): string
  {
    "<td><%= " + lower + "." + n + " %></td>"
  }

  function DetailEntry(lower: string, n: string): string
  {
    "<dt class=\"col-sm-3\">" + n + ":</dt>\n" + Indent(6)
    + "<dd class=\"col-sm-9\">" + "<%= " + lower + "." + n + " %></dd>"
  }

  function HeaderRow(fields: seq<string>): string
  {
    Join(MapText(Names(fields), HeaderCell), "\n" + Indent(5))
  }

  function DataRow(lower: string, fields: seq<string>): string
  {
    Join(MapText(Names(fields), n => DataCell(lower, n)), "\n" + Indent(6))
  }

  function DetailEntries(lower: string, fields: seq<string>): string
  {
    Join(MapText(Names(fields), n => DetailEntry(lower, n)), "\n\n" + Indent(6))
  }

  // ---- The list view ----------------------------------------------------------------

  function IndexHead(name: string, lower: string, headers: string): seq<string>
  {
    ["<!-- " + name + "s/index.ejs -->",
     Indent(1) + "<div class=\"container\">",
     Indent(2) + "<h1 class=\"mb-4\">" + name + "s List</h1>",
     Indent(2),
     Indent(2) + "<div class=\"mb-4\">",
     Indent(3) + "<a href=\"/" + lower + "s/new\" " + "class=\"btn btn-success\">"
     + "Create New " + name + "</a>",
     Indent(2) + "</div>",
     "",
     Indent(2) + "<table id=\"" + lower + "sTable\" " + "class=\"table table-striped\">",
     Indent(3) + "<thead>",
     Indent(4) + "<tr>",
     Indent(5) + "<th>ID</th>",
     Indent(5) + headers,
     Indent(5) + "<th>Actions</th>"]
  }

  function IndexBody(lower: string, cells: string): seq<string>
  {
    [Indent(4) + "</tr>",
     Indent(3) + "</thead>",
     Indent(3) + "<tbody>",
     Indent(4) + "<% " + lower + "s.forEach(" + lower + " => { %>",
     Indent(5) + "<tr>",
     Indent(6) + "<td><%= " + lower + ".id %></td>",
     Indent(6) + cells,
     Indent(6) + "<td class=\"action-buttons\">",
     Indent(7) + "<a href=\"/" + lower + "s/<%= " + lower + ".id %>\" "
     + "class=\"btn btn-info btn-sm\">" + "View</a>",
     Indent(7) + "<a href=\"/" + lower + "s/<%= " + lower + ".id %>/edit\" "
     + "class=\"btn btn-warning btn-sm\">" + "Edit</a>",
     Indent(7) + "<form action=\"/" + lower + "s/<%= " + lower + ".id %>"
     + "/?_method=DELETE\" " + "method=\"POST\" " + "style=\"display: inline;\">",
     Indent(8) + "<button type=\"submit\" " + "class=\"btn btn-danger btn-sm\" "
     + "onclick=\"return confirm(" + "'Are you sure?')\">" + "Delete</button>",
     Indent(7) + "</form>",
     Indent(6) + "</td>",
     Indent(5) + "</tr>"]
  }

  function IndexTail(lower: string): seq<string>
  {
    [Indent(4) + "<% }); %>",
     Indent(3) + "</tbody>",
     Indent(2) + "</table>",
     Indent(1) + "</div>",
     "",
     Indent(1) + "<script>",
     Indent(2) + "$(document).ready(function() {",
     Indent(3) + "$('#" + lower + "sTable')" + ".DataTable({",
     Indent(4) + "pageLength: 10,",
     Indent(4) + "order: [[0, 'desc']]",
     Indent(3) + "});",
     Indent(2) + "});",
     Indent(1) + "</script>"]
  }

  function IndexLines(name: string, fields: seq<string>): seq<string>
  {
    var lower := Lower(name);
    IndexHead(name, lower, HeaderRow(fields)) + IndexBody(lower, DataRow(lower, fields))
    + IndexTail(lower)
  }

  // ---- The detail view --------------------------------------------------------------

  function ShowHead(name: string, lower: string, entries: string): seq<string>
  {
    ["<!-- " + name + "/show.ejs -->",
     Indent(1) + "<div class=\"container\">",
     Indent(2) + "<div class=\"detail-card\">",
     Indent(3) + "<div class=\"card\">",
     Indent(4) + "<div class=\"card-header\">",
     Indent(5) + "<h2>" + name + " Details</h2>",
     Indent(4) + "</div>",
     Indent(4) + "<div class=\"card-body\">",
     Indent(5) + "<dl class=\"row\">",
     Indent(6) + "<dt class=\"col-sm-3\">ID:</dt>",
     Indent(6) + "<dd class=\"col-sm-9\">" + "<%= " + lower + ".id %></dd>",
     "",
     Indent(6) + entries]
  }

  function ShowTail(lower: string): seq<string>
  {
    [Indent(6),
     Indent(6) + "<dt class=\"col-sm-3\">" + "Created At:</dt>",
     Indent(6) + "<dd class=\"col-sm-9\">" + "<%= new Date(" + lower + ".createdAt)"
     + ".toLocaleString() %></dd>",
     Indent(6),
     Indent(6) + "<dt class=\"col-sm-3\">" + "Updated At:</dt>",
     Indent(6) + "<dd class=\"col-sm-9\">" + "<%= new Date(" + lower + ".updatedAt)"
     + ".toLocaleString() %></dd>",
     Indent(5) + "</dl>",
     Indent(4) + "</div>",
     Indent(4) + "<div class=\"card-footer\">",
     Indent(5) + "<a href=\"/" + lower + "s\" " + "class=\"btn btn-secondary\">" + "Back to List</a>",
     Indent(5) + "<a href=\"/" + lower + "s/<%= " + lower + ".id %>/edit\" "
     + "class=\"btn btn-warning\">Edit</a>",
     Indent(4) + "</div>",
     Indent(3) + "</div>",
     Indent(2) + "</div>",
     Indent(1) + "</div>"]
  }

  function ShowLines(name: string, fields: seq<string>): seq<string>
  {
    var lower := Lower(name);
    ShowHead(name, lower, DetailEntries(lower, fields)) + ShowTail(lower)
  }

  // ---- The two forms ----------------------------------------------------------------

  /** The layout shared by the create and edit forms. */
  function FormLines(first: string, title: string, formTag: string, controls: string,
                     button: string, lower: string): seq<string>
  {
    [first,
     Indent(1) + "<div class=\"container\">",
     Indent(2) + "<div class=\"form-container\">",
     Indent(3) + "<h1 class=\"mb-4\">" + title + "</h1>",
     Indent(3),
     Indent(3) + formTag,
     Indent(4) + controls,
     Indent(4),
     Indent(4) + "<div class=\"mt-4\">",
     Indent(5) + button,
     Indent(5) + "<a href=\"/" + lower + "s\" " + "class=\"btn btn-secondary\">" + "Cancel</a>",
     Indent(4) + "</div>",
     Indent(3) + "</form>",
     Indent(2) + "</div>",
     Indent(1) + "</div>"]
  }

  function NewLines(name: string, fields: seq<string>): seq<string>
  {
    var lower := Lower(name);
    FormLines("<!-- " + name + "/new.ejs --> ",
              "Create New " + name,
              "<form method=\"POST\" " + "action=\"/" + lower + "s\">",
              FormFields(fields, lower, New),
              "<button type=\"submit\" " + "class=\"btn btn-success\">" + "Create " + name + "</button>",
              lower)
  }

  function EditLines(name: string, fields: seq<string>): seq<string>
  {
    var lower := Lower(name);
    FormLines("<!-- " + name + "/edit.ejs -->",
              "Edit " + name,
              "<form method=\"POST\" " + "action=\"/" + lower + "s/<%= " + lower + ".id %>"
              + "/?_method=PUT\">" + Indent(4),
              FormFields(fields, lower, Edit),
              "<button type=\"submit\" " + "class=\"btn btn-warning\">" + "Update " + name + "</button>",
              lower)
  }

  // ---- The files --------------------------------------------------------------------

  /** A view's template literal: a line break, the first line's
      indentation, the lines, and a final line break. */
  function ViewSource(lines: seq<string>): string
  {
    "\n" + Indent(1) + Join(lines, "\n") + "\n"
  }

  /** `content.trim()`, as written to the file. */
  function ViewText(lines: seq<string>): string
  {
    Trim(ViewSource(lines))
  }

  function ViewPath(name: string, file: string): string
  {
    ViewsDir(name) + "/" + file
  }

  /** Ensures the views directory of `name`, then writes the four texts
      to the index, show, new and edit views, in that order. */
  function WriteViews(fs: FileSystem, name: string, index: string, show: string,
                      create: string, edit: string): (r: FileSystem)
    ensures r.dirs == fs.dirs + {ViewsDir(name)}
    ensures r.files == fs.files[ViewPath(name, "index.ejs") := index]
                               [ViewPath(name, "show.ejs") := show]
                               [ViewPath(name, "new.ejs") := create]
                               [ViewPath(name, "edit.ejs") := edit]
  {
    var fs1 := EnsureDir(fs, ViewsDir(name));
    var fs2 := Write(fs1, ViewPath(name, "index.ejs"), index);
    var fs3 := Write(fs2, ViewPath(name, "show.ejs"), show);
    var fs4 := Write(fs3, ViewPath(name, "new.ejs"), create);
    Write(fs4, ViewPath(name, "edit.ejs"), edit)
  }

  /** `createViewScaffold(name, fields)`: the four trimmed views written
      into the views directory, replacing whatever was there. */
  function CreateViewScaffold(fs: FileSystem, name: string, fields: seq<string>): (r: FileSystem)
  {
    WriteViews(fs, name, ViewText(IndexLines(name, fields)), ViewText(ShowLines(name, fields)),
               ViewText(NewLines(name, fields)), ViewText(EditLines(name, fields)))
  }

  /** The four view files have four different paths inside the views
      directory, so no write overwrites another view. */
  lemma ViewPathsDistinct(name: string)
    ensures var i, s, n, e := ViewPath(name, "index.ejs"), ViewPath(name, "show.ejs"),
                              ViewPath(name, "new.ejs"), ViewPath(name, "edit.ejs");
            i != s && i != n && i != e && s != n && s != e && n != e
    ensures forall file :: StartsWith(ViewPath(name, file), ViewsDir(name) + "/")
  {
    var d := ViewsDir(name) + "/";
    var s, e := d + "show.ejs", d + "edit.ejs";
    assert s[|d|] == 's' && e[|d|] == 'e';
    forall file ensures StartsWith(ViewPath(name, file), d) {
      assert ViewPath(name, file)[..|d|] == d;
    }
  }

  /** Exactly the four views are written: each view path holds its own
      text, and every other file is as it was. */
  lemma WritesFourViews(fs: FileSystem, name: string, index: string, show: string,
                        create: string, edit: string)
    ensures var r := WriteViews(fs, name, index, show, create, edit);
            && r.files[ViewPath(name, "index.ejs")] == index
            && r.files[ViewPath(name, "show.ejs")] == show
            && r.files[ViewPath(name, "new.ejs")] == create
            && r.files[ViewPath(name, "edit.ejs")] == edit
            && (forall q :: q in r.files <==> q in fs.files || q in ViewPaths(name))
            && (forall q :: q in fs.files && q !in ViewPaths(name) ==> r.files[q] == fs.files[q])
  {
    ViewPathsDistinct(name);
  }

  /** Writing the same views again leaves the project as one write does. */
  lemma WriteViewsTwice(fs: FileSystem, name: string, index: string, show: string,
                        create: string, edit: string)
    ensures var r := WriteViews(fs, name, index, show, create, edit);
            WriteViews(r, name, index, show, create, edit) == r
  {
    ViewPathsDistinct(name);
    var r := WriteViews(fs, name, index, show, create, edit);
    var m := r.files;
    UpdateSame(m, ViewPath(name, "index.ejs"), index);
    UpdateSame(m, ViewPath(name, "show.ejs"), show);
    UpdateSame(m, ViewPath(name, "new.ejs"), create);
    UpdateSame(m, ViewPath(name, "edit.ejs"), edit);
    assert r.dirs + {ViewsDir(name)} == r.dirs;
  }

  /** Writing what a file already holds changes nothing. */
  lemma UpdateSame(m: map<string, string>, k: string, x: string)
    requires k in m && m[k] == x
    ensures m[k := x] == m
  {
  }

  /** Running the generator twice leaves the project as one run does. */
  lemma ScaffoldRerun(fs: FileSystem, name: string, fields: seq<string>)
    ensures CreateViewScaffold(CreateViewScaffold(fs, name, fields), name, fields)
            == CreateViewScaffold(fs, name, fields)
  {
    WriteViewsTwice(fs, name, ViewText(IndexLines(name, fields)), ViewText(ShowLines(name, fields)),
                    ViewText(NewLines(name, fields)), ViewText(EditLines(name, fields)));
  }

  function ViewPaths(name: string): set<string>
  {
    {ViewPath(name, "index.ejs"), ViewPath(name, "show.ejs"),
     ViewPath(name, "new.ejs"), ViewPath(name, "edit.ejs")}
  }

  // ---- What the views show ---------------------------------------------------------

  /** `trim()` removes exactly the opening line break and indentation and
      the final line break of a view whose first line starts and whose last
      line ends with a tag; a piece of any line is a piece of the file. */
  lemma ViewContains(lines: seq<string>, k: nat, part: string)
    requires k < |lines| && Contains(lines[k], part)
    requires lines[0] != [] && lines[0][0] == '<'
    requires lines[|lines| - 1] != [] && lines[|lines| - 1][|lines[|lines| - 1]| - 1] == '>'
    ensures ViewText(lines) == Join(lines, "\n")
    ensures Contains(ViewText(lines), part)
  {
    ViewTrimmed(lines);
    JoinContainsPart(lines, "\n", k);
    ContainsWithin(Join(lines, "\n"), lines[k], part);
  }

  lemma ViewTrimmed(lines: seq<string>)
    requires lines != [] && lines[0] != [] && lines[0][0] == '<'
    requires lines[|lines| - 1] != [] && lines[|lines| - 1][|lines[|lines| - 1]| - 1] == '>'
    ensures ViewText(lines) == Join(lines, "\n")
  {
    var j := Join(lines, "\n");
    JoinStarts(lines, "\n");
    JoinLastChar(lines, "\n");
    var pre := "\n" + Indent(1);
    OpeningIsSpace(pre);
    TrimAround(pre, j, "\n");
  }

  /** The opening line break and indentation are white space. */
  lemma OpeningIsSpace(pre: string)
    requires pre == "\n" + Indent(1)
    ensures AllSpace(pre)
  {
    assert Indent(1) == "    ";
    assert forall i :: 0 <= i < |pre| ==> pre[i] == '\n' || pre[i] == ' ';
  }

  lemma JoinLastChar(parts: seq<string>, sep: string)
    requires parts != [] && parts[|parts| - 1] != []
    ensures var j := Join(parts, sep); var last := parts[|parts| - 1];
            j != [] && j[|j| - 1] == last[|last| - 1]
  {
    var last := parts[|parts| - 1];
    if |parts| >= 2 {
      JoinEndsWithLast(parts, sep);
      var j := Join(parts, sep);
      assert j[|j| - 1] == (sep + last)[|sep + last| - 1];
    }
  }

  lemma JoinStarts(parts: seq<string>, sep: string)
    requires parts != [] && parts[0] != []
    ensures Join(parts, sep) != [] && Join(parts, sep)[0] == parts[0][0]
  {
  }

  /** An indented row of joined pieces shows every piece. */
  lemma RowContains(lead: string, parts: seq<string>, sep: string, i: nat)
    requires i < |parts|
    ensures Contains(lead + Join(parts, sep), parts[i])
  {
    JoinContainsPart(parts, sep, i);
    assert lead + Join(parts, sep) == lead + Join(parts, sep) + [];
    ContainsInfix(lead, Join(parts, sep), [], parts[i]);
  }

  /** The list view is the trimmed template and has a header cell and a
      data cell for every field, under the field's name. */
  lemma IndexColumns(name: string, fields: seq<string>, i: nat)
    requires i < |fields|
    ensures var text := ViewText(IndexLines(name, fields));
            var n := FieldName(fields[i]);
            text == Join(IndexLines(name, fields), "\n")
            && Contains(text, HeaderCell(n)) && Contains(text, DataCell(Lower(name), n))
  {
    var lower := Lower(name);
    var lines := IndexLines(name, fields);
    var names := Names(fields);
    var first := "<!-- " + name + "s/index.ejs -->";
    var last := Indent(1) + "</script>";
    assert lines[0] == first && first[0] == '<';
    assert lines[|lines| - 1] == last && last[|last| - 1] == '>';
    assert lines[12] == Indent(5) + HeaderRow(fields);
    assert lines[20] == Indent(6) + DataRow(lower, fields);
    RowContains(Indent(5), MapText(names, HeaderCell), "\n" + Indent(5), i);
    ViewContains(lines, 12, HeaderCell(names[i]));
    RowContains(Indent(6), MapText(names, n => DataCell(lower, n)), "\n" + Indent(6), i);
    ViewContains(lines, 20, DataCell(lower, names[i]));
  }

  /** The per-field texts of the first field, then those of the rest. */
  lemma MapNamesCons(fields: seq<string>, f: string -> string)
    requires |fields| > 0
    ensures MapText(Names(fields), f)[0] == f(FieldName(fields[0]))
    ensures MapText(Names(fields), f)[1..] == MapText(Names(fields[1..]), f)
  {
    var a, b := MapText(Names(fields), f)[1..], MapText(Names(fields[1..]), f);
    assert |a| == |b|;
    forall k | 0 <= k < |a| ensures a[k] == b[k] {
      assert a[k] == f(FieldName(fields[k + 1]));
      assert fields[1..][k] == fields[k + 1];
    }
  }

  /** The list view's header row (line 12) and data row (line 20) hold one
      cell per field, in input order: the first field's cell, the line
      break and indentation, then the cells of the remaining fields. */
  lemma IndexRowsInOrder(name: string, fields: seq<string>)
    ensures var lines := IndexLines(name, fields);
            lines[12] == Indent(5) + HeaderRow(fields) && lines[20] == Indent(6) + DataRow(Lower(name), fields)
    ensures fields == [] ==> HeaderRow(fields) == [] && DataRow(Lower(name), fields) == []
    ensures |fields| == 1 ==> HeaderRow(fields) == HeaderCell(FieldName(fields[0]))
                              && DataRow(Lower(name), fields) == DataCell(Lower(name), FieldName(fields[0]))
    ensures |fields| > 1 ==>
              && HeaderRow(fields) == HeaderCell(FieldName(fields[0])) + "\n" + Indent(5) + HeaderRow(fields[1..])
              && DataRow(Lower(name), fields)
                 == DataCell(Lower(name), FieldName(fields[0])) + "\n" + Indent(6) + DataRow(Lower(name), fields[1..])
  {
    var lower := Lower(name);
    if |fields| > 0 {
      MapNamesCons(fields, HeaderCell);
      MapNamesCons(fields, n => DataCell(lower, n));
    }
  }

  /** The detail view's entries (line 12) come one per field, in input
      order, separated by a blank line. */
  lemma ShowEntriesInOrder(name: string, fields: seq<string>)
    ensures ShowLines(name, fields)[12] == Indent(6) + DetailEntries(Lower(name), fields)
    ensures fields == [] ==> DetailEntries(Lower(name), fields) == []
    ensures |fields| == 1 ==> DetailEntries(Lower(name), fields) == DetailEntry(Lower(name), FieldName(fields[0]))
    ensures |fields| > 1 ==>
              DetailEntries(Lower(name), fields)
              == DetailEntry(Lower(name), FieldName(fields[0])) + "\n\n" + Indent(6)
                 + DetailEntries(Lower(name), fields[1..])
  {
    var lower := Lower(name);
    if |fields| > 0 {
      MapNamesCons(fields, n => DetailEntry(lower, n));
    }
  }

  /** The detail view is the trimmed template and has an entry for every
      field, under the field's name. */
  lemma ShowEntries(name: string, fields: seq<string>, i: nat)
    requires i < |fields|
    ensures var text := ViewText(ShowLines(name, fields));
            text == Join(ShowLines(name, fields), "\n")
            && Contains(text, DetailEntry(Lower(name), FieldName(fields[i])))
  {
    var lower := Lower(name);
    var lines := ShowLines(name, fields);
    var names := Names(fields);
    var first := "<!-- " + name + "/show.ejs -->";
    var last := Indent(1) + "</div>";
    assert lines[0] == first && first[0] == '<';
    assert lines[|lines| - 1] == last && last[|last| - 1] == '>';
    assert lines[12] == Indent(6) + DetailEntries(lower, fields);
    RowContains(Indent(6), MapText(names, n => DetailEntry(lower, n)), "\n\n" + Indent(6), i);
    ViewContains(lines, 12, DetailEntry(lower, names[i]));
  }

  /** A form shows the block of every field. */
  lemma FormHasBlock(lines: seq<string>, blocks: seq<string>, i: nat)
    requires i < |blocks| && |lines| > 6 && lines[6] == Indent(4) + Join(blocks, "\n")
    requires lines[0] != [] && lines[0][0] == '<'
    requires lines[|lines| - 1] != [] && lines[|lines| - 1][|lines[|lines| - 1]| - 1] == '>'
    ensures Contains(ViewText(lines), blocks[i])
  {
    RowContains(Indent(4), blocks, "\n", i);
    ViewContains(lines, 6, blocks[i]);
  }

  /** A form shows the control of every field, submitted under the
      field's name. */
  lemma FormShowsField(first: string, title: string, formTag: string, button: string,
                       lower: string, fields: seq<string>, mode: Mode, i: nat)
    requires i < |fields| && first != [] && first[0] == '<'
    ensures var text := ViewText(FormLines(first, title, formTag, FormFields(fields, lower, mode),
                                           button, lower));
            Contains(text, Render(ControlFor(fields[i], mode), lower))
            && Contains(text, NameAttr(FieldName(fields[i])))
  {
    var cs := Controls(fields, mode);
    var bs := RenderAll(cs, lower);
    var lines := FormLines(first, title, formTag, Join(bs, "\n"), button, lower);
    FormLinesEnds(first, title, formTag, Join(bs, "\n"), button, lower);
    FormHasBlock(lines, bs, i);
    NamedIn(ViewText(lines), cs[i], lower);
  }

  /** The form's first line, its controls line and its closing tag. */
  lemma FormLinesEnds(first: string, title: string, formTag: string, controls: string,
                      button: string, lower: string)
    ensures var lines := FormLines(first, title, formTag, controls, button, lower);
            var last := lines[|lines| - 1];
            |lines| == 15 && lines[0] == first && lines[6] == Indent(4) + controls
            && last != [] && last[|last| - 1] == '>'
  {
    var last := Indent(1) + "</div>";
    assert last[|last| - 1] == '>';
  }

  /** The create form has an unbound control for every field, submitted
      under the field's name. */
  lemma NewFormControls(name: string, fields: seq<string>, i: nat)
    requires i < |fields|
    ensures Contains(ViewText(NewLines(name, fields)), Render(ControlFor(fields[i], New), Lower(name)))
    ensures Contains(ViewText(NewLines(name, fields)), NameAttr(FieldName(fields[i])))
    ensures !ControlFor(fields[i], New).bound
  {
    var lower := Lower(name);
    var first := "<!-- " + name + "/new.ejs --> ";
    assert first[0] == '<';
    FormShowsField(first, "Create New " + name, "<form method=\"POST\" " + "action=\"/" + lower + "s\">",
                   "<button type=\"submit\" " + "class=\"btn btn-success\">" + "Create " + name + "</button>",
                   lower, fields, New, i);
  }

  /** The edit form has a control bound to the record for every field,
      submitted under the field's name. */
  lemma EditFormControls(name: string, fields: seq<string>, i: nat)
    requires i < |fields|
    ensures Contains(ViewText(EditLines(name, fields)), Render(ControlFor(fields[i], Edit), Lower(name)))
    ensures Contains(ViewText(EditLines(name, fields)), NameAttr(FieldName(fields[i])))
    ensures ControlFor(fields[i], Edit).bound
  {
    var lower := Lower(name);
    var first := "<!-- " + name + "/edit.ejs -->";
    assert first[0] == '<';
    FormShowsField(first, "Edit " + name,
                   "<form method=\"POST\" " + "action=\"/" + lower + "s/<%= " + lower + ".id %>"
                   + "/?_method=PUT\">" + Indent(4),
                   "<button type=\"submit\" " + "class=\"btn btn-warning\">" + "Update " + name + "</button>",
                   lower, fields, Edit, i);
  }

  lemma NamedIn(text: string, c: Control, v: string)
    requires Contains(text, Render(c, v))
    ensures Contains(text, NameAttr(c.name))
  {
    RenderNamesField(c, v);
    ContainsWithin(text, Render(c, v), NameAttr(c.name));
  }
}

/** `createRelationshipViews` (lib/generators/relationshipViews.js): for
    `hasMany` a section listing the children goes before the last `</div>`
    of the parent's `show.ejs`; for `belongsTo` a parent `<select>` goes
    right after the `<form …>` tag of the child's `new.ejs` and `edit.ejs`.
    Neither splice checks for an earlier one. */
module RelationshipViews {
  import opened JsString
  import opened Workspace
  import opened Templates

  // ---- The inserted markup ---------------------------------------------------

  /** The card header and the "Add New" link of the children section; the
      template literal opens with a line break. */
  function SectionHead(parent: string, child: string): seq<string>
  {
    var lp, lc := Lower(parent), Lower(child);
    ["",
     "<!-- " + child + "s Section -->",
     "<div class=\"card mt-4\">",
     Indent(1) + "<div class=\"card-header\">",
     Indent(2) + "<h4>" + child + "s</h4>",
     Indent(1) + "</div>",
     Indent(1) + "<div class=\"card-body\">",
     Indent(2) + "<a href=\"/" + lc + "s/new?" + lp + "Id=<%= " + lp + ".id %>\" ",
     Indent(2) + "   class=\"btn btn-success " + "mb-3\">",
     Indent(3) + "Add New " + child,
     Indent(2) + "</a>",
     Indent(2)]
  }

  function SectionTableHead(): seq<string>
  {
    [Indent(2) + "<table class=\"table\">",
     Indent(3) + "<thead>",
     Indent(4) + "<tr>",
     Indent(5) + "<th>Title</th>",
     Indent(5) + "<th>Created At</th>",
     Indent(5) + "<th>Actions</th>",
     Indent(4) + "</tr>",
     Indent(3) + "</thead>",
     Indent(3) + "<tbody>"]
  }

  /** One row per child in `<parent>.<child>Details`. */
  function SectionRows(parent: string, child: string): seq<string>
  {
    var lp, lc := Lower(parent), Lower(child);
    [Indent(4) + "<% " + lp + "." + lc + "Details && " + lp + "." + lc + "Details.forEach(" + lc + " => { %>",
     Indent(4) + "<tr>",
     Indent(5) + "<td><%= " + lc + ".title %></td>",
     Indent(5) + "<td><%= new Date(" + lc + ".createdAt)" + ".toLocaleString() %></td>",
     Indent(5) + "<td>",
     Indent(6) + "<a href=\"/" + lc + "s/<%= " + lc + ".id %>\" ",
     Indent(6) + "   class=\"btn btn-info " + "btn-sm\">View</a>",
     Indent(5) + "</td>",
     Indent(4) + "</tr>",
     Indent(4) + "<% }); %>",
     Indent(3) + "</tbody>",
     Indent(2) + "</table>",
     Indent(1) + "</div>",
     "</div>"]
  }

  /** `relatedSection`. */
  function RelatedSection(parent: string, child: string): string
  {
    Join(SectionHead(parent, child) + SectionTableHead() + SectionRows(parent, child), "\n")
  }

  /** `parentSelect`; `selected` is the id the option is compared with. */
  function SelectLines(parent: string, selected: string): seq<string>
  {
    var lp := Lower(parent);
    ["",
     "<div class=\"form-group\">",
     Indent(1) + "<label for=\"" + lp + "Id\">" + parent + "</label>",
     Indent(1) + "<select class=\"form-control\" " + "id=\"" + lp + "Id\" name=\"" + lp + "Id\" required>",
     Indent(2) + "<option value=\"\">Select " + parent + "</option>",
     Indent(2) + "<% " + lp + "s.forEach(" + lp + " => { %>",
     Indent(2) + "<option value=\"<%= " + lp + ".id %>\" ",
     Indent(4) + "<%= " + selected + " === " + lp + ".id ? " + "'selected' : '' %>>",
     Indent(3) + "<%= " + lp + ".name %>",
     Indent(2) + "</option>",
     Indent(2) + "<% }); %>",
     Indent(1) + "</select>",
     "</div>"]
  }

  /** The select of `new.ejs` compares `<parent>Id`. */
  function NewSelect(parent: string): string
  {
    Join(SelectLines(parent, Lower(parent) + "Id"), "\n")
  }

  /** The select of `edit.ejs` compares `<child>.<parent>Id`. */
  function EditSelect(parent: string, child: string): string
  {
    Join(SelectLines(parent, Lower(child) + "." + Lower(parent) + "Id"), "\n")
  }

  // ---- The splices -----------------------------------------------------------

  /** `content.slice(0, containerEnd) + relatedSection + content.slice(containerEnd)`
      with `containerEnd = content.lastIndexOf('</div>')`. */
  function InsertBeforeLastDiv(content: string, section: string): string
  {
    Splice(content, LastIndexOf(content, "</div>", |content|), section)
  }

  /** The select goes after the first `>` at or after the first `<form`; a
      missing `<form` searches from 0 and a missing `>` gives offset 0. */
  function InsertAfterForm(content: string, select: string): string
  {
    var formStart := IndexOf(content, "<form", 0);
    var afterFormStart := IndexOf(content, ">", formStart) + 1;
    Splice(content, afterFormStart, "\n" + select)
  }

  // ---- Orchestration ---------------------------------------------------------

  function ShowFile(parent: string): string { ViewsDir(parent) + "/show.ejs" }
  function NewFile(child: string): string { ViewsDir(child) + "/new.ejs" }
  function EditFile(child: string): string { ViewsDir(child) + "/edit.ejs" }

  /** Patches one view when it exists. */
  function PatchView(fs: FileSystem, path: string, patched: string -> string): FileSystem
  {
    if path in fs.files then Write(fs, path, patched(fs.files[path])) else fs
  }

  /** The call with the inserted markup as parameters. */
  function Run(fs: FileSystem, parent: string, child: string, kind: string,
               section: string, newSelect: string, editSelect: string): FileSystem
  {
    var withDir := EnsureDir(fs, ViewsDir(parent));
    if kind == "hasMany" then
      PatchView(withDir, ShowFile(parent), c => InsertBeforeLastDiv(c, section))
    else if kind == "belongsTo" then
      var withNew := PatchView(withDir, NewFile(child), c => InsertAfterForm(c, newSelect));
      PatchView(withNew, EditFile(child), c => InsertAfterForm(c, editSelect))
    else withDir
  }

  /** `createRelationshipViews(parentModel, childModel, relationshipType)`. */
  function CreateRelationshipViews(fs: FileSystem, parent: string, child: string, kind: string): FileSystem
  {
    Run(fs, parent, child, kind, RelatedSection(parent, child), NewSelect(parent), EditSelect(parent, child))
  }

  // ---- Properties of the splices -------------------------------------------

  lemma DivBorderFree()
    ensures BorderFree("</div>")
  {
    BorderFreeByHead("</div>");
  }

  /** The section goes immediately before the last `</div>`; the rest of the
      file is unchanged. */
  lemma SectionBeforeLastDiv(content: string, x: string, y: string, section: string)
    requires content == x + "</div>" + y && !Contains(y, "</div>")
    ensures InsertBeforeLastDiv(content, section) == x + section + ("</div>" + y)
  {
    DivBorderFree();
    LastOccurrence(x, "</div>", y);
    assert content[..|x|] == x && content[|x|..] == "</div>" + y;
  }

  /** Without `</div>` the offset is -1, which `slice` reads as one before
      the end: the section goes before the last character. */
  lemma SectionWithoutDiv(content: string, section: string)
    requires !Contains(content, "</div>")
    ensures content == [] ==> InsertBeforeLastDiv(content, section) == section
    ensures content != [] ==>
      InsertBeforeLastDiv(content, section) == content[..|content| - 1] + section + content[|content| - 1..]
  {
    assert LastIndexOf(content, "</div>", |content|) == -1;
  }

  /** The select goes right after the `>` that closes the first `<form`
      tag. */
  lemma SelectAfterFormTag(content: string, x: string, attrs: string, y: string, select: string)
    requires content == x + "<form" + attrs + ">" + y
    requires !Contains(x, "<form") && '>' !in attrs
    ensures InsertAfterForm(content, select) == x + "<form" + attrs + ">" + ("\n" + select) + y
  {
    var k := |x| + 5 + |attrs| + 1;
    calc {
      InsertAfterForm(content, select);
      { FormAt(content, x, attrs + ">" + y); }
      Splice(content, IndexOf(content, ">", |x|) + 1, "\n" + select);
      { TagEndAt(content, x, "<form" + attrs, y); }
      Splice(content, k, "\n" + select);
      { assert content[..k] == x + "<form" + attrs + ">" && content[k..] == y; }
      x + "<form" + attrs + ">" + ("\n" + select) + y;
    }
  }

  // The first `<form` of the text is the one after `x`.
  lemma FormAt(content: string, x: string, rest: string)
    requires content == x + "<form" + rest && !Contains(x, "<form")
    ensures IndexOf(content, "<form", 0) == |x|
  {
    BorderFreeByHead("<form");
    FirstOccurrence(x, "<form", rest);
  }

  // From the end of `a`, the first `>` is the one after `m`.
  lemma TagEndAt(content: string, a: string, m: string, y: string)
    requires content == a + m + ">" + y && '>' !in m
    ensures IndexOf(content, ">", |a|) == |a| + |m|
  {
    assert content == a + m + ['>'] + y;
    NextChar(a, m, '>', y);
  }

  /** Without `<form` the search for `>` starts at 0: the select follows
      the first `>` of the file. */
  lemma SelectWithoutForm(content: string, x: string, y: string, select: string)
    requires content == x + ">" + y
    requires !Contains(content, "<form") && '>' !in x
    ensures InsertAfterForm(content, select) == x + ">" + ("\n" + select) + y
  {
    assert IndexOf(content, "<form", 0) == -1;
    assert content == [] + x + ['>'] + y;
    NextChar([], x, '>', y);
    assert content[..|x| + 1] == x + ">" && content[|x| + 1..] == y;
  }

  /** Without any `>` the offset is -1 + 1 = 0: the select goes in front. */
  lemma SelectWithoutTagEnd(content: string, select: string)
    requires '>' !in content
    ensures InsertAfterForm(content, select) == "\n" + select + content
  {
    var formStart := IndexOf(content, "<form", 0);
    forall j | 0 <= j <= |content| ensures !OccursAt(content, ">", j) {
      if j < |content| {
        assert content[j] != '>';
        assert j + 1 <= |content| ==> content[j..j + 1][0] == content[j];
      }
    }
    assert IndexOf(content, ">", formStart) == -1;
  }

  // ---- Properties of the call ----------------------------------------------

  /** Whatever the kind, the parent's views directory exists afterwards and
      no other directory is created. */
  lemma RunCreatesViewsDir(fs: FileSystem, parent: string, child: string, kind: string,
                           section: string, newSelect: string, editSelect: string)
    ensures Run(fs, parent, child, kind, section, newSelect, editSelect).dirs == fs.dirs + {ViewsDir(parent)}
  {
  }

  /** A type other than `hasMany` and `belongsTo` only creates the
      directory. */
  lemma RunOtherKinds(fs: FileSystem, parent: string, child: string, kind: string,
                      section: string, newSelect: string, editSelect: string)
    requires kind != "hasMany" && kind != "belongsTo"
    ensures Run(fs, parent, child, kind, section, newSelect, editSelect).files == fs.files
  {
  }

  /** `hasMany` patches the parent's `show.ejs` when it exists and touches no
      other file. */
  lemma RunHasMany(fs: FileSystem, parent: string, child: string,
                   section: string, newSelect: string, editSelect: string)
    ensures var show := ShowFile(parent);
      var r := Run(fs, parent, child, "hasMany", section, newSelect, editSelect);
      r.files == if show in fs.files then fs.files[show := InsertBeforeLastDiv(fs.files[show], section)]
                 else fs.files
  {
  }

  lemma NewAndEditDiffer(child: string)
    ensures NewFile(child) != EditFile(child)
  {
    assert |NewFile(child)| != |EditFile(child)|;
  }

  /** `belongsTo` patches the child's `new.ejs` and `edit.ejs`, each only
      when it exists, and touches no other file. */
  lemma RunBelongsTo(fs: FileSystem, parent: string, child: string,
                     section: string, newSelect: string, editSelect: string)
    ensures var r := Run(fs, parent, child, "belongsTo", section, newSelect, editSelect);
      && (forall q :: q in r.files <==> q in fs.files)
      && (forall q :: q in fs.files ==>
            r.files[q] == (if q == NewFile(child) then InsertAfterForm(fs.files[q], newSelect)
                           else if q == EditFile(child) then InsertAfterForm(fs.files[q], editSelect)
                           else fs.files[q]))
  {
    NewAndEditDiffer(child);
  }

  /** Nothing detects an earlier section: a second `hasMany` call inserts
      the section again. */
  lemma RunNotIdempotent(fs: FileSystem, parent: string, child: string,
                         section: string, newSelect: string, editSelect: string)
    requires ShowFile(parent) in fs.files
    ensures var show := ShowFile(parent);
      var once := Run(fs, parent, child, "hasMany", section, newSelect, editSelect);
      var twice := Run(once, parent, child, "hasMany", section, newSelect, editSelect);
      show in twice.files && |twice.files[show]| == |fs.files[show]| + 2 * |section|
  {
    RunHasMany(fs, parent, child, section, newSelect, editSelect);
    var once := Run(fs, parent, child, "hasMany", section, newSelect, editSelect);
    RunHasMany(once, parent, child, section, newSelect, editSelect);
  }

  /** The `new.ejs` select compares `<parent>Id`; the `edit.ejs` select
      compares `<child>.<parent>Id`. */
  lemma SelectComparisons(parent: string, child: string)
    ensures Contains(NewSelect(parent), "<%= " + (Lower(parent) + "Id") + " === ")
    ensures Contains(EditSelect(parent, child), "<%= " + (Lower(child) + "." + Lower(parent) + "Id") + " === ")
  {
    SelectCompares(parent, Lower(parent) + "Id");
    SelectCompares(parent, Lower(child) + "." + Lower(parent) + "Id");
  }

  lemma SelectCompares(parent: string, selected: string)
    ensures Contains(Join(SelectLines(parent, selected), "\n"), "<%= " + selected + " === ")
  {
    var lines := SelectLines(parent, selected);
    var p := "<%= " + selected + " === ";
    var rest := Lower(parent) + ".id ? " + "'selected' : '' %>>";
    assert lines[7] == Indent(4) + p + rest;
    OccursAtStart(p);
    ContainsInfix(Indent(4), p, rest, p);
    JoinContainsPart(lines, "\n", 7);
    ContainsWithin(Join(lines, "\n"), lines[7], p);
  }

  /** Two `hasMany` calls leave two sections in the parent's `show.ejs`. */
  lemma CreateViewsNotIdempotent(fs: FileSystem, parent: string, child: string)
    requires ShowFile(parent) in fs.files
    ensures var show := ShowFile(parent);
      var once := CreateRelationshipViews(fs, parent, child, "hasMany");
      var twice := CreateRelationshipViews(once, parent, child, "hasMany");
      show in twice.files && |twice.files[show]| > |once.files[show]| > |fs.files[show]|
  {
    var section := RelatedSection(parent, child);
    var newSelect, editSelect := NewSelect(parent), EditSelect(parent, child);
    RunHasMany(fs, parent, child, section, newSelect, editSelect);
    var once := Run(fs, parent, child, "hasMany", section, newSelect, editSelect);
    RunHasMany(once, parent, child, section, newSelect, editSelect);
    assert |section| > 0 by {
      var lines := SectionHead(parent, child) + SectionTableHead() + SectionRows(parent, child);
      assert section == lines[0] + "\n" + Join(lines[1..], "\n");
    }
  }
}

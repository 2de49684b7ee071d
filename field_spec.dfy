/** The `name:type` field specifications accepted by the model, validation
    and view generators. A specification with a colon is split on every
    colon and its first two pieces are the name and the type; one without
    a colon is all name and takes the generator's default type. */
module FieldSpec {
  import opened JsString

  /** The `fieldName` of `field.includes(':') ? field.split(':') : [field, …]`. */
  function FieldName(f: string): (n: string)
    ensures ':' !in n
    ensures ':' !in f ==> n == f
    ensures |n| <= |f|
  {
    if ':' in f then
      var parts := Split(f, ':');
      JoinContainsPart(parts, [':'], 0);
      assert |parts[0]| <= |f|;
      parts[0]
    else f
  }

  /** The `fieldType` of the same destructuring; `dflt` is what the
      generator supplies for a specification without a colon. */
  function FieldType(f: string, dflt: string): (t: string)
    ensures ':' !in f ==> t == dflt
    ensures ':' in f ==> ':' !in t
  {
    if ':' in f then
      CountCharPresent(f, ':');
      Split(f, ':')[1]
    else dflt
  }

  /** `name:type` as a user writes it. */
  function Format(name: string, ty: string): string
  {
    name + [':'] + ty
  }

  /** Parsing undoes formatting: the name is everything before the first
      colon and the type is the piece up to the next colon (or the end). */
  lemma {:induction false} ParseFormat(name: string, rest: string, dflt: string)
    requires ':' !in name
    ensures FieldName(Format(name, rest)) == name
    ensures FieldType(Format(name, rest), dflt) == Split(rest, ':')[0]
    ensures ':' !in rest ==> FieldType(Format(name, rest), dflt) == rest
  {
    var f := Format(name, rest);
    assert f[|name|] == ':';
    SplitHead(name, ':', rest);
    assert Split(f, ':')[1] == Split(rest, ':')[0];
    if ':' !in rest {
      SplitWithout(rest, ':');
    }
  }

  /** A line break in neither the specification nor the default is in
      neither the name nor the type. */
  lemma SingleLineParts(f: string, dflt: string)
    requires '\n' !in f && '\n' !in dflt
    ensures '\n' !in FieldName(f) && '\n' !in FieldType(f, dflt)
  {
    if ':' in f {
      CountCharPresent(f, ':');
      var parts := Split(f, ':');
      JoinContainsPart(parts, [':'], 0);
      JoinContainsPart(parts, [':'], 1);
      NoCharInPart(f, parts[0], '\n');
      NoCharInPart(f, parts[1], '\n');
    }
  }

  /** A character absent from a text is absent from every substring of it. */
  lemma NoCharInPart(s: string, t: string, c: char)
    requires c !in s && Contains(s, t)
    ensures c !in t
  {
    var k :| 0 <= k <= |s| && OccursAt(s, t, k);
    forall i | 0 <= i < |t| ensures t[i] != c {
      assert t[i] == s[k..k + |t|][i] == s[k + i];
    }
  }
}

/** The social-media bio generator: a template chosen by id is filled from six form fields
    and then normalised to a single line, whose length is checked against each platform's
    character limit. */
module BioMaker {
  import opened Wrappers
  import opened Strings

  datatype BioTemplate = BioTemplate(id: string, name: string, template: string)

  /** The four templates, in the order the tool offers them. */
  const Templates: seq<BioTemplate> := [
    BioTemplate("professional", "Professional",
      "{{name}} | {{role}} 💼\n{{achievements}}\n📍 {{location}}\n{{contact}}"),
    BioTemplate("creative", "Creative",
      "✨ {{name}} ✨\n🎨 {{role}}\n🌟 {{interests}}\n🌍 {{location}}\n📱 {{contact}}"),
    BioTemplate("minimal", "Minimal",
      "{{name}} • {{role}}\n{{interests}}\n{{contact}}"),
    BioTemplate("student", "Student",
      "📚 {{name}}\n🎓 {{role}}\n💡 {{interests}}\n🏆 {{achievements}}\n📍 {{location}}")
  ]

  /** The first template in `ts` with the given id, as `Array.prototype.find` returns it. */
  function FindIn(ts: seq<BioTemplate>, id: string): (r: Option<BioTemplate>)
    ensures r.Some? ==> r.value in ts && r.value.id == id
    ensures r.Some? ==> exists j :: 0 <= j < |ts| && ts[j] == r.value && forall k :: 0 <= k < j ==> ts[k].id != id
    ensures r.None? <==> forall k :: 0 <= k < |ts| ==> ts[k].id != id
  {
    if ts == [] then None
    else if ts[0].id == id then Some(ts[0])
    else FindIn(ts[1..], id)
  }

  /** The template the tool renders for a selected id. */
  function FindTemplate(id: string): (r: Option<BioTemplate>)
    ensures r.Some? ==> r.value in Templates && r.value.id == id
  {
    FindIn(Templates, id)
  }

  /** Exactly the four template ids are found. */
  lemma {:induction false} FindTemplateKnownIds(id: string)
    ensures FindTemplate(id).Some? <==> id in ["professional", "creative", "minimal", "student"]
  {
    if id == "professional" {
      assert Templates[0].id == id;
    } else if id == "creative" {
      assert Templates[1].id == id;
    } else if id == "minimal" {
      assert Templates[2].id == id;
    } else if id == "student" {
      assert Templates[3].id == id;
    } else {
      forall k | 0 <= k < |Templates|
        ensures Templates[k].id != id
      {
      }
    }
  }

  /** The six form fields. */
  datatype Field = Name | Role | Interests | Achievements | Location | Contact

  /** The order in which the form object lists its fields, which is the substitution order. */
  const FieldOrder: seq<Field> := [Name, Role, Interests, Achievements, Location, Contact]

  function Key(f: Field): string {
    match f
    case Name => "name"
    case Role => "role"
    case Interests => "interests"
    case Achievements => "achievements"
    case Location => "location"
    case Contact => "contact"
  }

  /** The literal text `{{key}}` that the field's value replaces. */
  function Placeholder(f: Field): string {
    "{{" + Key(f) + "}}"
  }

  datatype FormData = FormData(name: string, role: string, interests: string,
                               achievements: string, location: string, contact: string)
  {
    function Get(f: Field): string {
      match f
      case Name => name
      case Role => role
      case Interests => interests
      case Achievements => achievements
      case Location => location
      case Contact => contact
    }

    /** The form with one field set, as `{...prev, [name]: value}` builds it: the named field
        has the new value and the other five keep theirs. */
    function With(f: Field, v: string): (r: FormData)
      ensures r.Get(f) == v
      ensures forall g :: g != f ==> r.Get(g) == Get(g)
    {
      match f
      case Name => this.(name := v)
      case Role => this.(role := v)
      case Interests => this.(interests := v)
      case Achievements => this.(achievements := v)
      case Location => this.(location := v)
      case Contact => this.(contact := v)
    }
  }

  const EmptyForm: FormData := FormData("", "", "", "", "", "")

  /** No value holds `$`, which JavaScript's `replace` would read as a replacement pattern. */
  predicate NoDollar(form: FormData) {
    forall f :: '$' !in form.Get(f)
  }

  /** The text after the replacements for `fields`, done one field after another: each
      replaces every `{{key}}` present at that point by the trimmed value, so later fields
      also see the values inserted for earlier ones. */
  function SubstituteFields(text: string, form: FormData, fields: seq<Field>): (r: string)
    // Text without `{{`, a template or a value already inserted, passes unchanged.
    ensures !Contains(text, "{{") ==> r == text
    decreases |fields|
  {
    if fields == [] then text
    else
      var next := ReplaceAll(text, Placeholder(fields[0]), Trim(form.Get(fields[0])));
      ReplaceWithoutBraces(text, fields[0], Trim(form.Get(fields[0])));
      SubstituteFields(next, form, fields[1..])
  }

  /** Replacing a placeholder in text without `{{` changes nothing. */
  lemma {:induction false} ReplaceWithoutBraces(text: string, f: Field, value: string)
    ensures !Contains(text, "{{") ==> ReplaceAll(text, Placeholder(f), value) == text
  {
    if !Contains(text, "{{") {
      NoBracesNoPlaceholder(text, f);
      ReplaceAllAbsent(text, Placeholder(f), value);
    }
  }

  lemma {:induction false} SubstituteFieldsCons(text: string, form: FormData, f: Field, rest: seq<Field>)
    ensures SubstituteFields(text, form, [f] + rest)
         == SubstituteFields(ReplaceAll(text, Placeholder(f), Trim(form.Get(f))), form, rest)
  {
    assert ([f] + rest)[1..] == rest;
  }

  lemma {:induction false} SubstituteFieldsStep(text: string, form: FormData, fields: seq<Field>, i: nat)
    requires i < |fields|
    ensures SubstituteFields(text, form, fields[i..])
         == SubstituteFields(ReplaceAll(text, Placeholder(fields[i]), Trim(form.Get(fields[i]))),
                             form, fields[i + 1..])
  {
    assert fields[i..] == [fields[i]] + fields[i + 1..];
    SubstituteFieldsCons(text, form, fields[i], fields[i + 1..]);
  }

  /** The substitution loop of the generator: the text after every field has been replaced
      in declaration order. */
  method Substitute(template: string, form: FormData) returns (bio: string)
    requires NoDollar(form)
    ensures bio == SubstituteFields(template, form, FieldOrder)
  {
    var fields := FieldOrder;
    bio := template;
    for i := 0 to |fields|
      invariant SubstituteFields(bio, form, fields[i..]) == SubstituteFields(template, form, fields)
    {
      var f := fields[i];
      var value := Trim(form.Get(f));
      SubstituteFieldsStep(bio, form, fields, i);
      bio := ReplaceAll(bio, Placeholder(f), value);
    }
  }

  lemma {:induction false} PlaceholderTrimmed(f: Field)
    ensures Trim(Placeholder(f)) == Placeholder(f)
  {
    TrimOfTrimmed(Placeholder(f));
  }

  lemma {:induction false} PlaceholderReplaced(f: Field, v: string)
    ensures ReplaceAll(Placeholder(f), Placeholder(f), Trim(v)) == Trim(v)
  {
    ReplaceAllWhole(Placeholder(f), Trim(v));
  }

  /** Substitution is sequential: when the value of a field is the placeholder of the field
      after it, that inserted placeholder is itself replaced, by the next field's value. */
  lemma {:induction false} InsertedPlaceholderIsSubstituted(form: FormData, f: Field, g: Field, rest: seq<Field>)
    requires form.Get(f) == Placeholder(g)
    ensures SubstituteFields(Placeholder(f), form, [f, g] + rest)
         == SubstituteFields(Trim(form.Get(g)), form, rest)
  {
    assert [f, g] + rest == [f] + ([g] + rest);
    SubstituteFieldsCons(Placeholder(f), form, f, [g] + rest);
    PlaceholderTrimmed(g);
    PlaceholderReplaced(f, Placeholder(g));
    SubstituteFieldsCons(Placeholder(g), form, g, rest);
    PlaceholderReplaced(g, form.Get(g));
  }

  /** Text without `{{` holds no placeholder. */
  lemma {:induction false} NoBracesNoPlaceholder(s: string, f: Field)
    requires !Contains(s, "{{")
    ensures !Contains(s, Placeholder(f))
  {
    if Contains(s, Placeholder(f)) {
      var p := Placeholder(f);
      var i :| 0 <= i <= |s| && OccursAt(s, p, i);
      assert p[..2] == "{{" by {
        assert p == "{{" + (Key(f) + "}}");
      }
      assert s[i..i + 2] == s[i..i + |p|][..2];
      assert OccursAt(s, "{{", i);
    }
  }

  /** In the form's own order, a name of `{{role}}` shows the role in its place. */
  lemma {:induction false} NameHoldingRolePlaceholder(form: FormData, fields: seq<Field>)
    requires fields == FieldOrder
    requires form.name == Placeholder(Role)
    requires !Contains(Trim(form.role), "{{")
    ensures SubstituteFields(Placeholder(Name), form, fields) == Trim(form.role)
  {
    var rest := fields[2..];
    assert fields == [Name, Role] + rest;
    InsertedPlaceholderIsSubstituted(form, Name, Role, rest);
  }

  /** The lines of `lines` that hold something other than white space, in order. */
  function NonBlankLines(lines: seq<string>): (r: seq<string>)
    ensures |r| <= |lines|
    ensures forall k :: 0 <= k < |r| ==> Trim(r[k]) != [] && r[k] in lines
    ensures forall k :: 0 <= k < |lines| && Trim(lines[k]) != [] ==> lines[k] in r
  {
    if lines == [] then []
    else
      var rest := NonBlankLines(lines[1..]);
      assert forall k :: 1 <= k < |lines| ==> lines[k] == lines[1..][k - 1];
      if Trim(lines[0]) != [] then [lines[0]] + rest else rest
  }

  /** Filtering distributes over concatenation, so the kept lines stay in their order and
      every copy of a kept line stays. */
  lemma {:induction false} NonBlankLinesAppend(a: seq<string>, b: seq<string>)
    ensures NonBlankLines(a + b) == NonBlankLines(a) + NonBlankLines(b)
    decreases |a|
  {
    if a == [] {
      assert a + b == b;
    } else {
      assert (a + b)[0] == a[0] && (a + b)[1..] == a[1..] + b;
      NonBlankLinesAppend(a[1..], b);
      if Trim(a[0]) != [] {
        AppendAssoc([a[0]], NonBlankLines(a[1..]), NonBlankLines(b));
      }
    }
  }

  /** The one-line form of a bio: no white space at either end, every white-space
      character a plain space, never two in a row. In particular no line break. */
  predicate Normalised(s: string) {
    Trimmed(s) && NoDoubleSpace(s) && OnlyPlainSpaces(s)
  }

  lemma {:induction false} NormalisedIsOneLine(s: string)
    requires Normalised(s)
    ensures '\n' !in s
  {
    if '\n' in s {
      var i :| 0 <= i < |s| && s[i] == '\n';
      assert IsSpace(s[i]);
    }
  }

  /** The clean-up after substitution: split into lines, drop blank lines, rejoin with line
      breaks, collapse every white-space run to one space and trim. The result is always a
      single normalised line. */
  function Normalise(s: string): (r: string)
    ensures Normalised(r)
  {
    var c := Collapse(Join(NonBlankLines(Split(s, '\n')), "\n"));
    var r := Trim(c);
    assert Normalised(r) by {
      TrimIsSlice(c);
      SliceKeepsSpacing(c, LeadingSpaces(c), LeadingSpaces(c) + |r|);
    }
    r
  }

  /** A normalised string is left unchanged by the clean-up. */
  lemma {:induction false} NormaliseOfNormalised(t: string)
    requires Normalised(t)
    ensures Normalise(t) == t
  {
    NormalisedIsOneLine(t);
    SplitNoSeparator(t, '\n');
    TrimOfTrimmed(t);
    if t != [] {
      assert NonBlankLines([t]) == [t];
      CollapseOfCollapsed(t);
    }
  }

  /** The clean-up is idempotent. */
  lemma {:induction false} NormaliseIdempotent(s: string)
    ensures Normalise(Normalise(s)) == Normalise(s)
  {
    NormaliseOfNormalised(Normalise(s));
  }

  lemma {:induction false} VisibleJoinLines(line: string, rest: seq<string>)
    ensures Visible(Join([line] + rest, "\n")) == Visible(line) + Visible(Join(rest, "\n"))
  {
    var lines := [line] + rest;
    assert lines[1..] == rest;
    if rest != [] {
      VisibleAppend(line + "\n", Join(rest, "\n"));
      VisibleAppend(line, "\n");
    }
  }

  /** Dropping blank lines loses no visible character. */
  lemma {:induction false} VisibleNonBlankLines(lines: seq<string>)
    ensures Visible(Join(NonBlankLines(lines), "\n")) == Visible(Join(lines, "\n"))
    decreases |lines|
  {
    if lines != [] {
      var line, rest := lines[0], lines[1..];
      assert lines == [line] + rest;
      VisibleNonBlankLines(rest);
      VisibleJoinLines(line, rest);
      if Trim(line) != [] {
        VisibleJoinLines(line, NonBlankLines(rest));
      } else {
        VisibleTrim(line);
      }
    }
  }

  /** The clean-up only moves white space: the visible characters of the text, emoji and
      punctuation included, all survive, in order. */
  lemma {:induction false} NormaliseKeepsVisible(s: string)
    ensures Visible(Normalise(s)) == Visible(s)
  {
    var lines := Split(s, '\n');
    var joined := Join(NonBlankLines(lines), "\n");
    JoinSplit(s, '\n');
    VisibleNonBlankLines(lines);
    VisibleCollapse(joined);
    VisibleTrim(Collapse(joined));
  }

  /** Joining lines with line breaks keeps each line's words apart from the next line's. */
  lemma {:induction false} WordsJoinLines(line: string, rest: seq<string>)
    ensures Words(Join([line] + rest, "\n")) == Words(line) + Words(Join(rest, "\n"))
  {
    if rest == [] {
      assert ([line] + rest)[1..] == [];
    } else {
      var j := Join(rest, "\n");
      JoinCons(line, rest, "\n");
      assert line + "\n" + j == line + ("\n" + j);
      WordsAppend(line, "\n" + j);
      WordsSpaceCons('\n', j);
    }
  }

  /** Dropping blank lines loses no word. */
  lemma {:induction false} WordsNonBlankLines(lines: seq<string>)
    ensures Words(Join(NonBlankLines(lines), "\n")) == Words(Join(lines, "\n"))
    decreases |lines|
  {
    if lines != [] {
      var line, rest := lines[0], lines[1..];
      assert lines == [line] + rest;
      WordsNonBlankLines(rest);
      WordsJoinLines(line, rest);
      if Trim(line) != [] {
        WordsJoinLines(line, NonBlankLines(rest));
      } else {
        WordsTrim(line);
      }
    }
  }

  /** The clean-up leaves exactly the words of the text, in order, with one plain space
      between each two neighbouring words, whatever white space or line breaks separated them
      before. */
  lemma {:induction false} NormaliseIsJoinedWords(s: string)
    ensures Normalise(s) == Join(Words(s), " ")
    ensures Words(Normalise(s)) == Words(s)
  {
    var lines := Split(s, '\n');
    var joined := Join(NonBlankLines(lines), "\n");
    JoinSplit(s, '\n');
    WordsNonBlankLines(lines);
    WordsCollapse(joined);
    WordsTrim(Collapse(joined));
    SpacedTextIsJoinedWords(Normalise(s));
  }

  /** The bio for a template and a form: the substituted template, normalised. */
  function Render(template: string, form: FormData): (bio: string)
    ensures Normalised(bio) && '\n' !in bio
  {
    var bio := Normalise(SubstituteFields(template, form, FieldOrder));
    NormalisedIsOneLine(bio);
    bio
  }

  /** The platforms whose limits the tool reports. */
  datatype Platform = Instagram | Twitter | LinkedIn | TikTok


  /** The character limit of a platform: from TikTok's 80 up to LinkedIn's 220. */
  function Limit(p: Platform): (n: nat)
    ensures 80 <= n <= 220
  {
    match p
    case Instagram => 150
    case Twitter => 160
    case LinkedIn => 220
    case TikTok => 80
  }

  /** The warning shown beside a platform: the bio's JavaScript length exceeds its limit. Any
      bio with more characters than the limit is over it, and one of at most half the limit in
      characters never is, whatever its emoji. */
  function OverLimit(bio: string, p: Platform): (over: bool)
    ensures |bio| > Limit(p) ==> over
    ensures 2 * |bio| <= Limit(p) ==> !over
  {
    Utf16Length(bio) > Limit(p)
  }

  /** Growing a bio never clears a warning. */
  lemma {:induction false} OverLimitKeptByAppend(bio: string, more: string, p: Platform)
    requires OverLimit(bio, p)
    ensures OverLimit(bio + more, p)
  {
    Utf16LengthAppend(bio, more);
  }

  /** A bio over a longer limit is over every shorter one. */
  lemma {:induction false} OverLimitOrdered(bio: string)
    ensures OverLimit(bio, LinkedIn) ==> OverLimit(bio, Twitter)
    ensures OverLimit(bio, Twitter) ==> OverLimit(bio, Instagram)
    ensures OverLimit(bio, Instagram) ==> OverLimit(bio, TikTok)
  {
  }

  /** The bio after regeneration: an unknown template id leaves the previous bio in place,
      a known one gives a normalised bio. */
  function Regenerated(id: string, form: FormData, previous: string): (bio: string)
    ensures FindTemplate(id).None? ==> bio == previous
    ensures FindTemplate(id).Some? ==> Normalised(bio) && '\n' !in bio
  {
    match FindTemplate(id)
    case None => previous
    case Some(t) => Render(t.template, form)
  }

  /** The generator's work for a template that was found: the substitution loop, then the
      clean-up. */
  method RenderTemplate(template: string, form: FormData) returns (bio: string)
    requires NoDollar(form)
    ensures bio == Render(template, form)
  {
    var substituted := Substitute(template, form);
    bio := Normalise(substituted);
  }

  /** The state of the bio tool: the form, the chosen template id and the last generated bio. */
  class BioMakerTool {
    var formData: FormData
    var selectedTemplate: string
    var generatedBio: string

    constructor ()
      ensures formData == EmptyForm && selectedTemplate == "professional" && generatedBio == ""
    {
      formData := EmptyForm;
      selectedTemplate := "professional";
      generatedBio := "";
    }

    /** An edit to one input: only that field of the form changes. */
    method HandleInputChange(f: Field, value: string)
      modifies this`formData
      ensures formData == old(formData).With(f, value)
    {
      formData := formData.With(f, value);
    }

    method SelectTemplate(id: string)
      modifies this`selectedTemplate
      ensures selectedTemplate == id
    {
      selectedTemplate := id;
    }

    /** Regenerates the bio from the form and the chosen template. */
    method GenerateBio()
      requires NoDollar(formData)
      modifies this`generatedBio
      ensures generatedBio == Regenerated(selectedTemplate, formData, old(generatedBio))
    {
      var template := FindTemplate(selectedTemplate);
      if template.Some? {
        generatedBio := RenderTemplate(template.value.template, formData);
      }
    }
  }
}

/** The resume builder's data and its edits. The whole resume is one value that every
    handler replaces by a new one built from the previous, so each handler is a function
    from the old resume to the new. */
module ResumeBuilder {
  import opened Strings

  datatype EducationField = Id | School | Degree | FieldOfStudy | StartDate | EndDate | Description

  datatype Education = Education(id: string, school: string, degree: string, field: string,
                                 startDate: string, endDate: string, description: string)
  {
    function Get(f: EducationField): string {
      match f
      case Id => id
      case School => school
      case Degree => degree
      case FieldOfStudy => field
      case StartDate => startDate
      case EndDate => endDate
      case Description => description
    }

    /** `{...edu, [field]: value}`: the named field has the new value, the others keep theirs. */
    function Set(f: EducationField, v: string): (r: Education)
      ensures r.Get(f) == v
      ensures forall g :: g != f ==> r.Get(g) == Get(g)
    {
      match f
      case Id => this.(id := v)
      case School => this.(school := v)
      case Degree => this.(degree := v)
      case FieldOfStudy => this.(field := v)
      case StartDate => this.(startDate := v)
      case EndDate => this.(endDate := v)
      case Description => this.(description := v)
    }
  }

  datatype ExperienceField = Id | Company | Position | StartDate | EndDate | Description

  datatype Experience = Experience(id: string, company: string, position: string,
                                   startDate: string, endDate: string, description: string)
  {
    function Get(f: ExperienceField): string {
      match f
      case Id => id
      case Company => company
      case Position => position
      case StartDate => startDate
      case EndDate => endDate
      case Description => description
    }

    /** `{...exp, [field]: value}`: the named field has the new value, the others keep theirs. */
    function Set(f: ExperienceField, v: string): (r: Experience)
      ensures r.Get(f) == v
      ensures forall g :: g != f ==> r.Get(g) == Get(g)
    {
      match f
      case Id => this.(id := v)
      case Company => this.(company := v)
      case Position => this.(position := v)
      case StartDate => this.(startDate := v)
      case EndDate => this.(endDate := v)
      case Description => this.(description := v)
    }
  }

  datatype PersonalField = FullName | Email | Phone | Location | Summary

  datatype PersonalInfo = PersonalInfo(fullName: string, email: string, phone: string,
                                       location: string, summary: string)
  {
    function Get(f: PersonalField): string {
      match f
      case FullName => fullName
      case Email => email
      case Phone => phone
      case Location => location
      case Summary => summary
    }

    /** `{...prev.personalInfo, [name]: value}`. */
    function Set(f: PersonalField, v: string): (r: PersonalInfo)
      ensures r.Get(f) == v
      ensures forall g :: g != f ==> r.Get(g) == Get(g)
    {
      match f
      case FullName => this.(fullName := v)
      case Email => this.(email := v)
      case Phone => this.(phone := v)
      case Location => this.(location := v)
      case Summary => this.(summary := v)
    }
  }

  datatype ResumeData = ResumeData(personalInfo: PersonalInfo, education: seq<Education>,
                                   experience: seq<Experience>, skills: seq<string>)

  /** The resume the builder starts from: every personal field empty and no entries. */
  function InitialResumeData(): (r: ResumeData)
    ensures forall f :: r.personalInfo.Get(f) == ""
    ensures r.education == [] && r.experience == [] && r.skills == []
  {
    ResumeData(PersonalInfo("", "", "", "", ""), [], [], [])
  }

  // Operations shared by the two entry lists. An entry's id is read through `idOf`.

  /** `list.map(e => e.id === id ? edit(e) : e)`: the entries with the id are edited in
      place, all others are kept, and length and order are unchanged. */
  function UpdateById<T>(xs: seq<T>, idOf: T -> string, id: string, edit: T -> T): (r: seq<T>)
    ensures |r| == |xs|
    ensures forall i :: 0 <= i < |xs| && idOf(xs[i]) == id ==> r[i] == edit(xs[i])
    ensures forall i :: 0 <= i < |xs| && idOf(xs[i]) != id ==> r[i] == xs[i]
  {
    if xs == [] then []
    else [if idOf(xs[0]) == id then edit(xs[0]) else xs[0]] + UpdateById(xs[1..], idOf, id, edit)
  }

  /** `list.filter(e => e.id !== id)`: no entry with the id is left, every other entry is. */
  function RemoveById<T>(xs: seq<T>, idOf: T -> string, id: string): (r: seq<T>)
    ensures |r| <= |xs|
    ensures forall i :: 0 <= i < |r| ==> idOf(r[i]) != id && r[i] in xs
    ensures forall i :: 0 <= i < |xs| && idOf(xs[i]) != id ==> xs[i] in r
  {
    if xs == [] then []
    else (if idOf(xs[0]) == id then [] else [xs[0]]) + RemoveById(xs[1..], idOf, id)
  }

  /** Removal keeps the relative order: removing from a concatenation is removing from each
      part. With the one-entry case this fixes the result exactly. */
  lemma {:induction false} RemoveByIdAppend<T>(a: seq<T>, b: seq<T>, idOf: T -> string, id: string)
    ensures RemoveById(a + b, idOf, id) == RemoveById(a, idOf, id) + RemoveById(b, idOf, id)
    decreases |a|
  {
    if a == [] {
      assert a + b == b;
    } else {
      assert (a + b)[1..] == a[1..] + b;
      RemoveByIdAppend(a[1..], b, idOf, id);
    }
  }

  /** Removing an id no entry has changes nothing. */
  lemma {:induction false} RemoveByIdAbsent<T>(xs: seq<T>, idOf: T -> string, id: string)
    requires forall i :: 0 <= i < |xs| ==> idOf(xs[i]) != id
    ensures RemoveById(xs, idOf, id) == xs
    decreases |xs|
  {
    if xs != [] {
      RemoveByIdAbsent(xs[1..], idOf, id);
    }
  }

  /** Removal is idempotent. */
  lemma {:induction false} RemoveByIdIdempotent<T>(xs: seq<T>, idOf: T -> string, id: string)
    ensures RemoveById(RemoveById(xs, idOf, id), idOf, id) == RemoveById(xs, idOf, id)
  {
    RemoveByIdAbsent(RemoveById(xs, idOf, id), idOf, id);
  }

  /** Updating an id no entry has changes nothing. */
  lemma {:induction false} UpdateByIdAbsent<T>(xs: seq<T>, idOf: T -> string, id: string, edit: T -> T)
    requires forall i :: 0 <= i < |xs| ==> idOf(xs[i]) != id
    ensures UpdateById(xs, idOf, id, edit) == xs
  {
  }

  function EducationId(e: Education): string { e.id }

  function ExperienceId(e: Experience): string { e.id }

  function BlankEducation(id: string): (e: Education)
    ensures e.id == id
    ensures forall f :: f != EducationField.Id ==> e.Get(f) == ""
  {
    Education(id, "", "", "", "", "", "")
  }

  function BlankExperience(id: string): (e: Experience)
    ensures e.id == id
    ensures forall f :: f != ExperienceField.Id ==> e.Get(f) == ""
  {
    Experience(id, "", "", "", "", "")
  }

  /** `handlePersonalInfoChange`: one personal field changes, nothing else. */
  function HandlePersonalInfoChange(d: ResumeData, f: PersonalField, v: string): (r: ResumeData)
    ensures r.personalInfo.Get(f) == v
    ensures forall g :: g != f ==> r.personalInfo.Get(g) == d.personalInfo.Get(g)
    ensures r.education == d.education && r.experience == d.experience && r.skills == d.skills
  {
    d.(personalInfo := d.personalInfo.Set(f, v))
  }

  /** `addEducation`, with the id the clock would give passed in: a blank entry with that id
      is appended after the existing ones. */
  function AddEducation(d: ResumeData, id: string): (r: ResumeData)
    ensures |r.education| == |d.education| + 1
    ensures r.education[..|d.education|] == d.education
    ensures r.education[|d.education|] == BlankEducation(id)
    ensures r.personalInfo == d.personalInfo && r.experience == d.experience && r.skills == d.skills
  {
    d.(education := d.education + [BlankEducation(id)])
  }

  /** `updateEducation`: field `f` becomes `v` on every entry with the id; other fields of
      those entries, other entries, length and order are kept. */
  function UpdateEducation(d: ResumeData, id: string, f: EducationField, v: string): (r: ResumeData)
    ensures |r.education| == |d.education|
    ensures forall i :: 0 <= i < |d.education| && d.education[i].id == id ==>
              r.education[i].Get(f) == v
              && forall g :: g != f ==> r.education[i].Get(g) == d.education[i].Get(g)
    ensures forall i :: 0 <= i < |d.education| && d.education[i].id != id ==>
              r.education[i] == d.education[i]
    ensures r.personalInfo == d.personalInfo && r.experience == d.experience && r.skills == d.skills
  {
    d.(education := UpdateById(d.education, EducationId, id, (e: Education) => e.Set(f, v)))
  }

  /** `removeEducation`: the entries with the id go, the others stay. */
  function RemoveEducation(d: ResumeData, id: string): (r: ResumeData)
    ensures forall i :: 0 <= i < |r.education| ==> r.education[i].id != id
    ensures forall e :: e in r.education <==> e in d.education && e.id != id
    ensures r.personalInfo == d.personalInfo && r.experience == d.experience && r.skills == d.skills
  {
    d.(education := RemoveById(d.education, EducationId, id))
  }

  /** `addExperience`, with the id passed in. */
  function AddExperience(d: ResumeData, id: string): (r: ResumeData)
    ensures |r.experience| == |d.experience| + 1
    ensures r.experience[..|d.experience|] == d.experience
    ensures r.experience[|d.experience|] == BlankExperience(id)
    ensures r.personalInfo == d.personalInfo && r.education == d.education && r.skills == d.skills
  {
    d.(experience := d.experience + [BlankExperience(id)])
  }

  /** `updateExperience`. */
  function UpdateExperience(d: ResumeData, id: string, f: ExperienceField, v: string): (r: ResumeData)
    ensures |r.experience| == |d.experience|
    ensures forall i :: 0 <= i < |d.experience| && d.experience[i].id == id ==>
              r.experience[i].Get(f) == v
              && forall g :: g != f ==> r.experience[i].Get(g) == d.experience[i].Get(g)
    ensures forall i :: 0 <= i < |d.experience| && d.experience[i].id != id ==>
              r.experience[i] == d.experience[i]
    ensures r.personalInfo == d.personalInfo && r.education == d.education && r.skills == d.skills
  {
    d.(experience := UpdateById(d.experience, ExperienceId, id, (e: Experience) => e.Set(f, v)))
  }

  /** `removeExperience`. */
  function RemoveExperience(d: ResumeData, id: string): (r: ResumeData)
    ensures forall i :: 0 <= i < |r.experience| ==> r.experience[i].id != id
    ensures forall e :: e in r.experience <==> e in d.experience && e.id != id
    ensures r.personalInfo == d.personalInfo && r.education == d.education && r.skills == d.skills
  {
    d.(experience := RemoveById(d.experience, ExperienceId, id))
  }

  /** Removing an entry just added under a fresh id gives back the resume before the add. */
  lemma {:induction false} RemoveUndoesAddEducation(d: ResumeData, id: string)
    requires forall i :: 0 <= i < |d.education| ==> d.education[i].id != id
    ensures RemoveEducation(AddEducation(d, id), id) == d
  {
    RemoveByIdAppend(d.education, [BlankEducation(id)], EducationId, id);
    RemoveByIdAbsent(d.education, EducationId, id);
    assert RemoveById([BlankEducation(id)], EducationId, id) == [];
  }

  lemma {:induction false} RemoveUndoesAddExperience(d: ResumeData, id: string)
    requires forall i :: 0 <= i < |d.experience| ==> d.experience[i].id != id
    ensures RemoveExperience(AddExperience(d, id), id) == d
  {
    RemoveByIdAppend(d.experience, [BlankExperience(id)], ExperienceId, id);
    RemoveByIdAbsent(d.experience, ExperienceId, id);
    assert RemoveById([BlankExperience(id)], ExperienceId, id) == [];
  }

  /** Removing twice is removing once. */
  lemma {:induction false} RemoveEducationIdempotent(d: ResumeData, id: string)
    ensures RemoveEducation(RemoveEducation(d, id), id) == RemoveEducation(d, id)
  {
    RemoveByIdIdempotent(d.education, EducationId, id);
  }

  lemma {:induction false} RemoveExperienceIdempotent(d: ResumeData, id: string)
    ensures RemoveExperience(RemoveExperience(d, id), id) == RemoveExperience(d, id)
  {
    RemoveByIdIdempotent(d.experience, ExperienceId, id);
  }

  /** Each piece of a split, trimmed. */
  function TrimAll(pieces: seq<string>): (r: seq<string>)
    ensures |r| == |pieces|
    ensures forall k :: 0 <= k < |r| ==> r[k] == Trim(pieces[k]) && Trimmed(r[k])
  {
    if pieces == [] then [] else [Trim(pieces[0])] + TrimAll(pieces[1..])
  }

  lemma {:induction false} TrimAllKeepsOut(pieces: seq<string>, c: char)
    requires forall k :: 0 <= k < |pieces| ==> c !in pieces[k]
    ensures forall k :: 0 <= k < |pieces| ==> c !in TrimAll(pieces)[k]
  {
    forall k | 0 <= k < |pieces|
      ensures c !in TrimAll(pieces)[k]
    {
      TrimKeepsOut(pieces[k], c);
    }
  }

  /** `value.split(",").map(skill => skill.trim())`: one skill more than there are commas,
      empty ones included, each without a comma and without white space at either end. */
  function ParseSkills(text: string): (skills: seq<string>)
    ensures |skills| == Count(text, ',') + 1
    ensures forall k :: 0 <= k < |skills| ==> Trimmed(skills[k]) && ',' !in skills[k]
  {
    var pieces := Split(text, ',');
    SplitPiecesOmitSeparator(text, ',');
    TrimAllKeepsOut(pieces, ',');
    TrimAll(pieces)
  }

  /** The skills text area shows the list as `skills.join(", ")`: one comma between each
      two comma-free skills. */
  function RenderSkills(skills: seq<string>): (text: string)
    ensures |skills| >= 1 && (forall k :: 0 <= k < |skills| ==> ',' !in skills[k])
            ==> Count(text, ',') == |skills| - 1
  {
    RenderedCommas(skills);
    Join(skills, ", ")
  }

  lemma {:induction false} RenderedCommas(skills: seq<string>)
    ensures |skills| >= 1 && (forall k :: 0 <= k < |skills| ==> ',' !in skills[k])
            ==> Count(Join(skills, ", "), ',') == |skills| - 1
  {
    if |skills| >= 1 && (forall k :: 0 <= k < |skills| ==> ',' !in skills[k]) {
      SplitRenderSkills(skills);
    }
  }

  /** `handleSkillsChange`: the skills become the parsed text; nothing else changes. */
  function HandleSkillsChange(d: ResumeData, text: string): (r: ResumeData)
    ensures r.skills == ParseSkills(text)
    ensures |r.skills| == Count(text, ',') + 1
    ensures r.personalInfo == d.personalInfo && r.education == d.education && r.experience == d.experience
  {
    d.(skills := ParseSkills(text))
  }

  /** The pieces of rendered skills: the first skill as it is, every later one after the
      space of its separator. */
  lemma {:induction false} SplitRenderSkills(skills: seq<string>)
    requires |skills| >= 1
    requires forall k :: 0 <= k < |skills| ==> ',' !in skills[k]
    ensures |Split(Join(skills, ", "), ',')| == |skills|
    ensures Split(Join(skills, ", "), ',')[0] == skills[0]
    ensures forall k :: 1 <= k < |skills| ==> Split(Join(skills, ", "), ',')[k] == [' '] + skills[k]
    decreases |skills|
  {
    if |skills| == 1 {
      SplitNoSeparator(skills[0], ',');
    } else {
      var tail := skills[1..];
      var rest := Join(tail, ", ");
      SplitRenderSkills(tail);
      var pieces := Split(rest, ',');
      JoinSkillsCons(skills);
      SplitAfterSkill(skills[0], rest);
      var whole := Split(Join(skills, ", "), ',');
      assert whole == [skills[0]] + ([[' '] + pieces[0]] + pieces[1..]);
      forall k | 1 <= k < |skills|
        ensures whole[k] == [' '] + skills[k]
      {
        if k > 1 {
          assert whole[k] == pieces[k - 1];
        }
      }
    }
  }

  /** One skill in front of the rest, in the shown text. */
  lemma {:induction false} JoinSkillsCons(skills: seq<string>)
    requires |skills| >= 2
    ensures Join(skills, ", ") == skills[0] + [','] + ([' '] + Join(skills[1..], ", "))
  {
    assert skills == [skills[0]] + skills[1..];
    JoinCons(skills[0], skills[1..], ", ");
    AppendAssoc(skills[0], ", ", Join(skills[1..], ", "));
    assert ", " == [','] + [' '];
  }

  /** A comma-free skill, its comma and the space of the separator before the rest of the text. */
  lemma {:induction false} SplitAfterSkill(first: string, rest: string)
    requires ',' !in first
    ensures Split(first + [','] + ([' '] + rest), ',')
         == [first] + ([[' '] + Split(rest, ',')[0]] + Split(rest, ',')[1..])
  {
    SplitAfterPiece(first, ',', [' '] + rest);
    SplitConsOther(' ', rest, ',');
  }

  /** Rendering a non-empty list of trimmed, comma-free skills and parsing the text gives the
      list back. */
  lemma {:induction false} ParseRenderSkills(skills: seq<string>)
    requires |skills| >= 1
    requires forall k :: 0 <= k < |skills| ==> Trimmed(skills[k]) && ',' !in skills[k]
    ensures ParseSkills(RenderSkills(skills)) == skills
  {
    SplitRenderSkills(skills);
    var parsed := ParseSkills(RenderSkills(skills));
    forall k | 0 <= k < |skills|
      ensures parsed[k] == skills[k]
    {
      if k > 0 {
        TrimSpaceCons(' ', skills[k]);
      }
      TrimOfTrimmed(skills[k]);
    }
  }

  /** Empty pieces are kept: a trailing comma gives a trailing empty skill. */
  lemma {:induction false} TrailingCommaKeepsEmptySkill(skill: string)
    requires Trimmed(skill) && ',' !in skill
    ensures ParseSkills(skill + [',']) == [skill, ""]
  {
    SplitAfterPiece(skill, ',', "");
    assert skill + [','] + "" == skill + [','];
    SplitNoSeparator("", ',');
    TrimOfTrimmed(skill);
    TrimOfTrimmed("");
  }

  /** The empty list the resume starts with renders as the empty text, which parses to one
      empty skill: the round trip needs at least one skill. */
  lemma {:induction false} NoSkillsParseToOneEmptySkill()
    ensures RenderSkills([]) == ""
    ensures ParseSkills(RenderSkills([])) == [""]
  {
    SplitNoSeparator("", ',');
    TrimOfTrimmed("");
  }

  /** The skills text is stable: whatever the user typed, rendering the parsed skills and
      parsing that again yields the same skills. */
  lemma {:induction false} SkillsRoundTrip(text: string)
    ensures ParseSkills(RenderSkills(ParseSkills(text))) == ParseSkills(text)
  {
    ParseRenderSkills(ParseSkills(text));
  }
}

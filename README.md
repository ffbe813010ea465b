# Student toolkit: form-to-preview logic in Dafny

This project models the logic of three browser tools in the student toolkit:

- **Bio maker.** A bio template is chosen by id from a fixed table of four. Every `{{key}}`
  placeholder is filled with the trimmed value of one of six form fields. The fields are taken
  one after another in the order name, role, interests, achievements, location, contact. The
  text is then normalised to one line:
  - blank lines are dropped;
  - every run of white space becomes one space;
  - the ends are trimmed.

  The bio length is compared with the character limit of four platforms.
- **Resume builder.** The resume is a `ResumeData` value: personal information, two ordered
  lists (education and experience, each entry keyed by a string id) and a list of skills.
  Every handler builds a new resume from the previous one: add a blank entry, update one field
  of the entries with an id, remove the entries with an id, change one personal field, or
  parse the comma-separated skills text. The skills are shown back joined with `", "`.
- **Image resizer.** The state is the target size (800 by 600 at first), the aspect-ratio
  lock (on at first) and the intrinsic size of the loaded image (none at first). Loading an
  image sets both sizes. Typing a width or height either changes that side only (unlocked)
  or recomputes the other side from the original aspect ratio and rounds it (locked). A preset
  sets both sides. A file that is not an image is ignored.

Files:
- `wrappers.dfy`: `Option`.
- `strings.dfy` (module `Strings`): the JavaScript string operations the tools use:
  `trim`, `split` on one character, `join`, a global literal `replace`, the `\s+` collapse
  and `length` in UTF-16 code units.
- `bio_maker.dfy` (module `BioMaker`): the templates, the substitution loop as a method
  proved against a recursive specification, normalisation, the platform limits, and the
  component's state as the class `BioMakerTool`.
- `resume_builder.dfy` (module `ResumeBuilder`): the resume data and every handler as a
  function from the old resume to the new one. The source only ever replaces the one
  `resumeData` state cell wholesale.
- `image_resizer.dfy` (module `ImageResizer`): the exact-rational rounding, the size
  transition as a function, and the component's state as the class `ImageResizerTool`.

White space is the set ECMAScript uses for both `\s` and `trim`: the WhiteSpace and
LineTerminator code points. `length` counts UTF-16 code units, so an emoji above U+FFFF
counts twice. `Math.round(p / q)` is `floor(p / q + 1/2)` on the exact rational.

What the code does, where it may surprise:
- Field values are put into the replacement string unescaped. The model therefore requires
  values without `$` (see "Left out").
- An empty field does not always vanish without trace. Its line is dropped only if the whole
  line is blank. In the professional template the `📍` in front of an empty location
  stays in the bio. With a contact, the space after it and the line break merge into one
  space before the contact; without one, the `📍` ends the bio and the trim removes its space.
- A `{{key}}` for a key that is not one of the six fields stays in the text as it is.

## Model

| member | source | states |
|---|---|---|
| Strings.LeadingSpaces | src/app/tools/bio-maker/components/BioMakerTool.tsx:78 | the length of the leading white space: no longer than the string, and followed by a character that is not white space |
| Strings.TrailingSpaces | src/app/tools/bio-maker/components/BioMakerTool.tsx:78 | the length of the trailing white space: no longer than the string, and preceded by a character that is not white space |
| Strings.LeadingSpacesAreSpaces | src/app/tools/bio-maker/components/BioMakerTool.tsx:78 | every character of the leading part that `LeadingSpaces` counts is white space |
| Strings.TrailingSpacesAreSpaces | src/app/tools/bio-maker/components/BioMakerTool.tsx:78 | every character of the trailing part that `TrailingSpaces` counts is white space |
| Strings.TrimStart | src/app/tools/bio-maker/components/BioMakerTool.tsx:78 | the start-trimmed string is no longer than the input and does not start with white space |
| Strings.TrimEnd | src/app/tools/bio-maker/components/BioMakerTool.tsx:78 | the end-trimmed string is no longer than the input and does not end with white space |
| Strings.Trim | src/app/tools/bio-maker/components/BioMakerTool.tsx:78 | `trim`: the result has no white space at either end and is no longer than the input |
| Strings.TrimIsSlice | src/app/tools/bio-maker/components/BioMakerTool.tsx:86 | the trimmed string is the slice of the input that starts right after the leading white space |
| Strings.TrimDropsSpaces | src/app/tools/bio-maker/components/BioMakerTool.tsx:86 | what `trim` drops, in front of and behind the kept slice, is all white space |
| Strings.TrimKeepsOut | src/app/tools/resume-builder/components/ResumeBuilderTool.tsx:149 | trimming adds no character |
| Strings.TrimStartOfTrimmed | src/app/tools/bio-maker/components/BioMakerTool.tsx:86 | a string not starting with white space is its own start-trim |
| Strings.TrimEndOfTrimmed | src/app/tools/bio-maker/components/BioMakerTool.tsx:86 | a string not ending with white space is its own end-trim |
| Strings.TrimOfTrimmed | src/app/tools/bio-maker/components/BioMakerTool.tsx:86 | `trim` is the identity on strings with no white space at either end |
| Strings.TrimSpaceCons | src/app/tools/resume-builder/components/ResumeBuilderTool.tsx:149 | a white-space character put in front is removed by `trim` |
| Strings.SliceKeepsSpacing | src/app/tools/bio-maker/components/BioMakerTool.tsx:86 | a slice of single-spaced text is single-spaced |
| Strings.Count | src/app/tools/resume-builder/components/ResumeBuilderTool.tsx:149 | the number of occurrences of a character is at most the length, and zero exactly when the character does not occur |
| Strings.CountIsMultiplicity | src/app/tools/resume-builder/components/ResumeBuilderTool.tsx:149 | the number of occurrences of a character is its multiplicity in the multiset of the string's characters |
| Strings.Split | src/app/tools/resume-builder/components/ResumeBuilderTool.tsx:149 | `split` on one character: one piece more than there are separators |
| Strings.SplitPiecesOmitSeparator | src/app/tools/resume-builder/components/ResumeBuilderTool.tsx:149 | no piece of a split holds the separator |
| Strings.Join | src/app/tools/bio-maker/components/BioMakerTool.tsx:84 | `join`: the joined text starts with the first part |
| Strings.JoinConsFirst | src/app/tools/bio-maker/components/BioMakerTool.tsx:84 | a character put before the first part of a join comes first in the joined text |
| Strings.JoinSplit | src/app/tools/bio-maker/components/BioMakerTool.tsx:82-84 | joining the pieces of a split with the separator gives back the string |
| Strings.SplitNoSeparator | src/app/tools/bio-maker/components/BioMakerTool.tsx:82 | a string without the separator splits into itself alone |
| Strings.SplitConsOther | src/app/tools/bio-maker/components/BioMakerTool.tsx:82 | a non-separator character in front joins the first piece |
| Strings.SplitAfterPiece | src/app/tools/resume-builder/components/ResumeBuilderTool.tsx:149 | a separator-free piece followed by the separator comes out as the first piece |
| Strings.SplitJoin | src/app/tools/resume-builder/components/ResumeBuilderTool.tsx:149 | splitting the join of at least one separator-free part gives back the parts |
| Strings.SplitOn | src/app/tools/bio-maker/components/BioMakerTool.tsx:78 | the pieces between matches of a pattern, left to right: the first piece is a prefix of the text, and no piece contains the pattern |
| Strings.ReplaceAll | src/app/tools/bio-maker/components/BioMakerTool.tsx:78 | global literal replacement; a replacement as long as the pattern keeps the length of the text |
| Strings.ReplaceAllIsSplitJoin | src/app/tools/bio-maker/components/BioMakerTool.tsx:78 | global replacement is the text cut at every match, taken left to right, and rejoined with the replacement; inserted text is not scanned again |
| Strings.JoinSplitOn | src/app/tools/bio-maker/components/BioMakerTool.tsx:78 | rejoining the pieces with the pattern itself rebuilds the text |
| Strings.ReplaceAllAbsent | src/app/tools/bio-maker/components/BioMakerTool.tsx:78 | a text without the pattern is left unchanged |
| Strings.ReplaceAllWhole | src/app/tools/bio-maker/components/BioMakerTool.tsx:78 | a text that is exactly the pattern becomes exactly the replacement, even when the replacement holds the pattern again |
| Strings.ReplaceAllBySelf | src/app/tools/bio-maker/components/BioMakerTool.tsx:78 | replacing the pattern by itself changes nothing |
| Strings.Utf16Length | src/app/tools/bio-maker/components/BioMakerTool.tsx:261 | `length` in UTF-16 code units lies between the number of code points and twice that number |
| Strings.Utf16LengthAppend | src/app/tools/bio-maker/components/BioMakerTool.tsx:261 | the length of a concatenation is the sum of the lengths |
| Strings.Collapse | src/app/tools/bio-maker/components/BioMakerTool.tsx:85 | `replace(/\s+/g, " ")`: never two white-space characters in a row, only plain spaces, never longer than the input, empty exactly when the input is, and it starts with a space exactly when the input starts with white space |
| Strings.CollapseLastSpace | src/app/tools/bio-maker/components/BioMakerTool.tsx:85 | the collapse ends with a space exactly when the input ends with white space, so a run at the end also becomes one space |
| Strings.CollapseOfCollapsed | src/app/tools/bio-maker/components/BioMakerTool.tsx:85 | text with single plain spaces only is its own collapse |
| Strings.Visible | src/app/tools/bio-maker/components/BioMakerTool.tsx:81-86 | the visible characters of a text contain no white space and are never more than the text |
| Strings.VisibleAppend | src/app/tools/bio-maker/components/BioMakerTool.tsx:84 | the visible characters of a concatenation are those of the parts, in order |
| Strings.VisibleAllSpace | src/app/tools/bio-maker/components/BioMakerTool.tsx:83 | all-white-space text has no visible character |
| Strings.VisibleTrimStart | src/app/tools/bio-maker/components/BioMakerTool.tsx:85 | dropping leading white space loses no visible character |
| Strings.VisibleTrim | src/app/tools/bio-maker/components/BioMakerTool.tsx:86 | `trim` loses no visible character |
| Strings.VisibleCollapse | src/app/tools/bio-maker/components/BioMakerTool.tsx:85 | collapsing white space loses no visible character and keeps their order |
| Strings.Words | src/app/tools/bio-maker/components/BioMakerTool.tsx:85 | the maximal runs of non-white-space characters; text starting with a visible character has at least one |
| Strings.WordsAreWords | src/app/tools/bio-maker/components/BioMakerTool.tsx:85 | every word is non-empty and free of white space |
| Strings.WordsAllSpace | src/app/tools/bio-maker/components/BioMakerTool.tsx:83 | all-white-space text has no word |
| Strings.WordsSpaceCons | src/app/tools/bio-maker/components/BioMakerTool.tsx:85 | white space in front adds no word |
| Strings.WordsVisibleCons | src/app/tools/bio-maker/components/BioMakerTool.tsx:85 | a visible character in front joins the first word, or forms a word of its own before white space |
| Strings.WordsAppend | src/app/tools/bio-maker/components/BioMakerTool.tsx:84 | the words of a concatenation whose second part starts with white space are the words of the parts, in order |
| Strings.WordsTrimStart | src/app/tools/bio-maker/components/BioMakerTool.tsx:86 | dropping leading white space keeps the words |
| Strings.WordsTrimEnd | src/app/tools/bio-maker/components/BioMakerTool.tsx:86 | dropping trailing white space keeps the words |
| Strings.WordsTrim | src/app/tools/bio-maker/components/BioMakerTool.tsx:86 | `trim` keeps the words |
| Strings.WordsCollapse | src/app/tools/bio-maker/components/BioMakerTool.tsx:85 | collapsing white space keeps the words |
| Strings.SpacedTextIsJoinedWords | src/app/tools/bio-maker/components/BioMakerTool.tsx:85-86 | trimmed text of single plain spaces is its words joined by one space |
| BioMaker.FindIn | src/app/tools/bio-maker/components/BioMakerTool.tsx:73 | `find` by id: a found template is in the table with that id and no earlier template has the id, and nothing is found exactly when no template has the id |
| BioMaker.FindTemplate | src/app/tools/bio-maker/components/BioMakerTool.tsx:20-44 | the template rendered for an id is one of the four templates, with that id |
| BioMaker.FindTemplateKnownIds | src/app/tools/bio-maker/components/BioMakerTool.tsx:20-44 | a template is found exactly for the ids professional, creative, minimal and student |
| BioMaker.FormData.With | src/app/tools/bio-maker/components/BioMakerTool.tsx:95-98 | the named field takes the new value and the other five keep theirs |
| BioMaker.SubstituteFields | src/app/tools/bio-maker/components/BioMakerTool.tsx:77-79 | text without `{{`, such as an inserted value, passes through the substitution of the remaining fields unchanged |
| BioMaker.SubstituteFieldsCons | src/app/tools/bio-maker/components/BioMakerTool.tsx:77-79 | the first field's replacement happens before the remaining fields are processed |
| BioMaker.SubstituteFieldsStep | src/app/tools/bio-maker/components/BioMakerTool.tsx:77-79 | the i-th field's replacement happens between the earlier and the later fields |
| BioMaker.Substitute | src/app/tools/bio-maker/components/BioMakerTool.tsx:76-79 | the replacement loop yields the text after every field, in the order name, role, interests, achievements, location, contact, has replaced all its placeholders with its trimmed value |
| BioMaker.PlaceholderTrimmed | src/app/tools/bio-maker/components/BioMakerTool.tsx:78 | a placeholder has no white space to trim |
| BioMaker.PlaceholderReplaced | src/app/tools/bio-maker/components/BioMakerTool.tsx:78 | a lone placeholder is replaced by the trimmed value |
| BioMaker.InsertedPlaceholderIsSubstituted | src/app/tools/bio-maker/components/BioMakerTool.tsx:54-61 | a value that is the next field's placeholder is itself replaced by that next field's value |
| BioMaker.NoBracesNoPlaceholder | src/app/tools/bio-maker/components/BioMakerTool.tsx:78 | text without `{{` contains no placeholder |
| BioMaker.NameHoldingRolePlaceholder | src/app/tools/bio-maker/components/BioMakerTool.tsx:54-61 | in the form's order, a name of `{{role}}` ends up showing the trimmed role |
| BioMaker.NonBlankLines | src/app/tools/bio-maker/components/BioMakerTool.tsx:83 | the kept lines are exactly the lines that are not blank, and no more of them than there were lines |
| BioMaker.NonBlankLinesAppend | src/app/tools/bio-maker/components/BioMakerTool.tsx:83 | filtering a concatenation of lines filters each part, so the kept lines keep their order |
| BioMaker.NormalisedIsOneLine | src/app/tools/bio-maker/components/BioMakerTool.tsx:81-86 | a normalised text holds no line break |
| BioMaker.Normalise | src/app/tools/bio-maker/components/BioMakerTool.tsx:81-86 | the clean-up gives text with no white space at either end, only plain spaces and never two in a row |
| BioMaker.NormaliseOfNormalised | src/app/tools/bio-maker/components/BioMakerTool.tsx:81-86 | normalised text is left unchanged by the clean-up |
| BioMaker.NormaliseIdempotent | src/app/tools/bio-maker/components/BioMakerTool.tsx:81-86 | the clean-up is idempotent |
| BioMaker.VisibleJoinLines | src/app/tools/bio-maker/components/BioMakerTool.tsx:84 | joining lines with line breaks adds no visible character |
| BioMaker.VisibleNonBlankLines | src/app/tools/bio-maker/components/BioMakerTool.tsx:82-84 | dropping blank lines loses no visible character |
| BioMaker.NormaliseKeepsVisible | src/app/tools/bio-maker/components/BioMakerTool.tsx:81-86 | the clean-up keeps every visible character of the text, in order |
| BioMaker.WordsJoinLines | src/app/tools/bio-maker/components/BioMakerTool.tsx:84 | the words of lines joined by line breaks are the words of each line, in order |
| BioMaker.WordsNonBlankLines | src/app/tools/bio-maker/components/BioMakerTool.tsx:83-84 | dropping blank lines keeps the words of the joined text |
| BioMaker.NormaliseIsJoinedWords | src/app/tools/bio-maker/components/BioMakerTool.tsx:81-86 | the clean-up gives exactly the words of the text, in order, joined by one space |
| BioMaker.RenderTemplate | src/app/tools/bio-maker/components/BioMakerTool.tsx:76-86 | the bio computed by the loop of replacements and the clean-up is the rendered template |
| BioMaker.Render | src/app/tools/bio-maker/components/BioMakerTool.tsx:76-86 | a rendered bio is normalised and has no line break |
| BioMaker.OverLimitKeptByAppend | src/app/tools/bio-maker/components/BioMakerTool.tsx:261 | the over-limit flag is monotone in the text: an over-limit bio stays over the limit whatever is appended |
| BioMaker.Limit | src/app/tools/bio-maker/components/BioMakerTool.tsx:46-51 | each platform limit lies between 80 (TikTok) and 220 (LinkedIn) |
| BioMaker.OverLimit | src/app/tools/bio-maker/components/BioMakerTool.tsx:261 | the warning: more code points than the limit is over it; at most half the limit in code points is not |
| BioMaker.OverLimitOrdered | src/app/tools/bio-maker/components/BioMakerTool.tsx:46-51 | with the limits 150, 160, 220 and 80, over LinkedIn implies over Twitter, which implies over Instagram, which implies over TikTok |
| BioMaker.Regenerated | src/app/tools/bio-maker/components/BioMakerTool.tsx:72-89 | an unknown template id leaves the previous bio; a known one gives a normalised one-line bio |
| BioMaker.BioMakerTool.constructor | src/app/tools/bio-maker/components/BioMakerTool.tsx:54-65 | an empty form, the professional template and an empty bio |
| BioMaker.BioMakerTool.HandleInputChange | src/app/tools/bio-maker/components/BioMakerTool.tsx:91-99 | only the named field of the form changes |
| BioMaker.BioMakerTool.SelectTemplate | src/app/tools/bio-maker/components/BioMakerTool.tsx:63-64 | the selected template id becomes the chosen one |
| BioMaker.BioMakerTool.GenerateBio | src/app/tools/bio-maker/components/BioMakerTool.tsx:72-89 | the bio state becomes the regenerated bio: unchanged for an unknown id, otherwise the normalised substitution |
| ResumeBuilder.Education.Set | src/app/tools/resume-builder/components/ResumeBuilderTool.tsx:101 | the named field takes the value and the other fields keep theirs |
| ResumeBuilder.Experience.Set | src/app/tools/resume-builder/components/ResumeBuilderTool.tsx:136 | the named field takes the value and the other fields keep theirs |
| ResumeBuilder.PersonalInfo.Set | src/app/tools/resume-builder/components/ResumeBuilderTool.tsx:70-73 | the named field takes the value and the other fields keep theirs |
| ResumeBuilder.InitialResumeData | src/app/tools/resume-builder/components/ResumeBuilderTool.tsx:39-50 | every personal field is empty, and the education, experience and skills lists are empty |
| ResumeBuilder.UpdateById | src/app/tools/resume-builder/components/ResumeBuilderTool.tsx:100-102 | the list keeps its length and order; entries with the id are edited, others are kept |
| ResumeBuilder.RemoveById | src/app/tools/resume-builder/components/ResumeBuilderTool.tsx:109 | no entry with the id is left, only entries of the list remain, and every entry with another id remains |
| ResumeBuilder.RemoveByIdAppend | src/app/tools/resume-builder/components/ResumeBuilderTool.tsx:109 | removal from a concatenation is removal from each part, so relative order is kept |
| ResumeBuilder.RemoveByIdAbsent | src/app/tools/resume-builder/components/ResumeBuilderTool.tsx:109 | removing an id no entry has changes nothing |
| ResumeBuilder.RemoveByIdIdempotent | src/app/tools/resume-builder/components/ResumeBuilderTool.tsx:109 | removing twice is removing once |
| ResumeBuilder.UpdateByIdAbsent | src/app/tools/resume-builder/components/ResumeBuilderTool.tsx:100-102 | updating an id no entry has changes nothing |
| ResumeBuilder.BlankEducation | src/app/tools/resume-builder/components/ResumeBuilderTool.tsx:78-86 | the new entry has the given id and every other field empty |
| ResumeBuilder.BlankExperience | src/app/tools/resume-builder/components/ResumeBuilderTool.tsx:114-121 | the new entry has the given id and every other field empty |
| ResumeBuilder.HandlePersonalInfoChange | src/app/tools/resume-builder/components/ResumeBuilderTool.tsx:64-75 | only the named personal field changes; the lists and skills are untouched |
| ResumeBuilder.AddEducation | src/app/tools/resume-builder/components/ResumeBuilderTool.tsx:77-91 | education grows by one blank entry with the given id at the end, earlier entries unchanged and in order, the rest of the resume untouched |
| ResumeBuilder.UpdateEducation | src/app/tools/resume-builder/components/ResumeBuilderTool.tsx:93-104 | length kept; on entries with the id the field takes the value and other fields are kept; other entries and the rest of the resume untouched |
| ResumeBuilder.RemoveEducation | src/app/tools/resume-builder/components/ResumeBuilderTool.tsx:106-111 | no entry with the id is left, the entries kept are exactly the others, the rest of the resume untouched |
| ResumeBuilder.AddExperience | src/app/tools/resume-builder/components/ResumeBuilderTool.tsx:113-126 | experience grows by one blank entry with the given id at the end, earlier entries unchanged and in order, the rest of the resume untouched |
| ResumeBuilder.UpdateExperience | src/app/tools/resume-builder/components/ResumeBuilderTool.tsx:128-139 | length kept; on entries with the id the field takes the value and other fields are kept; other entries and the rest of the resume untouched |
| ResumeBuilder.RemoveExperience | src/app/tools/resume-builder/components/ResumeBuilderTool.tsx:141-146 | no entry with the id is left, the entries kept are exactly the others, the rest of the resume untouched |
| ResumeBuilder.RemoveUndoesAddEducation | src/app/tools/resume-builder/components/ResumeBuilderTool.tsx:77-111 | removing an entry just added under a fresh id restores the resume |
| ResumeBuilder.RemoveUndoesAddExperience | src/app/tools/resume-builder/components/ResumeBuilderTool.tsx:113-146 | removing an entry just added under a fresh id restores the resume |
| ResumeBuilder.RemoveEducationIdempotent | src/app/tools/resume-builder/components/ResumeBuilderTool.tsx:106-111 | removing education by id twice is removing it once |
| ResumeBuilder.RemoveExperienceIdempotent | src/app/tools/resume-builder/components/ResumeBuilderTool.tsx:141-146 | removing experience by id twice is removing it once |
| ResumeBuilder.TrimAll | src/app/tools/resume-builder/components/ResumeBuilderTool.tsx:149 | each piece trimmed, one result per piece |
| ResumeBuilder.TrimAllKeepsOut | src/app/tools/resume-builder/components/ResumeBuilderTool.tsx:149 | trimming the pieces adds no character to any of them |
| ResumeBuilder.ParseSkills | src/app/tools/resume-builder/components/ResumeBuilderTool.tsx:149 | exactly one skill more than there are commas, empty ones kept, each without a comma and with no white space at either end |
| ResumeBuilder.HandleSkillsChange | src/app/tools/resume-builder/components/ResumeBuilderTool.tsx:148-154 | the skills become the parsed text, one per comma-separated piece; personal information and both lists untouched |
| ResumeBuilder.RenderSkills | src/app/tools/resume-builder/components/ResumeBuilderTool.tsx:501 | the shown text of at least one comma-free skill has one comma fewer than there are skills |
| ResumeBuilder.SplitRenderSkills | src/app/tools/resume-builder/components/ResumeBuilderTool.tsx:501 | the text shown for the skills splits at its commas into the first skill and every later skill after one space |
| ResumeBuilder.ParseRenderSkills | src/app/tools/resume-builder/components/ResumeBuilderTool.tsx:149 | parsing the shown text of at least one trimmed, comma-free skill gives back the skills |
| ResumeBuilder.TrailingCommaKeepsEmptySkill | src/app/tools/resume-builder/components/ResumeBuilderTool.tsx:149 | a trailing comma gives a trailing empty skill |
| ResumeBuilder.NoSkillsParseToOneEmptySkill | src/app/tools/resume-builder/components/ResumeBuilderTool.tsx:501 | the initial empty list shows as empty text, which parses to one empty skill |
| ResumeBuilder.SkillsRoundTrip | src/app/tools/resume-builder/components/ResumeBuilderTool.tsx:149 | whatever was typed, showing the parsed skills and parsing that again gives the same skills |
| ImageResizer.PresetsArePositiveLandscape | src/app/tools/image-resizer/components/ImageResizerTool.tsx:22-27 | every preset has a positive height no greater than its width |
| ImageResizer.ImageTypeIsImageSlash | src/app/tools/image-resizer/components/ImageResizerTool.tsx:31 | a file type is accepted exactly when it is `image/` followed by some subtype |
| ImageResizer.RoundHalfUp | src/app/tools/image-resizer/components/ImageResizerTool.tsx:64 | `Math.round(p / q)`: the integer within half of `p / q`, halves going up |
| ImageResizer.RoundHalfUpUnique | src/app/tools/image-resizer/components/ImageResizerTool.tsx:64 | only one integer lies that close to `p / q`, so the rounding is fixed by the bracket |
| ImageResizer.RoundHalfUpExact | src/app/tools/image-resizer/components/ImageResizerTool.tsx:64 | an exact quotient is not changed by rounding |
| ImageResizer.RoundHalfUpMonotone | src/app/tools/image-resizer/components/ImageResizerTool.tsx:64 | a larger numerator never rounds lower |
| ImageResizer.ChangedDimensions | src/app/tools/image-resizer/components/ImageResizerTool.tsx:53-78 | with no image nothing changes; the driven side takes the value; unlocked, the other side is kept; locked, the other side is the nearest integer, halves up, to the value times `h0 / w0` (width driven) or `w0 / h0` (height driven) |
| ImageResizer.LockedOriginalSideRestoresOriginal | src/app/tools/image-resizer/components/ImageResizerTool.tsx:59-71 | locked, typing the original width or height gives back the original size |
| ImageResizer.LockedMultipleScalesExactly | src/app/tools/image-resizer/components/ImageResizerTool.tsx:59-71 | locked, k times an original side gives k times the original size, with no rounding |
| ImageResizer.LockedMonotone | src/app/tools/image-resizer/components/ImageResizerTool.tsx:59-71 | locked, a larger value for one side never gives a smaller other side |
| ImageResizer.UnlockedEditsAreIndependent | src/app/tools/image-resizer/components/ImageResizerTool.tsx:72-77 | unlocked, edits of the two sides commute, and typing back the old width undoes a width edit |
| ImageResizer.ImageResizerTool.constructor | src/app/tools/image-resizer/components/ImageResizerTool.tsx:11-19 | no file, no preview, an 800 by 600 target, the lock on and no image loaded |
| ImageResizer.ImageResizerTool.HandleFileSelect | src/app/tools/image-resizer/components/ImageResizerTool.tsx:29-32 | a file is accepted exactly when there is one and its type starts with `image/`; an accepted file is selected; otherwise nothing changes |
| ImageResizer.ImageResizerTool.OnReaderLoadEnd | src/app/tools/image-resizer/components/ImageResizerTool.tsx:34-47 | the preview becomes the data URL read |
| ImageResizer.ImageResizerTool.OnImageLoad | src/app/tools/image-resizer/components/ImageResizerTool.tsx:36-44 | the original size and the target size both become the image's size |
| ImageResizer.ImageResizerTool.HandleDimensionChange | src/app/tools/image-resizer/components/ImageResizerTool.tsx:53-78 | the target size becomes the one `ChangedDimensions` describes; nothing else changes |
| ImageResizer.ImageResizerTool.HandlePresetSelect | src/app/tools/image-resizer/components/ImageResizerTool.tsx:80-82 | the target size becomes the preset's, whatever the lock and whether an image is loaded |
| ImageResizer.ImageResizerTool.SetMaintainAspectRatio | src/app/tools/image-resizer/components/ImageResizerTool.tsx:226 | the lock follows the checkbox |

## Left out

- BioMaker.Substitute: values containing `$` are excluded by a precondition. JavaScript's
  replacement patterns (`$&`, `$$`, `` $` `` and others) would splice matched text into the
  bio, and the model does not implement them.
- BioMaker.RenderTemplate: it carries the same no-`$` precondition as `Substitute`.
- BioMaker.BioMakerTool.GenerateBio: it carries the same no-`$` precondition as `Substitute`.
- Regular-expression meaning of the placeholder pattern: the source builds `{{key}}` as a
  regular expression, and the model treats it as the literal text. In the default
  (non-Unicode) mode these braces are literal, so the two agree for the six keys.
- The order of `Object.entries` on the form is taken to be the order the form's fields are
  declared in. A field name that is not one of the six cannot arise from the inputs.
- The `useEffect` that re-runs the generator after every form or template change is not
  modelled as a trigger. `GenerateBio` is a method the caller invokes after the change.
- The copy button (clipboard write, the two-second `setTimeout`) and all JSX rendering.
- `Date.now()` ids: every add takes the id as a parameter. Ids are not assumed unique, which
  is why update and remove act on every entry with the id.
- The resume template picker, the active section, and the unimplemented PDF export stub.
- ImageResizer.ChangedDimensions: the quotient is computed exactly. The source divides
  floating-point numbers, and when `w0 / h0` is inexact the result can differ by one near a
  half. NaN from `parseInt` of an empty or non-numeric input is not modelled: values are
  integers.
- ImageResizer.ImageResizerTool.OnImageLoad: it requires a positive width and height. The
  source stores a zero size without complaint; the division by zero comes later, in
  `handleDimensionChange` (ImageResizerTool.tsx lines 60, 64 and 68), which then stores
  `Infinity` or `NaN`, and integers cannot represent either.
- The file reader and image decoding are callbacks the caller invokes in order. A stale read
  that completes after a newer one is therefore not modelled as an interleaving.
- The download (canvas drawing, `toBlob`, the object URL and the link click).
- The image comparator tool, the page files and the theme configuration hold no logic of
  this kind.
- A concrete whole-bio example (a given template and form, worked through to its exact text)
  is not proved. The general properties of substitution and normalisation are.

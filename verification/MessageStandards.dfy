/** The structured message validator: required sections in order, then optional ones,
    each a header with bullets, separated by blank lines. */
module MessageStandards {

  datatype Error =
    | BodyRequired | BlankLineRequired
    | MissingSection(section: string) | EntriesMustUseBullets(section: string) | AtLeastOneBullet(section: string)
    | UnsupportedLabel(line: string) | UnexpectedTrailing(line: string)

  /** What the validator asks about a line beyond comparing it: does it look like a label or a footer? */
  datatype LinePatterns = LinePatterns(isLabel: string -> bool, isFooter: string -> bool)

  predicate IsBullet(line: string) {
    "- " <= line
  }

  function Header(section: string): string {
    section + ":"
  }

  // ----- what each part of the validator is to find -----

  /** The lines from `index` on. */
  function Rest(lines: seq<string>, index: nat): seq<string> {
    if index <= |lines| then lines[index..] else []
  }

  function SkipBlanks(rest: seq<string>): (after: seq<string>)
    ensures after == [] || after[0] != ""
    ensures |after| <= |rest|
  {
    if rest != [] && rest[0] == "" then SkipBlanks(rest[1..]) else rest
  }

  /** The lines up to the next blank line. */
  function Content(rest: seq<string>): (content: seq<string>)
    ensures content <= rest && forall i :: 0 <= i < |content| ==> content[i] != ""
    ensures |content| == |rest| || rest[|content|] == ""
  {
    if rest == [] || rest[0] == "" then [] else [rest[0]] + Content(rest[1..])
  }

  function AfterContent(rest: seq<string>): seq<string> {
    rest[|Content(rest)|..]
  }

  /** Inside a section every line is a bullet or continues one; labels do not. */
  predicate LineFits(p: LinePatterns, line: string) {
    IsBullet(line) || !p.isLabel(line)
  }

  predicate StartsWithBullet(content: seq<string>) {
    content != [] && IsBullet(content[0])
  }

  function SectionErrors(p: LinePatterns, section: string, content: seq<string>): seq<Error> {
    (if content != [] && (!IsBullet(content[0]) || exists i :: 0 <= i < |content| && !LineFits(p, content[i]))
     then [EntriesMustUseBullets(section)] else [])
    + (if !StartsWithBullet(content) then [AtLeastOneBullet(section)] else [])
  }

  datatype Progress = Progress(rest: seq<string>, errors: seq<Error>)

  function RequiredStep(p: LinePatterns, section: string, rest: seq<string>): Progress {
    var at := SkipBlanks(rest);
    if at == [] || at[0] != Header(section) then Progress(at, [MissingSection(section)])
    else Progress(AfterContent(at[1..]), SectionErrors(p, section, Content(at[1..])))
  }

  function OptionalStep(p: LinePatterns, section: string, rest: seq<string>): Progress {
    var at := SkipBlanks(rest);
    if at == [] || at[0] != Header(section) then Progress(rest, [])
    else Progress(AfterContent(at[1..]), SectionErrors(p, section, Content(at[1..])))
  }

  function RequiredSteps(p: LinePatterns, sections: seq<string>, n: nat, rest: seq<string>): Progress
    requires n <= |sections|
  {
    if n == 0 then Progress(rest, [])
    else
      var before := RequiredSteps(p, sections, n - 1, rest);
      var step := RequiredStep(p, sections[n - 1], before.rest);
      Progress(step.rest, before.errors + step.errors)
  }

  function OptionalSteps(p: LinePatterns, sections: seq<string>, n: nat, rest: seq<string>): Progress
    requires n <= |sections|
  {
    if n == 0 then Progress(rest, [])
    else
      var before := OptionalSteps(p, sections, n - 1, rest);
      var step := OptionalStep(p, sections[n - 1], before.rest);
      Progress(step.rest, before.errors + step.errors)
  }

  function TrailingError(p: LinePatterns, line: string, allowFooters: bool): seq<Error> {
    if line == "" || (allowFooters && p.isFooter(line)) then []
    else if p.isLabel(line) then [UnsupportedLabel(line)]
    else [UnexpectedTrailing(line)]
  }

  function TrailingErrors(p: LinePatterns, rest: seq<string>, n: nat, allowFooters: bool): seq<Error>
    requires n <= |rest|
  {
    if n == 0 then [] else TrailingErrors(p, rest, n - 1, allowFooters) + TrailingError(p, rest[n - 1], allowFooters)
  }

  function BodyErrors(p: LinePatterns, rest: seq<string>, required: seq<string>, optional: seq<string>, allowFooters: bool): seq<Error> {
    var afterRequired := RequiredSteps(p, required, |required|, rest);
    var afterOptional := OptionalSteps(p, optional, |optional|, afterRequired.rest);
    afterRequired.errors + afterOptional.errors + TrailingErrors(p, afterOptional.rest, |afterOptional.rest|, allowFooters)
  }

  /** The errors of a whole message, whose second line is to be blank and whose body starts on the third. */
  function StructuredErrors(p: LinePatterns, lines: seq<string>, required: seq<string>, optional: seq<string>,
                            requireBody: bool, allowFooters: bool): seq<Error> {
    if requireBody && |lines| == 1 then [BodyRequired]
    else (if |lines| > 1 && lines[1] != "" then [BlankLineRequired] else [])
         + BodyErrors(p, Rest(lines, 2), required, optional, allowFooters)
  }

  // ----- the validator -----

  method SkipBlankLines(lines: seq<string>, start: nat) returns (index: nat)
    ensures index >= start && Rest(lines, index) == SkipBlanks(Rest(lines, start))
  {
    index := start;
    while index < |lines| && lines[index] == ""
      invariant index >= start && SkipBlanks(Rest(lines, index)) == SkipBlanks(Rest(lines, start))
    {
      index := index + 1;
    }
  }

  lemma ContentSplits(rest: seq<string>, n: nat)
    requires n <= |rest| && forall i :: 0 <= i < n ==> rest[i] != ""
    requires n == |rest| || rest[n] == ""
    ensures Content(rest) == rest[..n]
  {
    if n > 0 {
      ContentSplits(rest[1..], n - 1);
      assert rest[..n] == [rest[0]] + rest[1..][..n - 1];
    }
  }

  /** Non-blank lines up to a blank one or the end are a section's whole content. */
  lemma WholeContent(lines: seq<string>, start: nat, index: nat)
    requires start <= index <= |lines| && forall i :: start <= i < index ==> lines[i] != ""
    requires index == |lines| || lines[index] == ""
    ensures Content(lines[start..]) == lines[start..index] && AfterContent(lines[start..]) == lines[index..]
  {
    ContentSplits(lines[start..], index - start);
    assert lines[start..][..index - start] == lines[start..index];
  }

  method SkipToBlank(lines: seq<string>, start: nat) returns (index: nat)
    requires start <= |lines|
    ensures start <= index <= |lines| && (index == |lines| || lines[index] == "")
    ensures forall i :: start <= i < index ==> lines[i] != ""
  {
    index := start;
    while index < |lines| && lines[index] != ""
      invariant start <= index <= |lines| && forall i :: start <= i < index ==> lines[i] != ""
    {
      index := index + 1;
    }
  }

  method SkipContinuations(p: LinePatterns, lines: seq<string>, start: nat) returns (index: nat)
    requires start <= |lines|
    ensures start <= index <= |lines|
    ensures forall i :: start <= i < index ==> lines[i] != "" && LineFits(p, lines[i])
    ensures index < |lines| && lines[index] != "" ==> IsBullet(lines[index]) || !LineFits(p, lines[index])
  {
    index := start;
    while index < |lines| && lines[index] != "" && !IsBullet(lines[index]) && !p.isLabel(lines[index])
      invariant start <= index <= |lines|
      invariant forall i :: start <= i < index ==> lines[i] != "" && LineFits(p, lines[i])
    {
      index := index + 1;
    }
  }

  /** The errors of a section with a line that does not fit, or that starts without a bullet. */
  lemma MisfitErrors(p: LinePatterns, section: string, content: seq<string>, bad: nat)
    requires bad < |content| && !IsBullet(content[bad]) && (bad == 0 || !LineFits(p, content[bad]))
    ensures SectionErrors(p, section, content) ==
            [EntriesMustUseBullets(section)] + if IsBullet(content[0]) then [] else [AtLeastOneBullet(section)]
  {
  }

  method ValidateSectionBullets(p: LinePatterns, lines: seq<string>, section: string, start: nat)
    returns (index: nat, errors: seq<Error>)
    requires start <= |lines|
    ensures start <= index <= |lines| && Rest(lines, index) == AfterContent(lines[start..])
    ensures errors == SectionErrors(p, section, Content(lines[start..]))
  {
    errors, index := [], start;
    var bulletCount := 0;
    while index < |lines| && lines[index] != ""
      invariant start <= index <= |lines|
      invariant forall i :: start <= i < index ==> lines[i] != "" && LineFits(p, lines[i])
      invariant if index == start then bulletCount == 0 else bulletCount > 0 && IsBullet(lines[start])
      invariant index < |lines| && lines[index] != "" ==>
                  index == start || IsBullet(lines[index]) || !LineFits(p, lines[index])
    {
      if !IsBullet(lines[index]) {
        ghost var bad := index;
        index := SkipToBlank(lines, index);
        WholeContent(lines, start, index);
        MisfitErrors(p, section, lines[start..index], bad - start);
        errors := [EntriesMustUseBullets(section)] + if bulletCount == 0 then [AtLeastOneBullet(section)] else [];
        return;
      }
      bulletCount := bulletCount + 1;
      index := SkipContinuations(p, lines, index + 1);
    }
    WholeContent(lines, start, index);
    if bulletCount == 0 {
      errors := errors + [AtLeastOneBullet(section)];
    }
  }

  method ValidateRequiredSection(p: LinePatterns, lines: seq<string>, section: string, start: nat)
    returns (index: nat, errors: seq<Error>)
    ensures var step := RequiredStep(p, section, Rest(lines, start));
            Rest(lines, index) == step.rest && errors == step.errors
  {
    index := SkipBlankLines(lines, start);
    if index >= |lines| || lines[index] != Header(section) {
      return index, [MissingSection(section)];
    }
    assert Rest(lines, index)[1..] == lines[index + 1..];
    index, errors := ValidateSectionBullets(p, lines, section, index + 1);
  }

  method ValidateTrailingLines(p: LinePatterns, lines: seq<string>, start: nat, allowFooters: bool) returns (errors: seq<Error>)
    ensures var rest := Rest(lines, start); errors == TrailingErrors(p, rest, |rest|, allowFooters)
  {
    errors := [];
    var index := start;
    while index < |lines|
      invariant start <= index && (index <= |lines| || index == start)
      invariant index - start <= |Rest(lines, start)|
      invariant errors == TrailingErrors(p, Rest(lines, start), index - start, allowFooters)
    {
      var line := lines[index];
      if line != "" && !(allowFooters && p.isFooter(line)) {
        if p.isLabel(line) {
          errors := errors + [UnsupportedLabel(line)];
        } else {
          errors := errors + [UnexpectedTrailing(line)];
        }
      }
      index := index + 1;
    }
  }

  method ValidateRequiredSections(p: LinePatterns, lines: seq<string>, required: seq<string>, start: nat)
    returns (index: nat, errors: seq<Error>)
    ensures var steps := RequiredSteps(p, required, |required|, Rest(lines, start));
            Rest(lines, index) == steps.rest && errors == steps.errors
  {
    index, errors := start, [];
    for i := 0 to |required|
      invariant Rest(lines, index) == RequiredSteps(p, required, i, Rest(lines, start)).rest
      invariant errors == RequiredSteps(p, required, i, Rest(lines, start)).errors
    {
      var sectionErrors;
      index, sectionErrors := ValidateRequiredSection(p, lines, required[i], index);
      errors := errors + sectionErrors;
    }
  }

  method ValidateOptionalSection(p: LinePatterns, lines: seq<string>, section: string, start: nat)
    returns (index: nat, errors: seq<Error>)
    ensures var step := OptionalStep(p, section, Rest(lines, start));
            Rest(lines, index) == step.rest && errors == step.errors
  {
    index := SkipBlankLines(lines, start);
    if index >= |lines| || lines[index] != Header(section) {
      return start, [];
    }
    assert Rest(lines, index)[1..] == lines[index + 1..];
    index, errors := ValidateSectionBullets(p, lines, section, index + 1);
  }

  method ValidateOptionalSections(p: LinePatterns, lines: seq<string>, optional: seq<string>, start: nat)
    returns (index: nat, errors: seq<Error>)
    ensures var steps := OptionalSteps(p, optional, |optional|, Rest(lines, start));
            Rest(lines, index) == steps.rest && errors == steps.errors
  {
    index, errors := start, [];
    for i := 0 to |optional|
      invariant Rest(lines, index) == OptionalSteps(p, optional, i, Rest(lines, start)).rest
      invariant errors == OptionalSteps(p, optional, i, Rest(lines, start)).errors
    {
      var sectionErrors;
      index, sectionErrors := ValidateOptionalSection(p, lines, optional[i], index);
      errors := errors + sectionErrors;
    }
  }

  method ValidateStructuredSections(p: LinePatterns, lines: seq<string>, required: seq<string>, optional: seq<string>,
                                    requireBody: bool, allowFooters: bool)
    returns (errors: seq<Error>)
    ensures errors == StructuredErrors(p, lines, required, optional, requireBody, allowFooters)
  {
    if requireBody && |lines| == 1 {
      return [BodyRequired];
    }
    var index, requiredErrors := ValidateRequiredSections(p, lines, required, 2);
    var optionalErrors;
    index, optionalErrors := ValidateOptionalSections(p, lines, optional, index);
    var trailingErrors := ValidateTrailingLines(p, lines, index, allowFooters);
    errors := (if |lines| > 1 && lines[1] != "" then [BlankLineRequired] else [])
      + (requiredErrors + optionalErrors + trailingErrors);
  }
}

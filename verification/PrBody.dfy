/** The whole check of a pull request body: labels, structure, and the entries of sections. */
module PrBody {
  import opened Sequences
  import opened Wrappers
  import opened MessageStandards
  import opened MessageGrammar
  import opened PrMetadata

  /** What the check asks about an entry: is it a follow-up, closing or no-issue bullet, or
      does it at least begin like one? */
  datatype EntryTests = EntryTests(
    followUp: string -> bool, closes: string -> bool, none: string -> bool,
    beginsClosing: string -> bool, beginsReference: string -> bool, beginsNone: string -> bool)

  datatype BodyError =
    | Structure(error: Error)
    | ForbiddenLabels(labels: seq<string>)
    | WhyLinksIssues
    | ClosingBullet | ReferenceBullet | NoneBullet | LinkageBullet | NoneNotAlone
    | FollowUpBullet

  // ----- entries of one section -----

  /** A reason must not be an issue link. */
  predicate LinksIssue(x: EntryTests, entry: string) {
    x.beginsClosing(entry) || x.followUp(entry)
  }

  predicate IsLinkage(x: EntryTests, entry: string) {
    x.closes(entry) || x.followUp(entry) || x.none(entry)
  }

  function LinkageError(x: EntryTests, entry: string): BodyError {
    if x.beginsClosing(entry) then ClosingBullet
    else if x.beginsReference(entry) then ReferenceBullet
    else if x.beginsNone(entry) then NoneBullet
    else LinkageBullet
  }

  predicate WhyOk(x: EntryTests, entries: seq<string>) {
    forall e | e in entries :: !LinksIssue(x, e)
  }

  predicate LinkageOk(x: EntryTests, entries: seq<string>) {
    (forall e | e in entries :: IsLinkage(x, e)) && ((exists e | e in entries :: x.none(e)) ==> |entries| == 1)
  }

  predicate FollowUpsOk(x: EntryTests, entries: seq<string>) {
    forall e | e in entries :: x.followUp(e)
  }

  method ValidateWhyEntries(x: EntryTests, entries: seq<string>) returns (errors: seq<BodyError>)
    ensures errors == if WhyOk(x, entries) then [] else [WhyLinksIssues]
  {
    for i := 0 to |entries|
      invariant forall k :: 0 <= k < i ==> !LinksIssue(x, entries[k])
    {
      if LinksIssue(x, entries[i]) {
        assert entries[i] in entries;
        return [WhyLinksIssues];
      }
    }
    return [];
  }

  function FirstUnlinked(x: EntryTests, entries: seq<string>): (found: Option<string>)
    ensures found.Some? ==> found.value in entries && !IsLinkage(x, found.value)
    ensures found.None? ==> forall e :: e in entries ==> IsLinkage(x, e)
  {
    if entries == [] then None
    else if !IsLinkage(x, entries[0]) then Some(entries[0])
    else FirstUnlinked(x, entries[1..])
  }

  /** The first entry that is no linkage bullet is reported; when all are, a no-issue bullet
      must stand alone. */
  function LinkageErrors(x: EntryTests, entries: seq<string>): (errors: seq<BodyError>)
    ensures errors == [] <==> LinkageOk(x, entries)
  {
    match FirstUnlinked(x, entries)
    case Some(e) => [LinkageError(x, e)]
    case None => if (exists e | e in entries :: x.none(e)) && |entries| != 1 then [NoneNotAlone] else []
  }

  /** The first entry that is no linkage bullet decides, by how it begins: like a closing one,
      else like a reference, else like a no-issue one, else like none of them. */
  lemma FirstOffenderDecides(x: EntryTests, before: seq<string>, entry: string, after: seq<string>)
    requires forall e :: e in before ==> x.closes(e) || x.followUp(e) || x.none(e)
    requires !x.closes(entry) && !x.followUp(entry) && !x.none(entry)
    ensures var errors := LinkageErrors(x, before + [entry] + after);
            && (errors == [ClosingBullet] <==> x.beginsClosing(entry))
            && (errors == [ReferenceBullet] <==> !x.beginsClosing(entry) && x.beginsReference(entry))
            && (errors == [NoneBullet] <==> !x.beginsClosing(entry) && !x.beginsReference(entry) && x.beginsNone(entry))
            && (errors == [LinkageBullet] <==> !x.beginsClosing(entry) && !x.beginsReference(entry) && !x.beginsNone(entry))
  {
    FirstUnlinkedAfter(x, before, [entry] + after);
    assert before + [entry] + after == before + ([entry] + after);
  }

  lemma {:induction false} FirstUnlinkedAfter(x: EntryTests, before: seq<string>, rest: seq<string>)
    requires forall e :: e in before ==> IsLinkage(x, e)
    ensures FirstUnlinked(x, before + rest) == FirstUnlinked(x, rest)
    decreases |before|
  {
    if before == [] {
      assert before + rest == rest;
    } else {
      assert (before + rest)[1..] == before[1..] + rest;
      FirstUnlinkedAfter(x, before[1..], rest);
    }
  }

  method ValidateIssueLinkageEntries(x: EntryTests, entries: seq<string>) returns (errors: seq<BodyError>)
    ensures errors == LinkageErrors(x, entries)
  {
    assert entries[0..] == entries;
    for i := 0 to |entries|
      invariant FirstUnlinked(x, entries) == FirstUnlinked(x, entries[i..])
    {
      assert entries[i..][1..] == entries[i + 1..];
      if IsLinkage(x, entries[i]) {
        continue;
      }
      return [LinkageError(x, entries[i])];
    }
    assert FirstUnlinked(x, entries).None?;
    if (exists e | e in entries :: x.none(e)) && |entries| != 1 {
      return [NoneNotAlone];
    }
    return [];
  }

  method ValidateFollowUpEntries(x: EntryTests, entries: seq<string>) returns (errors: seq<BodyError>)
    ensures errors == if FollowUpsOk(x, entries) then [] else [FollowUpBullet]
  {
    for i := 0 to |entries|
      invariant forall k :: 0 <= k < i ==> x.followUp(entries[k])
    {
      if x.followUp(entries[i]) {
        continue;
      }
      assert entries[i] in entries;
      return [FollowUpBullet];
    }
    return [];
  }

  // ----- the whole body -----

  function Structural(errors: seq<Error>): (r: seq<BodyError>)
    ensures |r| == |errors| && forall i :: 0 <= i < |r| ==> r[i] == Structure(errors[i])
  {
    seq(|errors|, i requires 0 <= i < |errors| => Structure(errors[i]))
  }

  /** The body is written in sections whose entries are in order. */
  ghost predicate WellWritten(p: LinePatterns, x: EntryTests, lines: seq<string>, blocks: seq<Block>, trailing: nat) {
    && InLanguage(p, lines, PR_BODY_REQUIRED_SECTIONS, PR_BODY_OPTIONAL_SECTIONS, blocks, trailing)
    && WhyOk(x, Written(blocks, "Why"))
    && LinkageOk(x, Written(blocks, "Issue linkage"))
    && FollowUpsOk(x, Written(blocks, "Follow-ups"))
  }

  /** A body is accepted exactly when it is not empty, uses no forbidden label, and is
      written in sections whose entries are in order. */
  ghost predicate Acceptable(t: LineTexts, p: LinePatterns, x: EntryTests, forbidden: seq<string> -> seq<string>, raw: seq<string>) {
    var lines := Normalized(t, raw);
    lines != [] && forbidden(lines) == [] && exists blocks, trailing :: WellWritten(p, x, lines, blocks, trailing)
  }

  /** What each entry of a section has to be, and that a no-issue bullet stands alone. */
  predicate EntryOk(x: EntryTests, b: Block, entry: string) {
    && (b.section == "Why" ==> !x.beginsClosing(entry) && !x.followUp(entry))
    && (b.section == "Issue linkage" ==>
          (x.closes(entry) || x.followUp(entry) || x.none(entry)) && (x.none(entry) ==> b.content == [entry]))
    && (b.section == "Follow-ups" ==> x.followUp(entry))
  }

  predicate EntriesOk(x: EntryTests, b: Block) {
    forall entry | entry in b.content :: EntryOk(x, b, entry)
  }

  lemma BlockEntries(x: EntryTests, b: Block)
    requires b.content != []
    ensures EntriesOk(x, b)
            <==> && (b.section == "Why" ==> WhyOk(x, b.content)) && (b.section == "Issue linkage" ==> LinkageOk(x, b.content))
                 && (b.section == "Follow-ups" ==> FollowUpsOk(x, b.content))
  {
    if |b.content| == 1 {
      assert b.content == [b.content[0]];
    }
    if EntriesOk(x, b) && b.section == "Issue linkage" {
      if e :| e in b.content && x.none(e) {
        assert EntryOk(x, b, e);
      }
    }
  }

  lemma SectionsHaveBlocks(x: EntryTests, blocks: seq<Block>, section: string)
    requires forall i :: 0 <= i < |blocks| ==> Written(blocks, blocks[i].section) == blocks[i].content
    ensures Written(blocks, section) == [] || exists i :: 0 <= i < |blocks| && blocks[i].section == section && blocks[i].content == Written(blocks, section)
  {
    if forall i :: 0 <= i < |blocks| ==> blocks[i].section != section {
      WrittenNever(blocks, section);
    }
  }

  /** The body is well written exactly when every entry of each block is what its section asks for. */
  lemma WellWrittenExactly(p: LinePatterns, x: EntryTests, lines: seq<string>, blocks: seq<Block>, trailing: nat)
    ensures WellWritten(p, x, lines, blocks, trailing)
            <==> && InLanguage(p, lines, PR_BODY_REQUIRED_SECTIONS, PR_BODY_OPTIONAL_SECTIONS, blocks, trailing)
                 && forall i :: 0 <= i < |blocks| ==> EntriesOk(x, blocks[i])
  {
    if InLanguage(p, lines, PR_BODY_REQUIRED_SECTIONS, PR_BODY_OPTIONAL_SECTIONS, blocks, trailing) {
      DistinctPrSections();
      forall i | 0 <= i < |blocks|
        ensures Written(blocks, blocks[i].section) == blocks[i].content && blocks[i].content != []
      {
        EachSectionOnce(p, lines, PR_BODY_REQUIRED_SECTIONS, PR_BODY_OPTIONAL_SECTIONS, blocks, trailing, i);
      }
      forall i | 0 <= i < |blocks| {
        BlockEntries(x, blocks[i]);
      }
      SectionsHaveBlocks(x, blocks, "Why");
      SectionsHaveBlocks(x, blocks, "Issue linkage");
      SectionsHaveBlocks(x, blocks, "Follow-ups");
    }
  }

  lemma DistinctPrSections()
    ensures NoRepeats(PR_BODY_REQUIRED_SECTIONS + PR_BODY_OPTIONAL_SECTIONS)
  {
    var all := PR_BODY_REQUIRED_SECTIONS + PR_BODY_OPTIONAL_SECTIONS;
    assert all[0] == "Why" && all[1] == "What" && all[2] == "Checks" && all[3] == "Issue linkage"
        && all[4] == "Included checkpoints" && all[5] == "Follow-ups";
    assert |all[0]| == 3 && |all[1]| == 4 && |all[2]| == 6 && |all[3]| == 13 && |all[4]| == 20 && |all[5]| == 10;
  }

  /** Comments change nothing: a body is acceptable exactly when it is without them. */
  lemma CommentsDoNotMatter(t: LineTexts, p: LinePatterns, x: EntryTests, forbidden: seq<string> -> seq<string>, pieces: seq<Piece>)
    requires WellCommented(t, pieces)
    ensures Acceptable(t, p, x, forbidden, RawOf(pieces)) <==> Acceptable(t, p, x, forbidden, LinesOf(pieces))
  {
    NormalizedWithoutComments(t, pieces);
  }

  lemma SectionNames()
    ensures "Why" in PR_BODY_SECTIONS && "Issue linkage" in PR_BODY_SECTIONS && "Follow-ups" in PR_BODY_SECTIONS
  {
    assert PR_BODY_SECTIONS[0] == "Why" && PR_BODY_SECTIONS[3] == "Issue linkage" && PR_BODY_SECTIONS[5] == "Follow-ups";
  }

  lemma SectionsPresent(lines: seq<string>, section: string)
    requires section in PR_BODY_SECTIONS
    ensures section in Parsed(PR_BODY_SECTIONS, lines)
  {
  }

  /** The lists of errors are all empty exactly when the body is well written. */
  lemma SectionsDecide(p: LinePatterns, x: EntryTests, lines: seq<string>)
    requires HeadersAreLabels(p, PR_BODY_SECTIONS)
    requires forall section :: section in PR_BODY_SECTIONS ==> section in Parsed(PR_BODY_SECTIONS, lines)
    requires "Why" in PR_BODY_SECTIONS && "Issue linkage" in PR_BODY_SECTIONS && "Follow-ups" in PR_BODY_SECTIONS
    ensures var sections := Parsed(PR_BODY_SECTIONS, lines);
            (exists blocks, trailing :: WellWritten(p, x, lines, blocks, trailing))
            <==> && BodyErrors(p, lines, PR_BODY_REQUIRED_SECTIONS, PR_BODY_OPTIONAL_SECTIONS, false) == []
                 && WhyOk(x, sections["Why"]) && LinkageOk(x, sections["Issue linkage"]) && FollowUpsOk(x, sections["Follow-ups"])
  {
    if blocks, trailing :| WellWritten(p, x, lines, blocks, trailing) {
      InLanguageIsAccepted(p, lines, PR_BODY_REQUIRED_SECTIONS, PR_BODY_OPTIONAL_SECTIONS, blocks, trailing);
      ParsedAsWritten(p, lines, PR_BODY_REQUIRED_SECTIONS, PR_BODY_OPTIONAL_SECTIONS, blocks, trailing);
    }
    if BodyErrors(p, lines, PR_BODY_REQUIRED_SECTIONS, PR_BODY_OPTIONAL_SECTIONS, false) == [] {
      var blocks, trailing := ParserAgreesWithValidator(p, lines, PR_BODY_REQUIRED_SECTIONS, PR_BODY_OPTIONAL_SECTIONS);
      var sections := Parsed(PR_BODY_SECTIONS, lines);
      assert WellWritten(p, x, lines, blocks, trailing) <==>
               WhyOk(x, sections["Why"]) && LinkageOk(x, sections["Issue linkage"]) && FollowUpsOk(x, sections["Follow-ups"]);
    }
  }

  function SectionLines(lines: seq<string>, section: string): seq<string> {
    var parsed := Parsed(PR_BODY_SECTIONS, lines);
    if section in parsed then parsed[section] else []
  }

  /** Every error of a body, in the order reported. */
  function AllErrors(p: LinePatterns, x: EntryTests, forbidden: seq<string> -> seq<string>, lines: seq<string>): seq<BodyError> {
    if lines == [] then [Structure(BodyRequired)]
    else
      (if forbidden(lines) == [] then [] else [ForbiddenLabels(forbidden(lines))])
      + Structural(BodyErrors(p, lines, PR_BODY_REQUIRED_SECTIONS, PR_BODY_OPTIONAL_SECTIONS, false))
      + (if WhyOk(x, SectionLines(lines, "Why")) then [] else [WhyLinksIssues])
      + LinkageErrors(x, SectionLines(lines, "Issue linkage"))
      + (if FollowUpsOk(x, SectionLines(lines, "Follow-ups")) then [] else [FollowUpBullet])
  }

  method ValidatePrBody(t: LineTexts, p: LinePatterns, x: EntryTests, forbidden: seq<string> -> seq<string>, raw: seq<string>)
    returns (errors: seq<BodyError>)
    requires HeadersAreLabels(p, PR_BODY_SECTIONS)
    ensures errors == [] <==> Acceptable(t, p, x, forbidden, raw)
    ensures errors == AllErrors(p, x, forbidden, Normalized(t, raw))
  {
    var lines := NormalizeBodyLines(t, raw);
    var structure, sections := ValidateStructure(t, p, raw);
    if lines == [] {
      return [Structure(BodyRequired)];
    }
    SectionNames();
    forall section | section in PR_BODY_SECTIONS ensures section in Parsed(PR_BODY_SECTIONS, lines) {
      SectionsPresent(lines, section);
    }
    SectionsDecide(p, x, lines);
    var labels := if forbidden(lines) == [] then [] else [ForbiddenLabels(forbidden(lines))];
    var why := ValidateWhyEntries(x, sections["Why"]);
    var linkage := ValidateIssueLinkageEntries(x, sections["Issue linkage"]);
    var followUps := ValidateFollowUpEntries(x, sections["Follow-ups"]);
    errors := labels + Structural(structure) + why + linkage + followUps;
  }
}

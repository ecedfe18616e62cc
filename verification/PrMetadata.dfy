/** The pull request body: comments stripped, structure validated, sections parsed. */
module PrMetadata {
  import opened Sequences
  import opened Wrappers
  import opened MessageStandards
  import opened MessageGrammar

  const PR_BODY_REQUIRED_SECTIONS := ["Why", "What", "Checks", "Issue linkage", "Included checkpoints"]
  const PR_BODY_OPTIONAL_SECTIONS := ["Follow-ups"]

  // ----- stripping comments -----

  /** How one raw line is trimmed, and whether its trimmed form opens or closes a comment. */
  datatype LineTexts = LineTexts(trimEnd: string -> string, opens: string -> bool, closes: string -> bool)

  ghost predicate TrimsOnce(t: LineTexts) {
    forall line :: t.trimEnd(t.trimEnd(line)) == t.trimEnd(line)
  }

  /** The lines outside comments, trimmed. A line that opens a comment is dropped whole. */
  function OutsideComments(t: LineTexts, raw: seq<string>, inComment: bool): seq<string> {
    if raw == [] then []
    else
      var line := t.trimEnd(raw[0]);
      if inComment || t.opens(line) then OutsideComments(t, raw[1..], !t.closes(line))
      else [line] + OutsideComments(t, raw[1..], false)
  }

  function DropTrailingBlanks(lines: seq<string>): seq<string> {
    if lines != [] && lines[|lines| - 1] == "" then DropTrailingBlanks(lines[..|lines| - 1]) else lines
  }

  function Normalized(t: LineTexts, raw: seq<string>): seq<string> {
    DropTrailingBlanks(OutsideComments(t, raw, false))
  }

  method NormalizeBodyLines(t: LineTexts, raw: seq<string>) returns (lines: seq<string>)
    ensures lines == Normalized(t, raw)
  {
    lines := [];
    var inHtmlComment := false;
    for i := 0 to |raw|
      invariant lines + OutsideComments(t, raw[i..], inHtmlComment) == OutsideComments(t, raw, false)
    {
      var line := t.trimEnd(raw[i]);
      assert raw[i..][1..] == raw[i + 1..];
      if inHtmlComment {
        if t.closes(line) { inHtmlComment := false; }
        continue;
      }
      if t.opens(line) {
        if !t.closes(line) { inHtmlComment := true; }
        continue;
      }
      lines := lines + [line];
    }
    assert raw[|raw|..] == [];
    assert lines == OutsideComments(t, raw, false);
    ghost var kept := lines;
    while lines != [] && lines[|lines| - 1] == ""
      invariant DropTrailingBlanks(lines) == DropTrailingBlanks(kept)
    {
      lines := lines[..|lines| - 1];
    }
  }

  /** A line that normalizing would keep as it is. */
  ghost predicate Settled(t: LineTexts, line: string) {
    t.trimEnd(line) == line && !t.opens(line)
  }

  lemma {:induction false} OutsideAreSettled(t: LineTexts, raw: seq<string>, inComment: bool)
    requires TrimsOnce(t)
    ensures forall line :: line in OutsideComments(t, raw, inComment) ==> Settled(t, line)
  {
    if raw != [] {
      var line := t.trimEnd(raw[0]);
      OutsideAreSettled(t, raw[1..], (inComment || t.opens(line)) && !t.closes(line));
    }
  }

  lemma {:induction false} SettledStay(t: LineTexts, lines: seq<string>)
    requires forall line :: line in lines ==> Settled(t, line)
    ensures OutsideComments(t, lines, false) == lines
  {
    if lines != [] {
      assert lines[0] in lines;
      SettledStay(t, lines[1..]);
    }
  }

  lemma {:induction false} DropIsPrefix(lines: seq<string>)
    ensures DropTrailingBlanks(lines) <= lines
    ensures DropTrailingBlanks(DropTrailingBlanks(lines)) == DropTrailingBlanks(lines)
    ensures var d := DropTrailingBlanks(lines); d != [] ==> d[|d| - 1] != ""
    ensures var d := DropTrailingBlanks(lines); lines == d + Blanks(|lines| - |d|)
  {
    if lines != [] && lines[|lines| - 1] == "" { DropIsPrefix(lines[..|lines| - 1]); }
  }

  /** Normalizing a normalized body changes nothing, and no normalized body ends in a blank line. */
  lemma NormalizedOnce(t: LineTexts, raw: seq<string>)
    requires TrimsOnce(t)
    ensures var lines := Normalized(t, raw);
            Normalized(t, lines) == lines && (lines != [] ==> lines[|lines| - 1] != "")
  {
    var kept := OutsideComments(t, raw, false);
    OutsideAreSettled(t, raw, false);
    DropIsPrefix(kept);
    SettledStay(t, DropTrailingBlanks(kept));
  }

  // ----- comments -----

  function Trimmed(t: LineTexts, raw: seq<string>): (r: seq<string>)
    ensures |r| == |raw| && forall i :: 0 <= i < |r| ==> r[i] == t.trimEnd(raw[i])
  {
    seq(|raw|, i requires 0 <= i < |raw| => t.trimEnd(raw[i]))
  }

  predicate OpensAt(t: LineTexts, raw: string) {
    t.opens(t.trimEnd(raw))
  }

  predicate ClosesAt(t: LineTexts, raw: string) {
    t.closes(t.trimEnd(raw))
  }

  /** A comment: one line that opens and closes it, or one that opens it, lines that do not
      close it, and one that does. */
  predicate IsComment(t: LineTexts, lines: seq<string>) {
    && lines != [] && OpensAt(t, lines[0]) && ClosesAt(t, lines[|lines| - 1])
    && forall i :: 0 <= i < |lines| - 1 ==> !ClosesAt(t, lines[i])
  }

  /** Lines in which no comment opens are kept. */
  lemma {:induction false} PlainLinesStay(t: LineTexts, plain: seq<string>, after: seq<string>)
    requires forall line :: line in plain ==> !OpensAt(t, line)
    ensures OutsideComments(t, plain + after, false) == Trimmed(t, plain) + OutsideComments(t, after, false)
  {
    if plain == [] {
      assert plain + after == after;
    } else {
      assert plain[0] in plain;
      assert (plain + after)[1..] == plain[1..] + after;
      assert Trimmed(t, plain) == [t.trimEnd(plain[0])] + Trimmed(t, plain[1..]);
      PlainLinesStay(t, plain[1..], after);
    }
  }

  /** What is inside a comment up to its end is dropped. */
  lemma {:induction false} InsideIsDropped(t: LineTexts, inside: seq<string>, close: string, after: seq<string>)
    requires (forall line :: line in inside ==> !ClosesAt(t, line)) && ClosesAt(t, close)
    ensures OutsideComments(t, inside + [close] + after, true) == OutsideComments(t, after, false)
  {
    var all := inside + [close] + after;
    if inside == [] {
      assert all[1..] == after;
    } else {
      assert inside[0] in inside;
      assert all[1..] == inside[1..] + [close] + after;
      InsideIsDropped(t, inside[1..], close, after);
    }
  }

  /** A comment that is closed is dropped, and what follows it is read as if it were not there. */
  lemma CommentIsDropped(t: LineTexts, comment: seq<string>, after: seq<string>)
    requires IsComment(t, comment)
    ensures OutsideComments(t, comment + after, false) == OutsideComments(t, after, false)
  {
    var all := comment + after;
    if |comment| == 1 {
      assert all[1..] == after;
    } else {
      var inside, close := comment[1..|comment| - 1], comment[|comment| - 1];
      assert all[1..] == inside + [close] + after;
      InsideIsDropped(t, inside, close, after);
    }
  }

  /** A comment that is not closed takes the rest of the body with it. */
  lemma {:induction false} UnclosedDropsTheRest(t: LineTexts, rest: seq<string>)
    requires forall line :: line in rest ==> !ClosesAt(t, line)
    ensures OutsideComments(t, rest, true) == []
  {
    if rest != [] {
      assert rest[0] in rest;
      UnclosedDropsTheRest(t, rest[1..]);
    }
  }

  lemma UnclosedComment(t: LineTexts, plain: seq<string>, rest: seq<string>)
    requires forall line :: line in plain ==> !OpensAt(t, line)
    requires rest != [] && OpensAt(t, rest[0]) && forall line :: line in rest ==> !ClosesAt(t, line)
    ensures OutsideComments(t, plain + rest, false) == Trimmed(t, plain)
  {
    PlainLinesStay(t, plain, rest);
    assert rest[0] in rest;
    UnclosedDropsTheRest(t, rest[1..]);
  }

  /** A body read up to its end: plain lines and comments, in any mixture. */
  datatype Piece = Line(raw: string) | Comment(lines: seq<string>)

  function RawLines(piece: Piece): seq<string> {
    match piece case Line(raw) => [raw] case Comment(lines) => lines
  }

  function OwnLines(piece: Piece): seq<string> {
    match piece case Line(raw) => [raw] case Comment(_) => []
  }

  function RawOf(pieces: seq<Piece>): seq<string> {
    if pieces == [] then [] else RawLines(pieces[0]) + RawOf(pieces[1..])
  }

  function LinesOf(pieces: seq<Piece>): seq<string> {
    if pieces == [] then [] else OwnLines(pieces[0]) + LinesOf(pieces[1..])
  }

  predicate WellPlaced(t: LineTexts, piece: Piece) {
    match piece case Line(raw) => !OpensAt(t, raw) case Comment(lines) => IsComment(t, lines)
  }

  predicate WellCommented(t: LineTexts, pieces: seq<Piece>) {
    forall i :: 0 <= i < |pieces| ==> WellPlaced(t, pieces[i])
  }

  lemma PieceLeavesItsLines(t: LineTexts, piece: Piece, more: seq<string>)
    requires WellPlaced(t, piece)
    ensures OutsideComments(t, RawLines(piece) + more, false) == Trimmed(t, OwnLines(piece)) + OutsideComments(t, more, false)
  {
    match piece {
      case Line(raw) => PlainLinesStay(t, [raw], more);
      case Comment(lines) => CommentIsDropped(t, lines, more);
    }
  }

  lemma TrimmedConcat(t: LineTexts, a: seq<string>, b: seq<string>)
    ensures Trimmed(t, a + b) == Trimmed(t, a) + Trimmed(t, b)
  {}

  /** Comments leave no trace: what is kept of a commented body is its other lines, trimmed. */
  lemma {:induction false} CommentsLeaveNoTrace(t: LineTexts, pieces: seq<Piece>, rest: seq<string>)
    requires WellCommented(t, pieces)
    ensures OutsideComments(t, RawOf(pieces) + rest, false) == Trimmed(t, LinesOf(pieces)) + OutsideComments(t, rest, false)
    decreases |pieces|
  {
    if pieces == [] {
      assert RawOf(pieces) + rest == rest;
    } else {
      var piece, others := pieces[0], pieces[1..];
      CommentsLeaveNoTrace(t, others, rest);
      PieceLeavesItsLines(t, piece, RawOf(others) + rest);
      TrimmedConcat(t, OwnLines(piece), LinesOf(others));
      Associates(RawLines(piece), RawOf(others), rest);
      Associates(Trimmed(t, OwnLines(piece)), Trimmed(t, LinesOf(others)), OutsideComments(t, rest, false));
    }
  }

  /** So a commented body normalizes to its other lines, trimmed, without the blank ones at its end. */
  lemma NormalizedWithoutComments(t: LineTexts, pieces: seq<Piece>)
    requires WellCommented(t, pieces)
    ensures Normalized(t, RawOf(pieces)) == DropTrailingBlanks(Trimmed(t, LinesOf(pieces)))
    ensures Normalized(t, RawOf(pieces)) == Normalized(t, LinesOf(pieces))
  {
    CommentsLeaveNoTrace(t, pieces, []);
    assert RawOf(pieces) + [] == RawOf(pieces);
    LinesOpenNothing(t, pieces);
    PlainLinesStay(t, LinesOf(pieces), []);
    assert LinesOf(pieces) + [] == LinesOf(pieces);
    assert Trimmed(t, LinesOf(pieces)) + [] == Trimmed(t, LinesOf(pieces));
  }

  lemma PieceInFront(t: LineTexts, piece: Piece, pieces: seq<Piece>, rest: seq<string>)
    requires WellPlaced(t, piece) && WellCommented(t, pieces)
    ensures WellCommented(t, [piece] + pieces) && RawOf([piece] + pieces) + rest == RawLines(piece) + (RawOf(pieces) + rest)
  {
    var all := [piece] + pieces;
    assert all[0] == piece && all[1..] == pieces;
    Associates(RawLines(piece), RawOf(pieces), rest);
  }

  /** Every body is such a mixture, but for a comment at its end that is not closed. */
  lemma {:induction false} EveryBodyIsPieces(t: LineTexts, raw: seq<string>) returns (pieces: seq<Piece>, rest: seq<string>)
    ensures WellCommented(t, pieces) && raw == RawOf(pieces) + rest
    ensures rest != [] ==> OpensAt(t, rest[0]) && forall line :: line in rest ==> !ClosesAt(t, line)
    decreases |raw|
  {
    if raw == [] || (OpensAt(t, raw[0]) && forall line :: line in raw ==> !ClosesAt(t, line)) {
      return [], raw;
    }
    var piece, n := FirstPiece(t, raw);
    pieces, rest := EveryBodyIsPieces(t, raw[n..]);
    PieceInFront(t, piece, pieces, rest);
    pieces := [piece] + pieces;
  }

  lemma FirstPiece(t: LineTexts, raw: seq<string>) returns (piece: Piece, n: nat)
    requires raw != [] && (OpensAt(t, raw[0]) ==> exists line :: line in raw && ClosesAt(t, line))
    ensures 0 < n <= |raw| && WellPlaced(t, piece) && raw == RawLines(piece) + raw[n..]
  {
    if OpensAt(t, raw[0]) {
      n := CommentEnd(t, raw);
      piece := Comment(raw[..n]);
    } else {
      n := 1;
      piece := Line(raw[0]);
    }
  }

  lemma {:induction false} CommentEnd(t: LineTexts, raw: seq<string>) returns (n: nat)
    requires exists line :: line in raw && ClosesAt(t, line)
    ensures 0 < n <= |raw| && ClosesAt(t, raw[n - 1]) && forall i :: 0 <= i < n - 1 ==> !ClosesAt(t, raw[i])
  {
    if ClosesAt(t, raw[0]) {
      n := 1;
    } else {
      var line :| line in raw && ClosesAt(t, line);
      assert line in raw[1..];
      n := CommentEnd(t, raw[1..]);
      n := n + 1;
    }
  }

  /** Of any body there remain its lines outside comments, trimmed, up to a comment that is not closed. */
  lemma NormalizedExactly(t: LineTexts, raw: seq<string>) returns (pieces: seq<Piece>, rest: seq<string>)
    ensures WellCommented(t, pieces) && raw == RawOf(pieces) + rest
    ensures rest != [] ==> OpensAt(t, rest[0]) && forall line :: line in rest ==> !ClosesAt(t, line)
    ensures Normalized(t, raw) == DropTrailingBlanks(Trimmed(t, LinesOf(pieces)))
  {
    pieces, rest := EveryBodyIsPieces(t, raw);
    CommentsLeaveNoTrace(t, pieces, rest);
    if rest != [] {
      UnclosedComment(t, [], rest);
      assert [] + rest == rest;
    }
    assert Trimmed(t, LinesOf(pieces)) + [] == Trimmed(t, LinesOf(pieces));
  }

  lemma {:induction false} LinesOpenNothing(t: LineTexts, pieces: seq<Piece>)
    requires WellCommented(t, pieces)
    ensures forall line :: line in LinesOf(pieces) ==> !OpensAt(t, line)
    decreases |pieces|
  {
    if pieces != [] {
      LinesOpenNothing(t, pieces[1..]);
      assert WellPlaced(t, pieces[0]);
    }
  }

  // ----- parsing sections -----

  datatype Parse = Parse(current: Option<string>, parsed: map<string, seq<string>>)

  predicate IsHeader(sections: seq<string>, line: string) {
    exists i :: 0 <= i < |sections| && line == Header(sections[i])
  }

  function Empty(sections: seq<string>): map<string, seq<string>> {
    map section | section in sections :: []
  }

  ghost predicate Sensible(sections: seq<string>, s: Parse) {
    && (forall section :: section in sections <==> section in s.parsed)
    && (s.current.Some? ==> s.current.value in sections)
  }

  function ParseLine(sections: seq<string>, s: Parse, line: string): (s': Parse)
    requires Sensible(sections, s)
    ensures Sensible(sections, s')
  {
    if IsHeader(sections, line) then s.(current := Some(line[..|line| - 1]))
    else if line == "" then s.(current := None)
    else match s.current
      case None => s
      case Some(c) => s.(parsed := s.parsed[c := s.parsed[c] + [line]])
  }

  function ParseAll(sections: seq<string>, s: Parse, lines: seq<string>): (s': Parse)
    requires Sensible(sections, s)
    ensures Sensible(sections, s')
    decreases |lines|
  {
    if lines == [] then s else ParseAll(sections, ParseLine(sections, s, lines[0]), lines[1..])
  }

  method ParseSections(sections: seq<string>, lines: seq<string>) returns (parsed: map<string, seq<string>>)
    ensures parsed == ParseAll(sections, Parse(None, Empty(sections)), lines).parsed
  {
    parsed := Empty(sections);
    var current: Option<string> := None;
    for i := 0 to |lines|
      invariant Sensible(sections, Parse(current, parsed))
      invariant ParseAll(sections, Parse(current, parsed), lines[i..]) == ParseAll(sections, Parse(None, Empty(sections)), lines)
    {
      assert lines[i..][0] == lines[i] && lines[i..][1..] == lines[i + 1..];
      ghost var next := ParseLine(sections, Parse(current, parsed), lines[i]);
      if IsHeader(sections, lines[i]) {
        current := Some(lines[i][..|lines[i]| - 1]);
      } else if lines[i] == "" {
        current := None;
      } else if current.Some? {
        parsed := parsed[current.value := parsed[current.value] + [lines[i]]];
      }
      assert Parse(current, parsed) == next;
    }
  }

  // ----- the parser reads what the validator accepted -----

  /** Section headers look like labels and not like bullets. */
  ghost predicate HeadersAreLabels(p: LinePatterns, sections: seq<string>) {
    forall i :: 0 <= i < |sections| ==> p.isLabel(Header(sections[i])) && !IsBullet(Header(sections[i]))
  }

  lemma {:induction false} ParseConcat(sections: seq<string>, s: Parse, a: seq<string>, b: seq<string>)
    requires Sensible(sections, s)
    ensures ParseAll(sections, s, a + b) == ParseAll(sections, ParseAll(sections, s, a), b)
    decreases |a|
  {
    if a == [] {
      assert a + b == b;
    } else {
      assert (a + b)[1..] == a[1..] + b;
      ParseConcat(sections, ParseLine(sections, s, a[0]), a[1..], b);
    }
  }

  lemma {:induction false} ParseBlanks(sections: seq<string>, s: Parse, n: nat)
    requires Sensible(sections, s)
    ensures ParseAll(sections, s, Blanks(n)).parsed == s.parsed
    decreases n
  {
    if n > 0 {
      assert Blanks(n)[1..] == Blanks(n - 1);
      forall i | 0 <= i < |sections| ensures Header(sections[i]) != "" { HeaderDiffers(sections[i], sections[i]); }
      ParseBlanks(sections, ParseLine(sections, s, ""), n - 1);
    }
  }

  lemma {:induction false} ParseContent(p: LinePatterns, sections: seq<string>, s: Parse, content: seq<string>)
    requires Sensible(sections, s) && s.current.Some? && HeadersAreLabels(p, sections)
    requires forall i :: 0 <= i < |content| ==> content[i] != "" && LineFits(p, content[i])
    ensures ParseAll(sections, s, content).parsed == s.parsed[s.current.value := s.parsed[s.current.value] + content]
    decreases |content|
  {
    if content == [] {
      assert s.parsed[s.current.value] + [] == s.parsed[s.current.value];
    } else {
      var c := s.current.value;
      assert !IsHeader(sections, content[0]);
      ParseContent(p, sections, ParseLine(sections, s, content[0]), content[1..]);
      assert s.parsed[c] + [content[0]] + content[1..] == s.parsed[c] + content;
    }
  }

  lemma ParseBlock(p: LinePatterns, sections: seq<string>, s: Parse, b: Block)
    requires Sensible(sections, s) && HeadersAreLabels(p, sections)
    requires b.section in sections && GoodContent(p, b.content)
    ensures ParseAll(sections, s, RenderBlock(b)).parsed == s.parsed[b.section := s.parsed[b.section] + b.content]
  {
    var blanks, header := Blanks(b.blanks), Header(b.section);
    ParseConcat(sections, s, blanks + [header], b.content);
    ParseConcat(sections, s, blanks, [header]);
    ParseBlanks(sections, s, b.blanks);
    var afterBlanks := ParseAll(sections, s, blanks);
    assert header[..|header| - 1] == b.section && IsHeader(sections, header);
    var afterHeader := ParseLine(sections, afterBlanks, header);
    assert ParseAll(sections, afterBlanks, [header]) == afterHeader;
    ParseContent(p, sections, afterHeader, b.content);
  }

  /** All lines written under the given section name. */
  function Written(blocks: seq<Block>, section: string): seq<string> {
    if blocks == [] then []
    else (if blocks[0].section == section then blocks[0].content else []) + Written(blocks[1..], section)
  }

  lemma Reassociate<T>(front: seq<T>, first: seq<T>, more: seq<T>)
    ensures (front + first) + more == front + (first + more)
    ensures front + [] == front
  {
  }

  lemma BlockParsed(p: LinePatterns, sections: seq<string>, s: Parse, b: Block, section: string)
    requires Sensible(sections, s) && HeadersAreLabels(p, sections) && section in sections
    requires b.section in sections && GoodContent(p, b.content)
    ensures ParseAll(sections, s, RenderBlock(b)).parsed[section]
            == s.parsed[section] + if b.section == section then b.content else []
  {
    ParseBlock(p, sections, s, b);
    Reassociate(s.parsed[section], [], []);
  }

  lemma {:induction false} ParseWritten(p: LinePatterns, sections: seq<string>, s: Parse, blocks: seq<Block>, section: string)
    requires Sensible(sections, s) && HeadersAreLabels(p, sections) && section in sections
    requires forall i :: 0 <= i < |blocks| ==> blocks[i].section in sections && GoodContent(p, blocks[i].content)
    ensures ParseAll(sections, s, Render(blocks)).parsed[section] == s.parsed[section] + Written(blocks, section)
    decreases |blocks|
  {
    if blocks == [] {
      Reassociate(s.parsed[section], [], []);
    } else {
      var after := ParseAll(sections, s, RenderBlock(blocks[0]));
      ParseConcat(sections, s, RenderBlock(blocks[0]), Render(blocks[1..]));
      BlockParsed(p, sections, s, blocks[0], section);
      ParseWritten(p, sections, after, blocks[1..], section);
      Reassociate(s.parsed[section], if blocks[0].section == section then blocks[0].content else [], Written(blocks[1..], section));
    }
  }

  lemma {:induction false} SubsequenceMembers(names: seq<string>, of: seq<string>)
    requires Subsequence(names, of)
    ensures forall i :: 0 <= i < |names| ==> names[i] in of
  {
    if names != [] && of != [] {
      if Subsequence(names, of[1..]) {
        SubsequenceMembers(names, of[1..]);
      } else {
        SubsequenceMembers(names[1..], of[1..]);
        assert forall i :: 1 <= i < |names| ==> names[i] == names[1..][i - 1];
      }
    }
  }

  /** What the parser makes of the lines. */
  function Parsed(sections: seq<string>, lines: seq<string>): map<string, seq<string>> {
    ParseAll(sections, Parse(None, Empty(sections)), lines).parsed
  }

  /** However a body is written in blocks, the parser returns for each section exactly the
      lines of its blocks. */
  lemma ParsedAsWritten(p: LinePatterns, lines: seq<string>, required: seq<string>, optional: seq<string>,
                        blocks: seq<Block>, trailing: nat)
    requires HeadersAreLabels(p, required + optional)
    requires InLanguage(p, lines, required, optional, blocks, trailing)
    ensures forall section :: section in required + optional ==>
              section in Parsed(required + optional, lines) && Parsed(required + optional, lines)[section] == Written(blocks, section)
  {
    var sections := required + optional;
    var start := Parse(None, Empty(sections));
    BlockNames(required, optional, blocks);
    ParseConcat(sections, start, Render(blocks), Blanks(trailing));
    ParseBlanks(sections, ParseAll(sections, start, Render(blocks)), trailing);
    forall section | section in sections
      ensures section in Parsed(sections, lines) && Parsed(sections, lines)[section] == Written(blocks, section)
    {
      ParseWritten(p, sections, start, blocks, section);
      assert start.parsed[section] + Written(blocks, section) == Written(blocks, section);
    }
  }

  /** On every body the validator accepts, the parser returns for each section exactly the
      lines the validator consumed for it, and nothing else. */
  lemma ParserAgreesWithValidator(p: LinePatterns, lines: seq<string>, required: seq<string>, optional: seq<string>)
    returns (blocks: seq<Block>, trailing: nat)
    requires HeadersAreLabels(p, required + optional)
    requires BodyErrors(p, lines, required, optional, false) == []
    ensures InLanguage(p, lines, required, optional, blocks, trailing)
    ensures forall section :: section in required + optional ==>
              section in Parsed(required + optional, lines) && Parsed(required + optional, lines)[section] == Written(blocks, section)
  {
    blocks, trailing := AcceptedIsInLanguage(p, lines, required, optional);
    ParsedAsWritten(p, lines, required, optional, blocks, trailing);
  }

  lemma BlockNames(required: seq<string>, optional: seq<string>, blocks: seq<Block>)
    requires |required| <= |blocks| && required == Names(blocks[..|required|])
    requires Subsequence(Names(blocks[|required|..]), optional)
    ensures forall i :: 0 <= i < |blocks| ==> blocks[i].section in required + optional
  {
    SubsequenceMembers(Names(blocks[|required|..]), optional);
    forall i | 0 <= i < |blocks| ensures blocks[i].section in required + optional {
      if i < |required| {
        assert required[i] == blocks[i].section;
      } else {
        assert Names(blocks[|required|..])[i - |required|] == blocks[i].section;
      }
    }
  }

  lemma {:induction false} WrittenOnce(blocks: seq<Block>, i: nat)
    requires i < |blocks| && forall j, k :: 0 <= j < k < |blocks| ==> blocks[j].section != blocks[k].section
    ensures Written(blocks, blocks[i].section) == blocks[i].content
  {
    if i == 0 {
      WrittenNever(blocks[1..], blocks[0].section);
    } else {
      WrittenOnce(blocks[1..], i - 1);
    }
  }

  lemma {:induction false} WrittenNever(blocks: seq<Block>, section: string)
    requires forall j :: 0 <= j < |blocks| ==> blocks[j].section != section
    ensures Written(blocks, section) == []
  {
    if blocks != [] { WrittenNever(blocks[1..], section); }
  }

  lemma {:induction false} SubsequenceDistinct(names: seq<string>, of: seq<string>)
    requires Subsequence(names, of) && NoRepeats(of)
    ensures NoRepeats(names)
  {
    if names != [] && of != [] {
      if Subsequence(names, of[1..]) {
        SubsequenceDistinct(names, of[1..]);
      } else {
        SubsequenceDistinct(names[1..], of[1..]);
        SubsequenceMembers(names[1..], of[1..]);
        forall i | 1 <= i < |names| ensures names[i] != names[0] { assert names[i] == names[1..][i - 1]; }
        forall i, j | 1 <= i < j < |names| ensures names[i] != names[j] {
          assert names[i] == names[1..][i - 1] && names[j] == names[1..][j - 1];
        }
      }
    }
  }

  lemma ChosenDistinct(required: seq<string>, chosen: seq<string>, optional: seq<string>)
    requires NoRepeats(required + optional) && Subsequence(chosen, optional)
    ensures NoRepeats(required + chosen)
  {
    NoRepeatsParts(required, optional);
    SubsequenceDistinct(chosen, optional);
    SubsequenceMembers(chosen, optional);
    NoRepeatsConcat(required, chosen);
  }

  /** With distinct section names each section is written once, so what the parser returns
      for it is its block's content, line for line. */
  lemma EachSectionOnce(p: LinePatterns, lines: seq<string>, required: seq<string>, optional: seq<string>,
                        blocks: seq<Block>, trailing: nat, i: nat)
    requires InLanguage(p, lines, required, optional, blocks, trailing) && i < |blocks|
    requires NoRepeats(required + optional)
    ensures Written(blocks, blocks[i].section) == blocks[i].content
  {
    ChosenDistinct(required, Names(blocks[|required|..]), optional);
    assert Names(blocks) == required + Names(blocks[|required|..]);
    forall j, k | 0 <= j < k < |blocks| ensures blocks[j].section != blocks[k].section {
      assert Names(blocks)[j] != Names(blocks)[k];
    }
    WrittenOnce(blocks, i);
  }

  const PR_BODY_SECTIONS := PR_BODY_REQUIRED_SECTIONS + PR_BODY_OPTIONAL_SECTIONS

  /** The structural part of the body check together with the sections it hands on. */
  method ValidateStructure(t: LineTexts, p: LinePatterns, raw: seq<string>)
    returns (errors: seq<Error>, parsed: map<string, seq<string>>)
    ensures parsed == Parsed(PR_BODY_SECTIONS, Normalized(t, raw))
    ensures Normalized(t, raw) == [] ==> errors == [BodyRequired]
    ensures Normalized(t, raw) != [] ==>
              errors == BodyErrors(p, Normalized(t, raw), PR_BODY_REQUIRED_SECTIONS, PR_BODY_OPTIONAL_SECTIONS, false)
  {
    var lines := NormalizeBodyLines(t, raw);
    parsed := ParseSections(PR_BODY_SECTIONS, lines);
    if lines == [] {
      return [BodyRequired], parsed;
    }
    var all := ["placeholder", ""] + lines;
    assert Rest(all, 2) == lines;
    errors := ValidateStructuredSections(p, all, PR_BODY_REQUIRED_SECTIONS, PR_BODY_OPTIONAL_SECTIONS, true, false);
  }
}

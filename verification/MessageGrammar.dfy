/** The language of well-structured messages, and that the validator accepts exactly it. */
module MessageGrammar {
  import opened Sequences
  import opened MessageStandards

  /** One section as written: blank lines, its header, its lines. */
  datatype Block = Block(blanks: nat, section: string, content: seq<string>)

  function Blanks(n: nat): (lines: seq<string>)
    ensures |lines| == n && forall i :: 0 <= i < n ==> lines[i] == ""
  {
    seq(n, i => "")
  }

  function RenderBlock(b: Block): seq<string> {
    Blanks(b.blanks) + [Header(b.section)] + b.content
  }

  function Render(blocks: seq<Block>): seq<string> {
    if blocks == [] then [] else RenderBlock(blocks[0]) + Render(blocks[1..])
  }

  function Names(blocks: seq<Block>): seq<string> {
    seq(|blocks|, i requires 0 <= i < |blocks| => blocks[i].section)
  }

  /** At least one line; the first is a bullet, the others are bullets or continue one. */
  predicate GoodContent(p: LinePatterns, content: seq<string>) {
    && StartsWithBullet(content)
    && forall i :: 0 <= i < |content| ==> content[i] != "" && LineFits(p, content[i])
  }

  /** Good sections, separated from each other by blank lines. */
  ghost predicate WellFormed(p: LinePatterns, blocks: seq<Block>) {
    && (forall i :: 0 <= i < |blocks| ==> GoodContent(p, blocks[i].content))
    && (forall i :: 1 <= i < |blocks| ==> blocks[i].blanks >= 1)
  }

  predicate Subsequence(names: seq<string>, of: seq<string>) {
    names == [] || (of != [] && (Subsequence(names, of[1..]) || (names[0] == of[0] && Subsequence(names[1..], of[1..]))))
  }

  /** The required sections in order, then some of the optional ones in order. */
  ghost predicate InLanguage(p: LinePatterns, rest: seq<string>, required: seq<string>, optional: seq<string>,
                             blocks: seq<Block>, trailing: nat)
  {
    && rest == Render(blocks) + Blanks(trailing)
    && WellFormed(p, blocks)
    && |required| <= |blocks| && required == Names(blocks[..|required|]) && Subsequence(Names(blocks[|required|..]), optional)
  }

  /** What may follow the sections. */
  predicate FitsTrailing(p: LinePatterns, line: string, footers: bool) {
    line == "" || (footers && p.isFooter(line))
  }

  predicate AllFit(p: LinePatterns, rest: seq<string>, footers: bool) {
    forall line | line in rest :: FitsTrailing(p, line, footers)
  }

  /** The optional sections still to come once these were taken, each at its first occurrence. */
  function Untried(names: seq<string>, of: seq<string>): seq<string> {
    if names == [] || of == [] then of
    else if names[0] == of[0] then Untried(names[1..], of[1..])
    else Untried(names, of[1..])
  }

  /** Whether the first line that is not blank is the header of one of the sections. */
  predicate Opens(sections: seq<string>, rest: seq<string>) {
    var at := SkipBlanks(rest);
    at != [] && exists s | s in sections :: at[0] == Header(s)
  }

  /** What follows the last section is set off by a blank line. */
  predicate SetOff(blocks: seq<Block>, trailing: seq<string>) {
    blocks != [] && trailing != [] ==> trailing[0] == ""
  }

  /** The required sections in order, some of the optional ones in order, then blank lines
      and footers. A footer that looks like the header of an optional section still to come
      would be taken for it. */
  ghost predicate InLanguageWith(p: LinePatterns, rest: seq<string>, required: seq<string>, optional: seq<string>, footers: bool,
                                 blocks: seq<Block>, trailing: seq<string>)
  {
    && rest == Render(blocks) + trailing
    && WellFormed(p, blocks) && SetOff(blocks, trailing)
    && |required| <= |blocks| && required == Names(blocks[..|required|]) && Subsequence(Names(blocks[|required|..]), optional)
    && AllFit(p, trailing, footers)
    && !Opens(Untried(Names(blocks[|required|..]), optional), trailing)
  }

  // ----- what was accepted can be written as blocks -----

  /** `rest` is what remains of `all` once `blocks` were read. */
  ghost predicate Read(p: LinePatterns, all: seq<string>, blocks: seq<Block>, rest: seq<string>) {
    && all == Render(blocks) + rest && WellFormed(p, blocks)
    && (blocks != [] && rest != [] ==> rest[0] == "")
  }

  lemma {:induction false} RenderAppend(blocks: seq<Block>, b: Block)
    ensures Render(blocks + [b]) == Render(blocks) + RenderBlock(b)
  {
    if blocks == [] {
      assert Render([b]) == RenderBlock(b);
    } else {
      assert (blocks + [b])[1..] == blocks[1..] + [b];
      RenderAppend(blocks[1..], b);
    }
  }

  lemma {:induction false} SkippedAreBlank(rest: seq<string>)
    ensures rest == Blanks(|rest| - |SkipBlanks(rest)|) + SkipBlanks(rest)
  {
    if rest != [] && rest[0] == "" {
      SkippedAreBlank(rest[1..]);
    }
  }

  lemma NoErrorsMeansGood(p: LinePatterns, section: string, content: seq<string>)
    requires forall i :: 0 <= i < |content| ==> content[i] != ""
    ensures SectionErrors(p, section, content) == [] <==> GoodContent(p, content)
  {
    if content != [] && (!IsBullet(content[0]) || exists i :: 0 <= i < |content| && !LineFits(p, content[i])) {
      assert SectionErrors(p, section, content)[0] == EntriesMustUseBullets(section);
    }
  }

  lemma WellFormedAppend(p: LinePatterns, blocks: seq<Block>, b: Block)
    requires WellFormed(p, blocks) && GoodContent(p, b.content) && (blocks != [] ==> b.blanks >= 1)
    ensures WellFormed(p, blocks + [b])
  {
  }

  lemma Reassemble<T>(all: seq<T>, front: seq<T>, rest: seq<T>, gap: seq<T>, at: seq<T>, content: seq<T>, after: seq<T>)
    requires all == front + rest && rest == gap + at && at != [] && at[1..] == content + after
    ensures all == front + (gap + [at[0]] + content) + after
  {
    assert at == [at[0]] + (content + after);
  }

  lemma ContentFacts(p: LinePatterns, rest: seq<string>, section: string)
    requires var at := SkipBlanks(rest); at != [] && SectionErrors(p, section, Content(at[1..])) == []
    ensures var at := SkipBlanks(rest);
            && GoodContent(p, Content(at[1..])) && at[1..] == Content(at[1..]) + AfterContent(at[1..])
            && (AfterContent(at[1..]) != [] ==> AfterContent(at[1..])[0] == "")
            && (rest[0] == "" ==> |at| < |rest|)
  {
    NoErrorsMeansGood(p, section, Content(SkipBlanks(rest)[1..]));
  }

  lemma ReadBlock(p: LinePatterns, all: seq<string>, blocks: seq<Block>, rest: seq<string>, section: string)
    returns (b: Block)
    requires Read(p, all, blocks, rest)
    requires var at := SkipBlanks(rest);
             at != [] && at[0] == Header(section) && SectionErrors(p, section, Content(at[1..])) == []
    ensures b.section == section && Read(p, all, blocks + [b], AfterContent(SkipBlanks(rest)[1..]))
  {
    var at := SkipBlanks(rest);
    var content, after := Content(at[1..]), AfterContent(at[1..]);
    b := Block(|rest| - |at|, section, content);
    SkippedAreBlank(rest);
    ContentFacts(p, rest, section);
    WellFormedAppend(p, blocks, b);
    RenderAppend(blocks, b);
    Reassemble(all, Render(blocks), rest, Blanks(b.blanks), at, content, after);
  }

  lemma NamesAppend(blocks: seq<Block>, b: Block)
    ensures Names(blocks + [b]) == Names(blocks) + [b.section]
  {
  }

  lemma RequiredStepRead(p: LinePatterns, all: seq<string>, blocks: seq<Block>, rest: seq<string>, section: string)
    returns (more: seq<Block>)
    requires Read(p, all, blocks, rest) && RequiredStep(p, section, rest).errors == []
    ensures Names(more) == Names(blocks) + [section] && Read(p, all, more, RequiredStep(p, section, rest).rest)
  {
    var b := ReadBlock(p, all, blocks, rest, section);
    NamesAppend(blocks, b);
    more := blocks + [b];
  }

  lemma NothingRead(p: LinePatterns, all: seq<string>)
    ensures Read(p, all, [], all) && Names([]) == []
  {
  }

  lemma RequiredErrorFree(p: LinePatterns, required: seq<string>, n: nat, all: seq<string>)
    requires 0 < n <= |required| && RequiredSteps(p, required, n, all).errors == []
    ensures RequiredSteps(p, required, n - 1, all).errors == []
    ensures var step := RequiredStep(p, required[n - 1], RequiredSteps(p, required, n - 1, all).rest);
            step.errors == [] && RequiredSteps(p, required, n, all).rest == step.rest
  {
  }

  /** The first `n` required sections were read as these blocks. */
  ghost predicate RequiredSoFar(p: LinePatterns, required: seq<string>, n: nat, all: seq<string>, blocks: seq<Block>)
    requires n <= |required|
  {
    Names(blocks) == required[..n] && Read(p, all, blocks, RequiredSteps(p, required, n, all).rest)
  }

  lemma RequiredReadNext(p: LinePatterns, required: seq<string>, n: nat, all: seq<string>, earlier: seq<Block>)
    returns (blocks: seq<Block>)
    requires n < |required| && RequiredSteps(p, required, n + 1, all).errors == []
    requires RequiredSoFar(p, required, n, all, earlier)
    ensures RequiredSoFar(p, required, n + 1, all, blocks)
  {
    RequiredErrorFree(p, required, n + 1, all);
    blocks := RequiredStepRead(p, all, earlier, RequiredSteps(p, required, n, all).rest, required[n]);
    TakenOneMore(required, n, Names(earlier));
  }

  lemma NoneRequiredYet(p: LinePatterns, required: seq<string>, all: seq<string>)
    ensures RequiredSoFar(p, required, 0, all, [])
  {
    NothingRead(p, all);
  }

  lemma {:induction false} ErrorsGrow(p: LinePatterns, required: seq<string>, k: nat, n: nat, all: seq<string>)
    requires k <= n <= |required|
    ensures |RequiredSteps(p, required, k, all).errors| <= |RequiredSteps(p, required, n, all).errors|
    decreases n
  {
    if k < n {
      ErrorsGrow(p, required, k, n - 1, all);
    }
  }

  /** No error so far means none before. */
  lemma ErrorFreeAt(p: LinePatterns, required: seq<string>, k: nat, n: nat, all: seq<string>)
    requires k <= n <= |required| && RequiredSteps(p, required, n, all).errors == []
    ensures RequiredSteps(p, required, k, all).errors == []
  {
    ErrorsGrow(p, required, k, n, all);
  }

  lemma {:induction false} RequiredRead(p: LinePatterns, required: seq<string>, n: nat, all: seq<string>)
    returns (blocks: seq<Block>)
    requires n <= |required| && forall k: nat :: k <= n ==> RequiredSteps(p, required, k, all).errors == []
    ensures RequiredSoFar(p, required, n, all, blocks)
  {
    if n == 0 {
      NoneRequiredYet(p, required, all);
      blocks := [];
    } else {
      blocks := RequiredRead(p, required, n - 1, all);
      blocks := RequiredReadNext(p, required, n - 1, all, blocks);
    }
  }

  /** The optional sections may be read from the front. */
  lemma {:induction false} OptionalFirst(p: LinePatterns, optional: seq<string>, n: nat, rest: seq<string>)
    requires 0 < n <= |optional|
    ensures var step := OptionalStep(p, optional[0], rest);
            var others := OptionalSteps(p, optional[1..], n - 1, step.rest);
            OptionalSteps(p, optional, n, rest) == Progress(others.rest, step.errors + others.errors)
  {
    if n == 1 {
      assert OptionalSteps(p, optional, 0, rest) == Progress(rest, []);
    } else {
      OptionalFirst(p, optional, n - 1, rest);
      assert optional[1..][n - 2] == optional[n - 1];
      var step := OptionalStep(p, optional[0], rest);
      var before := OptionalSteps(p, optional[1..], n - 2, step.rest);
      Associates(step.errors, before.errors, OptionalStep(p, optional[n - 1], before.rest).errors);
    }
  }

  /** From `start`, the optional sections were read up to `last`. */
  ghost predicate OptionalDone(p: LinePatterns, optional: seq<string>, all: seq<string>, start: seq<Block>, rest: seq<string>,
                               blocks: seq<Block>, last: seq<string>)
  {
    && Read(p, all, blocks, last) && start <= blocks
    && Subsequence(Names(blocks[|start|..]), optional) && !Opens(Untried(Names(blocks[|start|..]), optional), last)
    && (blocks == start ==> last == rest)
    && (blocks != start ==> Opens([blocks[|start|].section], rest))
  }

  lemma OptionalTaken(p: LinePatterns, optional: seq<string>, all: seq<string>, start: seq<Block>, rest: seq<string>, b: Block,
                      next: seq<string>, blocks: seq<Block>, last: seq<string>)
    requires optional != [] && b.section == optional[0] && Opens([b.section], rest)
    requires OptionalDone(p, optional[1..], all, start + [b], next, blocks, last)
    ensures OptionalDone(p, optional, all, start, rest, blocks, last)
  {
    var chosen := Names(blocks[|start|..]);
    assert blocks[|start|] == b;
    assert chosen[0] == b.section && chosen[1..] == Names(blocks[|start| + 1..]);
  }

  lemma OptionalPassed(p: LinePatterns, optional: seq<string>, all: seq<string>, start: seq<Block>, rest: seq<string>,
                       blocks: seq<Block>, last: seq<string>)
    requires optional != [] && !Opens([optional[0]], rest)
    requires OptionalDone(p, optional[1..], all, start, rest, blocks, last)
    ensures OptionalDone(p, optional, all, start, rest, blocks, last)
  {
    var chosen := Names(blocks[|start|..]);
    if blocks == start {
      assert chosen == [] && Untried(chosen, optional) == [optional[0]] + optional[1..];
    } else {
      assert chosen[0] == blocks[|start|].section;
      HeaderDiffers(chosen[0], optional[0]);
      assert optional[0] in [optional[0]];
    }
  }

  lemma OpensOne(section: string, rest: seq<string>)
    ensures Opens([section], rest) <==> SkipBlanks(rest) != [] && SkipBlanks(rest)[0] == Header(section)
  {
    assert section in [section];
  }

  /** What remains after the optional sections, and what their reading reports. */
  function AfterOptional(p: LinePatterns, optional: seq<string>, rest: seq<string>): Progress {
    OptionalSteps(p, optional, |optional|, rest)
  }

  /** Reading without errors passes the first optional section or takes it. */
  lemma OptionalNext(p: LinePatterns, optional: seq<string>, rest: seq<string>)
    requires optional != [] && AfterOptional(p, optional, rest).errors == []
    ensures var step := OptionalStep(p, optional[0], rest);
            step.errors == [] && AfterOptional(p, optional[1..], step.rest) == AfterOptional(p, optional, rest)
  {
    OptionalFirst(p, optional, |optional|, rest);
  }

  lemma {:induction false} OptionalRead(p: LinePatterns, optional: seq<string>, all: seq<string>, start: seq<Block>, rest: seq<string>)
    returns (blocks: seq<Block>)
    requires Read(p, all, start, rest) && AfterOptional(p, optional, rest).errors == []
    ensures OptionalDone(p, optional, all, start, rest, blocks, AfterOptional(p, optional, rest).rest)
    decreases |optional|
  {
    if optional == [] {
      return start;
    }
    OptionalNext(p, optional, rest);
    OpensOne(optional[0], rest);
    var next, last := OptionalStep(p, optional[0], rest).rest, AfterOptional(p, optional, rest).rest;
    if Opens([optional[0]], rest) {
      var b := ReadBlock(p, all, start, rest, optional[0]);
      blocks := OptionalRead(p, optional[1..], all, start + [b], next);
      OptionalTaken(p, optional, all, start, rest, b, next, blocks, last);
    } else {
      blocks := OptionalRead(p, optional[1..], all, start, rest);
      OptionalPassed(p, optional, all, start, rest, blocks, last);
    }
  }

  lemma {:induction false} MisfitReported(p: LinePatterns, rest: seq<string>, n: nat, footers: bool, i: nat)
    requires i < n <= |rest| && !FitsTrailing(p, rest[i], footers)
    ensures |TrailingErrors(p, rest, n, footers)| > 0
    decreases n
  {
    if i < n - 1 { MisfitReported(p, rest, n - 1, footers, i); }
  }

  lemma {:induction false} FittingUnreported(p: LinePatterns, rest: seq<string>, n: nat, footers: bool)
    requires n <= |rest| && forall i :: 0 <= i < |rest| ==> FitsTrailing(p, rest[i], footers)
    ensures |TrailingErrors(p, rest, n, footers)| == 0
    decreases n
  {
    if n > 0 { FittingUnreported(p, rest, n - 1, footers); }
  }

  /** Nothing is reported exactly when every line may follow the sections. */
  lemma TrailingFits(p: LinePatterns, rest: seq<string>, footers: bool)
    ensures TrailingErrors(p, rest, |rest|, footers) == [] <==> AllFit(p, rest, footers)
  {
    if line :| line in rest && !FitsTrailing(p, line, footers) {
      var i :| 0 <= i < |rest| && rest[i] == line;
      MisfitReported(p, rest, |rest|, footers, i);
    } else {
      FittingUnreported(p, rest, |rest|, footers);
    }
  }

  lemma AllRead(p: LinePatterns, rest: seq<string>, required: seq<string>, optional: seq<string>, footers: bool,
                start: seq<Block>, between: seq<string>, blocks: seq<Block>, trailing: seq<string>)
    requires Names(start) == required && OptionalDone(p, optional, rest, start, between, blocks, trailing)
    requires AllFit(p, trailing, footers)
    ensures InLanguageWith(p, rest, required, optional, footers, blocks, trailing)
  {
    assert |start| == |Names(start)| && blocks[..|start|] == start;
  }

  /** What the validator accepts is in the language. */
  lemma AcceptedIsInLanguageWith(p: LinePatterns, rest: seq<string>, required: seq<string>, optional: seq<string>, footers: bool)
    returns (blocks: seq<Block>, trailing: seq<string>)
    requires BodyErrors(p, rest, required, optional, footers) == []
    ensures InLanguageWith(p, rest, required, optional, footers, blocks, trailing)
  {
    forall k: nat | k <= |required| ensures RequiredSteps(p, required, k, rest).errors == [] {
      ErrorFreeAt(p, required, k, |required|, rest);
    }
    var start := RequiredRead(p, required, |required|, rest);
    var between := RequiredSteps(p, required, |required|, rest).rest;
    blocks := OptionalRead(p, optional, rest, start, between);
    trailing := OptionalSteps(p, optional, |optional|, between).rest;
    TrailingFits(p, trailing, footers);
    assert required[..|required|] == required;
    AllRead(p, rest, required, optional, footers, start, between, blocks, trailing);
  }

  lemma BlanksFit(p: LinePatterns, trailing: seq<string>)
    requires AllFit(p, trailing, false)
    ensures trailing == Blanks(|trailing|)
  {
    forall i | 0 <= i < |trailing| ensures trailing[i] == "" {
      assert trailing[i] in trailing;
    }
  }

  /** Without footers, only blank lines follow. */
  lemma AcceptedIsInLanguage(p: LinePatterns, rest: seq<string>, required: seq<string>, optional: seq<string>)
    returns (blocks: seq<Block>, trailing: nat)
    requires BodyErrors(p, rest, required, optional, false) == []
    ensures InLanguage(p, rest, required, optional, blocks, trailing)
  {
    var after;
    blocks, after := AcceptedIsInLanguageWith(p, rest, required, optional, false);
    BlanksFit(p, after);
    trailing := |after|;
  }

  // ----- what is written as blocks is accepted -----

  lemma {:induction false} SkipWritten(n: nat, after: seq<string>)
    ensures after != [] && after[0] != "" ==> SkipBlanks(Blanks(n) + after) == after
    ensures SkipBlanks(Blanks(n)) == []
  {
    if n > 0 {
      assert (Blanks(n) + after)[1..] == Blanks(n - 1) + after && Blanks(n)[1..] == Blanks(n - 1);
      SkipWritten(n - 1, after);
    }
  }

  lemma ContentWritten(content: seq<string>, after: seq<string>)
    requires forall i :: 0 <= i < |content| ==> content[i] != ""
    requires after != [] ==> after[0] == ""
    ensures Content(content + after) == content && AfterContent(content + after) == after
  {
    var all := content + after;
    WholeContent(all, 0, |content|);
    assert all[0..] == all && all[0..|content|] == content && all[|content|..] == after;
  }

  lemma HeaderDiffers(a: string, b: string)
    ensures Header(a) == Header(b) ==> a == b
    ensures Header(a) != ""
  {
    assert Header(a)[..|Header(a)| - 1] == a && Header(b)[..|Header(b)| - 1] == b;
  }

  lemma NextIsBlank(p: LinePatterns, blocks: seq<Block>, trailing: seq<string>)
    requires WellFormed(p, blocks) && (if blocks != [] then blocks[0].blanks >= 1 else trailing != [] ==> trailing[0] == "")
    ensures var after := Render(blocks) + trailing; after != [] ==> after[0] == ""
  {
    if blocks != [] {
      assert RenderBlock(blocks[0])[0] == Blanks(blocks[0].blanks)[0];
    }
  }

  lemma Regroup<T>(gap: seq<T>, header: T, content: seq<T>, more: seq<T>, trailing: seq<T>)
    ensures (gap + [header] + content + more) + trailing == gap + ([header] + (content + (more + trailing)))
    ensures ([header] + (content + (more + trailing)))[1..] == content + (more + trailing)
  {
  }

  /** Reading back one written block. */
  lemma ReadWritten(p: LinePatterns, blocks: seq<Block>, trailing: seq<string>)
    requires WellFormed(p, blocks) && blocks != [] && SetOff(blocks, trailing)
    ensures var at := SkipBlanks(Render(blocks) + trailing);
            && at != [] && at[0] == Header(blocks[0].section)
            && SectionErrors(p, blocks[0].section, Content(at[1..])) == []
            && AfterContent(at[1..]) == Render(blocks[1..]) + trailing
            && WellFormed(p, blocks[1..])
  {
    var b, more := blocks[0], Render(blocks[1..]);
    var after := more + trailing;
    HeaderDiffers(b.section, b.section);
    Regroup(Blanks(b.blanks), Header(b.section), b.content, more, trailing);
    SkipWritten(b.blanks, [Header(b.section)] + (b.content + after));
    NextIsBlank(p, blocks[1..], trailing);
    ContentWritten(b.content, after);
    NoErrorsMeansGood(p, b.section, b.content);
  }

  /** Reading the required sections leads past the first `n` blocks without error. */
  ghost predicate ReadPast(p: LinePatterns, required: seq<string>, n: nat, blocks: seq<Block>, trailing: seq<string>)
    requires n <= |required| && n <= |blocks|
  {
    && RequiredSteps(p, required, n, Render(blocks) + trailing) == Progress(Render(blocks[n..]) + trailing, [])
    && WellFormed(p, blocks[n..])
  }

  lemma ReadPastNext(p: LinePatterns, required: seq<string>, n: nat, blocks: seq<Block>, trailing: seq<string>)
    requires n < |required| <= |blocks| && required == Names(blocks[..|required|]) && ReadPast(p, required, n, blocks, trailing)
    requires SetOff(blocks, trailing)
    ensures ReadPast(p, required, n + 1, blocks, trailing)
  {
    assert required[n] == blocks[..|required|][n].section == blocks[n..][0].section;
    assert blocks[n..][1..] == blocks[n + 1..];
    ReadWritten(p, blocks[n..], trailing);
  }

  lemma {:induction false} RequiredWritten(p: LinePatterns, required: seq<string>, n: nat, blocks: seq<Block>, trailing: seq<string>)
    requires n <= |required| <= |blocks| && WellFormed(p, blocks) && required == Names(blocks[..|required|]) && SetOff(blocks, trailing)
    ensures ReadPast(p, required, n, blocks, trailing)
  {
    if n == 0 {
      assert blocks[0..] == blocks;
    } else {
      RequiredWritten(p, required, n - 1, blocks, trailing);
      ReadPastNext(p, required, n - 1, blocks, trailing);
    }
  }

  lemma {:induction false} SubsequenceTail(names: seq<string>, of: seq<string>)
    requires names != [] && Subsequence(names, of)
    ensures Subsequence(names[1..], of)
  {
    if Subsequence(names, of[1..]) { SubsequenceTail(names, of[1..]); }
  }

  /** The blocks are still to be read from the optional sections, and what follows them is not. */
  ghost predicate ToRead(p: LinePatterns, blocks: seq<Block>, optional: seq<string>, trailing: seq<string>) {
    && WellFormed(p, blocks) && SetOff(blocks, trailing)
    && Subsequence(Names(blocks), optional) && !Opens(Untried(Names(blocks), optional), trailing)
  }

  lemma NothingOpened(optional: seq<string>, trailing: seq<string>)
    requires optional != [] && !Opens(optional, trailing)
    ensures !Opens([optional[0]], trailing) && !Opens(optional[1..], trailing)
  {
    assert optional[0] in optional && forall s :: s in optional[1..] ==> s in optional;
  }

  /** One step of the validator's first-fit reading of the optional sections loses nothing. */
  lemma OptionalStepWritten(p: LinePatterns, blocks: seq<Block>, optional: seq<string>, trailing: seq<string>) returns (left: seq<Block>)
    requires optional != [] && ToRead(p, blocks, optional, trailing)
    ensures ToRead(p, left, optional[1..], trailing)
    ensures OptionalStep(p, optional[0], Render(blocks) + trailing) == Progress(Render(left) + trailing, [])
  {
    left := blocks;
    var names := Names(blocks);
    if blocks == [] {
      assert Render(blocks) + trailing == trailing;
      NothingOpened(optional, trailing);
      OpensOne(optional[0], trailing);
      return;
    }
    ReadWritten(p, blocks, trailing);
    HeaderDiffers(blocks[0].section, optional[0]);
    assert names[0] == blocks[0].section;
    if names[0] == optional[0] {
      if Subsequence(names, optional[1..]) { SubsequenceTail(names, optional[1..]); }
      left := blocks[1..];
      assert names[1..] == Names(left);
    }
  }

  lemma {:induction false} OptionalWritten(p: LinePatterns, optional: seq<string>, blocks: seq<Block>, trailing: seq<string>)
    requires ToRead(p, blocks, optional, trailing)
    ensures OptionalSteps(p, optional, |optional|, Render(blocks) + trailing) == Progress(trailing, [])
    decreases |optional|
  {
    if optional == [] {
      assert |Names(blocks)| == 0;
      assert Render(blocks) + trailing == trailing;
    } else {
      var left := OptionalStepWritten(p, blocks, optional, trailing);
      OptionalFirst(p, optional, |optional|, Render(blocks) + trailing);
      OptionalWritten(p, optional[1..], left, trailing);
    }
  }

  /** What is in the language is accepted. */
  lemma InLanguageWithIsAccepted(p: LinePatterns, rest: seq<string>, required: seq<string>, optional: seq<string>, footers: bool,
                                 blocks: seq<Block>, trailing: seq<string>)
    requires InLanguageWith(p, rest, required, optional, footers, blocks, trailing)
    ensures BodyErrors(p, rest, required, optional, footers) == []
  {
    RequiredWritten(p, required, |required|, blocks, trailing);
    OptionalWritten(p, optional, blocks[|required|..], trailing);
    TrailingFits(p, trailing, footers);
  }

  lemma InLanguageIsAccepted(p: LinePatterns, rest: seq<string>, required: seq<string>, optional: seq<string>,
                             blocks: seq<Block>, trailing: nat)
    requires InLanguage(p, rest, required, optional, blocks, trailing)
    ensures BodyErrors(p, rest, required, optional, false) == []
  {
    SkipWritten(trailing, []);
    InLanguageWithIsAccepted(p, rest, required, optional, false, blocks, Blanks(trailing));
  }

  /** The validator reports nothing exactly on the language, with footers or without. */
  lemma ValidatorRecognizesLanguage(p: LinePatterns, rest: seq<string>, required: seq<string>, optional: seq<string>, footers: bool)
    ensures BodyErrors(p, rest, required, optional, footers) == [] <==>
            exists blocks, trailing :: InLanguageWith(p, rest, required, optional, footers, blocks, trailing)
  {
    if BodyErrors(p, rest, required, optional, footers) == [] {
      var blocks, trailing := AcceptedIsInLanguageWith(p, rest, required, optional, footers);
    }
    if blocks, trailing :| InLanguageWith(p, rest, required, optional, footers, blocks, trailing) {
      InLanguageWithIsAccepted(p, rest, required, optional, footers, blocks, trailing);
    }
  }

  // ----- with the subject line -----

  /** A message: its subject, a blank line, its sections, blank lines and footers. */
  ghost predicate IsMessage(p: LinePatterns, lines: seq<string>, required: seq<string>, optional: seq<string>, footers: bool,
                            blocks: seq<Block>, trailing: seq<string>)
  {
    && lines != [] && lines == [lines[0], ""] + (Render(blocks) + trailing)
    && InLanguageWith(p, Render(blocks) + trailing, required, optional, footers, blocks, trailing)
  }

  lemma BodyStartsThird(lines: seq<string>)
    requires Rest(lines, 2) != [] && lines[1] == ""
    ensures lines == [lines[0], ""] + Rest(lines, 2)
  {}

  lemma BodyIsRendered(p: LinePatterns, rest: seq<string>, required: seq<string>, optional: seq<string>, footers: bool,
                       blocks: seq<Block>, trailing: seq<string>)
    requires required != [] && InLanguageWith(p, rest, required, optional, footers, blocks, trailing)
    ensures rest == Render(blocks) + trailing && rest != []
  {
    RenderNotEmpty(blocks);
  }

  lemma AcceptedIsMessage(p: LinePatterns, lines: seq<string>, required: seq<string>, optional: seq<string>,
                          requireBody: bool, footers: bool)
    returns (blocks: seq<Block>, trailing: seq<string>)
    requires required != [] && StructuredErrors(p, lines, required, optional, requireBody, footers) == []
    ensures IsMessage(p, lines, required, optional, footers, blocks, trailing)
  {
    blocks, trailing := AcceptedIsInLanguageWith(p, Rest(lines, 2), required, optional, footers);
    BodyIsRendered(p, Rest(lines, 2), required, optional, footers, blocks, trailing);
    BodyStartsThird(lines);
  }

  lemma MessageIsAccepted(p: LinePatterns, lines: seq<string>, required: seq<string>, optional: seq<string>,
                          requireBody: bool, footers: bool, blocks: seq<Block>, trailing: seq<string>)
    requires required != [] && IsMessage(p, lines, required, optional, footers, blocks, trailing)
    ensures StructuredErrors(p, lines, required, optional, requireBody, footers) == []
  {
    BodyIsRendered(p, Render(blocks) + trailing, required, optional, footers, blocks, trailing);
    assert Rest(lines, 2) == Render(blocks) + trailing;
    InLanguageWithIsAccepted(p, Rest(lines, 2), required, optional, footers, blocks, trailing);
  }

  /** When some section is required, the whole message is accepted exactly when it is so written. */
  lemma ValidatorRecognizesMessages(p: LinePatterns, lines: seq<string>, required: seq<string>, optional: seq<string>,
                                    requireBody: bool, footers: bool)
    requires required != []
    ensures StructuredErrors(p, lines, required, optional, requireBody, footers) == [] <==>
            exists blocks, trailing :: IsMessage(p, lines, required, optional, footers, blocks, trailing)
  {
    if StructuredErrors(p, lines, required, optional, requireBody, footers) == [] {
      var blocks, trailing := AcceptedIsMessage(p, lines, required, optional, requireBody, footers);
    }
    if blocks, trailing :| IsMessage(p, lines, required, optional, footers, blocks, trailing) {
      MessageIsAccepted(p, lines, required, optional, requireBody, footers, blocks, trailing);
    }
  }

  lemma RenderNotEmpty(blocks: seq<Block>)
    ensures blocks != [] ==> Render(blocks) != []
  {}

  // ----- headers that pass for footers -----

  /** A footer after a blank line is always accepted, unless it opens an optional section. So
      a section header that looks like a footer passes without any bullets where no such
      section is to come. */
  lemma FootersMayFollow(p: LinePatterns, rest: seq<string>, required: seq<string>, optional: seq<string>, footer: string)
    requires BodyErrors(p, rest, required, optional, true) == [] && footer != "" && p.isFooter(footer)
    requires forall s :: s in optional ==> footer != Header(s)
    ensures BodyErrors(p, rest + ["", footer], required, optional, true) == []
  {
    var blocks, trailing := AcceptedIsInLanguageWith(p, rest, required, optional, true);
    UntriedAreOptional(Names(blocks[|required|..]), optional);
    FooterOpensNothing(Untried(Names(blocks[|required|..]), optional), trailing, footer);
    Associates(Render(blocks), trailing, ["", footer]);
    InLanguageWithIsAccepted(p, rest + ["", footer], required, optional, true, blocks, trailing + ["", footer]);
  }

  lemma {:induction false} UntriedAreOptional(names: seq<string>, of: seq<string>)
    ensures forall s :: s in Untried(names, of) ==> s in of
    decreases |of|
  {
    if names != [] && of != [] {
      UntriedAreOptional(if names[0] == of[0] then names[1..] else names, of[1..]);
    }
  }

  lemma FooterOpensNothing(sections: seq<string>, trailing: seq<string>, footer: string)
    requires footer != "" && (forall s :: s in sections ==> footer != Header(s)) && !Opens(sections, trailing)
    ensures !Opens(sections, trailing + ["", footer])
  {
    SkipExtended(trailing, footer);
  }

  lemma {:induction false} SkipExtended(trailing: seq<string>, footer: string)
    requires footer != ""
    ensures var at := SkipBlanks(trailing + ["", footer]);
            at != [] && at[0] == if SkipBlanks(trailing) != [] then SkipBlanks(trailing)[0] else footer
  {
    if trailing == [] {
      assert trailing + ["", footer] == ["", footer] && ["", footer][1..] == [footer];
      assert SkipBlanks([footer]) == [footer];
    } else if trailing[0] == "" {
      assert (trailing + ["", footer])[1..] == trailing[1..] + ["", footer];
      SkipExtended(trailing[1..], footer);
    }
  }

  // ----- a message as people write it -----

  /** One dash, one space and the entry. */
  function Bulleted(entries: seq<string>): (r: seq<string>)
    ensures |r| == |entries| && forall i :: 0 <= i < |r| ==> r[i] == "- " + entries[i]
  {
    seq(|entries|, i requires 0 <= i < |entries| => "- " + entries[i])
  }

  /** Each section with its name and a colon, then its bullets, and a blank line before the next. */
  function PlainBody(sections: seq<string>, entries: seq<seq<string>>): seq<string>
    requires |entries| == |sections|
  {
    if sections == [] then []
    else
      [sections[0] + ":"] + Bulleted(entries[0])
      + if |sections| == 1 then [] else [""] + PlainBody(sections[1..], entries[1..])
  }

  function PlainBlocks(blanks: nat, sections: seq<string>, entries: seq<seq<string>>): (r: seq<Block>)
    requires |entries| == |sections|
    ensures |r| == |sections|
    ensures forall i :: 0 <= i < |r| ==> r[i] == Block(if i == 0 then blanks else 1, sections[i], Bulleted(entries[i]))
  {
    seq(|sections|, i requires 0 <= i < |sections| => Block(if i == 0 then blanks else 1, sections[i], Bulleted(entries[i])))
  }

  lemma {:induction false} PlainIsRendered(blanks: nat, sections: seq<string>, entries: seq<seq<string>>)
    requires |entries| == |sections| && sections != []
    ensures Render(PlainBlocks(blanks, sections, entries)) == Blanks(blanks) + PlainBody(sections, entries)
    decreases |sections|
  {
    var blocks := PlainBlocks(blanks, sections, entries);
    assert blocks[1..] == PlainBlocks(1, sections[1..], entries[1..]);
    assert RenderBlock(blocks[0]) == Blanks(blanks) + ([sections[0] + ":"] + Bulleted(entries[0]));
    if |sections| == 1 {
      assert blocks[1..] == [];
    } else {
      PlainIsRendered(1, sections[1..], entries[1..]);
      assert Blanks(1) == [""];
      Associates(Blanks(blanks), [sections[0] + ":"] + Bulleted(entries[0]), [""] + PlainBody(sections[1..], entries[1..]));
    }
  }

  lemma BulletsAreGood(p: LinePatterns, entries: seq<string>)
    requires entries != []
    ensures GoodContent(p, Bulleted(entries))
  {
    forall i | 0 <= i < |entries| ensures Bulleted(entries)[i] != "" && IsBullet(Bulleted(entries)[i]) {
      assert "- " <= "- " + entries[i];
    }
  }

  lemma PlainIsWellFormed(p: LinePatterns, sections: seq<string>, entries: seq<seq<string>>)
    requires |entries| == |sections| && forall i :: 0 <= i < |entries| ==> entries[i] != []
    ensures WellFormed(p, PlainBlocks(0, sections, entries)) && Names(PlainBlocks(0, sections, entries)) == sections
  {
    var blocks := PlainBlocks(0, sections, entries);
    forall i | 0 <= i < |blocks| ensures GoodContent(p, blocks[i].content) {
      BulletsAreGood(p, entries[i]);
    }
  }

  lemma OnlyRequired(p: LinePatterns, lines: seq<string>, optional: seq<string>, blocks: seq<Block>)
    requires WellFormed(p, blocks) && lines == Render(blocks)
    ensures InLanguage(p, lines, Names(blocks), optional, blocks, 0)
  {
    assert blocks[..|blocks|] == blocks && blocks[|blocks|..] == [];
    assert Render(blocks) + Blanks(0) == Render(blocks);
  }

  /** A body that names every required section and gives each some bullets is accepted, whatever
      the bullets say. */
  lemma PlainBodyIsAccepted(p: LinePatterns, required: seq<string>, optional: seq<string>, entries: seq<seq<string>>)
    requires required != [] && |entries| == |required| && forall i :: 0 <= i < |entries| ==> entries[i] != []
    ensures BodyErrors(p, PlainBody(required, entries), required, optional, false) == []
  {
    var blocks, lines := PlainBlocks(0, required, entries), PlainBody(required, entries);
    PlainIsRendered(0, required, entries);
    assert Blanks(0) + lines == lines;
    PlainIsWellFormed(p, required, entries);
    OnlyRequired(p, lines, optional, blocks);
    InLanguageIsAccepted(p, lines, required, optional, blocks, 0);
  }

  /** A required section whose first line is no bullet is reported. */
  lemma UnbulletedIsReported(p: LinePatterns, section: string, line: string, more: seq<string>)
    requires line != "" && !("- " <= line)
    ensures RequiredStep(p, section, [section + ":", line] + more).errors == [EntriesMustUseBullets(section), AtLeastOneBullet(section)]
  {
    var rest := [section + ":", line] + more;
    HeaderDiffers(section, section);
    assert SkipBlanks(rest) == rest && rest[1..] == [line] + more;
    assert Content([line] + more)[0] == line;
  }

  /** After a bullet a line that is no bullet continues it, unless it looks like a label; then
      it is reported. */
  lemma LabelsInterrupt(p: LinePatterns, section: string, entry: string, line: string)
    requires line != "" && !("- " <= line)
    ensures RequiredStep(p, section, [section + ":", "- " + entry, line]).errors
         == if p.isLabel(line) then [EntriesMustUseBullets(section)] else []
  {
    var rest, content := [section + ":", "- " + entry, line], ["- " + entry, line];
    HeaderDiffers(section, section);
    assert SkipBlanks(rest) == rest && rest[1..] == content;
    assert "- " <= "- " + entry;
    ContentSplits(content, 2);
    assert content[..2] == content;
    assert SectionErrors(p, section, content) == if p.isLabel(line) then [EntriesMustUseBullets(section)] else [] by {
      assert IsBullet(content[0]) && LineFits(p, content[0]);
      assert LineFits(p, content[1]) <==> !p.isLabel(line);
    }
  }

  /** Each required section of an empty body is reported missing, in order. */
  lemma {:induction false} NothingIsMissing(p: LinePatterns, required: seq<string>, n: nat)
    requires n <= |required|
    ensures RequiredSteps(p, required, n, []).rest == []
    ensures var errors := RequiredSteps(p, required, n, []).errors;
            |errors| == n && forall i :: 0 <= i < n ==> errors[i] == MissingSection(required[i])
    decreases n
  {
    if n > 0 { NothingIsMissing(p, required, n - 1); }
  }
}

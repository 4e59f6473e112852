/** `parse_srt`: DJI-style SubRip telemetry text to one record per frame.

    The text is stripped and cut into blocks at blank lines (`"\n\n"`);
    each block is cut into lines. Line 0 is the frame index, line 1 a
    `start --> end` pair, line 2 carries `DiffTime: Nms`, line 3 the capture
    time, and line 4 bracketed `key: value` tokens. A record maps the field
    names to values; a Python exception becomes an `Err` naming the block and
    the reason.
 */
module Telemetry {
  import opened Outcomes
  import opened Text
  import opened Patterns

  /** A record value: the two integer fields or a piece of text. */
  datatype Field = Number(n: int) | Str(s: string)

  /** A frame record, Python's `dict` without its key order. */
  type Record = map<string, Field>

  /** Why a block fails: `int()` rejects line 0 (`ValueError`), a line is
      missing (`IndexError`), line 1 does not split into exactly two times
      (`ValueError` on unpacking), or line 2 has no `DiffTime` (the match is
      `None`). */
  datatype BlockError = BadFrameIndex | MissingLine(line: nat) | BadTimeRange | MissingDiffTime

  /** The failure of the first block that fails, and its position. */
  datatype SrtError = SrtError(block: nat, reason: BlockError)

  const TimeSeparator: string := " --> "
  const BlockSeparator: string := "\n\n"
  const LineSeparator: string := "\n"

  // ---------------------------------------------------------- bracket data

  /** `token.replace(":", "")`. */
  function RemoveColons(t: string): (r: string)
    ensures ':' !in r
    ensures forall c :: c in r <==> c in t && c != ':'
  {
    if |t| == 0 then ""
    else if t[0] == ':' then RemoveColons(t[1..])
    else [t[0]] + RemoveColons(t[1..])
  }

  /** Token `i` is taken as key `k`: it is not the last token, it holds a
      colon, and without its colons it reads `k`. */
  predicate IsKeyAt(tokens: seq<string>, i: int, k: string) {
    0 <= i < |tokens| - 1 && ':' in tokens[i] && RemoveColons(tokens[i]) == k
  }

  /** The pairs collected by the first `n` rounds of
      `for i in range(0, len(pairs) - 1)`: `data[key] = pairs[i + 1]` for
      each key token. */
  function PairsUpTo(tokens: seq<string>, n: nat): map<string, string>
    requires n == 0 || n < |tokens|
  {
    if n == 0 then map[]
    else if ':' in tokens[n - 1] then PairsUpTo(tokens, n - 1)[RemoveColons(tokens[n - 1]) := tokens[n]]
    else PairsUpTo(tokens, n - 1)
  }

  /** Round `j`, among the first `n`, is the last one to take key `k`. */
  predicate LastKeyAt(tokens: seq<string>, n: nat, j: int, k: string) {
    0 <= j < n && IsKeyAt(tokens, j, k) && forall i :: j < i < n ==> !IsKeyAt(tokens, i, k)
  }

  /** A key is collected exactly when some round takes it, and it holds the
      token after the last round that takes it. */
  lemma {:induction false} PairsUpToSpec(tokens: seq<string>, n: nat, k: string)
    requires n == 0 || n < |tokens|
    ensures k in PairsUpTo(tokens, n) <==> exists i :: 0 <= i < n && IsKeyAt(tokens, i, k)
    ensures k in PairsUpTo(tokens, n) ==>
              exists j :: LastKeyAt(tokens, n, j, k) && PairsUpTo(tokens, n)[k] == tokens[j + 1]
  {
    if n > 0 {
      var i := n - 1;
      PairsUpToSpec(tokens, i, k);
      if IsKeyAt(tokens, i, k) {
        assert LastKeyAt(tokens, n, i, k);
      } else if k in PairsUpTo(tokens, i) {
        var j :| LastKeyAt(tokens, i, j, k) && PairsUpTo(tokens, i)[k] == tokens[j + 1];
        assert LastKeyAt(tokens, n, j, k);
      }
    }
  }

  /** The pairs of one bracket group's tokens. */
  function Pairs(tokens: seq<string>): map<string, string> {
    PairsUpTo(tokens, if |tokens| == 0 then 0 else |tokens| - 1)
  }

  /** A group's keys are its colon tokens other than the last token, with
      their colons removed; each holds the token after its last occurrence. */
  lemma PairsSpec(tokens: seq<string>, k: string)
    ensures k in Pairs(tokens) <==> exists i :: IsKeyAt(tokens, i, k)
    ensures k in Pairs(tokens) ==>
              exists j :: IsKeyAt(tokens, j, k) && Pairs(tokens)[k] == tokens[j + 1]
                          && forall i :: j < i ==> !IsKeyAt(tokens, i, k)
  {
    var n := if |tokens| == 0 then 0 else |tokens| - 1;
    PairsUpToSpec(tokens, n, k);
    if k in Pairs(tokens) {
      var j :| LastKeyAt(tokens, n, j, k) && PairsUpTo(tokens, n)[k] == tokens[j + 1];
      assert IsKeyAt(tokens, j, k);
    }
    forall i | IsKeyAt(tokens, i, k)
      ensures 0 <= i < n
    {
    }
  }

  /** Maps applied one after another, later ones overwriting earlier ones. */
  function Overlay(maps: seq<map<string, string>>): map<string, string> {
    if |maps| == 0 then map[] else Overlay(maps[..|maps| - 1]) + maps[|maps| - 1]
  }

  /** Map `g` is the last one that has `k`. */
  predicate LastHolder(maps: seq<map<string, string>>, g: int, k: string) {
    0 <= g < |maps| && k in maps[g] && forall h :: g < h < |maps| ==> k !in maps[h]
  }

  /** A key is present when some map has it, and its value comes from the
      last map that has it. */
  lemma {:induction false} OverlaySpec(maps: seq<map<string, string>>, k: string)
    ensures k in Overlay(maps) <==> exists g :: 0 <= g < |maps| && k in maps[g]
    ensures k in Overlay(maps) ==> exists g :: LastHolder(maps, g, k) && Overlay(maps)[k] == maps[g][k]
  {
    if |maps| > 0 {
      var last := |maps| - 1;
      var init := maps[..last];
      OverlaySpec(init, k);
      assert forall g :: 0 <= g < last ==> init[g] == maps[g];
      if k in maps[last] {
        assert LastHolder(maps, last, k);
      } else if k in Overlay(init) {
        var g :| LastHolder(init, g, k) && Overlay(init)[k] == init[g][k];
        assert LastHolder(maps, g, k);
      }
    }
  }

  /** `data` after all groups: each group's pairs in turn, so a later group
      overwrites what an earlier one set. */
  function BracketData(groups: seq<string>): map<string, string> {
    Overlay(seq(|groups|, g requires 0 <= g < |groups| => Pairs(Words(groups[g]))))
  }

  // ---------------------------------------------------------- the records

  /** The five fields every record has. */
  function FixedFields(index: int, start: string, end: string, diffMs: nat, dataTime: string): Record {
    map["frame_index" := Number(index), "start_time" := Str(start), "end_time" := Str(end),
        "diff_time_ms" := Number(diffMs), "data_time" := Str(dataTime)]
  }

  /** `{**fixed, **data}`: bracket keys overwrite fixed fields of the same
      name, and every other fixed field stays. */
  function Merge(fixed: Record, data: map<string, string>): (r: Record)
    ensures forall k :: k in r <==> k in fixed || k in data
    ensures forall k :: k in data ==> r[k] == Str(data[k])
    ensures forall k :: k in fixed && k !in data ==> r[k] == fixed[k]
  {
    fixed + map k | k in data :: Str(data[k])
  }

  /** The first line is a frame index. */
  predicate IndexLineOk(lines: seq<string>) {
    |lines| >= 1 && ParseInt(lines[0]).Some?
  }

  /** The second line is a start and end time around `-->`. */
  predicate TimesLineOk(lines: seq<string>) {
    |lines| >= 2 && |SplitOn(Strip(lines[1]), TimeSeparator)| == 2
  }

  /** The third line carries a `DiffTime` field. */
  predicate DiffLineOk(lines: seq<string>) {
    |lines| >= 3 && DiffTimeOf(lines[2]).Some?
  }

  /** One block, already cut into lines. The lines are checked in order
      and the first check that fails names the error; a block with all
      three checks passing and at least five lines gives a record. */
  function ParseLines(lines: seq<string>): (r: Result<Record, BlockError>)
    ensures r == Err(BadFrameIndex) <==> |lines| > 0 && ParseInt(lines[0]).None?
    ensures r == Err(BadTimeRange) <==>
              && IndexLineOk(lines) && |lines| >= 2
              && |SplitOn(Strip(lines[1]), TimeSeparator)| != 2
    ensures r == Err(MissingDiffTime) <==>
              && IndexLineOk(lines) && TimesLineOk(lines) && |lines| >= 3
              && DiffTimeOf(lines[2]).None?
    ensures forall n :: r == Err(MissingLine(n)) <==>
              && |lines| == n < 5
              && (n >= 1 ==> IndexLineOk(lines))
              && (n >= 2 ==> TimesLineOk(lines))
              && (n >= 3 ==> DiffLineOk(lines))
    ensures r.Ok? <==> |lines| >= 5 && IndexLineOk(lines) && TimesLineOk(lines) && DiffLineOk(lines)
  {
    if |lines| == 0 then Err(MissingLine(0))
    else match ParseInt(lines[0])
      case None => Err(BadFrameIndex)
      case Some(index) =>
        if |lines| < 2 then Err(MissingLine(1))
        else
          var times := SplitOn(Strip(lines[1]), TimeSeparator);
          if |times| != 2 then Err(BadTimeRange)
          else if |lines| < 3 then Err(MissingLine(2))
          else match DiffTimeOf(lines[2])
            case None => Err(MissingDiffTime)
            case Some(diffMs) =>
              if |lines| < 4 then Err(MissingLine(3))
              else if |lines| < 5 then Err(MissingLine(4))
              else
                var fixed := FixedFields(index, times[0], times[1], diffMs, lines[3]);
                Ok(Merge(fixed, BracketData(BracketGroups(lines[4]))))
  }

  function ParseBlock(block: string): Result<Record, BlockError> {
    ParseLines(SplitOn(block, LineSeparator))
  }

  /** The blocks of a whole file: the stripped text cut at blank lines. */
  function Blocks(content: string): (r: seq<string>)
    ensures |r| >= 1
  {
    SplitOn(Strip(content), BlockSeparator)
  }

  /** Block results taken in order: all records, or the first failure with
      its position. */
  function Collect(results: seq<Result<Record, BlockError>>): (r: Result<seq<Record>, SrtError>)
    ensures r.Ok? <==> forall i :: 0 <= i < |results| ==> results[i].Ok?
    ensures r.Ok? ==> |r.value| == |results|
                      && forall i :: 0 <= i < |results| ==> r.value[i] == results[i].value
    ensures r.Err? ==> && r.error.block < |results|
                       && results[r.error.block] == Err(r.error.reason)
                       && forall i :: 0 <= i < r.error.block ==> results[i].Ok?
  {
    if |results| == 0 then Ok([])
    else
      var last := |results| - 1;
      assert forall i :: 0 <= i < last ==> results[..last][i] == results[i];
      match Collect(results[..last])
      case Err(e) => Err(e)
      case Ok(records) =>
        match results[last]
        case Err(e) => Err(SrtError(last, e))
        case Ok(record) => Ok(records + [record])
  }

  /** Every block parsed, in order. */
  function ParseBlocks(blocks: seq<string>): (r: Result<seq<Record>, SrtError>) {
    Collect(BlockResults(blocks))
  }

  /** `parse_srt` on the text of a file. */
  function ParseSrt(content: string): Result<seq<Record>, SrtError> {
    ParseBlocks(Blocks(content))
  }

  /** The per-block results `ParseBlocks` collects. */
  function BlockResults(blocks: seq<string>): (r: seq<Result<Record, BlockError>>)
    ensures |r| == |blocks|
    ensures forall i :: 0 <= i < |blocks| ==> r[i] == ParseBlock(blocks[i])
  {
    seq(|blocks|, i requires 0 <= i < |blocks| => ParseBlock(blocks[i]))
  }

  /** A successful parse has one record per block, in order. */
  lemma ParseBlocksOk(blocks: seq<string>)
    requires ParseBlocks(blocks).Ok?
    ensures var records := ParseBlocks(blocks).value;
            |records| == |blocks| && forall i :: 0 <= i < |blocks| ==> ParseBlock(blocks[i]) == Ok(records[i])
  {
    var results := BlockResults(blocks);
    assert ParseBlocks(blocks) == Collect(results);
  }

  /** A failed parse names the first block that fails, and every block
      before it parses. */
  lemma ParseBlocksErr(blocks: seq<string>)
    requires ParseBlocks(blocks).Err?
    ensures var e := ParseBlocks(blocks).error;
            && e.block < |blocks|
            && ParseBlock(blocks[e.block]) == Err(e.reason)
            && forall i :: 0 <= i < e.block ==> ParseBlock(blocks[i]).Ok?
  {
    var results := BlockResults(blocks);
    assert ParseBlocks(blocks) == Collect(results);
  }

  // ------------------------------------------------------------ round trip

  /** The content of one telemetry block. */
  datatype Frame = Frame(index: int, start: string, end: string, diffMs: nat, dataTime: string, groups: seq<string>)

  /** The five lines a block is written as. */
  function FrameLines(f: Frame): seq<string> {
    [ ShowInt(f.index),
      TimeLine(f.start, f.end),
      DiffTimeLine(f.diffMs),
      f.dataTime,
      Bracketed(f.groups) ]
  }

  function TimeLine(start: string, end: string): string {
    start + TimeSeparator + end
  }

  function DiffTimeLine(n: nat): string {
    DiffTimeTag + ShowNat(n) + Millis
  }

  function RenderBlock(f: Frame): string {
    Join(FrameLines(f), LineSeparator)
  }

  function RenderBlocks(frames: seq<Frame>): (r: seq<string>)
    ensures |r| == |frames| && forall i :: 0 <= i < |frames| ==> r[i] == RenderBlock(frames[i])
  {
    seq(|frames|, i requires 0 <= i < |frames| => RenderBlock(frames[i]))
  }

  /** A whole file: the blocks separated by blank lines. */
  function RenderSrt(frames: seq<Frame>): string {
    Join(RenderBlocks(frames), BlockSeparator)
  }

  /** A frame whose text reads back unambiguously: no line breaks inside
      fields, times that survive `strip` and contain the separator only
      between them, a capture time and at least one bracket group so that no
      line is blank. */
  predicate Renderable(f: Frame) {
    && |f.start| > 0 && !IsSpace(f.start[0]) && '\n' !in f.start
    && |f.end| > 0 && !IsSpace(f.end[|f.end| - 1]) && '\n' !in f.end
    && FirstMatch(f.start + TimeSeparator, TimeSeparator, 0) == |f.start|
    && !Contains(f.end, TimeSeparator)
    && |f.dataTime| > 0 && '\n' !in f.dataTime
    && |f.groups| > 0 && (forall g :: 0 <= g < |f.groups| ==> PlainGroup(f.groups[g]))
  }

  /** The record a frame should parse to. */
  function Expected(f: Frame): Record {
    Merge(FixedFields(f.index, f.start, f.end, f.diffMs, f.dataTime), BracketData(f.groups))
  }

  /** Without a line break, the first break in `l + "\n"` is the added one. */
  lemma NewlineFree(l: string)
    requires '\n' !in l
    ensures FirstMatch(l + LineSeparator, LineSeparator, 0) == |l|
    ensures !Contains(l, LineSeparator)
  {
    var s := l + LineSeparator;
    assert MatchAt(s, LineSeparator, |l|) by {
      assert s[|l|..|l| + 1] == LineSeparator;
    }
    forall j | 0 <= j < |l|
      ensures !MatchAt(s, LineSeparator, j)
    {
      assert s[j] == l[j];
    }
    FirstMatchLeast(s, LineSeparator, |l|);
    forall j | 0 <= j <= |l|
      ensures !MatchAt(l, LineSeparator, j)
    {
      if j < |l| {
        assert l[j..j + 1][0] == l[j];
      }
    }
  }

  lemma ShowNatPlain(n: nat)
    ensures '\n' !in ShowNat(n) && !IsSpace(ShowNat(n)[0])
  {
    var s := ShowNat(n);
    assert forall c :: c in s ==> IsDigit(c);
  }

  lemma ShowIntPlain(n: int)
    ensures '\n' !in ShowInt(n) && |ShowInt(n)| > 0 && !IsSpace(ShowInt(n)[0])
  {
    ShowNatPlain(if n < 0 then -n else n);
  }

  lemma {:induction false} BracketedPlain(groups: seq<string>)
    requires forall g :: 0 <= g < |groups| ==> PlainGroup(groups[g])
    ensures '\n' !in Bracketed(groups)
    ensures |groups| > 0 ==> |Bracketed(groups)| > 0 && Bracketed(groups)[|Bracketed(groups)| - 1] == ']'
    decreases |groups|
  {
    if |groups| > 0 {
      BracketedPlain(groups[1..]);
      var g := groups[0];
      assert '\n' !in g by {
        assert forall c :: c in g ==> c != '\n';
      }
    }
  }

  /** The five lines of a renderable frame are non-empty and free of line
      breaks. */
  lemma FrameLinesPlain(f: Frame)
    requires Renderable(f)
    ensures forall i :: 0 <= i < 5 ==> |FrameLines(f)[i]| > 0 && '\n' !in FrameLines(f)[i]
  {
    ShowIntPlain(f.index);
    ShowNatPlain(f.diffMs);
    BracketedPlain(f.groups);
  }

  /** The lines of a block read back as the same lines. */
  lemma FrameLinesSplit(f: Frame)
    requires Renderable(f)
    ensures SplitOn(RenderBlock(f), LineSeparator) == FrameLines(f)
  {
    var lines := FrameLines(f);
    FrameLinesPlain(f);
    forall i | 0 <= i < |lines|
      ensures FirstMatch(lines[i] + LineSeparator, LineSeparator, 0) == |lines[i]|
    {
      NewlineFree(lines[i]);
    }
    NewlineFree(lines[4]);
    SplitJoin(lines, LineSeparator);
  }

  /** Line 1 of a renderable frame splits into its two times. */
  lemma TimesSplit(start: string, end: string)
    requires |start| > 0 && !IsSpace(start[0]) && |end| > 0 && !IsSpace(end[|end| - 1])
    requires FirstMatch(start + TimeSeparator, TimeSeparator, 0) == |start|
    requires !Contains(end, TimeSeparator)
    ensures SplitOn(Strip(TimeLine(start, end)), TimeSeparator) == [start, end]
  {
    TimesStrip(start, end);
    TimesJoin(start, end);
    TwoParts(start, end, TimeSeparator);
  }

  /** Two parts, the first free of the separator up to its end and the
      second free of it altogether, split back out of their join. */
  lemma TwoParts(a: string, b: string, sep: string)
    requires |sep| > 0 && FirstMatch(a + sep, sep, 0) == |a| && !Contains(b, sep)
    ensures SplitOn(Join([a, b], sep), sep) == [a, b]
  {
    var parts := [a, b];
    assert parts[0] == a && parts[1] == b;
    SplitJoin(parts, sep);
  }

  lemma TimesStrip(start: string, end: string)
    requires |start| > 0 && !IsSpace(start[0]) && |end| > 0 && !IsSpace(end[|end| - 1])
    ensures Strip(start + TimeSeparator + end) == start + TimeSeparator + end
  {
    var line := start + TimeSeparator + end;
    assert line[0] == start[0];
    assert line[|line| - 1] == end[|end| - 1];
    StripTrimmed(line);
  }

  lemma TimesJoin(start: string, end: string)
    ensures Join([start, end], TimeSeparator) == start + TimeSeparator + end
  {
    assert [start, end][1..] == [end];
  }

  /** Lines whose fields all read back give the record of those fields;
      lines past the fifth are never looked at. */
  lemma ParseGoodLines(lines: seq<string>, f: Frame)
    requires |lines| >= 5
    requires ParseInt(lines[0]) == Some(f.index)
    requires SplitOn(Strip(lines[1]), TimeSeparator) == [f.start, f.end]
    requires DiffTimeOf(lines[2]) == Some(f.diffMs)
    requires lines[3] == f.dataTime
    requires BracketGroups(lines[4]) == f.groups
    ensures ParseLines(lines) == Ok(Expected(f))
  {
  }

  /** The five lines of a renderable frame parse to the frame's record. */
  lemma LinesOfFrame(f: Frame)
    requires Renderable(f)
    ensures ParseLines(FrameLines(f)) == Ok(Expected(f))
  {
    var lines := FrameLines(f);
    assert lines[1] == TimeLine(f.start, f.end);
    assert lines[2] == DiffTimeLine(f.diffMs);
    ParseShowInt(f.index);
    TimesSplit(f.start, f.end);
    DiffTimeLineReads(f.diffMs);
    GroupsLine(f.groups);
    ParseGoodLines(lines, f);
  }

  lemma DiffTimeLineReads(n: nat)
    ensures DiffTimeOf(DiffTimeLine(n)) == Some(n)
  {
    DiffTimeOfRendered(n, "");
    assert DiffTimeTag + ShowNat(n) + Millis + "" == DiffTimeTag + ShowNat(n) + Millis;
  }

  lemma GroupsLine(groups: seq<string>)
    requires forall g :: 0 <= g < |groups| ==> PlainGroup(groups[g])
    ensures BracketGroups(Bracketed(groups)) == groups
  {
    BracketGroupsOfBracketed(groups);
  }

  /** A renderable frame's block parses to the frame's record. */
  lemma ParseRenderedBlock(f: Frame)
    requires Renderable(f)
    ensures ParseBlock(RenderBlock(f)) == Ok(Expected(f))
  {
    FrameLinesSplit(f);
    LinesOfFrame(f);
  }

  // ------------------------------------------------------- many blocks

  /** The records a sequence of frames should parse to. */
  function ExpectedAll(frames: seq<Frame>): (r: seq<Record>)
    ensures |r| == |frames| && forall i :: 0 <= i < |frames| ==> r[i] == Expected(frames[i])
  {
    seq(|frames|, i requires 0 <= i < |frames| => Expected(frames[i]))
  }

  /** A match of the blank-line separator is two neighbouring line breaks. */
  lemma BlankAt(s: string, j: int)
    ensures MatchAt(s, BlockSeparator, j) <==> 0 <= j && j + 2 <= |s| && s[j] == '\n' && s[j + 1] == '\n'
  {
    if 0 <= j && j + 2 <= |s| {
      assert s[j..j + 2] == [s[j], s[j + 1]];
    }
  }

  /** A non-empty line without a line break. */
  predicate IsLine(l: string) {
    |l| > 0 && '\n' !in l
  }

  /** A non-empty line holds no blank line. */
  lemma LineHasNoBlank(l: string)
    requires IsLine(l)
    ensures !Contains(l, BlockSeparator)
  {
    forall j | 0 <= j <= |l|
      ensures !MatchAt(l, BlockSeparator, j)
    {
      BlankAt(l, j);
      if j < |l| {
        assert l[j] in l;
      }
    }
  }

  /** Non-empty lines joined by single line breaks hold no blank line. */
  lemma {:induction false} NoBlankInJoin(lines: seq<string>)
    requires |lines| > 0 && forall i :: 0 <= i < |lines| ==> IsLine(lines[i])
    ensures !Contains(Join(lines, LineSeparator), BlockSeparator)
    decreases |lines|
  {
    if |lines| == 1 {
      LineHasNoBlank(lines[0]);
    } else {
      var rest := lines[1..];
      NoBlankInJoin(rest);
      assert IsLine(rest[|rest| - 1]);
      JoinEnds(rest, LineSeparator);
      NoBlankAcross(lines[0], Join(rest, LineSeparator));
    }
  }

  /** A line, a break and a text without blank lines that does not start
      with a break hold no blank line. */
  lemma NoBlankAcross(l: string, t: string)
    requires IsLine(l) && |t| > 0 && t[0] != '\n' && !Contains(t, BlockSeparator)
    ensures !Contains(l + LineSeparator + t, BlockSeparator)
  {
    var s := l + LineSeparator + t;
    forall j | 0 <= j <= |s|
      ensures !MatchAt(s, BlockSeparator, j)
    {
      BlankAt(s, j);
      if j < |l| {
        assert s[j] == l[j] && l[j] in l;
      } else if j == |l| {
        assert j + 1 < |s| ==> s[j + 1] == t[0];
      } else {
        var k := j - |l| - 1;
        BlankAt(t, k);
        assert k < |t| ==> s[j] == t[k];
        assert k + 1 < |t| ==> s[j + 1] == t[k + 1];
      }
    }
  }

  /** A block without blank lines that does not end in a break is cut
      exactly at the blank line that follows it. */
  lemma BlockCut(b: string)
    requires |b| > 0 && b[|b| - 1] != '\n' && !Contains(b, BlockSeparator)
    ensures FirstMatch(b + BlockSeparator, BlockSeparator, 0) == |b|
  {
    var s := b + BlockSeparator;
    BlankAt(s, |b|);
    forall j | 0 <= j < |b|
      ensures !MatchAt(s, BlockSeparator, j)
    {
      BlankAt(s, j);
      if j + 1 < |b| {
        BlankAt(b, j);
        assert s[j] == b[j] && s[j + 1] == b[j + 1];
      } else {
        assert s[j] == b[j];
      }
    }
    FirstMatchLeast(s, BlockSeparator, |b|);
  }

  /** What a rendered block looks like from outside: it starts with the
      frame number, ends with `]` and holds no blank line. */
  lemma BlockShape(f: Frame)
    requires Renderable(f)
    ensures |RenderBlock(f)| > 0
    ensures !IsSpace(RenderBlock(f)[0])
    ensures RenderBlock(f)[|RenderBlock(f)| - 1] == ']'
    ensures !Contains(RenderBlock(f), BlockSeparator)
  {
    var lines := FrameLines(f);
    FrameLinesPlain(f);
    assert forall i :: 0 <= i < |lines| ==> IsLine(lines[i]);
    NoBlankInJoin(lines);
    JoinEnds(lines, LineSeparator);
    ShowIntPlain(f.index);
    BracketedPlain(f.groups);
  }

  /** A file of rendered blocks cuts back into the same blocks. */
  lemma SrtBlocks(frames: seq<Frame>)
    requires |frames| > 0 && forall i :: 0 <= i < |frames| ==> Renderable(frames[i])
    ensures Blocks(RenderSrt(frames)) == RenderBlocks(frames)
  {
    var blocks := RenderBlocks(frames);
    forall i | 0 <= i < |blocks|
      ensures |blocks[i]| > 0 && blocks[i][|blocks[i]| - 1] != '\n' && !Contains(blocks[i], BlockSeparator)
    {
      BlockShape(frames[i]);
    }
    CutBlocks(blocks);
    SrtStripped(frames);
  }

  /** Blocks without blank lines that do not end in a break split back out
      of their join. */
  lemma CutBlocks(blocks: seq<string>)
    requires |blocks| > 0
    requires forall i :: 0 <= i < |blocks| ==>
               |blocks[i]| > 0 && blocks[i][|blocks[i]| - 1] != '\n' && !Contains(blocks[i], BlockSeparator)
    ensures SplitOn(Join(blocks, BlockSeparator), BlockSeparator) == blocks
  {
    forall i | 0 <= i < |blocks| - 1
      ensures FirstMatch(blocks[i] + BlockSeparator, BlockSeparator, 0) == |blocks[i]|
    {
      BlockCut(blocks[i]);
    }
    SplitJoin(blocks, BlockSeparator);
  }

  /** A file of rendered blocks has nothing for `strip` to remove. */
  lemma SrtStripped(frames: seq<Frame>)
    requires |frames| > 0 && forall i :: 0 <= i < |frames| ==> Renderable(frames[i])
    ensures Strip(RenderSrt(frames)) == RenderSrt(frames)
  {
    var blocks := RenderBlocks(frames);
    forall i | 0 <= i < |blocks|
      ensures |blocks[i]| > 0
    {
      BlockShape(frames[i]);
    }
    BlockShape(frames[0]);
    BlockShape(frames[|frames| - 1]);
    JoinEnds(blocks, BlockSeparator);
    StripTrimmed(Join(blocks, BlockSeparator));
  }

  /** Blocks that each parse give all their records, in order. */
  lemma CollectRendered(frames: seq<Frame>)
    requires forall i :: 0 <= i < |frames| ==> Renderable(frames[i])
    ensures ParseBlocks(RenderBlocks(frames)) == Ok(ExpectedAll(frames))
  {
    var blocks := RenderBlocks(frames);
    var results := seq(|blocks|, i requires 0 <= i < |blocks| => ParseBlock(blocks[i]));
    forall i | 0 <= i < |frames|
      ensures results[i] == Ok(Expected(frames[i]))
    {
      ParseRenderedBlock(frames[i]);
    }
    var r := Collect(results);
    assert r.value == ExpectedAll(frames);
  }

  /** A file written from renderable frames parses back to their records. */
  lemma ParseRenderedSrt(frames: seq<Frame>)
    requires |frames| > 0 && forall i :: 0 <= i < |frames| ==> Renderable(frames[i])
    ensures ParseSrt(RenderSrt(frames)) == Ok(ExpectedAll(frames))
  {
    SrtBlocks(frames);
    CollectRendered(frames);
  }
}

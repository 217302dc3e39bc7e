/**
 * What the block pattern does with text that is not written in the log
 * format: a header line without its line feed, `\s+` running over line
 * ends, a tag line of blanks, a body line that starts with `[`, and a
 * two-block sample log in the documented format.
 */
module Quirks {
  import opened Wrappers
  import opened Text
  import opened LogBlocks
  import opened RoundTrip

  /** A header needs the line feed that ends its tag line: text without any
      line feed holds no header at all. */
  lemma {:induction false} NoLineFeedNoHeader(s: string)
    requires '\n' !in s
    ensures NextHeaderStart(s, 0) == |s|
  {
    forall k | 0 <= k < |s| ensures !IsHeaderStart(s, k) {
      if k == 0 {
        HeaderAtSpec(s, 0);
      } else {
        assert s[k - 1] != '\n';
      }
    }
    NextHeaderStartIs(s, 0, |s|);
  }

  /** So a lone header line whose line feed is missing (the last line of
      an output cut short) is returned whole as the fallback block, whatever
      the filter and the count. */
  lemma ExtractNoLineFeed(s: string, tags: Option<seq<string>>, lastN: int)
    requires s != "" && '\n' !in s
    ensures Extracted(s, tags, lastN) == [FallbackBlock(s)]
  {
    NoLineFeedNoHeader(s);
    assert Scan(s, 0) == [];
    assert AllBlocks(s) == [];
  }

  /** A header needs the line feed that ends its tag line: no header starts
      at a position from which the text holds no line feed. */
  lemma HeaderNeedsLineFeed(s: string, p: nat)
    requires p <= |s| && '\n' !in s[p..]
    ensures !IsHeaderStart(s, p)
  {
  }

  /** So a last line that looks like a header but lacks its line feed opens
      no block: it stays in the body of the block before it, which runs to
      the end of the text. */
  lemma TrailingLineJoinsBody(s: string, m: BlockMatch, p: nat)
    requires MatchShape(s, m) && m.tagEnd < p <= m.bodyEnd && '\n' !in s[p..]
    ensures m.bodyEnd == |s|
    ensures s[p..] == s[m.tagEnd + 1..m.bodyEnd][p - m.tagEnd - 1..]
  {
    MatchBodyMeaning(s, m);
    if m.bodyEnd < |s| {
      HeaderNeedsLineFeed(s, m.bodyEnd);
    }
  }

  const Stamp := "2024-01-01T00:00:00"

  lemma StampIsTimestamp()
    ensures IsTimestamp(Stamp)
  {
    assert forall k :: 0 <= k < 19 ==> TimestampChar(k, Stamp[k]);
  }

  /** Where the pieces of a header text built as `[`, timestamp, `mid`,
      tag group, rest stand. */
  lemma Pieces(ts: string, mid: string, tag: string, rest: string)
    ensures var s := "[" + ts + mid + tag + rest;
      var t := 1 + |ts| + |mid|;
      && s[1..1 + |ts|] == ts && s[t..t + |tag|] == tag && s[t + |tag|..] == rest
  {
    var s := "[" + ts + mid + tag + rest;
    var t := 1 + |ts| + |mid|;
    assert forall k :: 0 <= k < |ts| ==> s[1 + k] == ts[k];
    assert forall k :: 0 <= k < |tag| ==> s[t + k] == tag[k];
    assert forall k :: 0 <= k < |rest| ==> s[t + |tag| + k] == rest[k];
  }

  /** A header whose tag sits on the line below the timestamp. */
  function Split(): string {
    "[" + Stamp + "]\n" + "codex" + "\nbody"
  }

  /** Greedy `\s+` takes the line feed after `]`, so the tag group is the
      second line. */
  lemma SplitHeader()
    ensures HeaderAt(Split(), 0) == Some(Header(22, 27))
  {
    var s := Split();
    StampIsTimestamp();
    Pieces(Stamp, "]\n", "codex", "\nbody");
    assert Opening(s, 0);
    assert SpaceRunEnd(s, 22) == 22;
    assert SpaceRunEnd(s, 21) == 22;
    assert LineEnd(s, 27) == 27;
    assert LineEnd(s, 22) == 27 by {
      assert LineEnd(s, 26) == 27 && LineEnd(s, 25) == 27 && LineEnd(s, 24) == 27;
    }
    assert BacktrackSplit(s, 0, 22) == Some(22);
  }

  /** The text holds one match, from the header to its end. */
  lemma SplitScan()
    ensures Scan(Split(), 0) == [BlockMatch(0, 22, 27, |Split()|)]
  {
    var s := Split();
    SplitHeader();
    assert IsHeaderStart(s, 0);
    forall k | 28 <= k < |s| ensures !IsHeaderStart(s, k) {
      assert !Opening(s, k);
    }
    NextHeaderStartIs(s, 28, |s|);
    assert NextHeaderStart(s, 0) == 0;
    MatchAtIs(s, 0, Header(22, 27), 28);
    ScanAtHeader(s, 0, |s|);
    assert NextHeaderStart(s, |s|) == |s|;
  }

  /** `\s+` may run over the line feed right after the timestamp: the tag is
      then taken from the next line. The raw text the source rebuilds puts
      the tag back on the header line, so it differs from the input. */
  lemma WhitespaceSpansLines()
    ensures AllBlocks(Split()) == [Block(Stamp, "codex", "body", Raw(Stamp, "codex", "body"))]
    ensures AllBlocks(Split())[0].raw != Split()
  {
    var s := Split();
    SplitScan();
    var m := BlockMatch(0, 22, 27, |s|);
    AllBlocksAt(s, 0);
    Pieces(Stamp, "]\n", "codex", "\nbody");
    StripKeeps("codex");
    assert s[28..] == s[27..][1..];
    var b := Block(Stamp, "codex", "body", Raw(Stamp, "codex", "body"));
    MatchBlockIs(s, m, b);
    assert b.raw[21] == ' ' != s[21];
  }

  /** A header line that holds only blanks after the timestamp. */
  function Blank(): string {
    "[" + Stamp + "] " + " " + "\nbody"
  }

  /** `\s+` first takes both blanks and the line feed, finds no line end
      after `body`, and gives back characters until the tag group is the
      second blank alone. */
  lemma BlankHeader()
    ensures HeaderAt(Blank(), 0) == Some(Header(22, 23))
  {
    var s := Blank();
    StampIsTimestamp();
    Pieces(Stamp, "] ", " ", "\nbody");
    assert Opening(s, 0);
    assert SpaceRunEnd(s, 24) == 24;
    assert SpaceRunEnd(s, 21) == 24;
    assert LineEnd(s, 24) == |s| by {
      assert LineEnd(s, 27) == |s| && LineEnd(s, 26) == |s| && LineEnd(s, 25) == |s|;
    }
    assert LineEnd(s, 23) == 23;
    assert LineEnd(s, 22) == 23;
    assert BacktrackSplit(s, 0, 24) == BacktrackSplit(s, 0, 23);
    assert BacktrackSplit(s, 0, 23) == BacktrackSplit(s, 0, 22);
    assert BacktrackSplit(s, 0, 22) == Some(22);
  }

  lemma BlankScan()
    ensures Scan(Blank(), 0) == [BlockMatch(0, 22, 23, |Blank()|)]
  {
    var s := Blank();
    BlankHeader();
    assert IsHeaderStart(s, 0);
    forall k | 24 <= k < |s| ensures !IsHeaderStart(s, k) {
      assert !Opening(s, k);
    }
    NextHeaderStartIs(s, 24, |s|);
    assert NextHeaderStart(s, 0) == 0;
    MatchAtIs(s, 0, Header(22, 23), 24);
    ScanAtHeader(s, 0, |s|);
    assert NextHeaderStart(s, |s|) == |s|;
  }

  /** The blank tag is stripped to the empty tag. */
  lemma BlankBlocks()
    ensures AllBlocks(Blank()) == [Block(Stamp, "", "body", Raw(Stamp, "", "body"))]
  {
    var s := Blank();
    BlankScan();
    var m := BlockMatch(0, 22, 23, |s|);
    AllBlocksAt(s, 0);
    Pieces(Stamp, "] ", " ", "\nbody");
    assert Strip(" ") == "";
    assert s[24..] == s[23..][1..];
    MatchBlockIs(s, m, Block(Stamp, "", "body", Raw(Stamp, "", "body")));
  }

  /** Text read as a single block: the tool returns that block when it
      passes the filter and the whole text as the fallback when not. */
  lemma ExtractSingle(s: string, b: Block, tags: Option<seq<string>>)
    requires AllBlocks(s) == [b]
    ensures Selected(tags, b.tag) ==> Extracted(s, tags, 0) == [b]
    ensures !Selected(tags, b.tag) ==> Extracted(s, tags, 0) == [FallbackBlock(s)]
  {
    var bs := AllBlocks(s);
    assert bs[..0] == [];
    assert Filter(bs, tags) == if Selected(tags, b.tag) then [b] else [];
    if s == "" {
      ExtractEmpty(tags, 0);
    }
  }

  /** The default filter of the review tool keeps `codex` and drops the
      empty tag. */
  lemma CodexFilter()
    ensures Selected(Some(["codex"]), "codex") && !Selected(Some(["codex"]), "")
  {
    assert Lower("codex") == "codex";
  }

  /** The block with the empty tag is kept when no filter is given and
      dropped by the filter `codex`, which leaves the whole text as the
      fallback block. */
  lemma EmptyTag()
    ensures Extracted(Blank(), None, 0) == AllBlocks(Blank())
    ensures Extracted(Blank(), Some(["codex"]), 0) == [FallbackBlock(Blank())]
  {
    BlankBlocks();
    var b := Block(Stamp, "", "body", Raw(Stamp, "", "body"));
    CodexFilter();
    ExtractSingle(Blank(), b, None);
    ExtractSingle(Blank(), b, Some(["codex"]));
  }

  /** A printed log whose blocks all pass the filter: `last_n = 1` gives
      its last block. */
  lemma ExtractLastOfRender(bs: seq<Block>, tags: Option<seq<string>>)
    requires PrintableLog(bs) && bs != []
    requires forall k :: 0 <= k < |bs| ==> Selected(tags, bs[k].tag)
    ensures Extracted(Render(bs), tags, 1) == [bs[|bs| - 1]]
  {
    AllBlocksOfRender(bs);
    FilterAll(bs, tags);
  }

  /** A sample log in the format the extractor documents: two blocks tagged
      `codex`, printed as `[2024-01-01T00:00:00] codex`, `Hello`,
      `[2024-01-01T00:00:05] codex`, `World`, each line ended by a line feed,
      oldest first. */
  function Hello(): Block {
    Block("2024-01-01T00:00:00", "codex", "Hello\n", Raw("2024-01-01T00:00:00", "codex", "Hello\n"))
  }

  function World(): Block {
    Block("2024-01-01T00:00:05", "codex", "World\n", Raw("2024-01-01T00:00:05", "codex", "World\n"))
  }

  lemma HelloPrintable()
    ensures Printable(Hello()) && EndsLine(Hello().body)
  {
    var b := Hello();
    assert forall k :: 0 <= k < 19 ==> TimestampChar(k, b.timestamp[k]);
  }

  lemma WorldPrintable()
    ensures Printable(World())
  {
    var b := World();
    assert forall k :: 0 <= k < 19 ==> TimestampChar(k, b.timestamp[k]);
  }

  lemma ExamplePrintable()
    ensures PrintableLog([Hello(), World()])
  {
    HelloPrintable();
    WorldPrintable();
  }

  /** The log above is read back as its two blocks. */
  lemma ExampleAll()
    ensures Extracted(Render([Hello(), World()]), None, 0) == [Hello(), World()]
  {
    ExamplePrintable();
    ExtractRender([Hello(), World()], None);
  }

  /** Asked for the last `codex` block, the tool returns the second. */
  lemma ExampleLast()
    ensures Extracted(Render([Hello(), World()]), Some(["codex"]), 1) == [World()]
  {
    ExamplePrintable();
    CodexFilter();
    ExtractLastOfRender([Hello(), World()], Some(["codex"]));
  }

  /** A block whose body line starts with `[` but not with a bracketed
      timestamp, as a log level such as `[INFO]` does. */
  function Leveled(): Block {
    Block(Stamp, "codex", "[INFO] done\n", Raw(Stamp, "codex", "[INFO] done\n"))
  }

  /** Such a body line opens no header: the block is read back unchanged. */
  lemma LeveledReadBack()
    ensures Printable(Leveled())
    ensures AllBlocks(Leveled().raw) == [Leveled()]
  {
    StampIsTimestamp();
    AllBlocksOfRender([Leveled()]);
    assert Render([Leveled()]) == Leveled().raw;
  }
}

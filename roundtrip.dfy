/**
 * Text written in the log format the extractor expects is read back block for
 * block: a printed block `[ts] tag\nbody` is one `BLOCK_RE` match whose
 * groups give back the timestamp, the tag and the body.
 */
module RoundTrip {
  import opened Wrappers
  import opened Text
  import opened LogBlocks

  /** No line of the body starts with a bracketed timestamp `[dddd-dd-ddTdd:dd:dd]`,
      so no header hides inside it. Lines such as `[INFO] done` or `[x]` are
      allowed: they cannot open a header. */
  predicate NoHeaderLine(body: string) {
    forall j :: 0 <= j < |body| && (j == 0 || body[j - 1] == '\n') ==> !Opening(body, j)
  }

  /** Whether a bracketed timestamp opens at a position depends only on the
      21 characters from there on. */
  lemma OpeningShift(s: string, k: nat, t: string, j: nat)
    requires k + 21 <= |s| && j + 21 <= |t|
    requires s[k..k + 21] == t[j..j + 21]
    ensures Opening(s, k) <==> Opening(t, j)
  {
    assert s[k] == s[k..k + 21][0] && t[j] == t[j..j + 21][0];
    assert s[k + 20] == s[k..k + 21][20] && t[j + 20] == t[j..j + 21][20];
    SubSlice(s, k, k + 21, 1, 20);
    SubSlice(t, j, j + 21, 1, 20);
  }

  /** A bracketed timestamp holds no line feed. */
  lemma OpeningHasNoLineFeed(s: string, k: nat, i: nat)
    requires k <= i < k + 21 && i < |s| && s[i] == '\n'
    ensures !Opening(s, k)
  {
  }

  /** The body is empty or ends its last line. */
  predicate EndsLine(body: string) {
    body == [] || body[|body| - 1] == '\n'
  }

  /** A block the extractor reads back unchanged: a well-formed timestamp, a
      one-line tag that `strip()` leaves alone, and a raw text in the
      canonical form. */
  predicate Printable(b: Block) {
    && IsTimestamp(b.timestamp)
    && b.tag != [] && '\n' !in b.tag && !IsSpace(b.tag[0]) && !IsSpace(b.tag[|b.tag| - 1])
    && NoHeaderLine(b.body)
    && b.raw == Raw(b.timestamp, b.tag, b.body)
  }

  /** Every block is printable and every block but the last ends its line, so
      the next header starts a line. */
  predicate PrintableLog(bs: seq<Block>) {
    forall k :: 0 <= k < |bs| ==> Printable(bs[k]) && (k < |bs| - 1 ==> EndsLine(bs[k].body))
  }

  /** The log the blocks print to, one raw text after the other. */
  function Render(bs: seq<Block>): string {
    if bs == [] then "" else bs[0].raw + Render(bs[1..])
  }

  /** Where the parts of a raw text stand. */
  lemma RawParts(ts: string, tag: string, body: string)
    requires |ts| == 19
    ensures var r := Raw(ts, tag, body);
      && |r| == 23 + |tag| + |body|
      && r[0] == '[' && r[1..20] == ts && r[20] == ']' && r[21] == ' '
      && r[22..22 + |tag|] == tag && r[22 + |tag|] == '\n' && r[23 + |tag|..] == body
  {
    var r := Raw(ts, tag, body);
    assert r == "[" + ts + "] " + tag + "\n" + body;
  }

  lemma SubSlice(s: string, p: nat, q: nat, i: nat, j: nat)
    requires p <= q <= |s| && i <= j <= q - p
    ensures s[p..q][i..j] == s[p + i..p + j]
  {
    assert forall k :: 0 <= k < j - i ==> s[p..q][i..j][k] == s[p + i + k];
  }

  /** The first line feed at or after `i` is at `e`. */
  lemma {:induction false} LineEndIs(s: string, i: nat, e: nat)
    requires i <= e < |s| && s[e] == '\n'
    requires forall k :: i <= k < e ==> s[k] != '\n'
    ensures LineEnd(s, i) == e
    decreases e - i
  {
    if i < e {
      LineEndIs(s, i + 1, e);
    }
  }

  /** A printed header is a header, with the tag group exactly the tag. */
  lemma HeaderOfPrinted(s: string, p: nat, b: Block)
    requires Printable(b)
    requires p + |b.raw| <= |s| && s[p..p + |b.raw|] == b.raw
    ensures HeaderAt(s, p) == Some(Header(p + 22, p + 22 + |b.tag|))
  {
    var r, n := b.raw, |b.tag|;
    RawParts(b.timestamp, b.tag, b.body);
    assert forall k :: 0 <= k < |r| ==> s[p + k] == r[k];
    SubSlice(s, p, p + |r|, 1, 20);
    assert s[p + 1..p + 20] == b.timestamp;
    assert Opening(s, p);
    assert forall k :: 0 <= k < n ==> s[p + 22 + k] == b.tag[k] by {
      forall k | 0 <= k < n ensures s[p + 22 + k] == b.tag[k] {
        assert r[22 + k] == r[22..22 + n][k];
      }
    }
    assert s[p + 21] == ' ' && IsSpace(s[p + 21]);
    assert SpaceRunEnd(s, p + 22) == p + 22;
    assert SpaceRunEnd(s, p + 21) == p + 22;
    forall k | p + 22 <= k < p + 22 + n ensures s[k] != '\n' {
      assert s[k] == b.tag[k - p - 22];
    }
    LineEndIs(s, p + 22, p + 22 + n);
    assert BacktrackSplit(s, p, p + 22) == Some(p + 22);
  }

  /** A line start inside a body that occupies `s[start..q]` opens no bracketed
      timestamp, when the body ends its line or the text. A line start near
      the end cannot open one that reaches past it: the bracketed timestamp
      would have to hold the body's last line feed. */
  lemma LineInBodyNoOpening(s: string, start: nat, q: nat, body: string, k: nat)
    requires start <= k < q <= |s| && s[start..q] == body && NoHeaderLine(body)
    requires AtLineStart(s, k)
    requires q == |s| || s[q - 1] == '\n'
    ensures !Opening(s, k)
  {
    var j := k - start;
    assert s[k] == body[j];
    if k > start {
      assert s[k - 1] == body[j - 1];
    }
    if k + 21 <= q {
      assert s[k..k + 21] == body[j..j + 21] by {
        SubSlice(s, start, q, j, j + 21);
      }
      OpeningShift(s, k, body, j);
    } else if q < |s| {
      OpeningHasNoLineFeed(s, k, q - 1);
    }
  }

  /** No header starts a line inside the body of a printed block that ends
      its line or the text. */
  lemma BodyHasNoHeader(s: string, p: nat, b: Block, q: nat)
    requires Printable(b) && q == p + |b.raw|
    requires q <= |s| && s[p..q] == b.raw
    requires q == |s| || s[q - 1] == '\n'
    ensures forall k :: p + 23 + |b.tag| <= k < q ==> !IsHeaderStart(s, k)
  {
    var start := p + 23 + |b.tag|;
    GroupsOfPrinted(s, p, b.timestamp, b.tag, b.body);
    forall k | start <= k < q && AtLineStart(s, k) ensures !Opening(s, k) {
      LineInBodyNoOpening(s, start, q, b.body, k);
    }
  }

  /** The match at a printed block has the tag group at the tag and a body
      that runs to the next header or to the end of the text. */
  lemma MatchAtPrinted(s: string, p: nat, b: Block, q: nat)
    requires Printable(b) && q == p + |b.raw|
    requires q <= |s| && s[p..q] == b.raw
    requires AtLineStart(s, p)
    requires q == |s| || IsHeaderStart(s, q)
    ensures IsHeaderStart(s, p) && NextHeaderStart(s, p) == p
    ensures MatchAt(s, p) == BlockMatch(p, p + 22, p + 22 + |b.tag|, q)
  {
    var n := |b.tag|;
    var h := Header(p + 22, p + 22 + n);
    HeaderOfPrinted(s, p, b);
    BodyHasNoHeader(s, p, b, q);
    RawParts(b.timestamp, b.tag, b.body);
    var e := h.tagEnd + 1;
    NextHeaderStartIs(s, e, q);
    MatchAtIs(s, p, h, e);
  }

  /** ... and its record is the block itself. */
  lemma MatchOfPrinted(s: string, p: nat, b: Block, q: nat)
    requires Printable(b) && q == p + |b.raw|
    requires q <= |s| && s[p..q] == b.raw
    requires AtLineStart(s, p)
    requires q == |s| || IsHeaderStart(s, q)
    ensures IsHeaderStart(s, p) && NextHeaderStart(s, p) == p
    ensures MatchAt(s, p) == BlockMatch(p, p + 22, p + 22 + |b.tag|, q)
    ensures ValidSpan(s, MatchAt(s, p)) && MatchBlock(s, MatchAt(s, p)) == b
  {
    MatchAtPrinted(s, p, b, q);
    BlockOfPrinted(s, p, b, q);
  }

  /** The timestamp, tag and body of a printed block stand at fixed offsets
      from its start. */
  lemma GroupsOfPrinted(s: string, p: nat, ts: string, tag: string, body: string)
    requires |ts| == 19
    requires p + |Raw(ts, tag, body)| <= |s| && s[p..p + |Raw(ts, tag, body)|] == Raw(ts, tag, body)
    ensures |Raw(ts, tag, body)| == 23 + |tag| + |body|
    ensures s[p + 1..p + 20] == ts && s[p + 22..p + 22 + |tag|] == tag
    ensures s[p + 23 + |tag|..p + 23 + |tag| + |body|] == body
  {
    var r := Raw(ts, tag, body);
    RawParts(ts, tag, body);
    SubSlice(s, p, p + |r|, 1, 20);
    SubSlice(s, p, p + |r|, 22, 22 + |tag|);
    SubSlice(s, p, p + |r|, 23 + |tag|, |r|);
  }

  /** The groups of that match give back the block. */
  lemma BlockOfPrinted(s: string, p: nat, b: Block, q: nat)
    requires Printable(b) && q == p + |b.raw|
    requires q <= |s| && s[p..q] == b.raw
    ensures ValidSpan(s, BlockMatch(p, p + 22, p + 22 + |b.tag|, q))
    ensures MatchBlock(s, BlockMatch(p, p + 22, p + 22 + |b.tag|, q)) == b
  {
    GroupsOfPrinted(s, p, b.timestamp, b.tag, b.body);
    StripKeeps(b.tag);
  }

  lemma PrintableTail(bs: seq<Block>)
    requires PrintableLog(bs) && bs != []
    ensures PrintableLog(bs[1..])
  {
    forall k | 0 <= k < |bs| - 1 ensures Printable(bs[1..][k]) && (k < |bs| - 2 ==> EndsLine(bs[1..][k].body)) {
      assert bs[1..][k] == bs[k + 1];
    }
  }

  /** A text that reads `x + y` from `p` on holds `x` at `p` and `y` after it. */
  lemma SplitAfter(s: string, p: nat, x: string, y: string, q: nat)
    requires p <= |s| && s[p..] == x + y && q == p + |x|
    ensures q <= |s| && s[p..q] == x && s[q..] == y
  {
    assert forall k :: 0 <= k < |x| ==> s[p + k] == (x + y)[k];
    assert forall k :: |x| <= k < |x| + |y| ==> s[p + k] == (x + y)[k];
  }

  /** The raw text of a block whose body ends its line ends with a line feed. */
  lemma RawEndsLine(ts: string, tag: string, body: string)
    requires EndsLine(body)
    ensures var r := Raw(ts, tag, body); r != [] && r[|r| - 1] == '\n'
  {
    var head := "[" + ts + "] " + tag + "\n";
    assert Raw(ts, tag, body) == head + body;
  }

  /** A printed log is its first raw text followed by the rest of the log,
      and the rest starts a line. */
  lemma PrintedSplit(s: string, p: nat, bs: seq<Block>, q: nat)
    requires p <= |s| && s[p..] == Render(bs) && bs != [] && q == p + |bs[0].raw|
    requires bs[0].raw == Raw(bs[0].timestamp, bs[0].tag, bs[0].body)
    requires |bs| > 1 ==> EndsLine(bs[0].body)
    ensures q <= |s| && s[p..q] == bs[0].raw && s[q..] == Render(bs[1..])
    ensures bs[1..] != [] ==> AtLineStart(s, q) && q + |bs[1].raw| <= |s| && s[q..q + |bs[1].raw|] == bs[1].raw
  {
    var b, rest := bs[0], bs[1..];
    assert Render(bs) == b.raw + Render(rest);
    SplitAfter(s, p, b.raw, Render(rest), q);
    if rest != [] {
      RawEndsLine(b.timestamp, b.tag, b.body);
      assert s[q - 1] == s[p..q][|b.raw| - 1];
      assert Render(rest) == rest[0].raw + Render(rest[1..]);
      SplitAfter(s, q, rest[0].raw, Render(rest[1..]), q + |rest[0].raw|);
    }
  }

  /** After the first block of a printed log comes the rest of the log,
      starting with a header at a line start, or the end of the text. */
  lemma PrintedNext(s: string, p: nat, bs: seq<Block>, q: nat)
    requires p <= |s| && s[p..] == Render(bs) && PrintableLog(bs)
    requires bs != [] && q == p + |bs[0].raw|
    ensures q <= |s| && s[p..q] == bs[0].raw && s[q..] == Render(bs[1..]) && PrintableLog(bs[1..])
    ensures bs[1..] != [] ==> AtLineStart(s, q) && IsHeaderStart(s, q)
    ensures bs[1..] == [] ==> q == |s|
  {
    assert Printable(bs[0]) && (|bs| > 1 ==> EndsLine(bs[0].body));
    PrintedSplit(s, p, bs, q);
    PrintableTail(bs);
    if bs[1..] != [] {
      assert bs[1..][0] == bs[1];
      HeaderOfPrinted(s, q, bs[1]);
    } else {
      assert s[q..] == [];
    }
  }

  /** The first block of a printed log is the first match, and the scan
      goes on where its raw text ends. */
  lemma PrintedStep(s: string, p: nat, bs: seq<Block>, q: nat)
    requires p <= |s| && s[p..] == Render(bs) && PrintableLog(bs)
    requires bs != [] && AtLineStart(s, p) && q == p + |bs[0].raw|
    ensures q <= |s| && s[q..] == Render(bs[1..]) && PrintableLog(bs[1..])
    ensures bs[1..] != [] ==> AtLineStart(s, q)
    ensures p < |s| && IsHeaderStart(s, p) && MatchAt(s, p).bodyEnd == q
    ensures ValidSpan(s, MatchAt(s, p)) && MatchBlock(s, MatchAt(s, p)) == bs[0]
  {
    PrintedNext(s, p, bs, q);
    assert Printable(bs[0]);
    MatchOfPrinted(s, p, bs[0], q);
  }

  /** The scan of a printed log finds one match per block, and each match
      gives back its block. */
  lemma {:induction false} ScanPrinted(s: string, p: nat, bs: seq<Block>)
    requires p <= |s| && s[p..] == Render(bs) && PrintableLog(bs)
    requires bs != [] ==> AtLineStart(s, p)
    ensures |Scan(s, p)| == |bs|
    ensures forall k :: 0 <= k < |bs| ==> ValidSpan(s, Scan(s, p)[k]) && MatchBlock(s, Scan(s, p)[k]) == bs[k]
    decreases |bs|
  {
    if bs == [] {
      assert NextHeaderStart(s, p) == |s|;
    } else {
      var q := p + |bs[0].raw|;
      PrintedStep(s, p, bs, q);
      ScanAtHeader(s, p, q);
      ScanPrinted(s, q, bs[1..]);
      var ms, tail := Scan(s, p), Scan(s, q);
      forall k | 0 <= k < |bs| ensures ValidSpan(s, ms[k]) && MatchBlock(s, ms[k]) == bs[k] {
        if k > 0 {
          assert ms[k] == tail[k - 1] && bs[k] == bs[1..][k - 1];
        }
      }
    }
  }

  /** Round trip: the blocks found in a printed log are the blocks printed. */
  lemma AllBlocksOfRender(bs: seq<Block>)
    requires PrintableLog(bs)
    ensures AllBlocks(Render(bs)) == bs
  {
    var s := Render(bs);
    ScanPrinted(s, 0, bs);
    forall k | 0 <= k < |bs| ensures AllBlocks(s)[k] == bs[k] {
      AllBlocksAt(s, k);
    }
  }

  /** Without a filter and with `last_n = 0` the tool hands back exactly the
      blocks of a printed log; with a filter, exactly those whose tag passes. */
  lemma ExtractRender(bs: seq<Block>, tags: Option<seq<string>>)
    requires PrintableLog(bs)
    ensures Extracted(Render(bs), None, 0) == bs
    ensures Filter(bs, tags) != [] ==> Extracted(Render(bs), tags, 0) == Filter(bs, tags)
  {
    var s := Render(bs);
    AllBlocksOfRender(bs);
    FilterAll(bs, None);
    assert KeptBlocks(s, None) == bs;
    assert KeptBlocks(s, tags) == Filter(bs, tags);
    if bs == [] {
      ExtractEmpty(None, 0);
    } else {
      ExtractKept(s, None, 0);
    }
    if Filter(bs, tags) != [] {
      ExtractKept(s, tags, 0);
    }
  }
}

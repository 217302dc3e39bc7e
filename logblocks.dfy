/**
 * The block extractor of `run_and_extract_codex_blocks` (server.py lines
 * 56-71 and 131-146): the meaning of `BLOCK_RE.finditer` as a scanner over
 * positions of the captured output, the tag filter, the raw-output fallback
 * and the `blocks[-last_n:]` suffix.
 *
 * A header is `^\[(dddd-dd-ddTdd:dd:dd)\]\s+([^\n]+)\n` under `re.M`; a body
 * is the shortest text after it up to the next header at a line start or
 * the end of the text. `\s+` is greedy and may cross line ends; when what
 * follows it cannot complete the header, the regex engine gives characters
 * back one at a time (`BacktrackSplit`).
 */
module LogBlocks {
  import opened Wrappers
  import opened Text

  /** What the timestamp group `\d{4}-\d{2}-\d{2}T\d{2}:\d{2}:\d{2}` accepts at
      offset `k`: the separators at offsets 4, 7, 10, 13 and 16, a digit elsewhere. */
  predicate TimestampChar(k: int, c: char) {
    if k == 4 || k == 7 then c == '-'
    else if k == 10 then c == 'T'
    else if k == 13 || k == 16 then c == ':'
    else IsDigit(c)
  }

  /** The timestamp group, 19 characters. */
  predicate IsTimestamp(t: string) {
    |t| == 19 && forall k :: 0 <= k < 19 ==> TimestampChar(k, t[k])
  }

  /** `^` under `re.M`: the start of the text or just after a line feed. */
  predicate AtLineStart(s: string, p: nat) {
    p == 0 || (p <= |s| && s[p - 1] == '\n')
  }

  /** `\[(dddd-dd-ddTdd:dd:dd)\]` at `p`: 21 characters. */
  predicate Opening(s: string, p: nat) {
    p + 21 <= |s| && s[p] == '[' && IsTimestamp(s[p + 1..p + 20]) && s[p + 20] == ']'
  }

  /** The position of the first line feed at or after `i`, or `|s|` if none. */
  function LineEnd(s: string, i: nat): (e: nat)
    requires i <= |s|
    ensures i <= e <= |s| && (e < |s| ==> s[e] == '\n')
    decreases |s| - i
  {
    if i == |s| || s[i] == '\n' then i else LineEnd(s, i + 1)
  }

  lemma {:induction false} LineEndSpec(s: string, i: nat)
    requires i <= |s|
    ensures forall k :: i <= k < LineEnd(s, i) ==> s[k] != '\n'
    decreases |s| - i
  {
    if i < |s| && s[i] != '\n' {
      LineEndSpec(s, i + 1);
    }
  }

  /** The end of the run of whitespace that starts at `i`. */
  function SpaceRunEnd(s: string, i: nat): (j: nat)
    requires i <= |s|
    ensures i <= j <= |s| && (j < |s| ==> !IsSpace(s[j]))
    decreases |s| - i
  {
    if i < |s| && IsSpace(s[i]) then SpaceRunEnd(s, i + 1) else i
  }

  lemma {:induction false} SpaceRunEndSpec(s: string, i: nat)
    requires i <= |s|
    ensures forall k :: i <= k < SpaceRunEnd(s, i) ==> IsSpace(s[k])
    decreases |s| - i
  {
    if i < |s| && IsSpace(s[i]) {
      SpaceRunEndSpec(s, i + 1);
    }
  }

  /** One way the header matches at `p` with the tag group starting at `q`:
      `\s+` covers `s[p+21..q]`, then `[^\n]+` runs from `q` to a line feed. */
  predicate SplitAt(s: string, p: nat, q: nat) {
    && Opening(s, p)
    && p + 21 < q < |s|
    && (forall k :: p + 21 <= k < q ==> IsSpace(s[k]))
    && s[q] != '\n'
    && LineEnd(s, q) < |s|
  }

  /** Greedy `\s+` with backtracking: the largest tag start in `(p+21, hi]`. */
  function BacktrackSplit(s: string, p: nat, hi: nat): (r: Option<nat>)
    requires Opening(s, p) && p + 21 <= hi <= |s|
    ensures r.Some? ==> p + 21 < r.value <= hi && r.value < |s|
    ensures r.Some? ==> s[r.value] != '\n' && LineEnd(s, r.value) < |s|
    decreases hi
  {
    if hi == p + 21 then None
    else if hi < |s| && s[hi] != '\n' && LineEnd(s, hi) < |s| then Some(hi)
    else BacktrackSplit(s, p, hi - 1)
  }

  lemma {:induction false} BacktrackSplitSpec(s: string, p: nat, hi: nat)
    requires Opening(s, p) && p + 21 <= hi <= SpaceRunEnd(s, p + 21)
    ensures var r := BacktrackSplit(s, p, hi);
      && (r.Some? ==> SplitAt(s, p, r.value))
      && (r.Some? ==> forall q: nat :: r.value < q <= hi ==> !SplitAt(s, p, q))
      && (r.None? ==> forall q: nat :: q <= hi ==> !SplitAt(s, p, q))
    decreases hi
  {
    SpaceRunEndSpec(s, p + 21);
    if hi > p + 21 && !(hi < |s| && s[hi] != '\n' && LineEnd(s, hi) < |s|) {
      BacktrackSplitSpec(s, p, hi - 1);
    }
  }

  /** The spans of a header match: the tag group is `s[tagStart..tagEnd]` and
      `s[tagEnd]` is the line feed that ends the header. */
  datatype Header = Header(tagStart: nat, tagEnd: nat)

  /** The header part of `BLOCK_RE`, as it stands at the front of the pattern and in
      its lookahead, matched at `p` without the `^`. */
  function HeaderAt(s: string, p: nat): (r: Option<Header>)
    ensures r.Some? ==> Opening(s, p) && p + 21 < r.value.tagStart < r.value.tagEnd < |s|
    ensures r.Some? ==> r.value.tagEnd == LineEnd(s, r.value.tagStart)
  {
    if !Opening(s, p) then None
    else
      match BacktrackSplit(s, p, SpaceRunEnd(s, p + 21))
      case None => None
      case Some(q) => Some(Header(q, LineEnd(s, q)))
  }

  /** The header matches at `p` exactly when some split of the text after the
      timestamp fits `\s+([^\n]+)\n`; the split chosen is the one with the
      longest `\s+`, as greedy matching with backtracking gives. */
  lemma HeaderAtSpec(s: string, p: nat)
    ensures HeaderAt(s, p).Some? <==> exists q: nat :: SplitAt(s, p, q)
    ensures var r := HeaderAt(s, p);
      r.Some? ==> SplitAt(s, p, r.value.tagStart) && forall q: nat :: r.value.tagStart < q ==> !SplitAt(s, p, q)
  {
    if Opening(s, p) {
      var hi := SpaceRunEnd(s, p + 21);
      BacktrackSplitSpec(s, p, hi);
      // no split can start beyond the whitespace run
      assert forall q: nat :: hi < q ==> !SplitAt(s, p, q);
    }
  }

  /** A header that starts a line. */
  predicate IsHeaderStart(s: string, p: nat) {
    AtLineStart(s, p) && HeaderAt(s, p).Some?
  }

  /** The first header start at or after `i`, or `|s|` (the `\Z` alternative). */
  function NextHeaderStart(s: string, i: nat): (b: nat)
    requires i <= |s|
    ensures i <= b <= |s| && (b < |s| ==> IsHeaderStart(s, b))
    decreases |s| - i
  {
    if i == |s| || IsHeaderStart(s, i) then i else NextHeaderStart(s, i + 1)
  }

  lemma {:induction false} NextHeaderStartSpec(s: string, i: nat)
    requires i <= |s|
    ensures forall k :: i <= k < NextHeaderStart(s, i) ==> !IsHeaderStart(s, k)
    decreases |s| - i
  {
    if i < |s| && !IsHeaderStart(s, i) {
      NextHeaderStartSpec(s, i + 1);
    }
  }

  /** The lazy body `(.*?)` stops at the first position `b` where the lookahead
      succeeds. */
  lemma NextHeaderStartIs(s: string, i: nat, b: nat)
    requires i <= b <= |s|
    requires forall k :: i <= k < b ==> !IsHeaderStart(s, k)
    requires b == |s| || IsHeaderStart(s, b)
    ensures NextHeaderStart(s, i) == b
  {
    NextHeaderStartSpec(s, i);
  }

  /** One `BLOCK_RE` match: the header at `start`, the tag group, and the body
      `s[tagEnd+1..bodyEnd]`. */
  datatype BlockMatch = BlockMatch(start: nat, tagStart: nat, tagEnd: nat, bodyEnd: nat)

  predicate ValidSpan(s: string, m: BlockMatch) {
    m.start + 21 < m.tagStart <= m.tagEnd < m.bodyEnd <= |s|
  }

  /** `m` is the match `BLOCK_RE` makes at `m.start`: a header there, and a
      body that runs to the next header start or the end of the text. */
  ghost predicate MatchShape(s: string, m: BlockMatch) {
    && ValidSpan(s, m)
    && AtLineStart(s, m.start)
    && HeaderAt(s, m.start) == Some(Header(m.tagStart, m.tagEnd))
    && m.bodyEnd == NextHeaderStart(s, m.tagEnd + 1)
  }

  /** Spelled out, the header of a match starts a line, and its tag group
      starts where greedy `\s+` leaves it: no longer run of whitespace fits. */
  lemma MatchHeaderMeaning(s: string, m: BlockMatch)
    requires MatchShape(s, m)
    ensures AtLineStart(s, m.start) && Opening(s, m.start)
    ensures SplitAt(s, m.start, m.tagStart)
    ensures forall q: nat :: m.tagStart < q ==> !SplitAt(s, m.start, q)
  {
    HeaderAtSpec(s, m.start);
  }

  /** The tag group runs to the end of the header line. */
  lemma MatchTagLine(s: string, m: BlockMatch)
    requires MatchShape(s, m)
    ensures m.tagEnd == LineEnd(s, m.tagStart) && s[m.tagEnd] == '\n'
    ensures forall k :: m.tagStart <= k < m.tagEnd ==> s[k] != '\n'
  {
    LineEndSpec(s, m.tagStart);
  }

  /** The lazy body holds no header at a line start and stops at the next
      one or at the end of the text. */
  lemma MatchBodyMeaning(s: string, m: BlockMatch)
    requires MatchShape(s, m)
    ensures forall k :: m.tagEnd < k < m.bodyEnd ==> !IsHeaderStart(s, k)
    ensures m.bodyEnd < |s| ==> IsHeaderStart(s, m.bodyEnd)
  {
    NextHeaderStartSpec(s, m.tagEnd + 1);
  }

  /** Source order without overlap. */
  predicate Ordered(ms: seq<BlockMatch>) {
    forall i, j :: 0 <= i < j < |ms| ==> ms[i].bodyEnd <= ms[j].start
  }

  /** Every match in `ms` has the shape of a `BLOCK_RE` match. */
  ghost predicate AllShaped(s: string, ms: seq<BlockMatch>) {
    ms == [] || (MatchShape(s, ms[0]) && AllShaped(s, ms[1..]))
  }

  lemma {:induction false} ShapedAt(s: string, ms: seq<BlockMatch>, k: nat)
    requires AllShaped(s, ms) && k < |ms|
    ensures MatchShape(s, ms[k])
  {
    if k > 0 {
      ShapedAt(s, ms[1..], k - 1);
    }
  }

  /** `BLOCK_RE.finditer(s)` from position `i` on: the text before the first
      header start is skipped, and the matches tile the rest of the text. */
  function Scan(s: string, i: nat): (ms: seq<BlockMatch>)
    requires i <= |s|
    ensures AllShaped(s, ms)
    ensures ms == [] <==> NextHeaderStart(s, i) == |s|
    ensures ms != [] ==> ms[0].start == NextHeaderStart(s, i) && ms[|ms| - 1].bodyEnd == |s|
    ensures forall j, k :: 0 <= j && k == j + 1 < |ms| ==> ms[j].bodyEnd == ms[k].start
    decreases |s| - i
  {
    var b := NextHeaderStart(s, i);
    if b == |s| then []
    else
      var m := MatchAt(s, b);
      MatchAtShape(s, b);
      var rest := Scan(s, m.bodyEnd);
      assert ([m] + rest)[1..] == rest;
      [m] + rest
  }

  /** The match whose header starts at the header start `b`. */
  function MatchAt(s: string, b: nat): (m: BlockMatch)
    requires b < |s| && IsHeaderStart(s, b)
    ensures m.start == b && ValidSpan(s, m)
  {
    var h := HeaderAt(s, b).value;
    BlockMatch(b, h.tagStart, h.tagEnd, NextHeaderStart(s, h.tagEnd + 1))
  }

  /** The match at a header start has the shape of a `BLOCK_RE` match. */
  lemma MatchAtShape(s: string, b: nat)
    requires b < |s| && IsHeaderStart(s, b)
    ensures MatchShape(s, MatchAt(s, b))
  {
  }

  /** The match at a header start is made of the header's spans and the
      next header start after it. */
  lemma MatchAtIs(s: string, b: nat, h: Header, e: nat)
    requires b < |s| && AtLineStart(s, b) && HeaderAt(s, b) == Some(h) && e == h.tagEnd + 1
    ensures IsHeaderStart(s, b)
    ensures MatchAt(s, b) == BlockMatch(b, h.tagStart, h.tagEnd, NextHeaderStart(s, e))
  {
  }

  /** At a header start the scan takes the match there and goes on after it. */
  lemma ScanAtHeader(s: string, p: nat, q: nat)
    requires p < |s| && IsHeaderStart(s, p) && MatchAt(s, p).bodyEnd == q
    ensures q <= |s| && Scan(s, p) == [MatchAt(s, p)] + Scan(s, q)
  {
    assert NextHeaderStart(s, p) == p;
  }

  /** The matches found from `i` on start at or after `i` and are well spanned. */
  lemma {:induction false} ScanSpans(s: string, i: nat)
    requires i <= |s|
    ensures forall k :: 0 <= k < |Scan(s, i)| ==> i <= Scan(s, i)[k].start && ValidSpan(s, Scan(s, i)[k])
    decreases |s| - i
  {
    var ms := Scan(s, i);
    if ms != [] {
      var rest := Scan(s, ms[0].bodyEnd);
      assert ms == [ms[0]] + rest;
      assert ValidSpan(s, ms[0]);
      ScanSpans(s, ms[0].bodyEnd);
      forall k | 0 <= k < |ms| ensures i <= ms[k].start && ValidSpan(s, ms[k]) {
        if k > 0 { assert ms[k] == rest[k - 1]; }
      }
    }
  }

  /** The matches come in source order without overlapping. */
  lemma ScanOrdered(s: string, i: nat)
    requires i <= |s|
    ensures Ordered(Scan(s, i))
  {
    ScanSpans(s, i);
    ChainAllOrdered(Scan(s, i));
  }

  /** Matches that each end where the next one starts are in order. */
  lemma ChainAllOrdered(ms: seq<BlockMatch>)
    requires forall k :: 0 <= k < |ms| ==> ms[k].start < ms[k].bodyEnd
    requires forall j, k :: 0 <= j && k == j + 1 < |ms| ==> ms[j].bodyEnd == ms[k].start
    ensures Ordered(ms)
  {
    forall a, b | 0 <= a < b < |ms| ensures ms[a].bodyEnd <= ms[b].start {
      ChainOrdered(ms, a, b);
    }
  }

  lemma {:induction false} ChainOrdered(ms: seq<BlockMatch>, a: nat, b: nat)
    requires forall k :: 0 <= k < |ms| ==> ms[k].start < ms[k].bodyEnd
    requires forall j, k :: 0 <= j && k == j + 1 < |ms| ==> ms[j].bodyEnd == ms[k].start
    requires a < b < |ms|
    ensures ms[a].bodyEnd <= ms[b].start
    decreases b - a
  {
    if a + 1 < b {
      ChainOrdered(ms, a + 1, b);
    }
  }

  /** The record the source builds for one match: the stripped tag and the
      raw text rebuilt by `f'[{ts}] {tag}\n{body}'`. */
  datatype Block = Block(timestamp: string, tag: string, body: string, raw: string)

  function Raw(timestamp: string, tag: string, body: string): string {
    "[" + timestamp + "] " + tag + "\n" + body
  }

  /** The record of one match: its groups, the tag stripped, and the raw
      text rebuilt from them. */
  function MatchBlock(s: string, m: BlockMatch): (b: Block)
    requires ValidSpan(s, m)
    ensures |b.timestamp| == 19 && |b.tag| <= m.tagEnd - m.tagStart
    ensures |b.raw| == 23 + |b.tag| + |b.body| && |b.body| == m.bodyEnd - m.tagEnd - 1
  {
    var ts := s[m.start + 1..m.start + 20];
    var tag := Strip(s[m.tagStart..m.tagEnd]);
    var body := s[m.tagEnd + 1..m.bodyEnd];
    Block(ts, tag, body, Raw(ts, tag, body))
  }

  /** A record equals the record of a match when its fields are the groups. */
  lemma MatchBlockIs(s: string, m: BlockMatch, b: Block)
    requires ValidSpan(s, m)
    requires s[m.start + 1..m.start + 20] == b.timestamp && Strip(s[m.tagStart..m.tagEnd]) == b.tag
    requires s[m.tagEnd + 1..m.bodyEnd] == b.body && b.raw == Raw(b.timestamp, b.tag, b.body)
    ensures MatchBlock(s, m) == b
  {
  }

  /** What an extracted block holds: a well-formed timestamp, a one-line tag
      without surrounding whitespace (possibly empty), the body exactly as it
      stands in the text, and a raw text that is the canonical header
      followed by that body. */
  lemma BlockFields(s: string, m: BlockMatch)
    requires MatchShape(s, m)
    ensures var b := MatchBlock(s, m);
      && IsTimestamp(b.timestamp)
      && '\n' !in b.tag
      && (b.tag != [] ==> !IsSpace(b.tag[0]) && !IsSpace(b.tag[|b.tag| - 1]))
      && b.body == s[m.tagEnd + 1..m.bodyEnd]
      && b.raw == Raw(b.timestamp, b.tag, b.body)
  {
    MatchHeaderMeaning(s, m);
    BlockTag(s, m);
  }

  /** The tag group holds no line feed, and neither does its stripped form. */
  lemma BlockTag(s: string, m: BlockMatch)
    requires MatchShape(s, m)
    ensures '\n' !in Strip(s[m.tagStart..m.tagEnd])
  {
    MatchTagLine(s, m);
    var line := s[m.tagStart..m.tagEnd];
    assert forall k :: 0 <= k < |line| ==> line[k] == s[m.tagStart + k];
    StripChars(line);
  }


  /** `tags is None or tag.lower() in {t.lower() for t in tags}`. */
  predicate Selected(tags: Option<seq<string>>, tag: string) {
    tags.None? || InLowered(Lower(tag), tags.value)
  }

  /** `key in {t.lower() for t in tags}`, one filter tag at a time. */
  predicate InLowered(key: string, tags: seq<string>) {
    tags != [] && (Lower(tags[0]) == key || InLowered(key, tags[1..]))
  }

  /** The filter keeps a tag exactly when no filter is given or some filter
      tag equals it ignoring ASCII case. */
  lemma SelectedIff(tags: Option<seq<string>>, tag: string)
    ensures Selected(tags, tag) <==> tags.None? || exists t :: t in tags.value && Lower(t) == Lower(tag)
  {
    if tags.Some? {
      InLoweredIff(Lower(tag), tags.value);
    }
  }

  lemma {:induction false} InLoweredIff(key: string, tags: seq<string>)
    ensures InLowered(key, tags) <==> exists t :: t in tags && Lower(t) == key
  {
    if tags != [] {
      InLoweredIff(key, tags[1..]);
      if InLowered(key, tags) {
        if Lower(tags[0]) == key {
          assert tags[0] in tags;
        } else {
          var t :| t in tags[1..] && Lower(t) == key;
          assert t in tags;
        }
      }
      if exists t :: t in tags && Lower(t) == key {
        var t :| t in tags && Lower(t) == key;
        if t != tags[0] {
          assert t in tags[1..];
        }
      }
    }
  }

  /** Case does not matter: a block tagged `CODEX` passes the filter `("codex",)`. */
  /** The filter sees a tag only through its lower-cased letters: two tags
      that agree letter for letter up to ASCII case pass or fail together. */
  lemma SelectedCaseInsensitive(tags: Option<seq<string>>, a: string, b: string)
    requires |a| == |b| && forall k :: 0 <= k < |a| ==> ToLower(a[k]) == ToLower(b[k])
    ensures Selected(tags, a) <==> Selected(tags, b)
  {
    assert Lower(a) == Lower(b);
  }

  lemma SelectedIgnoresCase()
    ensures Selected(Some(["codex"]), "CODEX")
  {
    assert Lower("CODEX") == "codex" == Lower("codex");
  }

  /** The blocks of the matches, in order. */
  function Blocks(s: string, ms: seq<BlockMatch>): (bs: seq<Block>)
    requires forall k :: 0 <= k < |ms| ==> ValidSpan(s, ms[k])
    ensures |bs| == |ms|
    decreases |ms|
  {
    if ms == [] then [] else [MatchBlock(s, ms[0])] + Blocks(s, ms[1..])
  }

  lemma {:induction false} BlocksAt(s: string, ms: seq<BlockMatch>, k: nat)
    requires forall k :: 0 <= k < |ms| ==> ValidSpan(s, ms[k])
    requires k < |ms|
    ensures Blocks(s, ms)[k] == MatchBlock(s, ms[k])
    decreases k
  {
    if k > 0 {
      BlocksAt(s, ms[1..], k - 1);
    }
  }

  /** Every block `BLOCK_RE` finds in `out`, before filtering. */
  function AllBlocks(out: string): (bs: seq<Block>)
    ensures |bs| == |Scan(out, 0)|
  {
    ScanSpans(out, 0);
    Blocks(out, Scan(out, 0))
  }

  /** The `k`-th block is the record of the `k`-th match. */
  lemma AllBlocksAt(out: string, k: nat)
    requires k < |Scan(out, 0)|
    ensures var m := Scan(out, 0)[k];
      && ValidSpan(out, m)
      && AllBlocks(out)[k] == MatchBlock(out, m)
  {
    ScanSpans(out, 0);
    BlocksAt(out, Scan(out, 0), k);
  }

  /** Each of those blocks is the record of its match and has the shape
      `BlockFields` describes. */
  lemma AllBlocksFields(out: string, k: nat)
    requires k < |AllBlocks(out)|
    ensures var b := AllBlocks(out)[k];
      && IsTimestamp(b.timestamp)
      && '\n' !in b.tag
      && (b.tag != [] ==> !IsSpace(b.tag[0]) && !IsSpace(b.tag[|b.tag| - 1]))
      && b.raw == Raw(b.timestamp, b.tag, b.body)
  {
    AllBlocksAt(out, k);
    ShapedAt(out, Scan(out, 0), k);
    BlockFields(out, Scan(out, 0)[k]);
  }

  /** The blocks whose tag passes the filter, in their order. */
  function Filter(bs: seq<Block>, tags: Option<seq<string>>): (kept: seq<Block>)
    ensures |kept| <= |bs|
    decreases |bs|
  {
    if bs == [] then []
    else
      var init := Filter(bs[..|bs| - 1], tags);
      if Selected(tags, bs[|bs| - 1].tag) then init + [bs[|bs| - 1]] else init
  }

  /** One more block is kept exactly when it passes the filter. */
  lemma FilterPrefix(bs: seq<Block>, i: nat, tags: Option<seq<string>>)
    requires i < |bs|
    ensures Filter(bs[..i + 1], tags) == Filter(bs[..i], tags) + (if Selected(tags, bs[i].tag) then [bs[i]] else [])
  {
    assert bs[..i + 1][..i] == bs[..i];
  }

  /** A block is kept exactly when it is among the blocks and passes the filter. */
  lemma {:induction false} FilterMembers(bs: seq<Block>, tags: Option<seq<string>>)
    ensures forall b :: b in Filter(bs, tags) <==> b in bs && Selected(tags, b.tag)
    decreases |bs|
  {
    if bs != [] {
      var init := bs[..|bs| - 1];
      FilterMembers(init, tags);
      assert bs == init + [bs[|bs| - 1]];
    }
  }

  /** Filtering a list with one more block at its end. */
  lemma FilterSnoc(bs: seq<Block>, b: Block, tags: Option<seq<string>>)
    ensures Filter(bs + [b], tags) == Filter(bs, tags) + (if Selected(tags, b.tag) then [b] else [])
  {
    assert (bs + [b])[..|bs|] == bs;
  }

  /** Filtering keeps the relative order: it can be done piece by piece. */
  lemma {:induction false} FilterAppend(xs: seq<Block>, ys: seq<Block>, tags: Option<seq<string>>)
    ensures Filter(xs + ys, tags) == Filter(xs, tags) + Filter(ys, tags)
    decreases |ys|
  {
    if ys == [] {
      assert xs + ys == xs;
    } else {
      var init, last := ys[..|ys| - 1], ys[|ys| - 1];
      var kept := if Selected(tags, last.tag) then [last] else [];
      calc {
        Filter(xs + ys, tags);
        == { assert xs + ys == (xs + init) + [last]; }
        Filter((xs + init) + [last], tags);
        == { FilterSnoc(xs + init, last, tags); }
        Filter(xs + init, tags) + kept;
        == { FilterAppend(xs, init, tags); }
        Filter(xs, tags) + Filter(init, tags) + kept;
        == { FilterSnoc(init, last, tags); assert ys == init + [last]; }
        Filter(xs, tags) + Filter(ys, tags);
      }
    }
  }

  /** Without a filter, or when every tag passes it, nothing is dropped. */
  lemma {:induction false} FilterAll(bs: seq<Block>, tags: Option<seq<string>>)
    requires forall k :: 0 <= k < |bs| ==> Selected(tags, bs[k].tag)
    ensures Filter(bs, tags) == bs
    decreases |bs|
  {
    if bs != [] {
      FilterAll(bs[..|bs| - 1], tags);
      assert bs == bs[..|bs| - 1] + [bs[|bs| - 1]];
    }
  }

  /** The blocks of `out` that pass the filter, oldest first. */
  function KeptBlocks(out: string, tags: Option<seq<string>>): (kept: seq<Block>)
    ensures |kept| <= |Scan(out, 0)|
  {
    Filter(AllBlocks(out), tags)
  }
  /** The pseudo-block returned for output in which no block was kept. */
  function FallbackBlock(out: string): Block {
    Block("unknown", "codex", out, out)
  }

  /** Python's `xs[start:]` for any integer `start`. */
  function PySliceFrom<T>(xs: seq<T>, start: int): (r: seq<T>)
    ensures |r| <= |xs| && r == xs[|xs| - |r|..]
  {
    var n := |xs|;
    var b := if start < 0 then (if start + n < 0 then 0 else start + n)
             else (if start > n then n else start);
    xs[b..]
  }

  function Min(a: int, b: int): int {
    if a < b then a else b
  }

  /** `blocks[-last_n:]`: the last `last_n` blocks for a positive `last_n`,
      all of them for 0 (`blocks[-0:]` is `blocks[0:]`), and all but the
      first `-last_n` for a negative one. */
  lemma LastN<T>(xs: seq<T>, lastN: int)
    ensures lastN >= 1 ==> PySliceFrom(xs, -lastN) == xs[|xs| - Min(lastN, |xs|)..]
    ensures lastN == 0 ==> PySliceFrom(xs, -lastN) == xs
    ensures lastN < 0 ==> PySliceFrom(xs, -lastN) == xs[Min(-lastN, |xs|)..]
  {
  }

  /** The result of `run_and_extract_codex_blocks` for captured output `out`. */
  function Extracted(out: string, tags: Option<seq<string>>, lastN: int): seq<Block> {
    var kept := KeptBlocks(out, tags);
    if kept == [] && out != "" then [FallbackBlock(out)] else PySliceFrom(kept, -lastN)
  }

  /** Empty output gives no block at all, not even the fallback. */
  lemma ExtractEmpty(tags: Option<seq<string>>, lastN: int)
    ensures Extracted("", tags, lastN) == []
  {
    assert NextHeaderStart("", 0) == 0;
  }

  /** The fallback is returned exactly when the output is not empty and the
      filter kept no block, whether or not headers were found. */
  lemma ExtractFallbackIff(out: string, tags: Option<seq<string>>, lastN: int)
    ensures Extracted(out, tags, lastN) == [FallbackBlock(out)] <==> out != "" && KeptBlocks(out, tags) == []
  {
    var kept := KeptBlocks(out, tags);
    if out == "" {
      ExtractEmpty(tags, lastN);
    } else if kept != [] {
      var r := PySliceFrom(kept, -lastN);
      if r == [FallbackBlock(out)] {
        assert r[0] in kept;
        FilterMembers(AllBlocks(out), tags);
        var k :| 0 <= k < |AllBlocks(out)| && AllBlocks(out)[k] == r[0];
        AllBlocksFields(out, k);
      }
    }
  }

  /** When some block is kept the result is a suffix of the kept blocks in
      their original order: with `last_n >= 1` the last `min(last_n, k)` of them. */
  lemma ExtractKept(out: string, tags: Option<seq<string>>, lastN: int)
    requires KeptBlocks(out, tags) != []
    ensures var kept, r := KeptBlocks(out, tags), Extracted(out, tags, lastN);
      && r == PySliceFrom(kept, -lastN)
      && (lastN >= 1 ==> |r| == Min(lastN, |kept|) && r == kept[|kept| - |r|..])
      && (lastN == 0 ==> r == kept)
  {
  }

  /** Non-empty output always yields at least one block unless `last_n` is negative. */
  lemma ExtractNonEmpty(out: string, tags: Option<seq<string>>, lastN: int)
    requires out != "" && lastN >= 0
    ensures Extracted(out, tags, lastN) != []
    ensures lastN >= 1 ==> |Extracted(out, tags, lastN)| <= lastN
  {
  }

  /** The kept blocks are exactly the found blocks whose tag passes the
      filter, each of the shape `BlockFields` describes. */
  lemma KeptBlocksSound(out: string, tags: Option<seq<string>>)
    ensures forall b :: b in KeptBlocks(out, tags) <==> b in AllBlocks(out) && Selected(tags, b.tag)
    ensures forall b :: b in KeptBlocks(out, tags) ==>
      IsTimestamp(b.timestamp) && '\n' !in b.tag && b.raw == Raw(b.timestamp, b.tag, b.body)
  {
    FilterMembers(AllBlocks(out), tags);
    forall b | b in KeptBlocks(out, tags)
      ensures IsTimestamp(b.timestamp) && '\n' !in b.tag && b.raw == Raw(b.timestamp, b.tag, b.body)
    {
      var k :| 0 <= k < |AllBlocks(out)| && AllBlocks(out)[k] == b;
      AllBlocksFields(out, k);
    }
  }

  /** The loop of the source over the matches `ms` of `BLOCK_RE.finditer`:
      the record of every match whose tag passes the filter, in order. */
  method FilterMatches(out: string, ms: seq<BlockMatch>, tags: Option<seq<string>>) returns (blocks: seq<Block>)
    requires forall k :: 0 <= k < |ms| ==> ValidSpan(out, ms[k])
    ensures blocks == Filter(Blocks(out, ms), tags)
  {
    ghost var all := Blocks(out, ms);
    blocks := [];
    for i := 0 to |ms|
      invariant blocks == Filter(all[..i], tags)
    {
      var b := MatchBlock(out, ms[i]);
      BlocksAt(out, ms, i);
      FilterPrefix(all, i, tags);
      if Selected(tags, b.tag) {
        blocks := blocks + [b];
      }
    }
    assert all[..|ms|] == all;
  }

  /** The kept records of all matches in `out`. */
  method CollectKept(out: string, tags: Option<seq<string>>) returns (blocks: seq<Block>)
    ensures blocks == KeptBlocks(out, tags)
  {
    var matches := Scan(out, 0);
    ScanSpans(out, 0);
    blocks := FilterMatches(out, matches, tags);
  }

  /** `run_and_extract_codex_blocks` after the process has run: the kept
      blocks, the fallback and the `blocks[-last_n:]` suffix. */
  method CollectBlocks(out: string, tags: Option<seq<string>>, lastN: int) returns (result: seq<Block>)
    ensures result == Extracted(out, tags, lastN)
  {
    var blocks := CollectKept(out, tags);
    if blocks == [] && out != "" {
      return [FallbackBlock(out)];
    }
    return PySliceFrom(blocks, -lastN);
  }
}

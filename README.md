# codex-as-mcp: a Dafny model of the adapter core

`codex-as-mcp` is an MCP server that puts the Codex command-line agent behind two tools.
`codex_execute` runs a prompt. `codex_review` runs one of six canned code-review prompts.
The server starts in one of three execution modes: read-only (the default),
workspace-write (`--skip-git`) or full auto (`--yolo`).
It launches the agent as a child process and returns what the agent printed. For reviews,
it first cuts the agent's log into timestamped blocks and returns the last block tagged `codex`.

This project models the parts of `src/codex_as_mcp/server.py` that decide what is run and what is returned:

- `Sandbox` (`sandbox.dfy`) covers the three modes and the rewrite that replaces the first
  `--full-auto` token of a command by the mode's sandbox flags. There is a reference definition
  (`SandboxRewrite`), the in-place step as the source performs it (`RewriteForMode`), and the
  splice, idempotence and no-change properties.
- `LogBlocks` (`logblocks.dfy`) gives the meaning of `BLOCK_RE.finditer` as a scanner over
  positions of the captured output. The header pattern it scans for is the one written out in
  `BLOCK_RE` and again in its lookahead. `HEADER_RE` (`server.py:56-63`) is compiled but never
  used, so it is not modelled apart. The scanner covers:
  - the `re.M` line starts;
  - greedy `\s+` with backtracking;
  - the tag group `[^\n]+`;
  - the lazy body up to the next header or the end of the text.

  On top of the scanner sit the case-insensitive tag filter, the raw-output fallback and
  `blocks[-last_n:]` with Python's slice semantics. The loop of the source is a method proved
  against those functions.
- `RoundTrip` (`roundtrip.dfy`) proves that a log printed block by block in the canonical form
  is read back as exactly those blocks. A printable block has a well-formed timestamp, a one-line
  tag with no blank at either end, and a body none of whose lines starts with a bracketed
  timestamp. Body lines such as `[INFO] done` are allowed.
- `Quirks` (`quirks.dfy`) shows what the pattern does with text that does not follow that form.
  It also works through a two-block sample log written in the format the extractor's docstring
  documents.
- `Invoker` (`invoker.dfy`) models `resolve_codex_invoker`. It is a pure decision over what the
  host reports (`which`, `expandvars`, `exists`, the platform), proved equal to "first strategy
  that succeeds, else the bare name".
- `Server` (`server.dfy`) covers:
  - the command `codex_execute` builds and the reply it makes of the process outcome;
  - the review command, its prompt pieces, its error case and the reply it extracts;
  - the mode `main` selects;
  - the class `Adapter` holding the process-wide `SAFE_MODE` and `CODEX_INVOKER`.
- `Text` (`text.dfy`) and `Wrappers` (`wrappers.dfy`) hold the ASCII `lower`/`strip`/`isspace`
  helpers and `Option`/`Result`.

Two behaviours of the code are worth stating plainly, since the model follows them:

- The fallback block is made when no block survives the tag filter, even when headers were
  parsed (`server.py:141`). So output whose blocks all carry other tags also comes back whole
  (`LogBlocks.ExtractFallbackIff`, `Quirks.EmptyTag`).
- Only `codex_execute` turns launch failures into an `Error: ` reply. In `codex_review` an
  exception from launching the agent propagates (`server.py:126-129`).

## Model

| member | source | states |
|---|---|---|
| Sandbox.SandboxFlags | src/codex_as_mcp/server.py:92-101 | the marker `--full-auto` is among a mode's flags exactly in full-auto mode; the two sandboxed modes give two tokens starting with `--sandbox` |
| Sandbox.ReplaceFirst | src/codex_as_mcp/server.py:94-101 | reference definition of replacing the first occurrence of a token by a list of tokens; the length drops by one and grows by the replacement when the token occurs, and is unchanged otherwise |
| Sandbox.SandboxRewrite | src/codex_as_mcp/server.py:94-101 | the sandbox step as a function of command and mode; the command grows by exactly one token iff the mode is sandboxed and a marker occurs |
| Sandbox.FirstIndex | src/codex_as_mcp/server.py:95 | `list.index`: the position holds the marker and no earlier position does |
| Sandbox.ReplaceFirstAt | src/codex_as_mcp/server.py:95-96 | the reference "replace first occurrence" equals the slice assignment `xs[i:i+1] = ys` at `i = xs.index(x)` |
| Sandbox.RewriteUnchanged | src/codex_as_mcp/server.py:92-102 | in full-auto mode, or when no marker occurs, the command is left exactly as it was |
| Sandbox.RewriteSplice | src/codex_as_mcp/server.py:94-101 | in a sandboxed mode the first marker becomes the two flag tokens at its position; tokens before and after are kept in order; the length grows by one; the multiset is the old one minus the marker plus the flags |
| Sandbox.RewriteIdempotent | src/codex_as_mcp/server.py:90-102 | with at most one marker, rewriting twice gives the same command as rewriting once |
| Sandbox.RewriteTwoMarkers | src/codex_as_mcp/server.py:94-96 | with two markers a second rewrite changes the command again, so the bound above is needed |
| Sandbox.RewriteWorkspaceExample | src/codex_as_mcp/server.py:97-101 | workspace-write turns `agent exec --full-auto --cd /x` into `agent exec --sandbox workspace-write --cd /x` |
| Sandbox.RewriteForMode | src/codex_as_mcp/server.py:90-102 | the copy-then-overwrite step of the source yields the reference rewrite for every mode |
| Text.Lower | src/codex_as_mcp/server.py:134 | `str.lower()` keeps the length and lower-cases each character on its own (ASCII `A`-`Z` to `a`-`z`, others unchanged) |
| Text.TrimStart | src/codex_as_mcp/server.py:133 | `lstrip()`: no longer than the input and not starting with whitespace |
| Text.TrimEnd | src/codex_as_mcp/server.py:133 | `rstrip()`: no longer than the input and not ending with whitespace |
| Text.TrimStartSpec | src/codex_as_mcp/server.py:133 | what `lstrip` removes is a whitespace prefix, and what remains does not start with whitespace |
| Text.TrimEndSpec | src/codex_as_mcp/server.py:133 | what `rstrip` removes is a whitespace suffix |
| Text.Strip | src/codex_as_mcp/server.py:133 | the stripped tag neither starts nor ends with whitespace and is no longer than the group |
| Text.StripChars | src/codex_as_mcp/server.py:133 | stripping introduces no character absent from the input |
| Text.StripCore | src/codex_as_mcp/server.py:133 | whitespace, a core without whitespace at its ends, then whitespace, strips to exactly that core |
| LogBlocks.LineEnd | src/codex_as_mcp/server.py:67 | the first line feed at or after a position, or the end of the text |
| LogBlocks.LineEndSpec | src/codex_as_mcp/server.py:67 | no line feed lies between the position and its line end |
| LogBlocks.SpaceRunEnd | src/codex_as_mcp/server.py:67 | the end of the whitespace run that greedy `\s+` takes first; the character there is not whitespace |
| LogBlocks.BacktrackSplit | src/codex_as_mcp/server.py:67 | greedy `\s+` giving back one character at a time: a tag start it returns lies after the whitespace, is not a line feed, and has a line feed after it |
| LogBlocks.BacktrackSplitSpec | src/codex_as_mcp/server.py:67 | backtracking `\s+` finds the split with the longest whitespace run that lets `([^\n]+)\n` match, and none exists when it finds none |
| LogBlocks.HeaderAt | src/codex_as_mcp/server.py:67-69 | a header found at `p` has the bracketed timestamp, a non-empty tag group after at least one whitespace character, and a line feed ending the tag group |
| LogBlocks.HeaderAtSpec | src/codex_as_mcp/server.py:67-69 | the header matches at `p` iff some whitespace/tag split fits; the split chosen has the longest `\s+` |
| LogBlocks.NextHeaderStart | src/codex_as_mcp/server.py:69 | the lookahead position is a header at a line start, or the end of the text (`\Z`) |
| LogBlocks.NextHeaderStartSpec | src/codex_as_mcp/server.py:68-69 | no header starts a line before that position: the lazy body stops at the first one |
| LogBlocks.NextHeaderStartIs | src/codex_as_mcp/server.py:68-69 | any position with no header before it and a header or the end at it is the lookahead position |
| LogBlocks.MatchHeaderMeaning | src/codex_as_mcp/server.py:65-67 | a block match starts a line, opens with the timestamp and takes the tag where greedy `\s+` leaves it |
| LogBlocks.MatchTagLine | src/codex_as_mcp/server.py:67 | the tag group has no line feed and ends at the line feed closing the header |
| LogBlocks.MatchBodyMeaning | src/codex_as_mcp/server.py:68-70 | the body holds no header at a line start and ends at the next one or at the end of the text |
| LogBlocks.MatchAt | src/codex_as_mcp/server.py:65-71 | the `BLOCK_RE` match at a header start: it starts there and its group spans are well formed (the full shape via `MatchAtShape`) |
| LogBlocks.Scan | src/codex_as_mcp/server.py:132 | `finditer` gives matches of the `BLOCK_RE` shape; none iff the text has no header at a line start; they start at the first header, end at the end of the text and each ends where the next begins |
| LogBlocks.ScanSpans | src/codex_as_mcp/server.py:132 | every match found from a position starts at or after it and has well-formed group spans |
| LogBlocks.ScanOrdered | src/codex_as_mcp/server.py:132 | the matches come in text order without overlap |
| LogBlocks.MatchBlock | src/codex_as_mcp/server.py:133-135 | the record of one match: a 19-character timestamp, a tag no longer than its group, the body of the group's length, and a raw text of length 23 + tag + body |
| LogBlocks.BlockFields | src/codex_as_mcp/server.py:133-135 | an extracted block has a well-formed timestamp, a one-line tag with no surrounding whitespace, the body exactly as it stands in the text, and raw = `[ts] tag\n` + body |
| LogBlocks.BlockTag | src/codex_as_mcp/server.py:133 | the stripped tag holds no line feed |
| LogBlocks.Selected | src/codex_as_mcp/server.py:134 | the filter test `tags is None or tag.lower() in {t.lower() for t in tags}`; characterised by `SelectedIff` |
| LogBlocks.InLowered | src/codex_as_mcp/server.py:134 | membership in the lower-cased filter set, one filter tag at a time; characterised by `InLoweredIff` |
| LogBlocks.SelectedIff | src/codex_as_mcp/server.py:134 | a tag passes iff no filter is given or some filter tag equals it ignoring ASCII case |
| LogBlocks.SelectedCaseInsensitive | src/codex_as_mcp/server.py:134 | two tags that agree character for character up to ASCII case pass or fail every filter together |
| LogBlocks.SelectedIgnoresCase | src/codex_as_mcp/server.py:134 | the tag `CODEX` passes the filter `codex` |
| LogBlocks.Blocks | src/codex_as_mcp/server.py:132-136 | one record per match |
| LogBlocks.BlocksAt | src/codex_as_mcp/server.py:133-136 | the k-th record is the record of the k-th match |
| LogBlocks.AllBlocks | src/codex_as_mcp/server.py:132 | one block per match in the output |
| LogBlocks.AllBlocksAt | src/codex_as_mcp/server.py:132-136 | the k-th block of the output is the record of the k-th `finditer` match |
| LogBlocks.AllBlocksFields | src/codex_as_mcp/server.py:132-136 | every block found in the output has the field shape of `BlockFields` |
| LogBlocks.Filter | src/codex_as_mcp/server.py:134-136 | filtering never adds blocks |
| LogBlocks.FilterPrefix | src/codex_as_mcp/server.py:134-136 | one more match adds its block exactly when its tag passes |
| LogBlocks.FilterMembers | src/codex_as_mcp/server.py:134-136 | a block is kept iff it was found and its tag passes |
| LogBlocks.FilterAppend | src/codex_as_mcp/server.py:131-136 | filtering keeps relative order and distributes over concatenation |
| LogBlocks.FilterAll | src/codex_as_mcp/server.py:134 | without a filter, or when every tag passes, nothing is dropped |
| LogBlocks.KeptBlocks | src/codex_as_mcp/server.py:131-136 | the blocks the loop appends; never more than the matches (membership in `KeptBlocksSound`) |
| LogBlocks.FallbackBlock | src/codex_as_mcp/server.py:143 | the pseudo-block `unknown` / `codex` whose body and raw text are the whole output |
| LogBlocks.PySliceFrom | src/codex_as_mcp/server.py:146 | Python's `xs[start:]` for any integer start: always a suffix of `xs` |
| LogBlocks.Extracted | src/codex_as_mcp/server.py:140-146 | the value `run_and_extract_codex_blocks` returns after the launch; characterised by `ExtractEmpty`, `ExtractFallbackIff`, `ExtractKept` |
| LogBlocks.LastN | src/codex_as_mcp/server.py:146 | `blocks[-last_n:]` is the last `min(last_n, len)` blocks for positive `last_n`, all blocks for 0, and drops the first `-last_n` for negative |
| LogBlocks.ExtractEmpty | src/codex_as_mcp/server.py:140-146 | empty output gives an empty list, not the fallback |
| LogBlocks.ExtractFallbackIff | src/codex_as_mcp/server.py:140-143 | the result is the single fallback block (`unknown`, `codex`, whole output) iff the output is non-empty and no block passed the filter |
| LogBlocks.ExtractKept | src/codex_as_mcp/server.py:146 | with kept blocks the result is their Python suffix: the last `min(last_n, k)` for `last_n >= 1`, all of them for 0 |
| LogBlocks.ExtractNonEmpty | src/codex_as_mcp/server.py:140-146 | non-empty output yields at least one block when `last_n >= 0`, and at most `last_n` when `last_n >= 1` |
| LogBlocks.KeptBlocksSound | src/codex_as_mcp/server.py:131-136 | the kept blocks are exactly the found blocks whose tag passes; each has a timestamp, a one-line tag and the canonical raw text |
| LogBlocks.FilterMatches | src/codex_as_mcp/server.py:131-136 | the loop appends, in order, the record of every match whose tag passes: the filter of all records |
| LogBlocks.CollectKept | src/codex_as_mcp/server.py:131-136 | the loop over `finditer` yields the kept blocks of the output |
| LogBlocks.CollectBlocks | src/codex_as_mcp/server.py:131-146 | the extraction after the process has run equals `Extracted`: kept blocks, fallback, then `[-last_n:]` |
| RoundTrip.OpeningShift | src/codex_as_mcp/server.py:67 | whether `\[timestamp\]` opens at a position depends only on the 21 characters from there |
| RoundTrip.LineInBodyNoOpening | src/codex_as_mcp/server.py:69 | inside a body that ends its line or the text, no line start opens a bracketed timestamp when no line of the body itself starts with one |
| RoundTrip.RawParts | src/codex_as_mcp/server.py:135 | where the timestamp, tag and body stand in a raw text |
| RoundTrip.HeaderOfPrinted | src/codex_as_mcp/server.py:67 | the raw text of a printable block starts with a header whose tag group is exactly its tag |
| RoundTrip.BodyHasNoHeader | src/codex_as_mcp/server.py:68-69 | no header starts a line inside the body of a printed block that ends its line or the text |
| RoundTrip.MatchAtPrinted | src/codex_as_mcp/server.py:65-71 | the match at a printed block spans its header and ends where the block's raw text ends |
| RoundTrip.MatchOfPrinted | src/codex_as_mcp/server.py:132-135 | that match gives back the printed block |
| RoundTrip.BlockOfPrinted | src/codex_as_mcp/server.py:133-135 | the groups of that match are the block's timestamp, tag and body |
| RoundTrip.ScanPrinted | src/codex_as_mcp/server.py:132 | the matches in a printed log are one per printed block, each giving that block back |
| RoundTrip.AllBlocksOfRender | src/codex_as_mcp/server.py:131-136 | round trip: the blocks found in a log printed from printable blocks are exactly those blocks |
| RoundTrip.ExtractRender | src/codex_as_mcp/server.py:131-146 | with no filter and `last_n = 0` the tool returns exactly the printed blocks; with a filter that keeps any, exactly the kept ones |
| Quirks.NoLineFeedNoHeader | src/codex_as_mcp/server.py:67 | text with no line feed has no header, because the header must end its line |
| Quirks.ExtractNoLineFeed | src/codex_as_mcp/server.py:140-143 | a non-empty output with no line feed (for instance a lone header whose line feed was cut off) comes back whole as the fallback |
| Quirks.HeaderNeedsLineFeed | src/codex_as_mcp/server.py:67 | no header starts at a position after which the text holds no line feed |
| Quirks.TrailingLineJoinsBody | src/codex_as_mcp/server.py:68-69 | a last line without a line feed, header-shaped or not, stays in the body of the block before it, which then runs to the end of the text |
| Quirks.SplitHeader | src/codex_as_mcp/server.py:67 | `\s+` crosses the line feed after `]`, so the tag group is taken from the next line |
| Quirks.WhitespaceSpansLines | src/codex_as_mcp/server.py:133-135 | such text is read as one block tagged `codex`, and its rebuilt raw text differs from the input |
| Quirks.BlankHeader | src/codex_as_mcp/server.py:67 | for a header line of two blanks, backtracking leaves the second blank as the tag group |
| Quirks.BlankBlocks | src/codex_as_mcp/server.py:133 | that blank tag strips to the empty tag |
| Quirks.ExtractSingle | src/codex_as_mcp/server.py:134-143 | output read as a single block gives that block when it passes the filter, and the fallback otherwise |
| Quirks.EmptyTag | src/codex_as_mcp/server.py:134-143 | the empty-tag block is kept without a filter and dropped by the filter `codex`, which leaves the whole output as the fallback |
| Quirks.ExtractLastOfRender | src/codex_as_mcp/server.py:146 | for a printed log whose blocks all pass, `last_n = 1` returns its last block |
| Quirks.LeveledReadBack | src/codex_as_mcp/server.py:67-69 | a block whose body line starts with `[INFO]` is printable and is read back unchanged: only a bracketed timestamp opens a header |
| Quirks.ExampleAll | src/codex_as_mcp/server.py:79-88 | a two-block sample log in the documented format (`[ts] tag` line, body, oldest first) is read back as those two blocks, in that order |
| Quirks.ExampleLast | src/codex_as_mcp/server.py:79-88 | asking that sample log for the last `codex` block returns the newer, second one |
| Invoker.Resolve | src/codex_as_mcp/server.py:17-52 | the prefix has one token, or two on Windows when the JS entry is run through `node` |
| Invoker.Strategies | src/codex_as_mcp/server.py:17-52 | the platform's strategies as a priority list, each giving a prefix or nothing |
| Invoker.FirstSuccess | src/codex_as_mcp/server.py:17-52 | the prefix of the first successful strategy, else `codex`; characterised by `FirstSuccessSpec` |
| Invoker.FirstSuccessSpec | src/codex_as_mcp/server.py:17-52 | the first successful strategy wins; with none the bare name `codex` is returned |
| Invoker.ResolveIsPriorityOrder | src/codex_as_mcp/server.py:17-52 | the resolver returns the prefix of the first strategy that succeeds, in the platform's order (`codex.cmd`, `codex`, npm wrapper, node + JS entry on Windows; `codex` elsewhere) |
| Invoker.ResolveFallback | src/codex_as_mcp/server.py:50-52 | when every strategy fails the invoker is `["codex"]` |
| Server.ModeOf | src/codex_as_mcp/server.py:455-460 | full auto iff `--yolo`; workspace-write iff `--skip-git` without `--yolo`; read-only iff neither |
| Server.ExecuteCommand | src/codex_as_mcp/server.py:253-267 | the command `codex_execute` launches: invoker, `exec` options, mode flags, prompt; its shape is stated by `BuildExecuteCommand` |
| Server.BuildExecuteCommand | src/codex_as_mcp/server.py:253-267 | the command is the invoker, `exec --skip-git-repo-check --cd <dir>`, the mode's flags, and the prompt last |
| Server.ExecuteAgreesWithRewrite | src/codex_as_mcp/server.py:259-264 | choosing the mode's flags directly gives what the sandbox rewrite makes of the full-auto command, so both tools apply the same policy |
| Sandbox.ReplaceFirstSkip | src/codex_as_mcp/server.py:95-96 | tokens before the first marker are kept as they are |
| Server.ExecuteReply | src/codex_as_mcp/server.py:282-294 | non-empty stdout is returned as is; otherwise non-empty stderr behind `Error: `; otherwise `No output from codex`; a timeout gives `Error: Codex command timed out after 5 minutes` and a failed launch `Error: ` followed by its message |
| Server.TargetText | src/codex_as_mcp/server.py:383 | the given target when it is non-empty; `current scope` when it is empty |
| Server.CustomSection | src/codex_as_mcp/server.py:381 | the custom section is empty iff no instructions are given, and otherwise ends with them |
| Server.ReviewCommand | src/codex_as_mcp/server.py:387-392 | the command `codex_review` hands to the extractor, with `--full-auto` right after `exec`; what it becomes is stated by `ReviewLaunchSandboxed` |
| Server.ReviewLaunchSandboxed | src/codex_as_mcp/server.py:387-393 | the review command runs with the mode's flags in place of `--full-auto`, right after `exec` |
| Server.Review | src/codex_as_mcp/server.py:374-396 | `codex_review` fails iff the review type is not a template key, and then with that type as the error |
| Server.ReviewText | src/codex_as_mcp/server.py:393-396 | the reply made of the agent's output; its cases are stated by `ReviewTextCases` |
| Server.ReviewTextCases | src/codex_as_mcp/server.py:393-396 | the review reply is `No output from codex` for empty output, the raw text of the last block tagged `codex` in any case when there is one, and the whole output otherwise |
| Server.ReviewTagIsCodex | src/codex_as_mcp/server.py:75 | the default filter passes exactly the tags that lower-case to `codex` |
| Server.ReviewRejectsUnknownType | src/codex_as_mcp/server.py:374-375 | an unknown review type fails before anything is formatted or launched; the outcome depends on nothing else |
| Server.Adapter.constructor | src/codex_as_mcp/server.py:11-54 | at import the mode is read-only and the invoker is the resolved one |
| Server.Adapter.SelectMode | src/codex_as_mcp/server.py:455-460 | `main` sets the mode the flags select |
| Server.Adapter.Execute | src/codex_as_mcp/server.py:253-294 | `codex_execute` launches the command for the current mode, with the prompt last, and replies with `ExecuteReply` of the outcome |
| Server.Adapter.CodexReview | src/codex_as_mcp/server.py:374-396 | `codex_review` fails iff the review type is unknown; otherwise it replies as `Review` does under the current mode |

## Left out

- Launching the agent (`subprocess.run`, the 300-second timeout, exceptions): the launch is a parameter. `codex_execute` sees it as a function to a `ProcessOutcome`; `codex_review` sees it as a function to the captured standard output.
- Exceptions raised by the launch inside `codex_review` (`server.py:126-129`), which propagate to the MCP layer: the `run` parameter always returns text.
- The return code and standard error of the review's process: they are only printed.
- All `DEBUG` and mode messages written to standard error: diagnostics only.
- The FastMCP server, the async tool wrappers, `ping`, `mcp.run()` and the MCP context objects: framework plumbing with no logic of its own.
- Argument parsing with `argparse` and the `--help-modes` text: `main` is modelled from the parsed flags on.
- `shutil.which`, `os.path.expandvars`, `os.path.exists` and `sys.platform`: fields of `Invoker.Host`, a description of the machine.
- The text of the `REVIEW_PROMPTS` templates and `str.format`: the templates are named by their keys, and formatting is the `render` parameter of `Server.Review`.
- Unicode: `\d`, `\s`, `str.strip()`, `str.isspace()` and `str.lower()` are modelled on ASCII. Python's Unicode digits, Unicode whitespace and non-ASCII case mappings are not.
- `SAFE_MODE` values other than `True`, `"skip-git"` and `False`: `main` never assigns another, and the mode is a three-valued datatype.
- Sandbox.RewriteIdempotent: proved only for commands with at most one `--full-auto`. `Sandbox.RewriteTwoMarkers` shows the general claim is false.
- Server.ExecuteAgreesWithRewrite: requires that `--full-auto` is neither a token of the invoker nor the working directory. Otherwise the rewrite would hit that token instead.
- Server.ReviewLaunchSandboxed: requires an invoker without a `--full-auto` token, for the same reason.
- Server.Adapter: `SAFE_MODE` and `CODEX_INVOKER` are module globals in the source and fields of one object here. Concurrent tool calls reading them while `main` runs are not modelled.

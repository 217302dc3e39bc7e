/**
 * The tool handlers of the adapter: the command `codex_execute` builds and
 * the reply it makes of the process outcome (server.py lines 253-294), the
 * review tool `codex_review` (lines 374-396), and the process-wide state
 * that `main` and the module's import set up (lines 11, 54, 455-460).
 *
 * Launching the agent is outside the model: the review tool takes the
 * launch as a function from the command to the captured standard output,
 * the execute tool as a function from the command to a `ProcessOutcome`.
 * The review prompt templates and `str.format` are a parameter as well.
 */
module Server {
  import opened Wrappers
  import opened Sandbox
  import opened LogBlocks
  import opened Text
  import Invoker

  /** `main`: `--yolo` selects full auto and takes precedence over
      `--skip-git`, which selects workspace-write; with neither flag the
      server stays read-only. */
  function ModeOf(yolo: bool, skipGit: bool): (m: ExecutionMode)
    ensures m == FullAuto <==> yolo
    ensures m == WorkspaceWrite <==> !yolo && skipGit
    ensures m == ReadOnly <==> !yolo && !skipGit
  {
    if yolo then FullAuto else if skipGit then WorkspaceWrite else ReadOnly
  }

  /** The subcommand and the options every `exec` invocation carries after
      the executable. */
  function ExecOptions(workDir: string): seq<string> {
    ["exec", "--skip-git-repo-check", "--cd", workDir]
  }

  /** The command `codex_execute` launches: the executable, the `exec`
      options, the mode's flags, and the prompt as the last argument. */
  function ExecuteCommand(invoker: seq<string>, workDir: string, prompt: string, mode: ExecutionMode): seq<string> {
    invoker + ExecOptions(workDir) + SandboxFlags(mode) + [prompt]
  }

  /** `codex_execute` builds its command by extending a list. */
  method BuildExecuteCommand(invoker: seq<string>, workDir: string, prompt: string, mode: ExecutionMode)
    returns (cmd: seq<string>)
    ensures cmd == ExecuteCommand(invoker, workDir, prompt, mode)
    ensures |cmd| == |invoker| + 5 + |SandboxFlags(mode)|
    ensures cmd[..|invoker|] == invoker && cmd[|invoker|..|invoker| + 4] == ExecOptions(workDir)
    ensures cmd[|invoker| + 4..|cmd| - 1] == SandboxFlags(mode) && cmd[|cmd| - 1] == prompt
  {
    cmd := invoker + ["exec", "--skip-git-repo-check", "--cd", workDir];
    if mode == ReadOnly {
      cmd := cmd + ["--sandbox", "read-only"];
    } else if mode == WorkspaceWrite {
      cmd := cmd + ["--sandbox", "workspace-write"];
    } else {
      cmd := cmd + ["--full-auto"];
    }
    // the positional prompt goes last
    cmd := cmd + [prompt];
  }

  /** `codex_execute` chooses the mode's flags directly; that is what the
      sandbox rewrite would make of the full-auto command, as long as the
      marker occurs neither in the executable prefix nor as the working
      directory. */
  lemma ExecuteAgreesWithRewrite(invoker: seq<string>, workDir: string, prompt: string, mode: ExecutionMode)
    requires Marker !in invoker && workDir != Marker
    ensures ExecuteCommand(invoker, workDir, prompt, mode)
         == SandboxRewrite(ExecuteCommand(invoker, workDir, prompt, FullAuto), mode)
  {
    var head := invoker + ExecOptions(workDir);
    var full := ExecuteCommand(invoker, workDir, prompt, FullAuto);
    assert Marker !in head by {
      assert forall k :: 0 <= k < |ExecOptions(workDir)| ==> ExecOptions(workDir)[k] != Marker by {
        assert "exec"[0] != Marker[0];
        assert "--skip-git-repo-check"[2] != Marker[2];
        assert "--cd"[2] != Marker[2];
      }
    }
    assert full == head + ([Marker] + [prompt]);
    ReplaceFirstSkip(head, [Marker] + [prompt], Marker, SandboxFlags(mode));
    assert ReplaceFirst([Marker] + [prompt], Marker, SandboxFlags(mode)) == SandboxFlags(mode) + [prompt] by {
      assert ([Marker] + [prompt])[1..] == [prompt];
    }
  }

  /** What `subprocess.run` gives `codex_execute`: captured output, a
      timeout after 300 seconds, or another exception with its message. */
  datatype ProcessOutcome =
    | Completed(stdout: string, stderr: string)
    | TimedOut
    | LaunchFailed(message: string)

  const NoOutput := "No output from codex"
  const ErrorPrefix := "Error: "

  /** The text `codex_execute` returns: standard output when there is any,
      otherwise standard error behind the error prefix, otherwise the
      no-output notice; a timeout or a failed launch is reported as an
      error. */
  function ExecuteReply(o: ProcessOutcome): (r: string)
    ensures o.Completed? && o.stdout != "" ==> r == o.stdout
    ensures o.Completed? && o.stdout == "" && o.stderr != "" ==> r == ErrorPrefix + o.stderr
    ensures o.Completed? && o.stdout == "" && o.stderr == "" ==> r == NoOutput
    ensures o.TimedOut? ==> r == ErrorPrefix + "Codex command timed out after 5 minutes"
    ensures o.LaunchFailed? ==> r == ErrorPrefix + o.message
    ensures !(o.Completed? && o.stdout != "") ==>
      r == NoOutput || (|r| >= |ErrorPrefix| && r[..|ErrorPrefix|] == ErrorPrefix)
  {
    match o
    case Completed(out, err) =>
      if out != "" then out
      else if err != "" then ErrorPrefix + err
      else NoOutput
    case TimedOut => ErrorPrefix + "Codex command timed out after 5 minutes"
    case LaunchFailed(msg) => ErrorPrefix + msg
  }

  /** The keys of `REVIEW_PROMPTS`. */
  const ReviewKinds: seq<string> := ["files", "staged", "unstaged", "changes", "pr", "general"]

  /** The target substituted into the template: the given one, or
      "current scope" when it is empty. */
  function TargetText(target: string): (t: string)
    ensures t != ""
    ensures target != "" ==> t == target
    ensures target == "" ==> t == "current scope"
  {
    if target != "" then target else "current scope"
  }

  /** The custom section substituted into the template: empty when no
      extra instructions are given. */
  function CustomSection(prompt: string): (c: string)
    ensures c == "" <==> prompt == ""
    ensures prompt != "" ==> |c| > |prompt| && c[|c| - |prompt|..] == prompt
  {
    if prompt != "" then "\nAdditional instructions: " + prompt else ""
  }

  /** The command `codex_review` hands to the extractor: it always asks for
      full auto, and the sandbox rewrite then applies the server's mode. */
  function ReviewCommand(invoker: seq<string>, workDir: string, finalPrompt: string): seq<string> {
    invoker + ["exec", Marker, "--skip-git-repo-check", "--cd", workDir, finalPrompt]
  }

  /** With a marker-free executable prefix the review runs with the mode's
      flags in place of the marker, right after `exec`. */
  lemma ReviewLaunchSandboxed(invoker: seq<string>, workDir: string, finalPrompt: string, mode: ExecutionMode)
    requires Marker !in invoker
    ensures SandboxRewrite(ReviewCommand(invoker, workDir, finalPrompt), mode)
         == invoker + ["exec"] + SandboxFlags(mode) + ["--skip-git-repo-check", "--cd", workDir, finalPrompt]
  {
    var head := invoker + ["exec"];
    var tail := ["--skip-git-repo-check", "--cd", workDir, finalPrompt];
    assert Marker !in head by {
      assert "exec"[0] != Marker[0];
    }
    assert ReviewCommand(invoker, workDir, finalPrompt) == head + ([Marker] + tail);
    ReplaceFirstSkip(head, [Marker] + tail, Marker, SandboxFlags(mode));
    assert ([Marker] + tail)[1..] == tail;
  }

  /** Why `codex_review` fails: a review type outside the templates. */
  datatype ReviewError = InvalidReviewType(reviewType: string)

  /** The tag filter and block count `codex_review` extracts with. */
  const ReviewTags: Option<seq<string>> := Some(["codex"])

  /** `codex_review`. `render(kind, target, custom)` stands for formatting
      the template of `kind`; `run(cmd)` for the standard output of the
      launched command. */
  function Review(reviewType: string, workDir: string, target: string, prompt: string,
                  mode: ExecutionMode, invoker: seq<string>,
                  render: (string, string, string) -> string, run: seq<string> -> string): (r: Result<string, ReviewError>)
    ensures r.Failure? <==> reviewType !in ReviewKinds
    ensures r.Failure? ==> r.error == InvalidReviewType(reviewType)
  {
    if reviewType !in ReviewKinds then Failure(InvalidReviewType(reviewType))
    else
      var finalPrompt := render(reviewType, TargetText(target), CustomSection(prompt));
      Success(ReviewText(run(SandboxRewrite(ReviewCommand(invoker, workDir, finalPrompt), mode))))
  }

  /** What `codex_review` makes of the agent's output: the raw text of the
      last extracted block, or the no-output notice. */
  function ReviewText(out: string): string {
    var blocks := Extracted(out, ReviewTags, 1);
    if blocks == [] then NoOutput else blocks[|blocks| - 1].raw
  }

  /** The review text in terms of what the agent printed: the no-output
      notice for empty output, the raw text of the last block tagged `codex`
      (in any letter case) when there is one, and the whole output when
      there is none. */
  lemma ReviewTextCases(out: string)
    ensures out == "" ==> ReviewText(out) == NoOutput
    ensures out != "" && KeptBlocks(out, ReviewTags) == [] ==> ReviewText(out) == out
    ensures var kept := KeptBlocks(out, ReviewTags);
      kept != [] ==> ReviewText(out) == kept[|kept| - 1].raw && Lower(kept[|kept| - 1].tag) == "codex"
  {
    var kept := KeptBlocks(out, ReviewTags);
    if out == "" {
      ExtractEmpty(ReviewTags, 1);
    } else if kept == [] {
      ExtractFallbackIff(out, ReviewTags, 1);
    } else {
      ExtractKept(out, ReviewTags, 1);
      var last := kept[|kept| - 1];
      FilterMembers(AllBlocks(out), ReviewTags);
      assert last in kept;
      ReviewTagIsCodex(last.tag);
    }
  }

  /** The review filter passes exactly the tags that lower-case to `codex`. */
  lemma ReviewTagIsCodex(tag: string)
    ensures Selected(ReviewTags, tag) <==> Lower(tag) == "codex"
  {
    SelectedIff(ReviewTags, tag);
    if Lower(tag) == "codex" {
      assert "codex" in ReviewTags.value && Lower("codex") == Lower(tag);
    }
  }

  /** An unknown review type is rejected before anything is formatted or
      launched: the outcome does not depend on the templates or on the
      agent. */
  lemma ReviewRejectsUnknownType(reviewType: string, workDir: string, target: string, prompt: string,
                                 mode: ExecutionMode, invoker: seq<string>,
                                 render: (string, string, string) -> string, run: seq<string> -> string,
                                 render': (string, string, string) -> string, run': seq<string> -> string)
    requires reviewType !in ReviewKinds
    ensures Review(reviewType, workDir, target, prompt, mode, invoker, render, run) == Failure(InvalidReviewType(reviewType))
    ensures Review(reviewType, workDir, target, prompt, mode, invoker, render, run)
         == Review(reviewType, workDir, target, prompt, mode, invoker, render', run')
  {
  }

  /** The process-wide state: the mode `main` selects (`SAFE_MODE`) and the
      executable prefix resolved once when the module is imported
      (`CODEX_INVOKER`). */
  class Adapter {
    var mode: ExecutionMode
    const invoker: seq<string>

    /** At import: read-only, and the executable resolved on `host`. */
    constructor (host: Invoker.Host)
      ensures mode == ReadOnly && invoker == Invoker.Resolve(host)
    {
      mode := ReadOnly;
      invoker := Invoker.Resolve(host);
    }

    /** `main`: the startup flags select the mode. */
    method SelectMode(yolo: bool, skipGit: bool)
      modifies this
      ensures mode == ModeOf(yolo, skipGit)
    {
      if yolo {
        mode := FullAuto;
      } else if skipGit {
        mode := WorkspaceWrite;
      } else {
        mode := ReadOnly;
      }
    }

    /** `codex_execute`: the command under the current mode, launched once,
      and the reply made of its outcome. */
    method Execute(prompt: string, workDir: string, launch: seq<string> -> ProcessOutcome)
      returns (cmd: seq<string>, reply: string)
      ensures cmd == ExecuteCommand(invoker, workDir, prompt, mode) && cmd[|cmd| - 1] == prompt
      ensures reply == ExecuteReply(launch(cmd))
    {
      cmd := BuildExecuteCommand(invoker, workDir, prompt, mode);
      reply := ExecuteReply(launch(cmd));
    }

    /** `codex_review` under the current mode. */
    method CodexReview(reviewType: string, workDir: string, target: string, prompt: string,
                       render: (string, string, string) -> string, run: seq<string> -> string)
      returns (r: Result<string, ReviewError>)
      ensures r == Review(reviewType, workDir, target, prompt, mode, invoker, render, run)
      ensures r.Failure? <==> reviewType !in ReviewKinds
    {
      if reviewType !in ReviewKinds {
        return Failure(InvalidReviewType(reviewType));
      }
      var finalPrompt := render(reviewType, TargetText(target), CustomSection(prompt));
      var cmd := ReviewCommand(invoker, workDir, finalPrompt);
      var finalCmd := RewriteForMode(cmd, mode);
      var blocks := CollectBlocks(run(finalCmd), ReviewTags, 1);
      if blocks == [] {
        return Success(NoOutput);
      }
      return Success(blocks[|blocks| - 1].raw);
    }
  }
}

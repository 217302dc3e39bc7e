/**
 * The sandbox policy: the three execution modes and the rewrite that turns
 * the generic `--full-auto` marker of a command into the mode's sandbox flags
 * (`run_and_extract_codex_blocks`, server.py lines 89-102).
 */
module Sandbox {

  /** The process-wide mode. The source encodes it as `True` (read-only, the
      default), `"skip-git"` (workspace-write) and `False` (`--yolo`). */
  datatype ExecutionMode = ReadOnly | WorkspaceWrite | FullAuto

  /** The generic "unrestricted execution" marker token. */
  const Marker := "--full-auto"

  /** The tokens that request a mode from the agent. */
  function SandboxFlags(mode: ExecutionMode): (flags: seq<string>)
    ensures Marker in flags <==> mode == FullAuto
    ensures mode != FullAuto ==> |flags| == 2 && flags[0] == "--sandbox"
  {
    match mode
    case ReadOnly => ["--sandbox", "read-only"]
    case WorkspaceWrite => ["--sandbox", "workspace-write"]
    case FullAuto => [Marker]
  }

  /** `list.index(x)`: the position of the first occurrence of `x`. */
  function FirstIndex(xs: seq<string>, x: string): (i: nat)
    requires x in xs
    ensures i < |xs| && xs[i] == x && x !in xs[..i]
  {
    if xs[0] == x then 0
    else
      var j := FirstIndex(xs[1..], x);
      assert xs[..j + 1] == [xs[0]] + xs[1..][..j];
      j + 1
  }

  /** Reference definition: the first occurrence of `x` in `xs` replaced by
      the tokens `ys`; no occurrence, no change. */
  function ReplaceFirst(xs: seq<string>, x: string, ys: seq<string>): (r: seq<string>)
    ensures x in xs ==> |r| == |xs| - 1 + |ys|
    ensures x !in xs ==> |r| == |xs|
  {
    if xs == [] then []
    else if xs[0] == x then ys + xs[1..]
    else [xs[0]] + ReplaceFirst(xs[1..], x, ys)
  }

  /** What the sandbox step must produce: the first marker replaced by the
      mode's flags. For `FullAuto` the flags are the marker itself, so the
      command stays as it was (see `RewriteUnchanged`). */
  function SandboxRewrite(cmd: seq<string>, mode: ExecutionMode): (r: seq<string>)
    ensures |r| == |cmd| + (if mode != FullAuto && Marker in cmd then 1 else 0)
  {
    ReplaceFirst(cmd, Marker, SandboxFlags(mode))
  }

  lemma {:induction false} ReplaceFirstAbsent(xs: seq<string>, x: string, ys: seq<string>)
    requires x !in xs
    ensures ReplaceFirst(xs, x, ys) == xs
  {
    if xs != [] {
      ReplaceFirstAbsent(xs[1..], x, ys);
    }
  }

  lemma {:induction false} ReplaceFirstSelf(xs: seq<string>, x: string)
    ensures ReplaceFirst(xs, x, [x]) == xs
  {
    if xs != [] {
      ReplaceFirstSelf(xs[1..], x);
    }
  }

  /** The reference definition agrees with Python's slice assignment
      `xs[i:i+1] = ys` at `i = xs.index(x)`. */
  lemma {:induction false} ReplaceFirstAt(xs: seq<string>, x: string, ys: seq<string>)
    requires x in xs
    ensures ReplaceFirst(xs, x, ys) == xs[..FirstIndex(xs, x)] + ys + xs[FirstIndex(xs, x) + 1..]
  {
    if xs[0] != x {
      var tail := xs[1..];
      var j := FirstIndex(tail, x);
      assert FirstIndex(xs, x) == j + 1;
      ReplaceFirstAt(tail, x, ys);
      assert tail[j + 1..] == xs[j + 2..];
      assert [xs[0]] + tail[..j] == xs[..j + 1];
    }
  }

  /** Tokens before the first marker are kept as they are. */
  lemma {:induction false} ReplaceFirstSkip(xs: seq<string>, ys: seq<string>, x: string, zs: seq<string>)
    requires x !in xs
    ensures ReplaceFirst(xs + ys, x, zs) == xs + ReplaceFirst(ys, x, zs)
  {
    if xs != [] {
      assert xs[0] != x && x !in xs[1..];
      ReplaceFirstSkip(xs[1..], ys, x, zs);
      assert (xs + ys)[0] == xs[0] && (xs + ys)[1..] == xs[1..] + ys;
      assert ReplaceFirst(xs + ys, x, zs) == [xs[0]] + ReplaceFirst(xs[1..] + ys, x, zs);
      assert xs == [xs[0]] + xs[1..];
    } else {
      assert xs + ys == ys;
    }
  }

  /** In the full-auto mode, or when no marker occurs, the command is left as it is. */
  lemma RewriteUnchanged(cmd: seq<string>, mode: ExecutionMode)
    requires mode == FullAuto || Marker !in cmd
    ensures SandboxRewrite(cmd, mode) == cmd
  {
    if mode == FullAuto {
      ReplaceFirstSelf(cmd, Marker);
    } else {
      ReplaceFirstAbsent(cmd, Marker, SandboxFlags(mode));
    }
  }

  /** In the read-only and workspace-write modes a present marker becomes the
      two flag tokens, at the marker's first position: every other token is
      kept, in its order, and the command grows by exactly one token. */
  lemma RewriteSplice(cmd: seq<string>, mode: ExecutionMode)
    requires mode != FullAuto && Marker in cmd
    ensures var r, i := SandboxRewrite(cmd, mode), FirstIndex(cmd, Marker);
      && |r| == |cmd| + 1
      && r[..i] == cmd[..i]
      && r[i..i + 2] == SandboxFlags(mode)
      && r[i + 2..] == cmd[i + 1..]
      && multiset(r) == multiset(cmd) - multiset{Marker} + multiset(SandboxFlags(mode))
  {
    var i := FirstIndex(cmd, Marker);
    var pre, flags, post := cmd[..i], SandboxFlags(mode), cmd[i + 1..];
    var r := SandboxRewrite(cmd, mode);
    assert r == pre + flags + post by {
      ReplaceFirstAt(cmd, Marker, flags);
    }
    assert cmd == pre + [Marker] + post by {
      assert cmd[i] == Marker;
    }
    Splice(cmd, r, pre, Marker, flags, post);
  }

  /** Where the pieces stand, and what the multiset becomes, when the token
      `x` between `pre` and `post` is replaced by `ys`. */
  lemma Splice(c: seq<string>, r: seq<string>, pre: seq<string>, x: string, ys: seq<string>, post: seq<string>)
    requires c == pre + [x] + post && r == pre + ys + post
    ensures |r| == |c| - 1 + |ys|
    ensures r[..|pre|] == c[..|pre|] && r[|pre|..|pre| + |ys|] == ys && r[|pre| + |ys|..] == c[|pre| + 1..]
    ensures multiset(r) == multiset(c) - multiset{x} + multiset(ys)
  {
    assert c[..|pre|] == pre && c[|pre| + 1..] == post;
    assert r[..|pre|] == pre && r[|pre|..|pre| + |ys|] == ys && r[|pre| + |ys|..] == post;
    var rest := multiset(pre) + multiset(post);
    assert multiset(c) == rest + multiset{x};
    assert multiset(r) == rest + multiset(ys);
    assert rest + multiset{x} - multiset{x} == rest;
  }

  /** With at most one marker, rewriting twice is rewriting once. */
  lemma RewriteIdempotent(cmd: seq<string>, mode: ExecutionMode)
    requires multiset(cmd)[Marker] <= 1
    ensures SandboxRewrite(SandboxRewrite(cmd, mode), mode) == SandboxRewrite(cmd, mode)
  {
    var r := SandboxRewrite(cmd, mode);
    if mode == FullAuto || Marker !in cmd {
      RewriteUnchanged(cmd, mode);
      RewriteUnchanged(r, mode);
    } else {
      RewriteSplice(cmd, mode);
      assert multiset(r)[Marker] == 0;
      RewriteUnchanged(r, mode);
    }
  }

  /** The bound on markers is needed: with two markers the second rewrite
      substitutes the second one. */
  lemma RewriteTwoMarkers()
    ensures var cmd := [Marker, Marker];
      SandboxRewrite(SandboxRewrite(cmd, ReadOnly), ReadOnly) != SandboxRewrite(cmd, ReadOnly)
  {
    var cmd := [Marker, Marker];
    var flags := SandboxFlags(ReadOnly);
    var once := flags + [Marker];
    assert cmd[1..] == [Marker];
    assert SandboxRewrite(cmd, ReadOnly) == once;
    assert once[0] != Marker by { assert once[0][2] != Marker[2]; }
    assert once[1..][0] != Marker;
    assert once[1..][1..] == [Marker];
    assert ReplaceFirst(once[1..][1..], Marker, flags) == flags;
    assert ReplaceFirst(once[1..], Marker, flags) == [once[1]] + flags;
    assert SandboxRewrite(once, ReadOnly) == [once[0]] + [once[1]] + flags;
  }

  /** The workspace-write example: the marker in the middle of a command. */
  lemma RewriteWorkspaceExample()
    ensures SandboxRewrite(["agent", "exec", Marker, "--cd", "/x"], WorkspaceWrite)
         == ["agent", "exec", "--sandbox", "workspace-write", "--cd", "/x"]
  {
    var cmd := ["agent", "exec", Marker, "--cd", "/x"];
    var flags := SandboxFlags(WorkspaceWrite);
    assert cmd[1..] == ["exec", Marker, "--cd", "/x"];
    assert cmd[1..][1..] == [Marker, "--cd", "/x"];
    assert ReplaceFirst(cmd[1..][1..], Marker, flags) == flags + ["--cd", "/x"];
    assert cmd[1] != Marker && cmd[0] != Marker by { assert |cmd[1]| != |Marker| && |cmd[0]| != |Marker|; }
    assert ReplaceFirst(cmd[1..], Marker, flags) == ["exec"] + flags + ["--cd", "/x"];
    assert ReplaceFirst(cmd, Marker, flags) == ["agent"] + ["exec"] + flags + ["--cd", "/x"];
  }

  /** The step as the source performs it: copy the command, and in the two
      sandboxed modes overwrite the first marker in place by slice assignment. */
  method RewriteForMode(cmd: seq<string>, mode: ExecutionMode) returns (finalCmd: seq<string>)
    ensures finalCmd == SandboxRewrite(cmd, mode)
  {
    finalCmd := cmd;
    if mode == ReadOnly {
      if Marker in finalCmd {
        var idx := FirstIndex(finalCmd, Marker);
        finalCmd := finalCmd[..idx] + ["--sandbox", "read-only"] + finalCmd[idx + 1..];
        ReplaceFirstAt(cmd, Marker, SandboxFlags(mode));
      } else {
        RewriteUnchanged(cmd, mode);
      }
    } else if mode == WorkspaceWrite {
      if Marker in finalCmd {
        var idx := FirstIndex(finalCmd, Marker);
        finalCmd := finalCmd[..idx] + ["--sandbox", "workspace-write"] + finalCmd[idx + 1..];
        ReplaceFirstAt(cmd, Marker, SandboxFlags(mode));
      } else {
        RewriteUnchanged(cmd, mode);
      }
    } else {
      // full auto (`--yolo`): the marker stays
      RewriteUnchanged(cmd, mode);
    }
  }
}

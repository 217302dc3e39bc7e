/**
 * How the adapter finds the agent executable (`resolve_codex_invoker`,
 * server.py lines 17-52). The lookups the source makes in the environment
 * and the file system (`shutil.which`, `os.path.expandvars`,
 * `os.path.exists`, `sys.platform`) are the fields of a `Host`; the
 * resolver is a pure decision over them.
 */
module Invoker {
  import opened Wrappers

  /** `sys.platform == "win32"` or any other platform. */
  datatype Platform = Windows | Posix

  /** What the resolver can observe of the machine it runs on. */
  datatype Host = Host(
    platform: Platform,
    which: string -> Option<string>,   // `shutil.which(name)`: a path or `None`
    expand: string -> string,          // `os.path.expandvars(path)`
    pathExists: string -> bool)        // `os.path.exists(path)`

  /** The npm wrapper script and the JavaScript entry of a global npm
      install on Windows, before `%APPDATA%` is expanded. */
  const NpmCmdTemplate := "%APPDATA%\\npm\\codex.cmd"
  const NodeEntryTemplate := "%APPDATA%\\npm\\node_modules\\@openai\\codex\\bin\\codex.js"

  /** The name handed to the shell when nothing was found. */
  const Fallback := ["codex"]

  /** Python's truth test on the result of `which`: `None` and the empty
      string are false. */
  predicate Found(r: Option<string>) {
    r.Some? && r.value != ""
  }

  /** `resolve_codex_invoker()`: the strategies in the order the source
      tries them, each returning as soon as it succeeds. */
  function Resolve(h: Host): (r: seq<string>)
    ensures 1 <= |r| <= 2
    ensures |r| == 2 ==> h.platform == Windows && r[0] == "node"
  {
    if h.platform == Windows then
      if Found(h.which("codex.cmd")) then [h.which("codex.cmd").value]
      else if Found(h.which("codex")) then [h.which("codex").value]
      else if h.pathExists(h.expand(NpmCmdTemplate)) then [h.expand(NpmCmdTemplate)]
      else if h.pathExists(h.expand(NodeEntryTemplate)) then ["node", h.expand(NodeEntryTemplate)]
      else Fallback
    else
      if Found(h.which("codex")) then [h.which("codex").value]
      else Fallback
  }

  /** Reference definition: the strategies of a platform as a priority
      list, each giving a prefix or nothing. */
  function Strategies(h: Host): seq<Option<seq<string>>> {
    if h.platform == Windows then
      [ OnPath(h, "codex.cmd"),
        OnPath(h, "codex"),
        AtPath(h, NpmCmdTemplate, []),
        AtPath(h, NodeEntryTemplate, ["node"]) ]
    else
      [ OnPath(h, "codex") ]
  }

  /** A `PATH` lookup of `name`. */
  function OnPath(h: Host, name: string): Option<seq<string>> {
    if Found(h.which(name)) then Some([h.which(name).value]) else None
  }

  /** A fixed installation path, run through `runner` when it exists. */
  function AtPath(h: Host, template: string, runner: seq<string>): Option<seq<string>> {
    if h.pathExists(h.expand(template)) then Some(runner + [h.expand(template)]) else None
  }

  /** The first strategy that succeeds, or the bare name. */
  function FirstSuccess(ss: seq<Option<seq<string>>>): seq<string> {
    if ss == [] then Fallback
    else if ss[0].Some? then ss[0].value
    else FirstSuccess(ss[1..])
  }

  /** `FirstSuccess` picks the first strategy that succeeds; when none does
      it gives the bare name. */
  lemma {:induction false} FirstSuccessSpec(ss: seq<Option<seq<string>>>)
    ensures (forall k :: 0 <= k < |ss| ==> ss[k].None?) ==> FirstSuccess(ss) == Fallback
    ensures forall i :: (0 <= i < |ss| && ss[i].Some? && forall k :: 0 <= k < i ==> ss[k].None?) ==>
      FirstSuccess(ss) == ss[i].value
  {
    if ss != [] {
      FirstSuccessSpec(ss[1..]);
      assert forall k :: 1 <= k < |ss| ==> ss[k] == ss[1..][k - 1];
    }
  }

  /** The resolver is the priority order: it returns the prefix of the first
      strategy that succeeds, and the bare name when none does. */
  lemma ResolveIsPriorityOrder(h: Host)
    ensures Resolve(h) == FirstSuccess(Strategies(h))
  {
    var ss := Strategies(h);
    if h.platform == Windows {
      if ss[0].None? {
        assert FirstSuccess(ss) == FirstSuccess(ss[1..]);
        if ss[1].None? {
          assert FirstSuccess(ss[1..]) == FirstSuccess(ss[2..]);
          assert ss[2..][0] == ss[2];
          if ss[2].None? {
            assert FirstSuccess(ss[2..]) == FirstSuccess(ss[3..]);
            assert ss[3..][0] == ss[3] && ss[3..][1..] == [];
            assert FirstSuccess(ss[3..]) == if ss[3].Some? then ss[3].value else Fallback;
          }
        }
      }
    } else {
      assert ss[1..] == [];
    }
  }

  /** Every strategy of the platform failed: the bare name is returned,
      to be resolved through `PATH` when the process is launched. */
  lemma ResolveFallback(h: Host)
    requires forall k :: 0 <= k < |Strategies(h)| ==> Strategies(h)[k].None?
    ensures Resolve(h) == Fallback
  {
    ResolveIsPriorityOrder(h);
    FirstSuccessSpec(Strategies(h));
  }
}

/**
 * What `WorkerThread.run` does with one operation: read its type, check the
 * fields that type needs, call the handler, and choose the text of the error
 * it logs when the operation fails.
 */
module Dispatch {
  import opened Wrappers
  import opened Types
  import Text
  import SystemOperations
  import Paths

  /** The operation types the engine recognises. */
  datatype OpKind =
    | WingetInstall | WingetUninstall | PowerShell | Registry | Executable | LocalInstaller | Tool
    | Unknown

  /** The `type` string of a recognised kind. */
  function TagOf(k: OpKind): string
    requires !k.Unknown?
  {
    match k
    case WingetInstall => "winget_install"
    case WingetUninstall => "winget_uninstall"
    case PowerShell => "powershell"
    case Registry => "registry"
    case Executable => "executable"
    case LocalInstaller => "local_installer"
    case Tool => "tool"
  }

  /** The branch of the `if`/`elif` chain a `type` value takes. */
  function KindOf(tag: Option<string>): OpKind
  {
    if tag == Some("winget_install") then WingetInstall
    else if tag == Some("winget_uninstall") then WingetUninstall
    else if tag == Some("powershell") then PowerShell
    else if tag == Some("registry") then Registry
    else if tag == Some("executable") then Executable
    else if tag == Some("local_installer") then LocalInstaller
    else if tag == Some("tool") then Tool
    else Unknown
  }

  /** Every recognised kind is reached by exactly its own tag, and every other tag is unknown. */
  lemma KindOfTag(k: OpKind, tag: Option<string>)
    ensures !k.Unknown? ==> KindOf(Some(TagOf(k))) == k
    ensures !k.Unknown? ==> (KindOf(tag) == k <==> tag == Some(TagOf(k)))
    ensures KindOf(tag).Unknown? <==> forall k': OpKind :: !k'.Unknown? ==> tag != Some(TagOf(k'))
  {
    if !KindOf(tag).Unknown? {
      assert tag == Some(TagOf(KindOf(tag)));
    }
  }

  /** Python truthiness of an optional string: present and non-empty. */
  predicate Present(field: Option<string>)
  {
    field.Some? && field.value != ""
  }

  /** `f"{op_type}"`. */
  function TagText(tag: Option<string>): string
  {
    if tag.Some? then tag.value else "None"
  }

  /** The handler call an operation leads to, or the message it fails with before any handler runs. */
  datatype Call =
    | Reject(message: string)
    | WingetCall(verb: string, packageId: string)
    | PowerShellCall(command: string)
    | RegistryCall(keyPath: string, valueName: string, value: Value, hive: int)
    | ExecutableCall(exePath: string, args: seq<string>, asAdmin: bool)
    | InstallerCall(installerPath: string, installerType: Option<string>)
    | ToolCall(toolPath: string, toolType: Option<string>)

  /** The required-field check and dispatch of one operation. */
  function Handle(op: Operation): (c: Call)
  {
    match KindOf(op.tag)
    case WingetInstall =>
      if !Present(op.packageId) then Reject("Package ID is missing")
      else WingetCall("install", op.packageId.value)
    case WingetUninstall =>
      if !Present(op.packageId) then Reject("Package ID is missing")
      else WingetCall("uninstall", op.packageId.value)
    case PowerShell =>
      if !Present(op.command) then Reject("PowerShell command is missing")
      else PowerShellCall(op.command.value)
    case Registry =>
      if !Present(op.keyPath) || !Present(op.valueName) then Reject("Registry key path or value name is missing")
      else RegistryCall(op.keyPath.value, op.valueName.value, op.value,
                        if op.hive.Some? then op.hive.value else HKEY_LOCAL_MACHINE)
    case Executable =>
      if !Present(op.exePath) then Reject("Executable path is missing")
      else ExecutableCall(op.exePath.value, if op.args.Some? then op.args.value else [],
                          if op.asAdmin.Some? then op.asAdmin.value else true)
    case LocalInstaller =>
      if !Present(op.path) then Reject("Installer path is missing")
      else InstallerCall(op.path.value, op.installerType)
    case Tool =>
      if !Present(op.path) then Reject("Tool path is missing")
      else ToolCall(op.path.value, op.toolType)
    case Unknown => Reject("Unknown operation type: " + TagText(op.tag))
  }

  /** The fields a kind cannot do without. */
  predicate HasRequiredFields(op: Operation)
  {
    match KindOf(op.tag)
    case WingetInstall => Present(op.packageId)
    case WingetUninstall => Present(op.packageId)
    case PowerShell => Present(op.command)
    case Registry => Present(op.keyPath) && Present(op.valueName)
    case Executable => Present(op.exePath)
    case LocalInstaller => Present(op.path)
    case Tool => Present(op.path)
    case Unknown => false
  }

  /**
   * An operation reaches a handler exactly when its type is recognised and its
   * required fields are present; the handler reached is the one of its type,
   * with the fields of the operation.
   */
  lemma HandleReachesHandler(op: Operation)
    ensures !Handle(op).Reject? <==> HasRequiredFields(op)
    ensures KindOf(op.tag).Unknown? ==> Handle(op) == Reject("Unknown operation type: " + TagText(op.tag))
    ensures HasRequiredFields(op) ==> match KindOf(op.tag)
      case WingetInstall => Handle(op) == WingetCall("install", op.packageId.value)
      case WingetUninstall => Handle(op) == WingetCall("uninstall", op.packageId.value)
      case PowerShell => Handle(op) == PowerShellCall(op.command.value)
      case Registry => Handle(op).RegistryCall? && Handle(op).keyPath == op.keyPath.value
                       && Handle(op).valueName == op.valueName.value && Handle(op).value == op.value
      case Executable => Handle(op).ExecutableCall? && Handle(op).exePath == op.exePath.value
                         && Handle(op).args == (if op.args.Some? then op.args.value else [])
                         && Handle(op).asAdmin == (if op.asAdmin.Some? then op.asAdmin.value else true)
      case LocalInstaller => Handle(op) == InstallerCall(op.path.value, op.installerType)
      case Tool => Handle(op) == ToolCall(op.path.value, op.toolType)
      case Unknown => false
  {
  }

  /** The registry defaults: the machine hive unless the operation names one. */
  lemma RegistryDefaults(op: Operation)
    requires KindOf(op.tag) == Registry && HasRequiredFields(op)
    ensures Handle(op).hive == if op.hive.Some? then op.hive.value else HKEY_LOCAL_MACHINE
  {
  }

  /**
   * The executable's arguments and elevation: those the operation gives pass
   * through unchanged; without them, no arguments and an elevated run.
   */
  lemma ExecutableDefaults(op: Operation)
    requires KindOf(op.tag) == Executable && HasRequiredFields(op)
    ensures Handle(op).args == (if op.args.Some? then op.args.value else [])
    ensures Handle(op).asAdmin == (if op.asAdmin.Some? then op.asAdmin.value else true)
  {
  }

  /** Longest error text shown before it is cut. */
  const DisplayLimit: nat := 300

  /** The error text as logged. */
  function DisplayError(msg: string): string
  {
    if |msg| > DisplayLimit then msg[..DisplayLimit] + "..." else msg
  }

  /** At most 300 characters of the error text are shown, followed by `...` when it was longer. */
  lemma DisplayErrorTruncates(msg: string)
    ensures var r := DisplayError(msg);
      && |r| <= DisplayLimit + 3
      && (|msg| <= DisplayLimit ==> r == msg)
      && (|msg| > DisplayLimit ==> |r| == DisplayLimit + 3 && r[..DisplayLimit] == msg[..DisplayLimit] && r[DisplayLimit..] == "...")
  {
  }

  /** `a or b or c` on strings: the first non-empty one, else `c`. */
  function FirstNonEmpty(a: string, b: string, c: string): (r: string)
    ensures a != "" ==> r == a
    ensures a == "" && b != "" ==> r == b
    ensures a == "" && b == "" ==> r == c
  {
    if a != "" then a else if b != "" then b else c
  }

  /** Longest part of each stream quoted in a failed tool's error. */
  const ToolStreamLimit: nat := 500

  /**
   * A failed tool's error: `STDERR: ` with at most 500 characters of its
   * standard error, then ` | ` when both streams are non-empty, then `STDOUT: `
   * with at most 500 characters of its standard output; a fixed text when both
   * are empty.
   */
  function ToolErrorMessage(stderr: string, stdout: string): (r: string)
    ensures stderr == "" && stdout == "" ==> r == "Tool failed (check logs for details)"
    ensures stderr == "" && stdout != "" ==> r == "STDOUT: " + Text.Prefix(stdout, ToolStreamLimit)
    ensures stderr != "" && stdout == "" ==> r == "STDERR: " + Text.Prefix(stderr, ToolStreamLimit)
    ensures stderr != "" && stdout != "" ==>
      r == "STDERR: " + Text.Prefix(stderr, ToolStreamLimit) + " | STDOUT: " + Text.Prefix(stdout, ToolStreamLimit)
    ensures |r| <= 8 + ToolStreamLimit + 3 + 8 + ToolStreamLimit
  {
    var details :=
      (if stderr != "" then "STDERR: " + Text.Prefix(stderr, ToolStreamLimit) else "")
      + (if stdout != ""
         then (if stderr != "" then " | " else "") + "STDOUT: " + Text.Prefix(stdout, ToolStreamLimit)
         else "");
    if details == "" then "Tool failed (check logs for details)" else details
  }

  /**
   * The 500-character cut of the tool streams is wider than the 300-character
   * display cut: once the standard error has 292 characters or more, the
   * logged text shows only the standard error, never the standard output.
   */
  lemma LongStderrHidesStdout(stderr: string, stdout: string)
    requires |stderr| >= DisplayLimit - 8
    ensures DisplayError(ToolErrorMessage(stderr, stdout)) ==
      if |stderr| == DisplayLimit - 8 && stdout == "" then "STDERR: " + stderr
      else "STDERR: " + stderr[..DisplayLimit - 8] + "..."
  {
    var m := ToolErrorMessage(stderr, stdout);
    var head := "STDERR: " + Text.Prefix(stderr, ToolStreamLimit);
    assert m[..|head|] == head;
    if |m| > DisplayLimit {
      assert m[..DisplayLimit] == head[..DisplayLimit];
      assert head[..DisplayLimit] == "STDERR: " + stderr[..DisplayLimit - 8];
    }
  }

  /** The outcome of one dispatched operation: success, and the error text when it failed. */
  datatype Attempt = Attempt(success: bool, errorMsg: string)

  /** `stderr or stdout or default` after a failed process handler. */
  function FromOutcome(o: Outcome, default: string): (a: Attempt)
    requires default != ""
    ensures a.success == o.success
    ensures !a.success ==> a.errorMsg == FirstNonEmpty(o.stderr, o.stdout, default)
    ensures !a.success ==> a.errorMsg != ""
  {
    Attempt(o.success, if o.success then "" else FirstNonEmpty(o.stderr, o.stdout, default))
  }

  /** Runs the handler `Handle` chose, and picks the error text the engine logs on failure. */
  function Perform(op: Operation, idx: nat, env: Environment): (a: Attempt)
    ensures !a.success ==> a.errorMsg != ""
    ensures a.success ==> HasRequiredFields(op)
    ensures Handle(op).Reject? ==> a == Attempt(false, Handle(op).message)
  {
    match Handle(op)
    case Reject(m) => Attempt(false, m)
    case WingetCall(verb, id) =>
      FromOutcome(SystemOperations.RunWinget(verb, id, idx, env),
                  if verb == "install" then "Winget installation failed" else "Winget uninstallation failed")
    case PowerShellCall(command) =>
      FromOutcome(SystemOperations.RunPowerShell(command, false, idx, env), "PowerShell command failed")
    case RegistryCall(keyPath, valueName, value, hive) =>
      var r := SystemOperations.SetRegistryValue(keyPath, valueName, value, hive, idx, env);
      Attempt(r.success, if !r.success && r.message == "" then "Registry operation failed" else r.message)
    case ExecutableCall(exePath, args, asAdmin) =>
      FromOutcome(SystemOperations.RunExecutable(exePath, args, asAdmin, idx, env), "Executable failed")
    case InstallerCall(installerPath, installerType) =>
      FromOutcome(SystemOperations.RunInstaller(installerPath, installerType, idx, env), "Installer failed")
    case ToolCall(toolPath, toolType) =>
      var o := SystemOperations.RunTool(toolPath, toolType, idx, env);
      Attempt(o.success, if o.success then "" else ToolErrorMessage(o.stderr, o.stdout))
  }

  /**
   * A rejected operation fails with its validation message whatever the
   * environment would answer: no process is started and no registry key touched.
   */
  lemma RejectedNeedsNoHandler(op: Operation, idx: nat, env: Environment, env': Environment)
    requires !HasRequiredFields(op)
    ensures Perform(op, idx, env) == Perform(op, idx, env')
    ensures !Perform(op, idx, env).success
    ensures KindOf(op.tag).Unknown? ==> Perform(op, idx, env).errorMsg == "Unknown operation type: " + TagText(op.tag)
  {
    HandleReachesHandler(op);
  }

  /**
   * How the engine reads a process ending `r` of a handler whose timeout
   * message is `timeoutText` and whose kind's default error is `default`:
   * exit code 0 succeeds; any other code fails with stderr, else stdout, else
   * the default; a timeout fails with the timeout message; an exception with
   * its text, or the default when that is empty.
   */
  predicate AnsweredAs(a: Attempt, r: ProcessResult, timeoutText: string, default: string)
  {
    match r
    case Exited(c, out, err) => a == Attempt(c == 0, if c == 0 then "" else FirstNonEmpty(err, out, default))
    case TimedOut => a == Attempt(false, timeoutText)
    case Raised(m) => a == Attempt(false, if m != "" then m else default)
  }

  /** A winget operation ends as its winget process does, with the verb's default error. */
  lemma WingetAnswer(op: Operation, idx: nat, env: Environment, r: ProcessResult)
    requires (KindOf(op.tag) == WingetInstall || KindOf(op.tag) == WingetUninstall) && HasRequiredFields(op)
    requires var verb := if KindOf(op.tag) == WingetInstall then "install" else "uninstall";
      env.process(idx, WingetRun(verb, op.packageId.value)) == r
    ensures AnsweredAs(Perform(op, idx, env), r, "Winget command timed out",
                       if KindOf(op.tag) == WingetInstall then "Winget installation failed" else "Winget uninstallation failed")
  {
  }

  /** A PowerShell operation ends as its (non-elevated) PowerShell process does. */
  lemma PowerShellAnswer(op: Operation, idx: nat, env: Environment, r: ProcessResult)
    requires KindOf(op.tag) == PowerShell && HasRequiredFields(op)
    requires env.process(idx, PowerShellRun(op.command.value, false)) == r
    ensures AnsweredAs(Perform(op, idx, env), r, "Command timed out after 300 seconds", "PowerShell command failed")
  {
  }

  /** An executable operation: a missing file fails at once; otherwise it ends as its process does. */
  lemma ExecutableAnswer(op: Operation, idx: nat, env: Environment, r: ProcessResult)
    requires KindOf(op.tag) == Executable && HasRequiredFields(op)
    requires env.process(idx, ExecutableRun(env.resolve(op.exePath.value),
                                            if op.args.Some? then op.args.value else [],
                                            if op.asAdmin.Some? then op.asAdmin.value else true)) == r
    ensures var full := env.resolve(op.exePath.value);
      && (!env.fileExists(idx, full) ==> Perform(op, idx, env) == Attempt(false, "Executable not found: " + full))
      && (env.fileExists(idx, full) ==>
            AnsweredAs(Perform(op, idx, env), r, "Executable timed out after 600 seconds", "Executable failed"))
  {
  }

  /** A local installer: a missing file fails at once; otherwise it ends as the installer of its kind does. */
  lemma InstallerAnswer(op: Operation, idx: nat, env: Environment, r: ProcessResult)
    requires KindOf(op.tag) == LocalInstaller && HasRequiredFields(op)
    requires var full := env.resolve(op.path.value);
      env.process(idx, InstallerRun(Paths.InstallerKindOf(Paths.InstallerType(op.installerType, full)), full)) == r
    ensures var full := env.resolve(op.path.value);
      && (!env.fileExists(idx, full) ==> Perform(op, idx, env) == Attempt(false, "Installer not found: " + full))
      && (env.fileExists(idx, full) ==>
            AnsweredAs(Perform(op, idx, env), r, "Installer timed out after 600 seconds", "Installer failed"))
  {
    assert Handle(op) == InstallerCall(op.path.value, op.installerType);
    var o := SystemOperations.RunInstaller(op.path.value, op.installerType, idx, env);
    assert Perform(op, idx, env) == FromOutcome(o, "Installer failed");
    var full := env.resolve(op.path.value);
    if env.fileExists(idx, full) {
      assert o == SystemOperations.FromProcess(r, "Installer timed out after 600 seconds");
    }
  }

  /**
   * A tool: every failure is reported through the STDERR/STDOUT composition,
   * so a missing file, a timeout and an exception all read `STDERR: ...`.
   */
  lemma ToolAnswer(op: Operation, idx: nat, env: Environment, r: ProcessResult)
    requires KindOf(op.tag) == Tool && HasRequiredFields(op)
    requires var full := env.resolve(op.path.value);
      env.process(idx, ToolRun(Paths.ToolKindOf(Paths.ToolType(op.toolType, full)), full)) == r
    ensures var full := env.resolve(op.path.value);
      var a := Perform(op, idx, env);
      && (!env.fileExists(idx, full) ==> a == Attempt(false, ToolErrorMessage("Tool not found: " + full, "")))
      && (env.fileExists(idx, full) ==> match r
            case Exited(c, out, err) => a == Attempt(c == 0, if c == 0 then "" else ToolErrorMessage(err, out))
            case TimedOut => a == Attempt(false, ToolErrorMessage("Tool timed out after 600 seconds", ""))
            case Raised(m) => a == Attempt(false, ToolErrorMessage(m, "")))
  {
    assert Handle(op) == ToolCall(op.path.value, op.toolType);
    var o := SystemOperations.RunTool(op.path.value, op.toolType, idx, env);
    assert Perform(op, idx, env) == Attempt(o.success, if o.success then "" else ToolErrorMessage(o.stderr, o.stdout));
    var full := env.resolve(op.path.value);
    if env.fileExists(idx, full) {
      assert o == SystemOperations.FromProcess(r, "Tool timed out after 600 seconds");
    }
  }

  /**
   * A registry operation: an unsupported value fails before the registry is
   * touched; otherwise success and the error text follow the registry's answers,
   * an empty error text becoming "Registry operation failed".
   */
  lemma RegistryAnswer(op: Operation, idx: nat, env: Environment)
    requires KindOf(op.tag) == Registry && HasRequiredFields(op)
    ensures var a := Perform(op, idx, env);
      var t := SystemOperations.RegistryType(op.value);
      && (t.None? ==> a == Attempt(false, "Unsupported value type: " + SystemOperations.TypeText(op.value)))
      && (t.Some? ==>
            var hive := if op.hive.Some? then op.hive.value else HKEY_LOCAL_MACHINE;
            var steps := env.registry(idx, RegistryWrite(hive, op.keyPath.value, op.valueName.value, t.value, op.value));
            match steps.0
            case Done => a == Attempt(true, "")
            case Failed(Permission, _) => a == Attempt(false, "Administrator privileges required")
            case Failed(OtherError, m) => a == Attempt(false, if m == "" then "Registry operation failed" else m)
            case Failed(FileNotFound, _) =>
              match steps.1
              case Done => a == Attempt(true, "")
              case Failed(_, m) => a == Attempt(false, if m == "" then "Registry operation failed" else m))
  {
  }
}

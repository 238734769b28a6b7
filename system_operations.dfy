/**
 * The `SystemOperations` handlers: each checks its inputs, picks the process
 * (or registry write) to perform, and maps its ending to the handler's result.
 * The process itself is the environment's answer.
 */
module SystemOperations {
  import opened Wrappers
  import opened Types
  import Paths

  /** The handler's result for a process ending; `timeoutText` is the handler's own timeout message. */
  function FromProcess(r: ProcessResult, timeoutText: string): (o: Outcome)
    ensures o.success <==> r.Exited? && r.code == 0
    ensures r.Exited? ==> o.stdout == r.stdout && o.stderr == r.stderr
    ensures r.TimedOut? ==> o == Outcome(false, "", timeoutText)
    ensures r.Raised? ==> o == Outcome(false, "", r.message)
  {
    match r
    case Exited(code, out, err) => Outcome(code == 0, out, err)
    case TimedOut => Outcome(false, "", timeoutText)
    case Raised(m) => Outcome(false, "", m)
  }

  /** `run_powershell`: one PowerShell process, five-minute limit. */
  function RunPowerShell(command: string, asAdmin: bool, idx: nat, env: Environment): (o: Outcome)
    ensures var r := env.process(idx, PowerShellRun(command, asAdmin));
      && (o.success <==> r.Exited? && r.code == 0)
      && (r.Exited? ==> o.stdout == r.stdout && o.stderr == r.stderr)
  {
    FromProcess(env.process(idx, PowerShellRun(command, asAdmin)), "Command timed out after 300 seconds")
  }

  /** The winget verb for an operation: only `install` and `uninstall`, and only with a non-empty package id. */
  function WingetRequest(operation: string, packageId: string): (r: Option<Request>)
    ensures r.Some? <==> (operation == "install" || operation == "uninstall") && packageId != ""
    ensures r.Some? ==> r.value == WingetRun(operation, packageId)
  {
    if operation == "install" && packageId != "" then Some(WingetRun("install", packageId))
    else if operation == "uninstall" && packageId != "" then Some(WingetRun("uninstall", packageId))
    else None
  }

  /** `run_winget`: an invalid operation fails without starting anything. */
  function RunWinget(operation: string, packageId: string, idx: nat, env: Environment): (o: Outcome)
    ensures WingetRequest(operation, packageId).None? ==>
      o == Outcome(false, "", "Invalid winget operation: " + operation)
    ensures WingetRequest(operation, packageId).Some? ==>
      var r := env.process(idx, WingetRun(operation, packageId));
      && (o.success <==> r.Exited? && r.code == 0)
      && (r.Exited? ==> o.stdout == r.stdout && o.stderr == r.stderr)
  {
    match WingetRequest(operation, packageId)
    case None => Outcome(false, "", "Invalid winget operation: " + operation)
    case Some(req) => FromProcess(env.process(idx, req), "Winget command timed out")
  }

  /** `run_installer`: a missing file fails without starting anything; otherwise the installer runs elevated. */
  function RunInstaller(installerPath: string, installerType: Option<string>, idx: nat, env: Environment): (o: Outcome)
    ensures var full := env.resolve(installerPath);
      && (!env.fileExists(idx, full) ==> o == Outcome(false, "", "Installer not found: " + full))
      && (env.fileExists(idx, full) ==>
            var kind := Paths.InstallerKindOf(Paths.InstallerType(installerType, full));
            var r := env.process(idx, InstallerRun(kind, full));
            && (o.success <==> r.Exited? && r.code == 0)
            && (r.Exited? ==> o.stdout == r.stdout && o.stderr == r.stderr))
  {
    var full := env.resolve(installerPath);
    if !env.fileExists(idx, full) then Outcome(false, "", "Installer not found: " + full)
    else
      var kind := Paths.InstallerKindOf(Paths.InstallerType(installerType, full));
      FromProcess(env.process(idx, InstallerRun(kind, full)), "Installer timed out after 600 seconds")
  }

  /** `run_tool`: a missing file fails without starting anything; otherwise the tool runs elevated. */
  function RunTool(toolPath: string, toolType: Option<string>, idx: nat, env: Environment): (o: Outcome)
    ensures var full := env.resolve(toolPath);
      && (!env.fileExists(idx, full) ==> o == Outcome(false, "", "Tool not found: " + full))
      && (env.fileExists(idx, full) ==>
            var kind := Paths.ToolKindOf(Paths.ToolType(toolType, full));
            var r := env.process(idx, ToolRun(kind, full));
            && (o.success <==> r.Exited? && r.code == 0)
            && (r.Exited? ==> o.stdout == r.stdout && o.stderr == r.stderr))
  {
    var full := env.resolve(toolPath);
    if !env.fileExists(idx, full) then Outcome(false, "", "Tool not found: " + full)
    else
      var kind := Paths.ToolKindOf(Paths.ToolType(toolType, full));
      FromProcess(env.process(idx, ToolRun(kind, full)), "Tool timed out after 600 seconds")
  }

  /** `run_executable`: a missing file fails without starting anything. */
  function RunExecutable(exePath: string, args: seq<string>, asAdmin: bool, idx: nat, env: Environment): (o: Outcome)
    ensures var full := env.resolve(exePath);
      && (!env.fileExists(idx, full) ==> o == Outcome(false, "", "Executable not found: " + full))
      && (env.fileExists(idx, full) ==>
            var r := env.process(idx, ExecutableRun(full, args, asAdmin));
            && (o.success <==> r.Exited? && r.code == 0)
            && (r.Exited? ==> o.stdout == r.stdout && o.stderr == r.stderr))
  {
    var full := env.resolve(exePath);
    if !env.fileExists(idx, full) then Outcome(false, "", "Executable not found: " + full)
    else FromProcess(env.process(idx, ExecutableRun(full, args, asAdmin)), "Executable timed out after 600 seconds")
  }

  /** The registry type for a value: integers (booleans included) a DWORD, strings a string, nothing else. */
  function RegistryType(v: Value): (t: Option<RegType>)
    ensures t == Some(RegDword) <==> v.IntValue? || v.BoolValue?
    ensures t == Some(RegSz) <==> v.StrValue?
    ensures t.None? <==> v.NoneValue? || v.OtherValue?
  {
    match v
    case IntValue(_) => Some(RegDword)
    case BoolValue(_) => Some(RegDword)
    case StrValue(_) => Some(RegSz)
    case NoneValue => None
    case OtherValue(_) => None
  }

  /** `str(type(value))`. */
  function TypeText(v: Value): string
  {
    match v
    case IntValue(_) => "<class 'int'>"
    case BoolValue(_) => "<class 'bool'>"
    case StrValue(_) => "<class 'str'>"
    case NoneValue => "<class 'NoneType'>"
    case OtherValue(t) => "<class '" + t + "'>"
  }

  /** The `(success, error_message)` pair `set_registry_value` returns. */
  datatype RegistryOutcome = RegistryOutcome(success: bool, message: string)

  /**
   * `set_registry_value`: reject an unsupported value before touching the
   * registry; open and write the key; when the key is missing, create it and
   * write; a permission error on the first attempt is reported as needing
   * administrator rights.
   */
  function SetRegistryValue(keyPath: string, valueName: string, value: Value, hive: int, idx: nat, env: Environment): (r: RegistryOutcome)
    ensures RegistryType(value).None? ==>
      r == RegistryOutcome(false, "Unsupported value type: " + TypeText(value))
    ensures r.success ==> r.message == ""
    ensures RegistryType(value).Some? ==>
      var steps := env.registry(idx, RegistryWrite(hive, keyPath, valueName, RegistryType(value).value, value));
      && (steps.0.Failed? && steps.0.kind == Permission ==>
            r == RegistryOutcome(false, "Administrator privileges required"))
      && (r.success <==> steps.0.Done? || (steps.0.Failed? && steps.0.kind == FileNotFound && steps.1.Done?))
  {
    match RegistryType(value)
    case None => RegistryOutcome(false, "Unsupported value type: " + TypeText(value))
    case Some(t) =>
      var steps := env.registry(idx, RegistryWrite(hive, keyPath, valueName, t, value));
      match steps.0
      case Done => RegistryOutcome(true, "")
      case Failed(FileNotFound, _) =>
        (match steps.1
         case Done => RegistryOutcome(true, "")
         case Failed(_, m) => RegistryOutcome(false, m))
      case Failed(Permission, _) => RegistryOutcome(false, "Administrator privileges required")
      case Failed(OtherError, m) => RegistryOutcome(false, m)
  }

  /** An unsupported value fails the same way whatever the registry would have answered: it is never touched. */
  lemma UnsupportedValueNeverWrites(keyPath: string, valueName: string, value: Value, hive: int,
                                    idx: nat, env: Environment, env': Environment)
    requires RegistryType(value).None?
    ensures SetRegistryValue(keyPath, valueName, value, hive, idx, env)
         == SetRegistryValue(keyPath, valueName, value, hive, idx, env')
    ensures !SetRegistryValue(keyPath, valueName, value, hive, idx, env).success
  {
  }
}

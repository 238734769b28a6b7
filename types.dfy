/**
 * The values the execution engine works on: operation records, the requests
 * the handlers hand to the operating system, the answers they get back, and
 * the environment that supplies those answers.
 */
module Types {
  import opened Wrappers
  import Paths

  /** Log levels of the `LogLevel` constants. */
  datatype Level = Info | Success | Warning | Error

  /** One emission on the worker's `log_signal`, `progress_signal` or `finished_signal`. */
  datatype Event =
    | Log(message: string, level: Level)
    | Progress(percent: int)
    | Finished(success: bool)

  /** The Python value stored under an operation's `value` key. */
  datatype Value =
    | IntValue(i: int)
    | BoolValue(b: bool)     // `bool` is a subclass of `int` in Python
    | StrValue(s: string)
    | NoneValue              // the key is absent or holds `None`
    | OtherValue(typeName: string)

  /**
   * An operation record: the dictionary the interface builds, one field per
   * key the engine reads with `operation.get(...)`; `None` is an absent key.
   */
  datatype Operation = Operation(
    tag: Option<string>,             // 'type'
    name: Option<string>,            // 'name'
    packageId: Option<string>,       // 'package_id'
    command: Option<string>,         // 'command'
    keyPath: Option<string>,         // 'key_path'
    valueName: Option<string>,       // 'value_name'
    value: Value,                    // 'value'
    hive: Option<int>,               // 'hive'
    exePath: Option<string>,         // 'exe_path'
    args: Option<seq<string>>,       // 'args'
    asAdmin: Option<bool>,           // 'as_admin'
    path: Option<string>,            // 'path'
    installerType: Option<string>,   // 'installer_type'
    toolType: Option<string>)        // 'tool_type'

  /** `winreg.HKEY_LOCAL_MACHINE`, the default hive. */
  const HKEY_LOCAL_MACHINE: int := 0x8000_0002

  /** Registry value types chosen from the Python type of the value. */
  datatype RegType = RegDword | RegSz

  /** A process the handlers start through `subprocess.run`, described by what it carries. */
  datatype Request =
    | WingetRun(verb: string, packageId: string)
    | PowerShellRun(command: string, asAdmin: bool)
    | InstallerRun(installer: Paths.InstallerKind, installerPath: string)
    | ToolRun(tool: Paths.ToolKind, toolPath: string)
    | ExecutableRun(exePath: string, arguments: seq<string>, elevated: bool)

  /** How `subprocess.run` ends: an exit code with the captured streams, a timeout, or another exception. */
  datatype ProcessResult =
    | Exited(code: int, stdout: string, stderr: string)
    | TimedOut
    | Raised(message: string)

  /** A registry write as `set_registry_value` performs it. */
  datatype RegistryWrite = RegistryWrite(hive: int, keyPath: string, valueName: string, regType: RegType, value: Value)

  /** Exception classes `set_registry_value` tells apart. */
  datatype RegErrorKind = FileNotFound | Permission | OtherError

  /** How one attempt at the registry ends: done, or an exception with its text. */
  datatype RegistryStep = Done | Failed(kind: RegErrorKind, message: string)

  /** The `(bool, stdout, stderr)` triple every process handler returns. */
  datatype Outcome = Outcome(success: bool, stdout: string, stderr: string)

  /**
   * Everything outside the model, as oracles:
   * - `cancelRequested(i)`: `cancel()` has been called by the time the check before operation `i` runs;
   * - `resolve(p)`: `p` made absolute against the script's directory (`os.path.isabs`/`join`);
   * - `fileExists(i, p)`: `os.path.exists(p)` when operation `i` checks it (an earlier
   *   operation may have created or removed the file);
   * - `process(i, r)`: how the process for request `r`, started while handling operation `i`, ends;
   * - `registry(i, w)`: how opening and writing the key ends, and how creating and writing it ends.
   */
  datatype Environment = Environment(
    cancelRequested: nat -> bool,
    resolve: string -> string,
    fileExists: (nat, string) -> bool,
    process: (nat, Request) -> ProcessResult,
    registry: (nat, RegistryWrite) -> (RegistryStep, RegistryStep))
}

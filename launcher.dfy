/**
  The update check that main.py runs before every command (`update`, main.py:73-108),
  the `force-update` command (main.py:116-121) and the argument list handed to
  the updater process.

  Versions are an abstract type `V` with the ordering `lt` that
  `packaging.version` provides. Reading the local VERSION file and fetching the
  published one each give a `Lookup`: a parsed version, a failure the code
  catches (it then holds `None`), or a string `packaging` cannot parse, which
  raises out of `update`.
*/
module Launcher {
  import opened Common
  import Hex
  import Updater

  datatype Lookup<V> =
    | Resolved(v: V)
    | Unavailable   // FileNotFoundError or RequestException: caught, the version becomes None
    | Malformed     // pv.parse raises InvalidVersion: not caught

  function AsOption<V>(l: Lookup<V>): Option<V>
  {
    if l.Resolved? then Some(l.v) else None
  }

  /** Exceptions that escape `update`. */
  datatype Crash =
    | InvalidVersion
    | Uncomparable   // `None < version` raises TypeError at main.py:94

  /** How the program was started, and the paths main.py derives from it (main.py:17-29). */
  datatype Install = Install(bundled: bool, bundleDir: string, executablePath: string)

  datatype Outcome<V> =
    | Crashed(reason: Crash)
    | Returned(installed: Option<V>, available: Option<V>)
    | Spawned(argv: seq<string>)   // subprocess.Popen(argv) and sys.exit()

  /** `bundle_dir / name`, written with the separator `/`. */
  function JoinPath(dir: string, name: string): string
  {
    dir + "/" + name
  }

  /** The list given to `subprocess.Popen` (main.py:102-105). */
  function UpdaterArgv(inst: Install): seq<string>
  {
    if inst.bundled then [JoinPath(inst.bundleDir, "update.exe"), inst.executablePath]
    else ["python", JoinPath(inst.bundleDir, "update.py"), inst.executablePath]
  }

  /** The `sys.argv` the updater sees: the interpreter name drops out when it runs as a script. */
  function ScriptArgv(argv: seq<string>): seq<string>
  {
    if |argv| > 0 && argv[0] == "python" then argv[1..] else argv
  }

  /** `update(forced)` with the versions already looked up and the answer to `click.confirm`. */
  function Update<V>(installed: Lookup<V>, available: Lookup<V>, lt: (V, V) -> bool,
                     forced: bool, confirms: bool, inst: Install): Outcome<V>
  {
    if installed.Malformed? || available.Malformed? then Crashed(InvalidVersion)
    else if installed.Unavailable? || available.Unavailable? then Crashed(Uncomparable)
    else if (lt(installed.v, available.v) || forced) && confirms then Spawned(UpdaterArgv(inst))
    else Returned(AsOption(installed), AsOption(available))
  }

  /**
    The updater is launched exactly when both versions resolve, the installed one
    is older or the update is forced, and the user confirms; otherwise, unless
    `update` raises, it hands back the two versions unchanged.
  */
  lemma UpdateSpawnsIff<V>(installed: Lookup<V>, available: Lookup<V>, lt: (V, V) -> bool,
                           forced: bool, confirms: bool, inst: Install)
    ensures var o := Update(installed, available, lt, forced, confirms, inst);
      && (o.Spawned? <==>
            installed.Resolved? && available.Resolved?
            && (lt(installed.v, available.v) || forced) && confirms)
      && (o.Spawned? ==> o.argv == UpdaterArgv(inst))
      && (o.Returned? <==>
            installed.Resolved? && available.Resolved?
            && !((lt(installed.v, available.v) || forced) && confirms))
      && (o.Returned? ==> o.installed == Some(installed.v) && o.available == Some(available.v))
  {
  }

  /** An unresolved version makes the comparison raise before `forced` is looked at: forcing does not help. */
  lemma UnresolvedVersionCrashes<V>(installed: Lookup<V>, available: Lookup<V>, lt: (V, V) -> bool,
                                    forced: bool, confirms: bool, forced': bool, confirms': bool, inst: Install)
    requires !installed.Resolved? || !available.Resolved?
    ensures Update(installed, available, lt, forced, confirms, inst).Crashed?
    ensures Update(installed, available, lt, forced, confirms, inst)
         == Update(installed, available, lt, forced', confirms', inst)
  {
  }

  /**
    `lista-tools force-update`: the check at start-up (main.py:325) runs first with
    `forced=False`; only if it returns does the command run `update(forced=True)`.
  */
  function ForceUpdate<V>(installed: Lookup<V>, available: Lookup<V>, lt: (V, V) -> bool,
                          confirmAtStart: bool, confirmForced: bool, inst: Install): Outcome<V>
  {
    match Update(installed, available, lt, false, confirmAtStart, inst)
    case Returned(_, _) => Update(installed, available, lt, true, confirmForced, inst)
    case other => other
  }

  /**
    `force-update` launches the updater exactly when both versions resolve and
    the user confirms one of the prompts: the start-up one, shown only for a
    newer version, or the forced one, shown always after a declined start-up prompt.
  */
  lemma ForceUpdateSpawnsIff<V>(installed: Lookup<V>, available: Lookup<V>, lt: (V, V) -> bool,
                                confirmAtStart: bool, confirmForced: bool, inst: Install)
    ensures var o := ForceUpdate(installed, available, lt, confirmAtStart, confirmForced, inst);
      && (o.Spawned? <==>
            installed.Resolved? && available.Resolved?
            && ((lt(installed.v, available.v) && confirmAtStart) || confirmForced))
      && (o.Crashed? <==> !installed.Resolved? || !available.Resolved?)
      && (o.Spawned? ==> o.argv == UpdaterArgv(inst))
  {
    UpdateSpawnsIff(installed, available, lt, false, confirmAtStart, inst);
    UpdateSpawnsIff(installed, available, lt, true, confirmForced, inst);
  }

  /**
    Bundled or not, the updater's `sys.argv[1]` is the executable's directory
    exactly as main.py has it, with no hex encoding, and the script is the one in
    the bundle directory.
  */
  lemma ArgvCarriesRawPath(inst: Install)
    ensures var a := ScriptArgv(UpdaterArgv(inst));
      && |a| == 2
      && a[1] == inst.executablePath
      && a[0] == JoinPath(inst.bundleDir, if inst.bundled then "update.exe" else "update.py")
  {
    // The script path is longer than "python", so it is never taken for the interpreter.
    assert |JoinPath(inst.bundleDir, "update.exe")| != |"python"|;
  }

  /**
    The hand-off as written: the updater hex-decodes its argument (update.py:8),
    so any directory path holding a character that is neither a hex digit nor
    whitespace, such as its separator, makes the updater raise before it starts.
  */
  lemma HandOffRejectsPath(inst: Install, i: nat, d: Updater.Directory, r: Updater.Response, f: Updater.Faults, overwrites: bool)
    requires i < |inst.executablePath|
    requires !Hex.IsHexDigit(inst.executablePath[i]) && !Hex.IsSpace(inst.executablePath[i])
    ensures Hex.FromHex(ScriptArgv(UpdaterArgv(inst))[1]) == None
    ensures Updater.Script(d, ScriptArgv(UpdaterArgv(inst))[1], r, f, overwrites)
         == Updater.Outcome(d, [], Some(Updater.BadArgument))
  {
    ArgvCarriesRawPath(inst);
    Hex.FromHexRejectsForeignChar(inst.executablePath, i);
  }

  /** The directory `C:\lista-tools` is rejected: the colon and the backslash are not hex digits. */
  lemma HandOffRejectsWindowsPath(bundleDir: string, d: Updater.Directory, r: Updater.Response, f: Updater.Faults, overwrites: bool)
    ensures var arg := ScriptArgv(UpdaterArgv(Install(true, bundleDir, "C:\\lista-tools")))[1];
      Updater.Script(d, arg, r, f, overwrites) == Updater.Outcome(d, [], Some(Updater.BadArgument))
  {
    HandOffRejectsPath(Install(true, bundleDir, "C:\\lista-tools"), 1, d, r, f, overwrites);
  }

  /**
    The hand-off as evidently intended: the path goes across hex-encoded
    (`str(executable_path).encode().hex()`), given here as its encoded bytes.
  */
  function HexUpdaterArgv(inst: Install, pathBytes: Bytes): seq<string>
  {
    if inst.bundled then [JoinPath(inst.bundleDir, "update.exe"), Hex.HexEncode(pathBytes)]
    else ["python", JoinPath(inst.bundleDir, "update.py"), Hex.HexEncode(pathBytes)]
  }

  /** With the encoded hand-off the updater decodes exactly the path bytes main.py sent. */
  lemma HexHandOffRoundTrip(inst: Install, pathBytes: Bytes)
    ensures |ScriptArgv(HexUpdaterArgv(inst, pathBytes))| == 2
    ensures Hex.FromHex(ScriptArgv(HexUpdaterArgv(inst, pathBytes))[1]) == Some(pathBytes)
  {
    assert |JoinPath(inst.bundleDir, "update.exe")| != |"python"|;
    Hex.FromHexOfHexEncode(pathBytes);
  }

  /**
    With the encoded hand-off the updater always gets past its argument and
    starts the download, whatever the server and the file system then do.
  */
  lemma HexHandOffInstalls(inst: Install, pathBytes: Bytes, d: Updater.Directory, r: Updater.Response,
                           f: Updater.Faults, overwrites: bool)
    ensures var o := Updater.Script(d, ScriptArgv(HexUpdaterArgv(inst, pathBytes))[1], r, f, overwrites);
      && o.crash != Some(Updater.BadArgument)
      && o.log != [] && o.log[0] == Updater.Downloading
  {
    HexHandOffRoundTrip(inst, pathBytes);
  }
}

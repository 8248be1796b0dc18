/**
 * Whether the terminal window has focus (`is_app_window_focused`), per
 * operating system. Everything the probes read from the environment is a
 * field of `Host`; everything they ask an external program is a field of
 * `Tools`, holding what that program would answer.
 */
module Focus {
  import opened Wrappers
  import opened Text

  datatype Os = Darwin | Linux | OtherOs

  /** An exception that escapes a probe. */
  datatype Raised = IndexError | CommandFailed

  /** The environment variables the probes read; `None` is an unset variable. */
  datatype Host = Host(
    os: Os,
    windowId: Option<string>,                          // $WINDOWID
    bundleId: Option<string>,                          // $__CFBundleIdentifier
    termProgram: Option<string>,                       // $TERM_PROGRAM
    termProgramMap: Option<seq<(string, string)>>)     // $XONTRIB_CD_TERM_PROGRAM_MAP, in insertion order

  /**
   * The answers of the external programs:
   * `activeWindow` is the raw output of `xdotool getactivewindow`, `None` when
   * running it raised; `appOfBundle(id)` is the application name that
   * `lsappinfo find bundleID=<id>` yields once the text form of its output is
   * split at `"` (the second piece), or the exception that the call or the
   * split raised; `appInfo(name)` is the output of `lsappinfo info -app <name>`,
   * or the exception that raised.
   */
  datatype Tools = Tools(
    activeWindow: Option<string>,
    appOfBundle: string -> Result<string, Raised>,
    appInfo: string -> Result<string, Raised>)

  /** Python truthiness of an optional string: set and non-empty. */
  predicate Truthy(v: Option<string>) {
    v.Some? && v.value != ""
  }

  // ---------------------------------------------------------------------
  // Terminal-program names (Darwin)

  /** The built-in `$TERM_PROGRAM` to application-name table. */
  const DefaultTermProgramMap: seq<(string, string)> :=
    [("iterm.app", "iTerm2"), ("apple_terminal", "Terminal"), ("vscode", "Code"),
     ("pycharm", "PyCharm"), ("kate", "Kate")]

  /** Entry `i` is the last one of `entries` whose lower-cased key is `key`. */
  predicate LastWith(entries: seq<(string, string)>, key: string, i: int) {
    0 <= i < |entries| && Lower(entries[i].0) == key &&
    forall j :: i < j < |entries| ==> Lower(entries[j].0) != key
  }

  /**
   * The dictionary comprehension that lower-cases the keys: a key is present
   * iff some entry lower-cases to it, and it maps to the value of the last such
   * entry.
   */
  function LowerKeys(entries: seq<(string, string)>): map<string, string> {
    if entries == [] then map[]
    else
      var last := entries[|entries| - 1];
      LowerKeys(entries[..|entries| - 1])[Lower(last.0) := last.1]
  }

  /**
   * A key is present in the lower-cased table iff some entry lower-cases to it,
   * and it maps to the value of the last such entry.
   */
  lemma {:induction false} LowerKeysSpec(entries: seq<(string, string)>)
    ensures forall i :: 0 <= i < |entries| ==> Lower(entries[i].0) in LowerKeys(entries)
    ensures forall key :: key in LowerKeys(entries) ==>
      exists i :: LastWith(entries, key, i) && LowerKeys(entries)[key] == entries[i].1
  {
    if entries != [] {
      var init := entries[..|entries| - 1];
      var last := entries[|entries| - 1];
      assert entries == init + [last];
      LowerKeysSpec(init);
      var before := LowerKeys(init);
      var m := LowerKeys(entries);
      assert m == before[Lower(last.0) := last.1];
      forall i | 0 <= i < |entries| ensures Lower(entries[i].0) in m {
        if i < |init| {
          assert entries[i] == init[i];
          assert Lower(init[i].0) in before;
        }
      }
      forall key | key in m ensures exists i :: LastWith(entries, key, i) && m[key] == entries[i].1 {
        if key == Lower(last.0) {
          assert LastWith(entries, key, |entries| - 1);
        } else {
          assert key in before && m[key] == before[key];
          var i :| LastWith(init, key, i) && before[key] == init[i].1;
          LastWithExtend(init, last, key, i);
        }
      }
    }
  }

  lemma LastWithExtend(init: seq<(string, string)>, last: (string, string), key: string, i: int)
    requires LastWith(init, key, i) && Lower(last.0) != key
    ensures LastWith(init + [last], key, i) && (init + [last])[i] == init[i]
  {
    var entries := init + [last];
    forall j | i < j < |entries| ensures Lower(entries[j].0) != key {
      if j < |init| {
        assert entries[j] == init[j];
      }
    }
  }

  /** `_term_program_mapping`: the configured table replaces the built-in one. */
  function TermProgramEntries(configured: Option<seq<(string, string)>>): seq<(string, string)> {
    match configured
    case Some(entries) => entries
    case None => DefaultTermProgramMap
  }

  /**
   * `_darwin_get_app_name`: looks `termProgram` up case-insensitively and falls
   * back to `termProgram` itself.
   */
  function DarwinGetAppName(configured: Option<seq<(string, string)>>, termProgram: string): (r: string)
    ensures var entries, key := TermProgramEntries(configured), Lower(termProgram);
      && ((exists i :: 0 <= i < |entries| && Lower(entries[i].0) == key) ==>
            exists i :: LastWith(entries, key, i) && r == entries[i].1)
      && ((forall i :: 0 <= i < |entries| ==> Lower(entries[i].0) != key) ==> r == termProgram)
  {
    var mapping := LowerKeys(TermProgramEntries(configured));
    var key := Lower(termProgram);
    LowerKeysSpec(TermProgramEntries(configured));
    if key in mapping then mapping[key] else termProgram
  }

  lemma LastWithUnique(entries: seq<(string, string)>, key: string, i: int, j: int)
    requires LastWith(entries, key, i) && LastWith(entries, key, j)
    ensures i == j
  {
  }

  /** On a hit the name is the value of the last entry whose key matches, ignoring case. */
  lemma DarwinAppNameHit(configured: Option<seq<(string, string)>>, termProgram: string, i: int)
    requires LastWith(TermProgramEntries(configured), Lower(termProgram), i)
    ensures DarwinGetAppName(configured, termProgram) == TermProgramEntries(configured)[i].1
  {
    var entries := TermProgramEntries(configured);
    var j :| LastWith(entries, Lower(termProgram), j) && DarwinGetAppName(configured, termProgram) == entries[j].1;
    LastWithUnique(entries, Lower(termProgram), i, j);
  }

  /** `iterm.app` is already lower case. */
  lemma ITermKeyIsLower()
    ensures Lower("iterm.app") == "iterm.app"
  {
    var k := "iterm.app";
    forall i | 0 <= i < |k| ensures Lower(k)[i] == k[i] {
      assert !('A' <= k[i] <= 'Z');
    }
  }

  /** No other default key has the length of `iterm.app`. */
  lemma OtherDefaultKeysDiffer()
    ensures forall j :: 0 < j < |DefaultTermProgramMap| ==> Lower(DefaultTermProgramMap[j].0) != "iterm.app"
  {
    var entries := DefaultTermProgramMap;
    assert |entries[1].0| == 14 && |entries[2].0| == 6 && |entries[3].0| == 7 && |entries[4].0| == 4;
  }

  /** `iterm.app` is the first built-in key, and no later one matches it. */
  lemma ITermIsFirstDefault()
    ensures LastWith(DefaultTermProgramMap, "iterm.app", 0)
  {
    ITermKeyIsLower();
    OtherDefaultKeysDiffer();
  }

  /**
   * When the table is not configured, every spelling of `iterm.app`, in any
   * case, resolves to `iTerm2`.
   */
  lemma DefaultAppNameITerm(termProgram: string)
    requires Lower(termProgram) == "iterm.app"
    ensures DarwinGetAppName(None, termProgram) == "iTerm2"
  {
    ITermIsFirstDefault();
    DarwinAppNameHit(None, termProgram, 0);
  }

  /** When the table is not configured, `xterm`, missing from it, is its own application name. */
  lemma UnknownTermProgramKept()
    ensures DarwinGetAppName(None, "xterm") == "xterm"
  {
    var entries := TermProgramEntries(None);
    forall i | 0 <= i < |entries| ensures Lower(entries[i].0) != Lower("xterm") {
      assert |Lower(entries[i].0)| != |Lower("xterm")|;
    }
  }

  // ---------------------------------------------------------------------
  // Linux

  /** `_xdotool_window_id`: the stripped output, or `None` when the program failed. */
  function XdotoolWindowId(activeWindow: Option<string>): Option<string> {
    match activeWindow
    case Some(out) => Some(Strip(out))
    case None => None
  }

  /**
   * `_linux_is_app_window_focused`: an unset or empty `$WINDOWID`, or a failed
   * query, gives "not focused"; otherwise focused iff the active window id,
   * stripped, equals `$WINDOWID`.
   */
  function LinuxIsAppWindowFocused(windowId: Option<string>, activeWindow: Option<string>): (r: bool)
    ensures !Truthy(windowId) ==> !r
    ensures activeWindow.None? ==> !r
    ensures Truthy(windowId) && activeWindow.Some? ==> (r <==> Strip(activeWindow.value) == windowId.value)
  {
    if !Truthy(windowId) then false
    else XdotoolWindowId(activeWindow) == windowId
  }

  /** The newline `xdotool` prints after the id does not prevent a match. */
  lemma LinuxFocusedDespiteNewline(w: string)
    requires w != [] && !IsSpace(w[0]) && !IsSpace(w[|w| - 1])
    ensures LinuxIsAppWindowFocused(Some(w), Some(w + "\n"))
  {
    var out := w + "\n";
    assert TrimStart(out) == out;
    assert out[..|out| - 1] == w;
    assert TrimEnd(out) == w;
  }

  // ---------------------------------------------------------------------
  // Darwin

  /**
   * The application name the Darwin probe settles on: the one found through
   * `$__CFBundleIdentifier` when that is set, else (when that gives an empty
   * name or is unset) the `$TERM_PROGRAM` lookup; `""` when neither gives one.
   */
  function DarwinAppName(host: Host, tools: Tools): (r: Result<string, Raised>)
    ensures r.Failure? ==> Truthy(host.bundleId)
    ensures !Truthy(host.bundleId) && !Truthy(host.termProgram) ==> r == Success("")
    // a raising `lsappinfo find` propagates; a non-empty name found through the bundle wins
    ensures Truthy(host.bundleId) && tools.appOfBundle(host.bundleId.value).Failure?
      ==> r == tools.appOfBundle(host.bundleId.value)
    ensures Truthy(host.bundleId) && tools.appOfBundle(host.bundleId.value).Success?
      && tools.appOfBundle(host.bundleId.value).value != ""
      ==> r == tools.appOfBundle(host.bundleId.value)
    // otherwise the `$TERM_PROGRAM` lookup when that variable is set, else no name
    ensures !Truthy(host.bundleId) || tools.appOfBundle(host.bundleId.value) == Success("")
      ==> r == Success(if Truthy(host.termProgram)
                       then DarwinGetAppName(host.termProgramMap, host.termProgram.value)
                       else "")
  {
    var fromBundle :=
      if Truthy(host.bundleId) then tools.appOfBundle(host.bundleId.value) else Success("");
    match fromBundle
    case Failure(e) => Failure(e)
    case Success(name) =>
      if name == "" && Truthy(host.termProgram) then
        Success(DarwinGetAppName(host.termProgramMap, host.termProgram.value))
      else Success(name)
  }

  /** The marker `lsappinfo info` prints for the application in front. */
  const InFrontMarker := "(in front)"

  /**
   * `_darwin_is_app_window_focused`: unresolved name gives "not focused";
   * otherwise focused iff the application's `lsappinfo info` output contains
   * the in-front marker. Exceptions of `lsappinfo` are not caught.
   */
  function DarwinIsAppWindowFocused(host: Host, tools: Tools): (r: Result<bool, Raised>)
    ensures DarwinAppName(host, tools) == Success("") ==> r == Success(false)
    ensures r.Failure? <==>
      || DarwinAppName(host, tools).Failure?
      || (&& DarwinAppName(host, tools).Success?
          && DarwinAppName(host, tools).value != ""
          && tools.appInfo(DarwinAppName(host, tools).value).Failure?)
    // the exception raised is the one `lsappinfo` raised, unchanged
    ensures DarwinAppName(host, tools).Failure? ==> r == Failure(DarwinAppName(host, tools).error)
    ensures && DarwinAppName(host, tools).Success?
            && DarwinAppName(host, tools).value != ""
            && tools.appInfo(DarwinAppName(host, tools).value).Failure?
            ==> r == Failure(tools.appInfo(DarwinAppName(host, tools).value).error)
    ensures r == Success(true) <==>
      && DarwinAppName(host, tools).Success?
      && DarwinAppName(host, tools).value != ""
      && tools.appInfo(DarwinAppName(host, tools).value).Success?
      && exists i :: 0 <= i && OccursAt(tools.appInfo(DarwinAppName(host, tools).value).value, InFrontMarker, i)
  {
    match DarwinAppName(host, tools)
    case Failure(e) => Failure(e)
    case Success(name) =>
      if name == "" then Success(false)
      else
        match tools.appInfo(name)
        case Failure(e) => Failure(e)
        case Success(out) =>
          ContainsIff(out, InFrontMarker);
          Success(Contains(out, InFrontMarker))
  }

  // ---------------------------------------------------------------------
  // Dispatch on the operating system

  /**
   * `is_app_window_focused`: Darwin first, then Linux, and "not focused" on any
   * other system. Only the Darwin probe can raise.
   */
  function IsAppWindowFocused(host: Host, tools: Tools): (r: Result<bool, Raised>)
    ensures host.os == OtherOs ==> r == Success(false)
    ensures host.os != Darwin ==> r.Success?
    ensures host.os == Linux ==> (r == Success(true) <==>
      Truthy(host.windowId) && tools.activeWindow.Some? && Strip(tools.activeWindow.value) == host.windowId.value)
    ensures host.os == Darwin ==> r == DarwinIsAppWindowFocused(host, tools)
  {
    if host.os == Darwin then DarwinIsAppWindowFocused(host, tools)
    else if host.os == Linux then Success(LinuxIsAppWindowFocused(host.windowId, tools.activeWindow))
    else Success(false)
  }
}

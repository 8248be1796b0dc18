# xontrib-cmd-done, modelled in Dafny

`xontrib-cmd-done` is an extension for the xonsh shell. On every prompt
render it looks at the latest command in the shell history. It computes how
long the command ran and, when that is longer than a threshold, shows the
duration (for example `1h1m1s`) in the prompt field `long_cmd_duration`. When
notifications are enabled and the terminal window is not focused, it also
sends a desktop notification: `Done in <duration>`, or `Failed in <duration>`
for a non-zero return code, titled with the command line.

This project models that decision and formatting logic and proves its
properties:

- `wrappers.dfy`: `Option` and `Result`. `None` stands for Python's `None`, and `Failure` for a raised exception.
- `decimal.dfy`: Python's `str()` of an integer, and a reader that proves the text reads back to the integer.
- `text.dfy`: `str.lower()` on ASCII letters, `str.strip()` and the substring test `in`.
- `duration.dfy`: `secs_to_readable`. It is an imperative method, `SecsToReadable`, proved equal to the specification `Readable`. `Readable` writes the hour, minute and second fields after leading zero fields are dropped. It comes with a reader `ReadDuration`, proved to recover the input.
- `focus.dfy`: the terminal-program table, the Linux and Darwin focus probes, and the dispatch on the operating system.
- `cmd_done.dfy`: `notify_user` and `long_cmd_duration`. One call is one prompt render. It returns the prompt text and the notification to send, if any.

Environment variables are fields of `Focus.Host`. The answers of external
programs (`xdotool`, `lsappinfo`) are fields of `Focus.Tools`. The host
shell's prompt formatter is a function parameter. The configuration is a
`CmdDone.Config` value.

Three behaviours of the code are easy to miss, and the model keeps each:
- Every field below the first non-zero one is written, so 3600 seconds gives
  `1h0m0s` (xontrib/cmd_done.py lines 47-52; `Duration.ReadableExamples`).
- A configured `$XONTRIB_CD_TERM_PROGRAM_MAP` replaces the built-in
  terminal-program table instead of being merged with it (line 17;
  `Focus.TermProgramEntries`).
- Only the `xdotool` call is guarded (lines 73-76). On Darwin, a failing
  `lsappinfo` call (lines 96 and 113), or `lsappinfo find` output with
  neither `"` nor `'` (line 97), raises out of `notify_user`
  (`Focus.DarwinIsAppWindowFocused` returns `Failure`). A missing return code
  or command line raises `IndexError` (`CmdDone.NotifyUser`).

## Model

| member | source | states |
|---|---|---|
| `Decimal.NatToStringDigits` | xontrib/cmd_done.py:48-52 | `str()` of a non-negative field value is at least one digit, with no leading zero unless the value is 0 |
| `Decimal.IntToStringRoundTrip` | xontrib/cmd_done.py:48-52 | the number written by `str()` for a field reads back as that field's value, including the sign of negative hours |
| `Duration.Decompose` | xontrib/cmd_done.py:45-46 | the two `divmod` steps give `h*3600 + m*60 + s == secs` with `0 <= m < 60` and `0 <= s < 60`; hours are 0 exactly for `0 <= secs < 3600`, hours and minutes both 0 exactly for `0 <= secs < 60` |
| `Duration.DropLeadingZerosSpec` | xontrib/cmd_done.py:47-52 | the fields written are a suffix of hours, minutes, seconds; everything omitted is zero, and the first field written is non-zero |
| `Duration.FieldsByMagnitude` | xontrib/cmd_done.py:47-52 | non-zero hours write all three fields; zero hours and non-zero minutes write minutes and seconds; below a minute only the seconds are written; 0 writes nothing |
| `Duration.SecsToReadable` | xontrib/cmd_done.py:33-53 | the three guarded appends to the local `readable` produce exactly `Readable(secs)`: the fields from the first non-zero one down to seconds |
| `Duration.ReadableRoundTrip` | xontrib/cmd_done.py:44-53 | the numbers and units in the text recover the input: reading the text back gives `secs` for every integer |
| `Duration.FieldPresence` | xontrib/cmd_done.py:47-53 | `h` appears iff `secs >= 3600` (or negative), `m` iff `secs >= 60` (or negative), `s` iff `secs != 0`; the text is empty iff `secs == 0` |
| `Duration.ReadableExamples` | xontrib/cmd_done.py:40-52 | `0` gives `""`, `59` gives `59s`, `100` gives `1m40s`, `3600` gives `1h0m0s`, `3661` gives `1h1m1s` |
| `Text.Lower` | xontrib/cmd_done.py:18-24 | the lower-cased text has the same length, with each ASCII capital replaced by its small letter |
| `Text.LowerIdempotent` | xontrib/cmd_done.py:18-24 | lower-casing the map keys and the query once is enough: lower-casing again changes nothing |
| `Text.Strip` | xontrib/cmd_done.py:74 | the stripped window id is a contiguous piece of the output that neither starts nor ends with whitespace, and everything before and after it is whitespace; text without surrounding whitespace is unchanged |
| `Text.ContainsIff` | xontrib/cmd_done.py:119 | the substring test holds iff the marker occurs at some position of the output |
| `Focus.LowerKeysSpec` | xontrib/cmd_done.py:13-18 | after the keys are lower-cased, a key is present iff some entry lower-cases to it, and it maps to the value of the last such entry |
| `Focus.DarwinGetAppName` | xontrib/cmd_done.py:21-24 | the case-insensitive lookup gives the value of the last matching entry on a hit, and `term_program` unchanged on a miss |
| `Focus.DarwinAppNameHit` | xontrib/cmd_done.py:24 | whenever entry `i` is the last one matching the query, ignoring case, the name is that entry's value |
| `Focus.DefaultAppNameITerm` | xontrib/cmd_done.py:15-24 | with the built-in table, every spelling of `iterm.app`, in any case, resolves to `iTerm2` |
| `Focus.UnknownTermProgramKept` | xontrib/cmd_done.py:15-24 | with the built-in table, `xterm`, which is not one of its keys, is its own application name |
| `Focus.LinuxIsAppWindowFocused` | xontrib/cmd_done.py:72-88 | an unset or empty `$WINDOWID`, or a failed `xdotool`, gives "not focused"; otherwise focused iff the stripped active-window id equals `$WINDOWID` |
| `Focus.LinuxFocusedDespiteNewline` | xontrib/cmd_done.py:72-88 | the newline after the id in the `xdotool` output does not prevent a match |
| `Focus.DarwinAppName` | xontrib/cmd_done.py:91-101 | only a set bundle identifier can raise, and a raising `lsappinfo find` propagates; a non-empty name found through the bundle identifier wins; otherwise the name is the `$TERM_PROGRAM` lookup when that variable is set, and empty when it is not |
| `Focus.DarwinIsAppWindowFocused` | xontrib/cmd_done.py:91-119 | an unresolved name gives "not focused"; the probe raises exactly when the name lookup raises or `lsappinfo info` for a resolved name raises, and then with that same exception, unchanged; it answers focused iff that output contains `(in front)`, and not focused otherwise |
| `Focus.IsAppWindowFocused` | xontrib/cmd_done.py:122-129 | any other system is never focused; only Darwin can raise; on Linux focused iff `$WINDOWID` is set and equals the stripped active-window id; on Darwin it is the Darwin probe |
| `CmdDone.NotifyUser` | xontrib/cmd_done.py:132-145 | missing return codes or command lines raise `IndexError`; a focus exception propagates; otherwise a notification exists iff the window is not focused, titled with the last command line, with message `Failed in`/`Done in` plus the duration, under the formatted application name |
| `CmdDone.LongCmdDuration` | xontrib/cmd_done.py:148-161 | no history or an interval of at most the threshold gives no prompt text and no notification; a successful render of a longer interval shows `Readable` of it, and a prompt text reads back as the last interval, which exceeds the threshold; a notification requires notifications enabled and an unfocused window, and its message ends in the prompt text; the render fails exactly when the interval exceeds the threshold, notifications are enabled and `notify_user` raises, and then with that same exception |
| `CmdDone.PromptIndependentOfNotification` | xontrib/cmd_done.py:156-160 | with notifications disabled the render never fails or notifies, and its prompt equals the prompt of any successful render with them enabled |
| `CmdDone.FocusedWindowIsNotNotified` | xontrib/cmd_done.py:136-137 | a focused window never gets a notification; the render fails only when return codes or command lines are missing |
| `CmdDone.OtherOsAlwaysNotifies` | xontrib/cmd_done.py:122-160 | on a system other than Darwin and Linux, a command over the threshold with notifications enabled always gets a notification |
| `CmdDone.UnfocusedLongCommandNotifies` | xontrib/cmd_done.py:139-145 | an unfocused, over-threshold command with notifications enabled gives its duration as the prompt text and exactly one notification |
| `CmdDone.MessageExamples` | xontrib/cmd_done.py:144 | return code 0 gives `Done in 12s`, return code 1 gives `Failed in 12s` |
| `CmdDone.FocusedLongCommandShowsDuration` | xontrib/cmd_done.py:132-160 | a focused window with an over-threshold command still gets its duration as the prompt text, and nothing is sent |
| `CmdDone.TwelveSecondScenario` | xontrib/cmd_done.py:148-161 | a command from 0 to 12 seconds, with the default threshold 5, on an unprobed system shows `12s` and sends one notification with the message for its return code |
| `CmdDone.TwelveSecondScenarioFocused` | xontrib/cmd_done.py:132-161 | the same command on Linux with the window focused still shows `12s` and sends nothing |

## Left out

- Running `xdotool` and `lsappinfo` is not modelled. Their answers are inputs in `Focus.Tools`, with a raised exception as `None` or `Failure`.
- Taking the application name out of the `lsappinfo find` output (line 97: the second piece of `str(out)` split at `"`) is not modelled. `Tools.appOfBundle` gives that name directly, or the exception the call or the split raises.
- Sending the notification through `notifypy` is not modelled. `CmdDone.Render.notification` is the notification that would be sent.
- The host's prompt formatter is a function parameter (`format`).
- Reading `$XONTRIB_CD_LONG_DURATION`, `$XONTRIB_CD_TRIGGER_NOTIFICATION` and `$XONTRIB_CD_NOTIFICATION_APP_NAME` (falling back to `$TITLE`, then `xonsh`) once at module load (lines 8-10), and registering the prompt field, are host-shell plumbing. Those three values are the fields of a `CmdDone.Config` value, given as an input; only the default threshold, `DefaultLongDuration` (5), appears in the model. `$XONTRIB_CD_TERM_PROGRAM_MAP` is not part of `Config`: line 17 reads it on every lookup, and the model keeps it as the `Focus.Host.termProgramMap` field, read by each call of `Focus.DarwinGetAppName`.
- `functools.lru_cache` on `_darwin_get_app_name` (line 21) is not modelled. Caching changes no result unless `$XONTRIB_CD_TERM_PROGRAM_MAP` changes after the first lookup of a `$TERM_PROGRAM` value. Python then returns the stale cached name, while `Focus.DarwinGetAppName` reads the table on every call.
- `platform.system()` is not modelled. The operating system is the input `Host.os`.
- The `logging` warnings are not modelled: they are diagnostics only.
- `round()` on line 43 and float timestamps are not modelled. Durations and timestamps are integers, and `round` of an integer is the integer itself.
- `Tools.appInfo` gives the `lsappinfo info` output as text. Python holds it as bytes and tests `b"(in front)" in out`; the model does not distinguish bytes from characters.
- `Text.Lower` lower-cases only ASCII letters. Python's `str.lower()` also lower-cases other Unicode letters, sometimes into more than one character.
- `CmdDone.History` treats return codes as integers. A return code is truthy iff it is non-zero; other Python values are not modelled.
- `CmdDone.History` holds the timestamp, return-code and command-line lists as independent sequences. Each is read only at its last entry, as the code does.

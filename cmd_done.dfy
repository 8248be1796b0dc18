/**
 * The prompt field `long_cmd_duration` and the desktop notification it may
 * request (`notify_user`). One call is one prompt render: it reads the
 * shell history, returns the text for the prompt and, possibly, the one
 * notification to send.
 */
module CmdDone {
  import opened Wrappers
  import opened Duration
  import opened Focus

  /** Default of `$XONTRIB_CD_LONG_DURATION`, in seconds. */
  const DefaultLongDuration := 5

  /**
   * The shell history as the extension sees it: `tss` holds the
   * `(start, end)` time of each command in seconds, `rtns` the return codes,
   * `inps` the command lines; the last entry of each is the latest command.
   */
  datatype History = History(tss: seq<(int, int)>, rtns: seq<int>, inps: seq<string>)

  /**
   * The configuration: `longDuration` is `$XONTRIB_CD_LONG_DURATION`,
   * `triggerNotification` is `$XONTRIB_CD_TRIGGER_NOTIFICATION`, `appName`
   * the notification's application-name template.
   */
  datatype Config = Config(longDuration: int, triggerNotification: bool, appName: string)

  /** A desktop notification as handed to the notification library. */
  datatype Notification = Notification(applicationName: string, title: string, message: string)

  /** What one prompt render produces: the prompt text, if any, and the notification sent, if any. */
  datatype Render = Render(prompt: Option<string>, notification: Option<Notification>)

  function Last<T>(s: seq<T>): T
    requires s != []
  {
    s[|s| - 1]
  }

  /** Elapsed seconds of a `(start, end)` pair. */
  function Interval(ts: (int, int)): int {
    ts.1 - ts.0
  }

  /** The notification text: `Failed in <duration>` for a non-zero return code, `Done in <duration>` otherwise. */
  function Message(rtn: int, readable: string): string {
    (if rtn != 0 then "Failed" else "Done") + " in " + readable
  }

  /**
   * `notify_user`: reads the latest return code and command line (an empty
   * list raises `IndexError`), then sends nothing when the window is focused
   * and otherwise one notification titled with the command line. The host's
   * prompt formatter, which expands the application-name template, is
   * `format`.
   */
  function NotifyUser(hist: History, readable: string, cfg: Config, format: string -> string,
                      host: Host, tools: Tools): (r: Result<Option<Notification>, Raised>)
    ensures hist.rtns == [] || hist.inps == [] ==> r == Failure(IndexError)
    ensures hist.rtns != [] && hist.inps != [] ==>
      match IsAppWindowFocused(host, tools)
      case Failure(e) => r == Failure(e)
      case Success(focused) => r.Success? && (r.value.Some? <==> !focused)
    ensures r.Success? && r.value.Some? ==>
      && r.value.value.title == Last(hist.inps)
      && r.value.value.message == Message(Last(hist.rtns), readable)
      && r.value.value.applicationName == format(cfg.appName)
  {
    if hist.rtns == [] || hist.inps == [] then Failure(IndexError)
    else
      var rtn, cmd := Last(hist.rtns), Last(hist.inps);
      match IsAppWindowFocused(host, tools)
      case Failure(e) => Failure(e)
      case Success(focused) =>
        if focused then Success(None)
        else Success(Some(Notification(format(cfg.appName), cmd, Message(rtn, readable))))
  }

  /**
   * `long_cmd_duration`: no history gives no prompt text; an interval of at
   * most `longDuration` seconds gives none either; a longer one gives its
   * duration text and, when notifications are enabled, runs `NotifyUser`.
   */
  function LongCmdDuration(hist: History, cfg: Config, format: string -> string,
                           host: Host, tools: Tools): (r: Result<Render, Raised>)
    ensures hist.tss == [] ==> r == Success(Render(None, None))
    ensures hist.tss != [] && Interval(Last(hist.tss)) <= cfg.longDuration ==> r == Success(Render(None, None))
    ensures r.Success? && r.value.prompt.Some? ==>
      && hist.tss != []
      && Interval(Last(hist.tss)) > cfg.longDuration
      && ReadDuration(r.value.prompt.value) == Some(Interval(Last(hist.tss)))
    ensures r.Success? && hist.tss != [] && Interval(Last(hist.tss)) > cfg.longDuration ==>
      r.value.prompt == Some(Readable(Interval(Last(hist.tss))))
    ensures r.Success? && r.value.notification.Some? ==>
      && cfg.triggerNotification
      && r.value.prompt.Some?
      && IsAppWindowFocused(host, tools) == Success(false)
      && hist.rtns != [] && hist.inps != []
      && r.value.notification.value.title == Last(hist.inps)
      && r.value.notification.value.message == Message(Last(hist.rtns), r.value.prompt.value)
    ensures r.Failure? ==> cfg.triggerNotification
    // an exception of `notify_user` is not caught: it fails the render, with that same exception
    ensures hist.tss != [] ==>
      var n := NotifyUser(hist, Readable(Interval(Last(hist.tss))), cfg, format, host, tools);
      && (r.Failure? <==> Interval(Last(hist.tss)) > cfg.longDuration && cfg.triggerNotification && n.Failure?)
      && (r.Failure? ==> r.error == n.error)
  {
    if hist.tss == [] then Success(Render(None, None))
    else
      var interval := Interval(Last(hist.tss));
      if interval > cfg.longDuration then
        var readable := Readable(interval);
        ReadableRoundTrip(interval);
        if cfg.triggerNotification then
          match NotifyUser(hist, readable, cfg, format, host, tools)
          case Failure(e) => Failure(e)
          case Success(sent) => Success(Render(Some(readable), sent))
        else Success(Render(Some(readable), None))
      else Success(Render(None, None))
  }

  /** The prompt text does not depend on whether a notification is requested. */
  lemma PromptIndependentOfNotification(hist: History, cfg: Config, format: string -> string,
                                        host: Host, tools: Tools)
    ensures var quiet := LongCmdDuration(hist, cfg.(triggerNotification := false), format, host, tools);
      && quiet.Success?
      && quiet.value.notification.None?
      && (LongCmdDuration(hist, cfg, format, host, tools).Success? ==>
            LongCmdDuration(hist, cfg, format, host, tools).value.prompt == quiet.value.prompt)
      && (hist.tss != [] && Interval(Last(hist.tss)) > cfg.longDuration ==>
            quiet.value.prompt == Some(Readable(Interval(Last(hist.tss)))))
  {
  }

  /**
   * A focused window never gets a notification, whatever the command took; the
   * render fails only when the return codes or command lines are missing.
   */
  lemma FocusedWindowIsNotNotified(hist: History, cfg: Config, format: string -> string,
                                   host: Host, tools: Tools)
    requires IsAppWindowFocused(host, tools) == Success(true)
    ensures hist.rtns != [] && hist.inps != [] ==> LongCmdDuration(hist, cfg, format, host, tools).Success?
    ensures LongCmdDuration(hist, cfg, format, host, tools).Success? ==>
      LongCmdDuration(hist, cfg, format, host, tools).value.notification.None?
  {
  }

  /**
   * On an operating system other than Darwin and Linux, a command longer than
   * the threshold always produces a notification when notifications are enabled.
   */
  lemma OtherOsAlwaysNotifies(hist: History, cfg: Config, format: string -> string,
                              host: Host, tools: Tools)
    requires host.os == OtherOs && cfg.triggerNotification
    requires hist.tss != [] && Interval(Last(hist.tss)) > cfg.longDuration
    requires hist.rtns != [] && hist.inps != []
    ensures LongCmdDuration(hist, cfg, format, host, tools).Success?
    ensures LongCmdDuration(hist, cfg, format, host, tools).value.notification.Some?
  {
  }

  /**
   * A command longer than the threshold, with notifications enabled, on a
   * window that is not focused: the prompt shows its duration and exactly one
   * notification is sent, titled with the command line.
   */
  lemma UnfocusedLongCommandNotifies(hist: History, cfg: Config, format: string -> string,
                                     host: Host, tools: Tools)
    requires hist.tss != [] && hist.rtns != [] && hist.inps != []
    requires Interval(Last(hist.tss)) > cfg.longDuration && cfg.triggerNotification
    requires IsAppWindowFocused(host, tools) == Success(false)
    ensures var readable := Readable(Interval(Last(hist.tss)));
      LongCmdDuration(hist, cfg, format, host, tools) == Success(Render(Some(readable),
        Some(Notification(format(cfg.appName), Last(hist.inps), Message(Last(hist.rtns), readable)))))
  {
  }

  lemma MessageExamples()
    ensures Message(0, "12s") == "Done in 12s"
    ensures Message(1, "12s") == "Failed in 12s"
  {
  }

  /**
   * A twelve-second command with the default threshold on a system whose
   * focus is never probed: the prompt shows `12s` and the notification's
   * message is `Done in 12s` or `Failed in 12s` (see `MessageExamples`).
   */
  lemma TwelveSecondScenario(hist: History, cfg: Config, format: string -> string, host: Host, tools: Tools)
    requires hist.tss == [(0, 12)] && hist.rtns != [] && hist.inps != []
    requires cfg.longDuration == DefaultLongDuration && cfg.triggerNotification
    requires host.os == OtherOs
    ensures LongCmdDuration(hist, cfg, format, host, tools) == Success(Render(Some("12s"),
      Some(Notification(format(cfg.appName), Last(hist.inps), Message(Last(hist.rtns), "12s")))))
  {
    UnfocusedLongCommandNotifies(hist, cfg, format, host, tools);
    assert Interval(Last(hist.tss)) == 12;
    ReadableOf12();
  }

  /** A focused window: the prompt still shows the duration and nothing is sent. */
  lemma FocusedLongCommandShowsDuration(hist: History, cfg: Config, format: string -> string,
                                        host: Host, tools: Tools)
    requires hist.tss != [] && hist.rtns != [] && hist.inps != []
    requires Interval(Last(hist.tss)) > cfg.longDuration
    requires IsAppWindowFocused(host, tools) == Success(true)
    ensures LongCmdDuration(hist, cfg, format, host, tools)
      == Success(Render(Some(Readable(Interval(Last(hist.tss)))), None))
  {
  }

  /** `$WINDOWID` `42` and an active window `42` are the same window. */
  lemma LinuxSameWindowIsFocused()
    ensures LinuxIsAppWindowFocused(Some("42"), Some("42"))
  {
    var w := "42";
    assert !Text.IsSpace(w[0]) && !Text.IsSpace(w[|w| - 1]);
  }

  /** The same command on Linux with the window focused: the prompt still shows `12s` and nothing is sent. */
  lemma TwelveSecondScenarioFocused(hist: History, cfg: Config, format: string -> string, host: Host, tools: Tools)
    requires hist.tss == [(0, 12)] && hist.rtns != [] && hist.inps != []
    requires cfg.longDuration == DefaultLongDuration && cfg.triggerNotification
    requires host.os == Linux && host.windowId == Some("42") && tools.activeWindow == Some("42")
    ensures LongCmdDuration(hist, cfg, format, host, tools) == Success(Render(Some("12s"), None))
  {
    var interval := Interval(Last(hist.tss));
    assert interval == 12;
    ReadableOf12();
    LinuxSameWindowIsFocused();
    FocusedLongCommandShowsDuration(hist, cfg, format, host, tools);
  }
}

/**
 The Windows message-box utility: one native `MessageBoxTimeoutW` call, either
 with OK or with Yes/No buttons, and in Yes/No mode an optional start of an
 executable. The dialog's return code and the result of starting the process
 are inputs (`present` and `start`); nothing here waits, races or spawns.
 */
module MsgBox {

  import opened Wrappers

  /** Go's `int` on a 64-bit Windows build. */
  newtype int64 = x: int | -0x8000_0000_0000_0000 <= x < 0x8000_0000_0000_0000

  // Button types passed as uType
  const MB_OK: nat := 0x0
  const MB_YESNO: nat := 0x04

  // Return codes of the dialog
  const IDYES: int := 6
  /** The program's `IDTIMEOUT`: it takes the code 5 for a timeout. Windows'
      WinUser.h gives 5 the name IDIGNORE. */
  const IDTIMEOUT: int := 5
  /** The code `MessageBoxTimeoutW` returns when the dialog times out. */
  const MB_TIMEDOUT: int := 32000

  const Caption: string := "Go MsgBox"

  /** The command-line flags of one run. */
  datatype Config = Config(msg: string, timeout: int64, exePath: string, yesNo: bool, autoYes: bool)

  /** The arguments of one `MessageBoxTimeout` call that the program chooses. */
  datatype Dialog = Dialog(text: string, caption: string, buttons: nat, millis: nat)

  /** How a run ends. */
  datatype Outcome =
    | MissingExe              // yes/no mode without -exe: no dialog at all
    | Launched                // Yes (or auto-yes on the code taken for a timeout) and the start succeeded
    | LaunchFailed(err: string)
    | Declined                // No, code 5 without auto-yes, or any other code
    | Acknowledged            // OK mode

  /** What one run did: the dialogs shown, the executables started, the lines
      printed (without their newlines) and how it ended. */
  datatype Run = Run(dialogs: seq<Dialog>, launches: seq<string>, lines: seq<string>, outcome: Outcome)

  // Integer conversions of `uint32(*timeout*1000)`

  const TwoTo32: int := 0x1_0000_0000
  const TwoTo63: int := 0x8000_0000_0000_0000
  const TwoTo64: int := 0x1_0000_0000_0000_0000

  /** Two's complement wrap-around of a 64-bit signed product. */
  function WrapInt64(x: int): (r: int)
    ensures -TwoTo63 <= r < TwoTo63
    ensures (r - x) % TwoTo64 == 0
  {
    (x + TwoTo63) % TwoTo64 - TwoTo63
  }

  /** Go's `uint32(x)`: the low 32 bits. */
  function ToUint32(x: int): (r: nat)
    ensures r < TwoTo32
    ensures (r - x) % TwoTo32 == 0
  {
    x % TwoTo32
  }

  /** The dialog timeout in milliseconds, as the program computes it. */
  function DialogMillis(timeout: int64): nat {
    ToUint32(WrapInt64(timeout as int * 1000))
  }

  lemma LowBitsSurviveWrap(x: int, y: int)
    requires (x - y) % TwoTo64 == 0
    ensures x % TwoTo32 == y % TwoTo32
  {
    var q := (x - y) / TwoTo64;
    assert x - y == q * TwoTo64;
    assert x == y + (q * 0x1_0000_0000) * TwoTo32;
  }

  /** The 64-bit overflow of the product never matters: the timeout is seconds
      times 1000 reduced modulo 2^32, and exactly seconds times 1000 when that
      fits in 32 bits (0 to 4294967 seconds). */
  lemma DialogMillisValue(timeout: int64)
    ensures DialogMillis(timeout) == (timeout as int * 1000) % TwoTo32
    ensures 0 <= timeout as int * 1000 < TwoTo32 ==> DialogMillis(timeout) == timeout as int * 1000
    ensures DialogMillis(timeout) == timeout as int * 1000 <==> 0 <= timeout <= 4294967
  {
    LowBitsSurviveWrap(WrapInt64(timeout as int * 1000), timeout as int * 1000);
  }

  // The decision

  /** Whether the executable is started, given the code taken for a timeout. */
  predicate ProceedsOn(ret: int, autoYes: bool, timeoutCode: int) {
    ret == IDYES || (ret == timeoutCode && autoYes)
  }

  /** The condition under which the program starts the executable. */
  predicate Affirmative(ret: int, autoYes: bool) {
    ProceedsOn(ret, autoYes, IDTIMEOUT)
  }

  /** The same condition with the code the dialog returns on a timeout. */
  predicate IntendedAffirmative(ret: int, autoYes: bool) {
    ProceedsOn(ret, autoYes, MB_TIMEDOUT)
  }

  /** The dialog's answer as a closed set of cases: Yes, the code the program
      takes for a timeout, or any other code. */
  datatype Answer = Yes | TakenForTimeout | Other(code: int)

  function Classify(ret: int): (a: Answer)
    ensures a == Yes <==> ret == IDYES
    ensures a == TakenForTimeout <==> ret == IDTIMEOUT
    ensures a.Other? ==> a.code == ret
  {
    if ret == IDYES then Yes else if ret == IDTIMEOUT then TakenForTimeout else Other(ret)
  }

  /** The decision table: Yes proceeds, the code taken for a timeout proceeds
      only with auto-yes, every other answer (No included) does not proceed. */
  predicate Proceeds(a: Answer, autoYes: bool) {
    match a
    case Yes => true
    case TakenForTimeout => autoYes
    case Other(_) => false
  }

  /** The one boolean formula of the program agrees with the decision table. */
  lemma AffirmativeMatchesTable(ret: int, autoYes: bool)
    ensures Affirmative(ret, autoYes) <==> Proceeds(Classify(ret), autoYes)
  {
  }

  // One run

  const PromptLine: string := "Please provide an executable to run using -exe flag when using Yes/No box."
  const StartedLine: string := "Executable started successfully."
  const DeclinedLine: string := "No clicked or timeout without auto-yes."
  const ClosedLine: string := "OK message box closed."

  /** The dialog a configuration asks for. */
  function DialogFor(cfg: Config): (d: Dialog)
    ensures d.text == cfg.msg && d.caption == "Go MsgBox"
    ensures d.buttons == (if cfg.yesNo then 0x04 else 0x0)
    ensures d.millis == (cfg.timeout as int * 1000) % 0x1_0000_0000
    ensures 0 <= cfg.timeout <= 4294967 ==> d.millis == cfg.timeout as int * 1000
  {
    DialogMillisValue(cfg.timeout);
    Dialog(cfg.msg, Caption, if cfg.yesNo then MB_YESNO else MB_OK, DialogMillis(cfg.timeout))
  }

  /** The body of `main` after flag parsing, starting the executable on Yes or
      on `timeoutCode` with auto-yes. `present` stands for the native dialog
      and returns its code; `start` stands for `cmd.Start` and returns its
      error, if any. */
  function RunWith(cfg: Config, present: Dialog -> int, start: string -> Option<string>, timeoutCode: int): Run {
    var header := ["Showing message box: " + cfg.msg];
    if cfg.yesNo then
      if cfg.exePath == "" then
        Run([], [], header + [PromptLine], MissingExe)
      else
        var dialog := DialogFor(cfg);
        Respond(cfg, dialog, present(dialog), start, timeoutCode)
    else
      var dialog := DialogFor(cfg);
      var _ := present(dialog);
      Run([dialog], [], header + [ClosedLine], Acknowledged)
  }

  /** Yes/No mode with an executable, once the dialog returned `ret`. */
  function Respond(cfg: Config, dialog: Dialog, ret: int, start: string -> Option<string>, timeoutCode: int)
    : (r: Run)
    ensures r.dialogs == [dialog]
    ensures r.launches != [] <==> ProceedsOn(ret, cfg.autoYes, timeoutCode)
    ensures r.launches != [] ==> r.launches == [cfg.exePath]
    ensures |r.lines| >= 2 && r.lines[0] == "Showing message box: " + cfg.msg
    ensures r.outcome != MissingExe && r.outcome != Acknowledged
    ensures r.outcome == Launched <==> StartedLine in r.lines
  {
    var header := ["Showing message box: " + cfg.msg];
    LinesDiffer(cfg.msg);
    if ProceedsOn(ret, cfg.autoYes, timeoutCode) then
      var yes := "Yes clicked or auto-yes triggered, running executable: " + cfg.exePath;
      assert |yes| > |StartedLine|;
      var told := header + [yes];
      match start(cfg.exePath)
      case Some(err) =>
        var failed := "Failed to start executable: " + err;
        assert failed[0] == 'F';
        Run([dialog], [cfg.exePath], told + [failed], LaunchFailed(err))
      case None =>
        Run([dialog], [cfg.exePath], told + [StartedLine], Launched)
    else
      Run([dialog], [], header + [DeclinedLine], Declined)
  }

  /** The success line differs from the other fixed lines and the header. */
  lemma LinesDiffer(msg: string)
    ensures StartedLine != "Showing message box: " + msg
    ensures StartedLine != PromptLine && StartedLine != DeclinedLine && StartedLine != ClosedLine
  {
    assert ("Showing message box: " + msg)[0] != StartedLine[0];
    assert |PromptLine| != |StartedLine| && |DeclinedLine| != |StartedLine|;
    assert |ClosedLine| != |StartedLine|;
  }

  /** `main` as written: code 5 counts as a timeout. */
  function Execute(cfg: Config, present: Dialog -> int, start: string -> Option<string>): (r: Run)
    ensures |r.dialogs| <= 1 && |r.launches| <= 1
    ensures r.lines != [] && r.lines[0] == "Showing message box: " + cfg.msg
    ensures r.outcome == MissingExe <==> cfg.yesNo && cfg.exePath == ""
    ensures r.outcome == MissingExe <==> r.dialogs == []
    ensures r.dialogs != [] ==> r.dialogs[0].caption == Caption && r.dialogs[0].text == cfg.msg
    ensures r.dialogs != [] ==> r.dialogs[0].buttons == (if cfg.yesNo then MB_YESNO else MB_OK)
    ensures r.launches != [] <==>
              cfg.yesNo && cfg.exePath != "" && Affirmative(present(DialogFor(cfg)), cfg.autoYes)
    ensures r.launches != [] ==> r.launches == [cfg.exePath]
    ensures r.outcome == Acknowledged <==> !cfg.yesNo
    ensures r.outcome == Launched ==> StartedLine in r.lines
    ensures r.outcome != Launched ==> StartedLine !in r.lines
  {
    LinesDiffer(cfg.msg);
    RunWith(cfg, present, start, IDTIMEOUT)
  }

  /** `main` with the launch test comparing against the code the dialog
      returns on a timeout. */
  function ExecuteIntended(cfg: Config, present: Dialog -> int, start: string -> Option<string>): (r: Run)
    ensures r.launches != [] <==>
              cfg.yesNo && cfg.exePath != "" && IntendedAffirmative(present(DialogFor(cfg)), cfg.autoYes)
    ensures r.launches != [] ==> r.launches == [cfg.exePath]
    ensures r.outcome == MissingExe <==> cfg.yesNo && cfg.exePath == ""
    ensures r.outcome == Acknowledged <==> !cfg.yesNo
    ensures !cfg.yesNo || cfg.exePath == "" ==> r == Execute(cfg, present, start)
  {
    RunWith(cfg, present, start, MB_TIMEDOUT)
  }

  /** Yes/No mode without an executable stops before any dialog and never
      launches anything. */
  lemma MissingExeStopsEarly(cfg: Config, present: Dialog -> int, start: string -> Option<string>)
    requires cfg.yesNo && cfg.exePath == ""
    ensures Execute(cfg, present, start).dialogs == []
    ensures Execute(cfg, present, start).launches == []
    ensures Execute(cfg, present, start).lines[1..] == [PromptLine]
  {
  }

  /** In Yes/No mode a launch happens exactly on Yes, or on code 5 with
      auto-yes, whatever the start result. */
  lemma LaunchIff(cfg: Config, present: Dialog -> int, start: string -> Option<string>)
    requires cfg.yesNo && cfg.exePath != ""
    ensures var ret := present(DialogFor(cfg));
            (Execute(cfg, present, start).launches == [cfg.exePath]
             <==> ret == IDYES || (ret == IDTIMEOUT && cfg.autoYes))
  {
  }

  /** Any other return code, including No and code 5 without auto-yes, ends declined. */
  lemma OtherCodesDecline(cfg: Config, present: Dialog -> int, start: string -> Option<string>)
    requires cfg.yesNo && cfg.exePath != ""
    requires !Affirmative(present(DialogFor(cfg)), cfg.autoYes)
    ensures Execute(cfg, present, start).outcome == Declined
    ensures Execute(cfg, present, start).launches == []
    ensures Execute(cfg, present, start).lines[1..] == [DeclinedLine]
  {
  }

  /** OK mode never launches, and neither the executable path, the auto-yes
      flag, the dialog's answer nor the start routine changes anything. */
  lemma OkModeIgnoresExe(cfg: Config, exePath: string, autoYes: bool,
                         present: Dialog -> int, present': Dialog -> int,
                         start: string -> Option<string>, start': string -> Option<string>)
    requires !cfg.yesNo
    ensures Execute(cfg, present, start).launches == []
    ensures Execute(cfg, present, start).outcome == Acknowledged
    ensures Execute(cfg, present, start).lines == ["Showing message box: " + cfg.msg, "OK message box closed."]
    ensures Execute(cfg, present, start)
         == Execute(cfg.(exePath := exePath, autoYes := autoYes), present', start')
  {
  }

  /** The single dialog of a run carries the mode's button type, the fixed
      caption and the converted timeout. */
  lemma DialogArguments(cfg: Config, present: Dialog -> int, start: string -> Option<string>)
    requires !(cfg.yesNo && cfg.exePath == "")
    ensures Execute(cfg, present, start).dialogs
         == [Dialog(cfg.msg, "Go MsgBox", if cfg.yesNo then 0x04 else 0x0, DialogMillis(cfg.timeout))]
  {
  }

  /** A start error ends the run with that error and never with the success
      line; a successful start prints it. Either way at most one launch. */
  lemma StartResult(cfg: Config, present: Dialog -> int, start: string -> Option<string>)
    requires cfg.yesNo && cfg.exePath != ""
    requires Affirmative(present(DialogFor(cfg)), cfg.autoYes)
    ensures |Execute(cfg, present, start).lines| == 3
    ensures Execute(cfg, present, start).lines[1]
         == "Yes clicked or auto-yes triggered, running executable: " + cfg.exePath
    ensures start(cfg.exePath).Some? ==>
              && Execute(cfg, present, start).outcome == LaunchFailed(start(cfg.exePath).value)
              && StartedLine !in Execute(cfg, present, start).lines
              && Execute(cfg, present, start).lines[2] == "Failed to start executable: " + start(cfg.exePath).value
    ensures start(cfg.exePath).None? ==> Execute(cfg, present, start).outcome == Launched
    ensures start(cfg.exePath).None? ==> Execute(cfg, present, start).lines[2] == "Executable started successfully."
    ensures |Execute(cfg, present, start).launches| == 1
  {
  }

  // The timeout code

  /** As written, a dialog that times out (code 32000) never triggers auto-yes:
      the run ends declined and launches nothing. */
  lemma TimeoutNeverAutoYes(cfg: Config, present: Dialog -> int, start: string -> Option<string>)
    requires cfg.yesNo && cfg.exePath != "" && cfg.autoYes
    requires present(DialogFor(cfg)) == MB_TIMEDOUT
    ensures Execute(cfg, present, start).launches == []
    ensures Execute(cfg, present, start).outcome == Declined
    ensures Execute(cfg, present, start).lines[1..] == [DeclinedLine]
  {
  }

  /** With the timeout code corrected, the exe is launched exactly on Yes, or on
      a timeout with auto-yes. */
  lemma IntendedLaunchIff(cfg: Config, present: Dialog -> int, start: string -> Option<string>)
    requires cfg.yesNo && cfg.exePath != ""
    ensures var ret := present(DialogFor(cfg));
            (ExecuteIntended(cfg, present, start).launches == [cfg.exePath]
             <==> ret == IDYES || (ret == MB_TIMEDOUT && cfg.autoYes))
    ensures cfg.autoYes && present(DialogFor(cfg)) == MB_TIMEDOUT ==>
              ExecuteIntended(cfg, present, start).outcome != Declined
  {
  }

  /** The correction changes nothing for any code other than 5 and 32000. */
  lemma IntendedAgrees(cfg: Config, present: Dialog -> int, start: string -> Option<string>)
    requires present(DialogFor(cfg)) != IDTIMEOUT && present(DialogFor(cfg)) != MB_TIMEDOUT
    ensures ExecuteIntended(cfg, present, start) == Execute(cfg, present, start)
  {
  }
}

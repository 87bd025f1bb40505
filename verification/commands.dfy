/**
  What handle_commands does with one command once it has been split into
  tokens: the schedule gate, then dispatch on the first two tokens
  (case-insensitively) to set_temp, start_program or hold_temp, with the
  outcome that is logged and optionally mailed.
*/
module Commands {
  import opened Wrappers
  import opened Tokens
  import opened Positioner
  import opened Schedule

  /** The controller operation a command calls, with its temperature argument. */
  datatype Action =
    | SetTemp(target: int)
    | StartProgram(temp: Option<int>)
    | HoldTemp(temp: Option<int>)
    | NoAction

  /** The button presses an action issues. */
  function ActionPresses(a: Action): seq<int> {
    match a
    case SetTemp(t) => SetTempPresses(t)
    case StartProgram(t) => ModePresses(START_PROGRAM, t)
    case HoldTemp(t) => ModePresses(HOLD_TEMP, t)
    case NoAction => []
  }

  /** The outcome (the subject of the notification), by branch, with the token text it quotes. */
  datatype Outcome =
    | TemperatureSet(setting: string)
    | ProgramStarted(degrees: Option<string>)
    | HoldPressed(degrees: Option<string>)
    | UnknownParameter(parameter: string)
    | CommandMissing
    | UnknownCommand(command: string)

  /** The result of dispatching one command, with the value of `par3` afterwards. */
  datatype Dispatched = Dispatched(action: Action, outcome: Outcome, par3: Option<string>)

  /** The temperature a mode command passes on: `int(par3)` when par3 is set and all digits. */
  function ModeTemp(par3: Option<string>): (r: Option<int>)
    ensures r.Some? <==> par3.Some? && IsDigits(par3.value)
    ensures r.Some? ==> r.value >= 0
  {
    if par3.Some? && IsDigits(par3.value) then Some(DigitsValue(par3.value)) else None
  }

  /**
    Dispatch on the tokens of a due command. `par3` is the value the variable
    has from earlier commands of the same pass: a mode command without a third
    token does not reset it, so an earlier command's temperature is reused.
  */
  function Dispatch(parts: seq<string>, par3: Option<string>): (r: Dispatched)
    requires parts != []
    ensures r.par3 == par3 || (|parts| > 2 && r.par3 == Some(Lower(parts[2])))
    ensures r.action != NoAction ==> Lower(parts[0]) == "heat" && |parts| >= 2
    ensures r.action.SetTemp? <==> r.outcome.TemperatureSet?
  {
    var par1 := Lower(parts[0]);
    if par1 != "heat" then Dispatched(NoAction, UnknownCommand(par1), par3)
    else if |parts| == 1 then Dispatched(NoAction, CommandMissing, par3)
    else
      var par2 := Lower(parts[1]);
      if IsDigits(par2) then Dispatched(SetTemp(DigitsValue(par2)), TemperatureSet(par2), par3)
      else if par2 == "on" || par2 == "off" then
        var p3 := if |parts| > 2 then Some(Lower(parts[2])) else par3;
        var t := ModeTemp(p3);
        var quoted := if t.Some? then p3 else None;
        if par2 == "on" then Dispatched(StartProgram(t), ProgramStarted(quoted), p3)
        else Dispatched(HoldTemp(t), HoldPressed(quoted), p3)
      else Dispatched(NoAction, UnknownParameter(par2), par3)
  }

  lemma ModeWordsNotDigits()
    ensures !IsDigits("on") && !IsDigits("off")
  {
    assert "on"[0] == 'o' && "off"[0] == 'o';
  }

  /** The first token names the heat command (compared after lowering). */
  predicate IsHeat(parts: seq<string>) {
    parts != [] && Lower(parts[0]) == "heat"
  }

  /** The lowered second token, if there is one. */
  function Param(parts: seq<string>): Option<string> {
    if |parts| >= 2 then Some(Lower(parts[1])) else None
  }

  /** `heat on` or `heat off`, with anything after. */
  predicate IsMode(parts: seq<string>) {
    IsHeat(parts) && Param(parts) in {Some("on"), Some("off")}
  }

  /** The par3 a mode command uses: its own lowered third token, or else what earlier commands left. */
  function ModePar3(parts: seq<string>, par3: Option<string>): Option<string> {
    if |parts| > 2 then Some(Lower(parts[2])) else par3
  }

  /**
    The rejections: a first token other than `heat` is an unknown command, a
    bare `heat` is a missing command, and a second token that is neither
    digits nor on/off is an unknown parameter. Each quotes the lowered token,
    presses nothing and keeps par3.
  */
  lemma DispatchRejects(parts: seq<string>, par3: Option<string>)
    requires parts != []
    ensures !IsHeat(parts) ==> Dispatch(parts, par3) == Dispatched(NoAction, UnknownCommand(Lower(parts[0])), par3)
    ensures IsHeat(parts) && |parts| == 1 ==> Dispatch(parts, par3) == Dispatched(NoAction, CommandMissing, par3)
    ensures IsHeat(parts) && |parts| >= 2 && !IsDigits(Lower(parts[1])) && !IsMode(parts) ==>
              Dispatch(parts, par3) == Dispatched(NoAction, UnknownParameter(Lower(parts[1])), par3)
  {
  }

  /**
    Only a mode command changes par3, and only with a third token; a mode
    command without one reuses the par3 it was given. Its temperature is
    int(par3) when that is all digits, and the outcome quotes par3 then.
  */
  lemma DispatchModeCommand(parts: seq<string>, par3: Option<string>)
    requires parts != []
    ensures Dispatch(parts, par3).par3 == if IsMode(parts) then ModePar3(parts, par3) else par3
    ensures IsMode(parts) ==>
              var p3 := ModePar3(parts, par3);
              var t := ModeTemp(p3);
              var quoted := if t.Some? then p3 else None;
              Dispatch(parts, par3) ==
                if Param(parts) == Some("on") then Dispatched(StartProgram(t), ProgramStarted(quoted), p3)
                else Dispatched(HoldTemp(t), HoldPressed(quoted), p3)
  {
    ModeWordsNotDigits();
  }

  /**
    Which button a command presses first: COOLER (set_temp) for `heat <digits>`,
    START_PROGRAM for `heat on`, HOLD_TEMP for `heat off`; every other command,
    including a bare `heat`, presses nothing.
  */
  lemma DispatchButtons(parts: seq<string>, par3: Option<string>)
    requires parts != []
    ensures var p := ActionPresses(Dispatch(parts, par3).action);
      && (p != [] && p[0] == COOLER <==> IsHeat(parts) && Param(parts).Some? && IsDigits(Param(parts).value))
      && (p != [] && p[0] == START_PROGRAM <==> IsHeat(parts) && Param(parts) == Some("on"))
      && (p != [] && p[0] == HOLD_TEMP <==> IsHeat(parts) && Param(parts) == Some("off"))
      && (p == [] <==> !IsHeat(parts) || Param(parts).None? ||
                       !(IsDigits(Param(parts).value) || Param(parts).value in {"on", "off"}))
  {
    if IsHeat(parts) && Param(parts).Some? && IsDigits(Param(parts).value) {
      assert SetTempPresses(DigitsValue(Lower(parts[1])))[0] == COOLER;
      assert "on"[0] == 'o' && "off"[0] == 'o';
    }
  }

  /** `heat <digits>` sets exactly that temperature and leaves par3 alone. */
  lemma DispatchSetTemp(parts: seq<string>, par3: Option<string>)
    requires IsHeat(parts) && Param(parts).Some? && IsDigits(Param(parts).value)
    ensures Dispatch(parts, par3).action == SetTemp(DigitsValue(Lower(parts[1])))
    ensures Dispatch(parts, par3).par3 == par3
  {
  }

  /** Only the lowered tokens matter: commands that differ in letter case dispatch alike. */
  lemma DispatchIgnoresCase(parts: seq<string>, other: seq<string>, par3: Option<string>)
    requires parts != [] && |parts| == |other|
    requires forall k :: 0 <= k < |parts| ==> Lower(parts[k]) == Lower(other[k])
    ensures Dispatch(parts, par3) == Dispatch(other, par3)
  {
  }

  /**
    As written, a mode command without a third token takes its temperature
    from `par3` as left by an earlier command of the same pass.
  */
  lemma StaleTemperatureReused()
    ensures Dispatch(["heat", "on"], Some("18")).action == StartProgram(Some(18))
    ensures Dispatch(["heat", "on"], None).action == StartProgram(None)
  {
    assert Lower("heat") == "heat" && Lower("on") == "on";
    assert IsDigits("18") && DigitsValue("18") == 18;
    ModeWordsNotDigits();
  }

  /**
    With `par3` reset for each command, a mode command's temperature comes
    from its own third token only: present and all digits, or absent.
  */
  lemma FreshModeTemperature(parts: seq<string>)
    requires IsHeat(parts) && Param(parts) in {Some("on"), Some("off")}
    ensures var a := Dispatch(parts, None).action;
      (a.StartProgram? || a.HoldTemp?) &&
      a.temp == if |parts| > 2 && IsDigits(Lower(parts[2])) then Some(DigitsValue(Lower(parts[2]))) else None
  {
    ModeWordsNotDigits();
  }

  /** What one pass does with one command fetched from the queue. */
  datatype StepResult = StepResult(remove: bool, action: Action, outcome: Option<Outcome>, par3: Option<string>)

  /**
    One iteration of the loop of handle_commands: a blank command or one with a
    bad date or time is removed without presses or outcome; one scheduled
    later stays; any other is dispatched, removed and reported.
  */
  function Step(command: string, now: Timestamp, par3: Option<string>): (r: StepResult)
    ensures !r.remove ==> r.action == NoAction && r.outcome == None && r.par3 == par3
    ensures r.outcome.Some? ==> r.remove
  {
    var parts := Split(command);
    match Gate(parts, now)
    case Blank => StepResult(true, NoAction, None, par3)
    case BadSchedule => StepResult(true, NoAction, None, par3)
    case NotDue => StepResult(false, NoAction, None, par3)
    case Due =>
      var d := Dispatch(parts, par3);
      StepResult(true, d.action, Some(d.outcome), d.par3)
  }

  /** `heat <digits>` splits into its two words. */
  lemma SplitHeatDigits(w: string)
    requires IsDigits(w)
    ensures Split("heat " + w) == ["heat", w]
  {
    var words := ["heat", w];
    assert Join(words[1..]) == w;
    assert Join(words) == "heat " + w;
    assert IsToken("heat");
    SplitJoin(words);
  }

  /** `heat <digits>` dispatches to set_temp with that temperature. */
  lemma DispatchHeatDigits(w: string, par3: Option<string>)
    requires IsDigits(w)
    ensures Dispatch(["heat", w], par3) == Dispatched(SetTemp(DigitsValue(w)), TemperatureSet(w), par3)
  {
    assert Lower("heat") == "heat";
    assert Lower(w) == w;
  }

  /** A due `heat <digits>` line sets that temperature, is removed, reports the digits and leaves par3 alone. */
  lemma StepSetTempCommand(w: string, now: Timestamp, par3: Option<string>)
    requires IsDigits(w)
    ensures Step("heat " + w, now, par3) == StepResult(true, SetTemp(DigitsValue(w)), Some(TemperatureSet(w)), par3)
  {
    SplitHeatDigits(w);
    assert ':' !in w;
    GateNotDue(["heat", w], now);
    DispatchHeatDigits(w, par3);
  }

  /** The verdict of the gate for a raw command. */
  function VerdictOf(command: string, now: Timestamp): Verdict {
    Gate(Split(command), now)
  }

  /**
    A command stays in the queue exactly when it is not yet due, and then
    nothing is pressed, nothing reported and par3 is untouched. An empty or
    whitespace-only command is removed without presses or outcome, and so is
    one whose date or time does not parse. A due command is always reported.
  */
  lemma StepFate(command: string, now: Timestamp, par3: Option<string>)
    ensures var r := Step(command, now, par3);
      && (!r.remove <==> VerdictOf(command, now) == NotDue)
      && (!r.remove ==> ActionPresses(r.action) == [] && r.outcome == None && r.par3 == par3)
      && (IsBlank(command) ==> r.remove && ActionPresses(r.action) == [] && r.outcome == None)
      && (VerdictOf(command, now) == BadSchedule ==> r.remove && ActionPresses(r.action) == [] && r.outcome == None)
      && (VerdictOf(command, now) == Due <==> r.outcome.Some?)
      && (VerdictOf(command, now) != Due ==> r.action == NoAction && r.outcome == None && r.par3 == par3)
  {
    SplitEmpty(command);
  }

  /** `HEAT 15` sets 15 degrees, whatever the letter case of the keyword. */
  lemma DispatchExampleSet()
    ensures Dispatch(["HEAT", "15"], None).action == SetTemp(15)
  {
    assert Lower("HEAT") == "heat";
    assert Lower("15") == "15";
    assert IsDigits("15") && DigitsValue("15") == 15;
  }

  /** `heat on 12` starts the program with 12 degrees as a temporary setting. */
  lemma DispatchExampleOn()
    ensures Dispatch(["heat", "on", "12"], None).action == StartProgram(Some(12))
  {
    assert Lower("heat") == "heat" && Lower("on") == "on";
    assert Lower("12") == "12";
    assert IsDigits("12") && DigitsValue("12") == 12;
    ModeWordsNotDigits();
    assert ModeTemp(Some("12")) == Some(12);
  }

  /** `heat off` holds the current setting: no temperature, when no earlier command set par3. */
  lemma DispatchExampleOff()
    ensures Dispatch(["heat", "off"], None).action == HoldTemp(None)
  {
    assert Lower("heat") == "heat" && Lower("off") == "off";
    ModeWordsNotDigits();
  }

  /**
    A line whose tokens end in a token without ':' is due: it is dispatched on
    its tokens and removed, and the outcome is reported.
  */
  lemma StepDue(words: seq<string>, now: Timestamp, par3: Option<string>)
    requires words != [] && forall k :: 0 <= k < |words| ==> IsToken(words[k])
    requires ':' !in words[|words| - 1]
    ensures var d := Dispatch(words, par3);
      Step(Join(words), now, par3) == StepResult(true, d.action, Some(d.outcome), d.par3)
  {
    SplitJoin(words);
    GateNotDue(words, now);
  }

  /**
    A line that ends in a valid date and a valid time is held back, untouched,
    exactly when that day and minute of this year are after the minute `now`
    is in; otherwise it is dispatched on all its tokens, removed and reported.
  */
  lemma StepDated(words: seq<string>, dateTok: string, timeTok: string, d: DayMonth, t: ClockTime,
                  now: Timestamp, par3: Option<string>)
    requires forall k :: 0 <= k < |words| ==> IsToken(words[k])
    requires ParseDate(dateTok) == Some(d) && ParseTime(timeTok) == Some(t)
    ensures var parts := words + [dateTok, timeTok];
      var r := Dispatch(parts, par3);
      Step(Join(parts), now, par3) ==
        if AfterMinute(d.month, d.day, t, now) then StepResult(false, NoAction, None, par3)
        else StepResult(true, r.action, Some(r.outcome), r.par3)
  {
    var parts := words + [dateTok, timeTok];
    AcceptedTokens(timeTok, dateTok);
    assert forall k :: 0 <= k < |parts| ==> IsToken(parts[k]);
    SplitJoin(parts);
    GateDated(words, dateTok, timeTok, d, t, now);
  }

  /**
    A line that ends in a valid time, after a token without '-', is held back
    exactly when that minute of today is still to come; otherwise it is
    dispatched on all its tokens, removed and reported.
  */
  lemma StepUndated(words: seq<string>, timeTok: string, t: ClockTime, now: Timestamp, par3: Option<string>)
    requires forall k :: 0 <= k < |words| ==> IsToken(words[k])
    requires words != [] ==> '-' !in words[|words| - 1]
    requires ParseTime(timeTok) == Some(t)
    ensures var parts := words + [timeTok];
      var r := Dispatch(parts, par3);
      Step(Join(parts), now, par3) ==
        if t.hour > now.hour || (t.hour == now.hour && t.minute > now.minute) then StepResult(false, NoAction, None, par3)
        else StepResult(true, r.action, Some(r.outcome), r.par3)
  {
    var parts := words + [timeTok];
    AcceptedTokens(timeTok, "");
    assert forall k :: 0 <= k < |parts| ==> IsToken(parts[k]);
    SplitJoin(parts);
    GateUndated(words, timeTok, t, now);
  }

  /** Once due, `heat on 12 25-12 09:00` starts the program at 12 degrees and leaves "12" in par3. */
  lemma DispatchTimedExample()
    ensures Dispatch(["heat", "on", "12", "25-12", "09:00"], None) ==
              Dispatched(StartProgram(Some(12)), ProgramStarted(Some("12")), Some("12"))
  {
    assert Lower("heat") == "heat" && Lower("on") == "on" && Lower("12") == "12";
    assert IsDigits("12") && DigitsValue("12") == 12;
    ModeWordsNotDigits();
  }

  /** The line `heat on 12 25-12 09:00`: three tokens, then its date and its time. */
  lemma TimedExampleTokens()
    ensures ["heat", "on", "12"] + ["25-12", "09:00"] == ["heat", "on", "12", "25-12", "09:00"]
    ensures forall k :: 0 <= k < |["heat", "on", "12"]| ==> IsToken(["heat", "on", "12"][k])
  {
    var words := ["heat", "on", "12"];
    assert IsToken("heat") && IsToken("on") && IsToken("12");
    assert forall k :: 0 <= k < |words| ==> words[k] in {"heat", "on", "12"};
  }

  /** The line `heat on 12 25-12 09:00` stays queued, untouched, on the 24th of December at 10:00. */
  lemma StepTimedExampleHeld()
    ensures Step(Join(["heat", "on", "12", "25-12", "09:00"]), Timestamp(12, 24, 10, 0, 0, 0), None) ==
              StepResult(false, NoAction, None, None)
  {
    var d, t, now := DayMonth(25, 12), ClockTime(9, 0), Timestamp(12, 24, 10, 0, 0, 0);
    TimedExampleTokens();
    ParseTimeNine();
    ParseDateChristmas();
    StepDated(["heat", "on", "12"], "25-12", "09:00", d, t, now, None);
  }

  /** On the 25th of December at 09:01 the same line starts the program at 12 degrees and is removed. */
  lemma StepTimedExampleDue()
    ensures Step(Join(["heat", "on", "12", "25-12", "09:00"]), Timestamp(12, 25, 9, 1, 0, 0), None) ==
              StepResult(true, StartProgram(Some(12)), Some(ProgramStarted(Some("12"))), Some("12"))
  {
    var d, t, now := DayMonth(25, 12), ClockTime(9, 0), Timestamp(12, 25, 9, 1, 0, 0);
    TimedExampleTokens();
    ParseTimeNine();
    ParseDateChristmas();
    DispatchTimedExample();
    StepDated(["heat", "on", "12"], "25-12", "09:00", d, t, now, None);
  }

  /** `heat off <digits>` dispatches to hold_temp with that temperature. */
  lemma DispatchHoldDigits(w: string, par3: Option<string>)
    requires IsDigits(w)
    ensures Dispatch(["heat", "off", w], par3) == Dispatched(HoldTemp(Some(DigitsValue(w))), HoldPressed(Some(w)), Some(w))
  {
    assert Lower("heat") == "heat" && Lower("off") == "off" && Lower(w) == w;
    ModeWordsNotDigits();
  }

  /** `heat off <digits>` holds that temperature and leaves the digits in par3. */
  lemma StepHoldDigits(w: string, now: Timestamp, par3: Option<string>)
    requires IsDigits(w)
    ensures Step("heat off " + w, now, par3) ==
              StepResult(true, HoldTemp(Some(DigitsValue(w))), Some(HoldPressed(Some(w))), Some(w))
    ensures ActionPresses(Step("heat off " + w, now, par3).action) == ModePresses(HOLD_TEMP, Some(DigitsValue(w)))
  {
    HeatOffWords(w);
    StepDue(["heat", "off", w], now, par3);
    DispatchHoldDigits(w, par3);
  }

  /** `heat off <digits>` is three tokens, the last without ':'. */
  lemma HeatOffWords(w: string)
    requires IsDigits(w)
    ensures Join(["heat", "off", w]) == "heat off " + w
    ensures forall k :: 0 <= k < |["heat", "off", w]| ==> IsToken(["heat", "off", w][k])
    ensures ':' !in w
  {
    var words := ["heat", "off", w];
    assert Join(words[2..]) == w;
    assert Join(words[1..]) == "off " + w;
    assert IsToken("heat") && IsToken("off");
    assert forall k :: 0 <= k < |words| ==> words[k] in {"heat", "off", w};
  }

  /** `heat on`, in any letter case: two tokens, the last without ':', dispatched to start_program. */
  lemma HeatOnWords(m: string, par3: Option<string>)
    requires Lower(m) == "on"
    ensures Join(["heat", m]) == "heat " + m
    ensures IsToken("heat") && IsToken(m) && ':' !in m
    ensures var t := ModeTemp(par3);
      Dispatch(["heat", m], par3) == Dispatched(StartProgram(t), ProgramStarted(if t.Some? then par3 else None), par3)
  {
    assert LowerChar(m[0]) == 'o' && LowerChar(m[1]) == 'n';
    assert Join(["heat", m][1..]) == m;
    assert Lower("heat") == "heat";
    ModeWordsNotDigits();
  }

  /**
    `heat on`, in any letter case, starts the program with the temperature
    par3 holds, if it is all digits.
  */
  lemma StepStartOn(m: string, now: Timestamp, par3: Option<string>)
    requires Lower(m) == "on"
    ensures var t := ModeTemp(par3);
      && Step("heat " + m, now, par3) == StepResult(true, StartProgram(t), Some(ProgramStarted(if t.Some? then par3 else None)), par3)
      && ActionPresses(Step("heat " + m, now, par3).action) == ModePresses(START_PROGRAM, t)
  {
    HeatOnWords(m, par3);
    StepDue(["heat", m], now, par3);
  }

  /**
    A one-token line that does not lower to `heat` (and holds no ':', so no
    schedule) is reported as an unknown command, in lower case, and removed;
    nothing is pressed.
  */
  lemma StepUnknownCommand(w: string, now: Timestamp, par3: Option<string>)
    requires IsToken(w) && ':' !in w && Lower(w) != "heat"
    ensures Step(w, now, par3) == StepResult(true, NoAction, Some(UnknownCommand(Lower(w))), par3)
    ensures ActionPresses(Step(w, now, par3).action) == []
  {
    assert Join([w]) == w;
    StepDue([w], now, par3);
  }
}

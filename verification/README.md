# Chronotherm controller: a Dafny model of heat.py

heat.py lets a thermostat (a Chronotherm) be driven remotely. The device has
no input for setting a temperature directly. It only has relative WARMER and
COOLER buttons plus START_PROGRAM and HOLD_TEMP, and its current setting
cannot be read back. The `ChronothermController` keeps a queue of text commands
such as `heat 18`, `heat on 12 25-12 09:00` or `HEAT off`. `handle_commands`
goes through that queue once and does the following for each command:

- Runs the schedule gate: a trailing `HH:MM`, optionally preceded by `DD-MM`,
  defers the command until that moment of the current year.
- Dispatches a due command to `set_temp`, `start_program` or `hold_temp`.
- Removes the command from the queue and reports an outcome.

`set_temp` is the Temperature Positioning Protocol. It presses COOLER often
enough to reach MIN_TEMP from any setting up to MAX_TEMP + 2, clamps the target
to MAX_TEMP, and then presses WARMER once per degree above MIN_TEMP.

The model has seven modules:

- `Wrappers`: the `Option` type.
- `Tokens`: Python 2's `split()`, `lower()`, `isdigit()` and `int()` on ASCII strings.
- `Positioner`: the button codes and the press sequences of `set_temp`,
  `start_program` and `hold_temp`. It also holds an assumed device model on
  which the protocol's convergence is proved.
- `Schedule`: `strptime` with `'%H:%M'` and `'%d-%m'`, and the `start > now` gate.
- `Commands`: what happens to one command. This covers the gate, dispatch on
  the lowered tokens and the `par3` variable that outlives a command.
- `Queue`: one pass over the queue, as a function. `Pass` follows the Python
  loop exactly. The list iterator fetches index i and then moves to i + 1.
  `list.remove` drops the first equal element. `par3` is carried from command
  to command. `PassFixed` is the corrected pass (see Findings).
- `Controller`: the class `ChronothermController`. Its fields `commands`,
  `sendmail` and `presses` are updated in place. Each method is proved to
  leave the state that the `Queue` or `Positioner` functions describe.

The clock is a parameter: `now` is a `Timestamp` of the current year.
`push_button` appends the button code to the field `presses`, which stands for
the bus writes. The outcome of a dispatched command is returned. When
`sendmail` is set, heat.py mails that outcome.

The comment above handle_commands (heat.py:152-155) lists the accepted
commands, and the docstring of hold_temp (heat.py:73) says that without a
temperature the current setting is used. The model follows what the code
does where that differs:

- handle_commands removes entries from the list it is iterating over, so the
  command after each removed one is not looked at in that pass (see Findings).
- Within one pass, `heat on` or `heat off` without a third token still uses
  the temperature of an earlier mode command, because `par3` is never reset
  (see Findings).
- A malformed date or time (heat.py:184-187) only prints "Error in date or
  time". No subject is set and nothing is mailed, so `Step` gives no outcome
  for it. A blank command (heat.py:164-166) is removed with no outcome either.

## Model

| member | source | states |
|---|---|---|
| Tokens.Split | heat.py:163 | `split()` gives tokens that are non-empty and whitespace-free, and together they hold exactly the non-whitespace characters of the command, in order |
| Tokens.SplitJoin | heat.py:163 | splitting words joined by single spaces gives back the same words |
| Tokens.SplitSpaced | heat.py:163 | for any whitespace-free words put between runs of whitespace (non-empty between two words, optional at either end), `split()` returns exactly those words |
| Tokens.SepsOf | heat.py:163 | the whitespace `split()` discards comes in one more run than there are words, every run is whitespace only, and the runs between two words are not empty |
| Tokens.SpacedSepsOf | heat.py:163 | every command is its `split()` words put back between the discarded runs; with SplitSpaced, the words of `split()` are exactly the maximal runs of non-whitespace |
| Tokens.Lower | heat.py:190 | `lower()` keeps the length and changes only A to Z, position by position |
| Tokens.IsDigits | heat.py:194 | a string `isdigit()` accepts is a single token holding neither ':' nor '-' |
| Tokens.DigitsValue | heat.py:195 | `int()` of a digit string ignores a leading zero |
| Positioner.ModePresses | heat.py:64-78 | start_program / hold_temp press their mode button first, then exactly set_temp's presses when a temperature is given, and nothing more otherwise |
| Positioner.SetTempPresses | heat.py:80-95 | the presses of set_temp; their counts and order are stated by SetTempShape, and their effect on the device by SetTempConverges |
| Positioner.SetTempShape | heat.py:80-95 | set_temp presses COOLER exactly MAX_TEMP + 2 - MIN_TEMP times and WARMER max(0, min(temp, MAX_TEMP) - MIN_TEMP) times, no other button, and every COOLER comes before every WARMER |
| Positioner.SetTempClampsAbove | heat.py:88-89 | any target above MAX_TEMP presses exactly what MAX_TEMP presses |
| Positioner.SetTempFloor | heat.py:92-93 | a target at or below MIN_TEMP issues only the reset presses (an empty `range`) |
| Positioner.SetTempConverges | heat.py:82-93 | from every unknown starting setting between MIN_TEMP and MAX_TEMP + 2, the presses leave the device at the target clamped to [MIN_TEMP, MAX_TEMP] |
| Positioner.SetTempNeedsResetBound | heat.py:83-85 | the reset-phase bound is tight: from MAX_TEMP + 3 the device ends one degree off |
| Schedule.ParseField | heat.py:173-176 | a parsed strptime field lies in its range |
| Schedule.ParseTime | heat.py:173 | a parsed `%H:%M` time has hour at most 23 and minute at most 59 |
| Schedule.ParseDate | heat.py:176 | a parsed `%d-%m` date is a day that exists in that month of 1900 |
| Schedule.ParseFieldExactly | heat.py:173-176 | a field is accepted with value n if and only if n is in the field's range and the text is n in two digits, or in one digit when n is below 10 |
| Schedule.ParseTimeExactly | heat.py:173 | a token parses as hour:minute if and only if the hour is at most 23, the minute at most 59, and the token is a one- or two-digit hour, ':', and a one- or two-digit minute |
| Schedule.ParseDateExactly | heat.py:176 | a token parses as day-month if and only if that day exists in that month of 1900 and the token is a one- or two-digit day, '-', and a one- or two-digit month |
| Schedule.ParseFormatTime | heat.py:173 | every clock time written as two-digit `HH:MM` parses back to itself |
| Schedule.ParseFormatDate | heat.py:176 | every 1900 date written as two-digit `DD-MM` parses back to itself |
| Schedule.ParseTimeShort | heat.py:173 | one-digit hour and minute fields are accepted |
| Schedule.ParseTimeHourRange | heat.py:173 | hour 24 is rejected |
| Schedule.ParseTimeMinuteRange | heat.py:173 | minute 60 and a missing minute are rejected |
| Schedule.ParseDateLeapDay | heat.py:176 | 29-02 is rejected because strptime validates against 1900 |
| Schedule.ParseDateMonthEnd | heat.py:176 | 31-04 is rejected |
| Schedule.ParseDateShort | heat.py:176 | one-digit day and month fields are accepted |
| Schedule.Later | heat.py:182 | no moment is later than itself |
| Schedule.LaterIgnoresSeconds | heat.py:177-182 | since the scheduled moment has zero seconds, `start > now` compares month, day, hour and minute lexicographically |
| Schedule.LaterOrder | heat.py:182 | `start > now` is asymmetric, total on distinct moments and transitive |
| Schedule.BeforeLast | heat.py:175 | the date token is the one before the last, or the only token of a one-token command |
| Schedule.ScheduleOf | heat.py:169-179 | a command has no schedule if and only if its last token holds no ':'; a scheduled moment has a valid hour and minute and zero seconds |
| Schedule.Gate | heat.py:164-187 | only an empty command is blank; a command is held back or rejected as malformed only when its last token holds a ':' |
| Schedule.GateDated | heat.py:173-183 | a command ending in a valid date and a valid time is held back if and only if that day and minute of this year come after the minute now is in, and is due otherwise |
| Schedule.GateUndated | heat.py:173-183 | a command ending in a valid time whose previous token holds no '-' is held back if and only if that minute of today is still to come, and is due otherwise |
| Schedule.GateBadTime | heat.py:169-187 | a last token holding a ':' that is no valid time makes the command malformed |
| Schedule.GateBadDate | heat.py:175-187 | a valid time after a token holding a '-' that is no valid date makes the command malformed |
| Schedule.GateImmediate | heat.py:169 | a command whose last token holds no ':' is due at once |
| Schedule.ParseTimeNine | heat.py:173 | "09:00" is nine o'clock |
| Schedule.ParseDateChristmas | heat.py:176 | "25-12" is the 25th of December |
| Schedule.GateExample | heat.py:169-187 | `heat on 12 25-12 09:00` is not due on the 24th of December at 10:00 and is due on the 25th at 09:01 |
| Commands.ModeTemp | heat.py:200-210 | a mode command passes a temperature if and only if par3 is set and all digits, and that temperature is not negative |
| Commands.Dispatch | heat.py:190-220 | par3 is either unchanged or becomes the lowered third token; only `heat` with a second token acts; a temperature is set if and only if the outcome says so |
| Commands.DispatchRejects | heat.py:190-220 | a first token other than `heat` is reported as that unknown command, a bare `heat` as a missing command, and a second token that is neither digits nor on/off as that unknown parameter, all lowered; none of them acts or changes par3 |
| Commands.DispatchModeCommand | heat.py:197-214 | only `heat on` / `heat off` changes par3, and only when a third token is present, to that token lowered; otherwise the earlier par3 is used; the program is started or the temperature held with int(par3) when it is all digits, and the outcome quotes par3 exactly then |
| Commands.Step | heat.py:162-223 | a command left in the queue presses nothing, reports nothing and leaves par3 alone; every reported command is removed |
| Commands.DispatchButtons | heat.py:190-220 | the first press is COOLER if and only if the command is `heat <digits>`, START_PROGRAM if and only if `heat on`, HOLD_TEMP if and only if `heat off`; every other command presses nothing |
| Commands.DispatchSetTemp | heat.py:193-196 | `heat <digits>` sets exactly int(digits) and leaves par3 alone |
| Commands.DispatchIgnoresCase | heat.py:190-208 | commands whose tokens lower alike dispatch alike |
| Commands.StaleTemperatureReused | heat.py:160 | `heat on` with no third token starts the program at the temperature par3 still holds from an earlier command |
| Commands.FreshModeTemperature | heat.py:197-214 | with par3 unset, a mode command's temperature is its own third token if that is all digits, and none otherwise |
| Commands.SplitHeatDigits | heat.py:163 | `heat <digits>` splits into its two words |
| Commands.DispatchHeatDigits | heat.py:194-196 | `heat <digits>` calls set_temp(int(digits)) and reports the digits |
| Commands.StepSetTempCommand | heat.py:162-223 | a `heat <digits>` line is due, sets that temperature, is removed and is reported |
| Commands.StepFate | heat.py:162-223 | a command stays in the queue if and only if it is not yet due; blank and badly scheduled commands are removed silently; a command is reported if and only if it is due; a command that is not due does nothing and leaves par3 as it was |
| Commands.StepDated | heat.py:169-223 | a line ending in a valid date and time stays queued untouched if and only if that day and minute of this year come after the minute now is in, and is otherwise dispatched on all its tokens, removed and reported |
| Commands.StepUndated | heat.py:169-223 | a line ending in a valid time, after a token without '-', stays queued untouched if and only if that minute of today is still to come, and is otherwise dispatched on all its tokens, removed and reported |
| Commands.DispatchTimedExample | heat.py:197-202 | `heat on 12 25-12 09:00` starts the program at 12 degrees and leaves "12" in par3 |
| Commands.StepTimedExampleHeld | heat.py:169-183 | the line `heat on 12 25-12 09:00` stays queued on the 24th of December at 10:00 |
| Commands.StepTimedExampleDue | heat.py:169-223 | the same line starts the program at 12 degrees on the 25th at 09:01 and is removed and reported |
| Commands.DispatchExampleSet | heat.py:190-196 | `HEAT 15` sets 15 degrees |
| Commands.DispatchExampleOn | heat.py:197-202 | `heat on 12` starts the program at 12 degrees |
| Commands.DispatchExampleOff | heat.py:206-214 | `heat off` with par3 unset holds the current setting |
| Commands.StepDue | heat.py:169-223 | a line whose last token has no ':' is dispatched on its tokens, removed and reported |
| Commands.DispatchHoldDigits | heat.py:206-211 | `heat off <digits>` holds that temperature and leaves the digits in par3 |
| Commands.StepHoldDigits | heat.py:206-223 | a `heat off <digits>` line is removed after pressing HOLD_TEMP and set_temp's presses, and par3 becomes the digits |
| Commands.HeatOnWords | heat.py:197-205 | `heat on`, in any letter case, starts the program with par3's temperature, if par3 is all digits |
| Commands.StepStartOn | heat.py:197-223 | a `heat on` line is removed after pressing START_PROGRAM and, if par3 holds digits, set_temp's presses |
| Commands.StepUnknownCommand | heat.py:190-223 | a one-token line without ':' that does not lower to `heat` is reported as an unknown command (lowered), presses nothing, keeps par3 and is removed |
| Queue.RemoveFirst | heat.py:223 | `list.remove` drops one copy of a present command and leaves an absent one's queue unchanged |
| Queue.RemoveFirstDropsFirst | heat.py:223 | the copy `list.remove` drops is the first: the others keep their places |
| Queue.RemoveFirstSubseq | heat.py:223 | `list.remove` keeps the others in order |
| Queue.RunFrom | heat.py:162-223 | the rest of an as-written pass from index i; its properties are stated by RunFromConserves, RunFromKeepsOrder and RunFromRemovesOnly |
| Queue.RunFromConserves | heat.py:162-223 | the queue left behind and the removed commands are together the original queue, as a multiset |
| Queue.RunFromRemovesOnly | heat.py:162-223 | a command the step never removes is never removed by the pass |
| Queue.RunFromKeepsOrder | heat.py:162-223 | the commands left behind keep their relative order |
| Queue.Pass | heat.py:156-223 | one as-written pass leaves a queue that, with the removed commands, is the original queue as a multiset, in the original order |
| Queue.PassInvariants | heat.py:156-223 | handle_commands loses no command, keeps the order of what it leaves, and keeps every copy of every command not yet due |
| Queue.PassSkipsAfterRemoval | heat.py:162-223 | as written, after the first of two commands is removed the second is not looked at in that pass |
| Queue.Drain | heat.py:162-223 | the corrected pass, which looks at every command once; its properties are stated by DrainKeepsExactly and DrainKeepsOrder |
| Queue.DrainKeepsExactly | heat.py:162-223 | the corrected pass keeps every copy of each command its step keeps and none of the others |
| Queue.DrainKeepsOrder | heat.py:162-223 | the corrected pass keeps the order of what it leaves |
| Queue.PassFixed | heat.py:156-223 | the corrected pass leaves a queue in the original order |
| Queue.PassFixedKeepsExactlyNotDue | heat.py:162-223 | after the corrected pass the queue holds exactly the not-yet-due commands, every copy, in order |
| Queue.PassFixedRunsEveryCommand | heat.py:162-223 | the corrected pass runs two removable commands in order and empties the queue |
| Queue.SkipExample | heat.py:162-223 | as written, `["heat 30", "heat 5"]` sets 30 degrees and leaves `heat 5` queued; corrected, both run and the queue is empty |
| Queue.RunFromCarriesPar3 | heat.py:160-223 | as written, when the first of three commands is removed the second is skipped and the third runs with the par3 the first left |
| Queue.DrainThree | heat.py:162-223 | the corrected pass runs three removable commands, each with par3 unset |
| Queue.StaleExample | heat.py:160-223 | as written, `heat off <w>`, x, `heat on` holds w degrees, skips x, and then starts the program at w degrees again |
| Queue.StaleExampleFixed | heat.py:160-223 | corrected, the same queue runs all three, and `heat on` starts the program without a temperature |
| Controller.ChronothermController.constructor | heat.py:52-56 | init queues the command-line command if one is given and records the sendmail flag |
| Controller.ChronothermController.PushButton | heat.py:97-104 | one press is appended to the press log |
| Controller.ChronothermController.SetTemp | heat.py:80-95 | the loops append exactly set_temp's presses: the reset phase, then the WARMER presses for the clamped target |
| Controller.ChronothermController.StartProgram | heat.py:64-70 | START_PROGRAM, then set_temp's presses when a temperature is given |
| Controller.ChronothermController.HoldTemp | heat.py:72-78 | HOLD_TEMP, then set_temp's presses when a temperature is given |
| Controller.ChronothermController.Perform | heat.py:194-214 | the controller call a dispatched command makes appends that action's presses |
| Controller.ChronothermController.HandleCommands | heat.py:156-230 | the queue, the appended presses and the returned outcomes are those of one as-written pass at now |
| Controller.ChronothermController.RunPass | heat.py:158-223 | the loop that removes while iterating and carries par3 leaves exactly the state the as-written pass describes |
| Controller.ChronothermController.HandleCommandsFixed | heat.py:156-230 | the corrected handle_commands leaves the queue, presses and outcomes of the corrected pass |
| Controller.ChronothermController.RunPassFixed | heat.py:162-223 | the loop that looks at a removed command's slot again leaves exactly the state of the corrected pass |

## Left out

- check_email and send_email (POP3 and SMTP) are network I/O. The outcome is returned, and `sendmail` is only stored.
- The I2C bus writes of push_button and init, and the HOLD_TIME / IDLE_TIME sleeps, are hardware I/O and timing. A press is the code appended to `presses`, and the NO_BUTTON release is not logged.
- A failing bus write would abort the pass partway. Bus failures are not modelled.
- daemon_loop, the script entry point and its argument handling are not part of this model.
- The printed text ("Handling command", "Error in date or time" and the English subject lines) is not modelled. An outcome names its branch and quotes the token text the subject contains.
- heat.py calls `datetime.now()` afresh for each scheduled command. The model uses one `now` for a whole pass, and the year is left out because the scheduled moment always takes the year of `now`.
- `commands` is a class attribute in heat.py, so one list is shared by every instance. The model gives each object its own queue.
- par1 and par2 are also carried across commands, but each is assigned before it is read. Only par3 is read stale, so only par3 is modelled.
- Positioner.Press and Positioner.Apply describe the assumed behaviour of the device's buttons. They are not code in heat.py: SetTempConverges holds for a device that behaves that way.
- Python integers are unbounded and heat.py does no fixed-width arithmetic, so no wrap-around is modelled.

## Findings

| source | as written | input that shows it | evidently intended | confidence | as-written member | corrected member |
|---|---|---|---|---|---|---|
| heat.py:162-223 | `self.commands.remove(command)` inside `for command in self.commands`: the iterator moves on to the next index, so the command that slid into the removed one's slot is not looked at in this pass | queue `["heat 30", "heat 5"]`: only 30 degrees is set, and `heat 5` waits for the next pass | every queued command is looked at once per pass, in order | high, not executed | Queue.SkipExample | Queue.PassFixedRunsEveryCommand |
| heat.py:160, 197-209 | `par3` is set once before the loop and assigned only when a mode command has a third token, so `heat on` / `heat off` without one reuses an earlier command's temperature | queue `["heat off 18", "7", "heat on"]`: `7` is skipped, and `heat on` starts the program and sets 18 degrees again | a mode command without a temperature uses the current setting | high, not executed | Queue.StaleExample | Queue.StaleExampleFixed |

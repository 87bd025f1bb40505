/**
  ChronothermController: the command queue and the button presses issued so
  far, with set_temp, start_program, hold_temp and handle_commands as methods
  that update them in place. push_button appends the button code to
  `presses`; the bus writes and the hold and idle delays are not modelled.
*/
module Controller {
  import opened Wrappers
  import opened Tokens
  import opened Positioner
  import opened Schedule
  import opened Commands
  import opened Queue

  class ChronothermController {
    /** Pending raw command lines, oldest first. */
    var commands: seq<string>
    /** Whether each outcome is also mailed. */
    var sendmail: bool
    /** Every button code pushed so far, in order. */
    var presses: seq<int>

    /** init: optionally queue a command given on the command line. */
    constructor (sendmailArg: bool, commandArg: Option<string>)
      ensures commands == (if commandArg.Some? then [commandArg.value] else [])
      ensures sendmail == sendmailArg && presses == []
    {
      commands := [];
      presses := [];
      sendmail := sendmailArg;
      if commandArg.Some? {
        commands := commands + [commandArg.value];
      }
    }

    /** push_button: one press of one button. */
    method PushButton(button: int)
      modifies this`presses
      ensures presses == old(presses) + [button]
    {
      presses := presses + [button];
    }

    /** set_temp: the reset phase, the clamp, then one WARMER per degree above MIN_TEMP. */
    method SetTemp(temp: int)
      modifies this`presses
      ensures presses == old(presses) + SetTempPresses(temp)
    {
      for x := 0 to RESET_PRESSES
        invariant presses == old(presses) + Repeat(COOLER, x)
      {
        PushButton(COOLER);
      }
      var t := temp;
      if t > MAX_TEMP {
        t := MAX_TEMP;
      }
      var x := 0;
      while x < t - MIN_TEMP
        invariant 0 <= x && (x <= t - MIN_TEMP || x == 0)
        invariant presses == old(presses) + Repeat(COOLER, RESET_PRESSES) + Repeat(WARMER, x)
      {
        PushButton(WARMER);
        x := x + 1;
      }
    }

    /** start_program: START_PROGRAM, then set_temp when a temperature is given. */
    method StartProgram(temp: Option<int>)
      modifies this`presses
      ensures presses == old(presses) + ModePresses(START_PROGRAM, temp)
    {
      PushButton(START_PROGRAM);
      if temp.Some? {
        SetTemp(temp.value);
      }
    }

    /** hold_temp: HOLD_TEMP, then set_temp when a temperature is given. */
    method HoldTemp(temp: Option<int>)
      modifies this`presses
      ensures presses == old(presses) + ModePresses(HOLD_TEMP, temp)
    {
      PushButton(HOLD_TEMP);
      if temp.Some? {
        SetTemp(temp.value);
      }
    }

    /** The controller call a dispatched command makes. */
    method Perform(action: Action)
      modifies this`presses
      ensures presses == old(presses) + ActionPresses(action)
    {
      match action
      case SetTemp(t) => SetTemp(t);
      case StartProgram(t) => StartProgram(t);
      case HoldTemp(t) => HoldTemp(t);
      case NoAction =>
    }

    /**
      handle_commands, as written: iterate over `commands` by index while
      removing from it, carrying par3 from one command to the next. Returns
      the outcomes that are logged (and mailed when `sendmail` is set).
    */
    method HandleCommands(now: Timestamp) returns (outcomes: seq<Outcome>)
      modifies this`commands, this`presses
      ensures commands == Pass(old(commands), now).queue
      ensures presses == old(presses) + Pass(old(commands), now).presses
      ensures outcomes == Pass(old(commands), now).outcomes
    {
      outcomes := RunPass(StepAt(now));
    }

    /**
      The loop of handle_commands for any per-command step: the list
      iterator fetches the command at index i and moves on to i + 1, so
      after `list.remove` the command that slid into slot i is not looked
      at; par3 keeps the value the last dispatched command left in it.
    */
    method RunPass(step: Stepper) returns (outcomes: seq<Outcome>)
      modifies this`commands, this`presses
      ensures commands == RunFrom(step, old(commands), 0, None).queue
      ensures presses == old(presses) + RunFrom(step, old(commands), 0, None).presses
      ensures outcomes == RunFrom(step, old(commands), 0, None).outcomes
    {
      ghost var total := RunFrom(step, commands, 0, None);
      var par3: Option<string> := None;
      outcomes := [];
      var i := 0;
      while i < |commands|
        invariant RunFrom(step, commands, i, par3).queue == total.queue
        invariant presses + RunFrom(step, commands, i, par3).presses == old(presses) + total.presses
        invariant outcomes + RunFrom(step, commands, i, par3).outcomes == total.outcomes
        decreases |commands| - i
      {
        var command := commands[i];
        var s := step(command, par3);
        RunFromAdvance(step, commands, i, par3, presses, old(presses) + total.presses, outcomes, total.outcomes);
        ghost var next := if s.remove then RemoveFirst(commands, command) else commands;
        ghost var rest := RunFrom(step, next, i + 1, s.par3);
        ghost var done := presses;
        ghost var reported := outcomes;
        i := i + 1;
        Perform(s.action);
        assert presses == done + ActionPresses(s.action);
        par3 := s.par3;
        if s.remove {
          commands := RemoveFirst(commands, command);
        }
        assert commands == next;
        if s.outcome.Some? {
          outcomes := outcomes + [s.outcome.value];
        }
        assert outcomes == reported + (if s.outcome.Some? then [s.outcome.value] else []);
        assert presses + rest.presses == old(presses) + total.presses;
        assert outcomes + rest.outcomes == total.outcomes;
      }
    }

    /**
      handle_commands as evidently intended: each command is looked at once,
      in order, starting with par3 unset.
    */
    method HandleCommandsFixed(now: Timestamp) returns (outcomes: seq<Outcome>)
      modifies this`commands, this`presses
      ensures commands == PassFixed(old(commands), now).queue
      ensures presses == old(presses) + PassFixed(old(commands), now).presses
      ensures outcomes == PassFixed(old(commands), now).outcomes
    {
      outcomes := RunPassFixed(StepAt(now));
    }

    /**
      The corrected loop for any per-command step: a removed command's slot
      is looked at again, because the next command has moved into it.
    */
    method RunPassFixed(step: Stepper) returns (outcomes: seq<Outcome>)
      modifies this`commands, this`presses
      ensures commands == Drain(step, old(commands)).queue
      ensures presses == old(presses) + Drain(step, old(commands)).presses
      ensures outcomes == Drain(step, old(commands)).outcomes
    {
      ghost var original := commands;
      ghost var total := Drain(step, commands);
      ghost var kept: seq<string> := [];
      ghost var n := 0;
      outcomes := [];
      var i := 0;
      assert commands == kept + original[n..];
      while i < |commands|
        invariant n <= |original| && i == |kept|
        invariant commands == kept + original[n..]
        invariant kept + Drain(step, original[n..]).queue == total.queue
        invariant presses + Drain(step, original[n..]).presses == old(presses) + total.presses
        invariant outcomes + Drain(step, original[n..]).outcomes == total.outcomes
        decreases |commands| - i
      {
        QueueAdvance(kept, original, n);
        var command := commands[i];
        var s := step(command, None);
        DrainAdvance(step, original, n, kept, total.queue, presses, old(presses) + total.presses, outcomes, total.outcomes);
        ghost var rest := Drain(step, original[n + 1..]);
        ghost var done, reported, before := presses, outcomes, kept;
        Perform(s.action);
        assert presses == done + ActionPresses(s.action);
        if s.remove {
          commands := RemoveAt(commands, i);
        } else {
          kept := kept + [command];
          i := i + 1;
        }
        if s.outcome.Some? {
          outcomes := outcomes + [s.outcome.value];
        }
        assert outcomes == reported + (if s.outcome.Some? then [s.outcome.value] else []);
        assert kept == before + (if s.remove then [] else [command]);
        assert commands == kept + original[n + 1..];
        assert kept + rest.queue == total.queue;
        assert presses + rest.presses == old(presses) + total.presses;
        assert outcomes + rest.outcomes == total.outcomes;
        n := n + 1;
      }
    }
  }
}

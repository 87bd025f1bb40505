/**
  One pass of handle_commands over the command queue, as a function of the
  queue and of what happens to a single command (Commands.Step, fixed to the
  pass's `now`). Pass follows the Python loop exactly: a list iterator that
  fetches the element at its current index and then advances, `list.remove`
  that drops the FIRST element equal to the command, and `par3` carried from
  one command to the next. After every removal the element that moves into
  the current slot is not looked at in this pass. Drain is the pass as
  evidently intended: every command is looked at once, in order, and each
  starts with `par3` unset.
*/
module Queue {
  import opened Wrappers
  import opened Tokens
  import opened Positioner
  import opened Schedule
  import opened Commands

  /** What happens to one command, given the value `par3` has when it is fetched. */
  type Stepper = (string, Option<string>) -> StepResult

  /** The per-command step of a pass run at `now`. */
  function StepAt(now: Timestamp): Stepper {
    (command, par3) => Step(command, now, par3)
  }

  /** `list.remove(x)`: drop the first element equal to `x`, or nothing when there is none. */
  function RemoveFirst(q: seq<string>, x: string): (r: seq<string>)
    ensures x in q ==> |r| == |q| - 1 && multiset(r) + multiset{x} == multiset(q)
    ensures x !in q ==> r == q
  {
    if q == [] then []
    else if q[0] == x then
      assert q == [q[0]] + q[1..];
      q[1..]
    else
      assert q == [q[0]] + q[1..];
      [q[0]] + RemoveFirst(q[1..], x)
  }

  /**
    The element `list.remove` drops is the first one equal to `x`: when `x`
    first occurs at index k, exactly q[k] goes and the others keep their places.
  */
  lemma {:induction false} RemoveFirstDropsFirst(q: seq<string>, x: string, k: nat)
    requires k < |q| && q[k] == x && x !in q[..k]
    ensures RemoveFirst(q, x) == q[..k] + q[k + 1..]
  {
    if k == 0 {
      assert q[..0] == [];
    } else {
      var t := q[1..];
      assert q[0] in q[..k];
      assert t[..k - 1] == q[1..k];
      assert x !in t[..k - 1];
      RemoveFirstDropsFirst(t, x, k - 1);
      assert RemoveFirst(q, x) == [q[0]] + (t[..k - 1] + t[k..]);
      assert q[..k] == [q[0]] + t[..k - 1];
      assert q[k + 1..] == t[k..];
      Reassociate([q[0]], t[..k - 1], t[k..]);
    }
  }

  /** `a` is `b` with some elements left out, the rest in their original order. */
  predicate Subseq(a: seq<string>, b: seq<string>)
    decreases |b|
  {
    if a == [] then true
    else if b == [] then false
    else (a[0] == b[0] && Subseq(a[1..], b[1..])) || Subseq(a, b[1..])
  }

  lemma {:induction false} SubseqRefl(a: seq<string>)
    ensures Subseq(a, a)
  {
    if a != [] { SubseqRefl(a[1..]); }
  }

  lemma {:induction false} SubseqTrans(a: seq<string>, b: seq<string>, c: seq<string>)
    requires Subseq(a, b) && Subseq(b, c)
    ensures Subseq(a, c)
    decreases |c|
  {
    if a != [] {
      if b[0] == c[0] && Subseq(b[1..], c[1..]) {
        if a[0] == b[0] && Subseq(a[1..], b[1..]) {
          SubseqTrans(a[1..], b[1..], c[1..]);
        } else {
          SubseqTrans(a, b[1..], c[1..]);
        }
      } else {
        SubseqTrans(a, b, c[1..]);
      }
    }
  }

  /** Dropping the first element of the longer sequence keeps a subsequence a subsequence of it. */
  lemma SubseqTail(a: seq<string>, b: seq<string>)
    requires b != [] && Subseq(a, b[1..])
    ensures Subseq(a, b)
  {
  }

  /** Removing an element keeps the order of the others. */
  lemma {:induction false} RemoveFirstSubseq(q: seq<string>, x: string)
    ensures Subseq(RemoveFirst(q, x), q)
  {
    if q != [] {
      if q[0] == x {
        SubseqRefl(q[1..]);
      } else {
        RemoveFirstSubseq(q[1..], x);
      }
    }
  }

  /**
    The effect of one pass: the queue left behind, the commands removed (in
    the order of removal), the buttons pressed and the outcomes reported.
  */
  datatype PassResult = PassResult(queue: seq<string>, removed: seq<string>, presses: seq<int>, outcomes: seq<Outcome>)

  /** Nothing happened. */
  function Idle(q: seq<string>): PassResult {
    PassResult(q, [], [], [])
  }

  /** One step's contribution put in front of the rest of the pass. */
  function Prepend(command: string, s: StepResult, rest: PassResult): PassResult {
    PassResult(rest.queue,
               (if s.remove then [command] else []) + rest.removed,
               ActionPresses(s.action) + rest.presses,
               (if s.outcome.Some? then [s.outcome.value] else []) + rest.outcomes)
  }

  /**
    The rest of a pass that is about to fetch index `i` of the queue `q`,
    with `par3` as left by the commands before.
  */
  function RunFrom(step: Stepper, q: seq<string>, i: nat, par3: Option<string>): (r: PassResult)
    decreases |q| - i
  {
    if i >= |q| then Idle(q)
    else
      var s := step(q[i], par3);
      var q' := if s.remove then RemoveFirst(q, q[i]) else q;
      Prepend(q[i], s, RunFrom(step, q', i + 1, s.par3))
  }

  /** One iteration of the pass, unfolded. */
  lemma RunFromNext(step: Stepper, q: seq<string>, i: nat, par3: Option<string>)
    requires i < |q|
    ensures var s := step(q[i], par3);
      RunFrom(step, q, i, par3) == Prepend(q[i], s, RunFrom(step, if s.remove then RemoveFirst(q, q[i]) else q, i + 1, s.par3))
  {
  }

  /**
    Moving past one iteration of the pass: what was done so far plus the
    rest of the pass is still the whole pass.
  */
  lemma RunFromAdvance(step: Stepper, q: seq<string>, i: nat, par3: Option<string>,
                       presses: seq<int>, pressesTotal: seq<int>, outcomes: seq<Outcome>, outcomesTotal: seq<Outcome>)
    requires i < |q|
    requires presses + RunFrom(step, q, i, par3).presses == pressesTotal
    requires outcomes + RunFrom(step, q, i, par3).outcomes == outcomesTotal
    ensures var s := step(q[i], par3);
      var rest := RunFrom(step, if s.remove then RemoveFirst(q, q[i]) else q, i + 1, s.par3);
      && rest.queue == RunFrom(step, q, i, par3).queue
      && (presses + ActionPresses(s.action)) + rest.presses == pressesTotal
      && (outcomes + (if s.outcome.Some? then [s.outcome.value] else [])) + rest.outcomes == outcomesTotal
  {
    RunFromNext(step, q, i, par3);
    var s := step(q[i], par3);
    var rest := RunFrom(step, if s.remove then RemoveFirst(q, q[i]) else q, i + 1, s.par3);
    var emitted := if s.outcome.Some? then [s.outcome.value] else [];
    assert RunFrom(step, q, i, par3) == Prepend(q[i], s, rest);
    Reassociate(presses, ActionPresses(s.action), rest.presses);
    Reassociate(outcomes, emitted, rest.outcomes);
  }

  /** Concatenation is associative. */
  lemma Reassociate<T>(a: seq<T>, b: seq<T>, c: seq<T>)
    ensures (a + b) + c == a + (b + c)
  {
  }

  /** One call of handle_commands on the queue `q`: par1, par2 and par3 start as None. */
  function Pass(q: seq<string>, now: Timestamp): (r: PassResult)
    ensures multiset(r.queue) + multiset(r.removed) == multiset(q)
    ensures Subseq(r.queue, q)
  {
    RunFromConserves(StepAt(now), q, 0, None);
    RunFromKeepsOrder(StepAt(now), q, 0, None);
    RunFrom(StepAt(now), q, 0, None)
  }

  /**
    Nothing is lost and nothing is removed twice: the queue left behind and
    the removed commands together are the original queue, as a multiset.
  */
  lemma {:induction false} RunFromConserves(step: Stepper, q: seq<string>, i: nat, par3: Option<string>)
    ensures multiset(RunFrom(step, q, i, par3).queue) + multiset(RunFrom(step, q, i, par3).removed) == multiset(q)
    decreases |q| - i
  {
    if i < |q| {
      var s := step(q[i], par3);
      var q' := if s.remove then RemoveFirst(q, q[i]) else q;
      RunFromConserves(step, q', i + 1, s.par3);
      var rest := RunFrom(step, q', i + 1, s.par3);
      RunFromNext(step, q, i, par3);
      if s.remove {
        assert q[i] in q;
        assert multiset(q') + multiset{q[i]} == multiset(q);
        assert multiset(RunFrom(step, q, i, par3).removed) == multiset{q[i]} + multiset(rest.removed);
      } else {
        assert RunFrom(step, q, i, par3).removed == rest.removed;
      }
    }
  }

  /** A command the step never removes, whatever `par3` is, is never removed by the pass. */
  lemma {:induction false} RunFromRemovesOnly(step: Stepper, q: seq<string>, i: nat, par3: Option<string>, kept: string)
    requires forall p :: !step(kept, p).remove
    ensures kept !in RunFrom(step, q, i, par3).removed
    decreases |q| - i
  {
    if i < |q| {
      var s := step(q[i], par3);
      var q' := if s.remove then RemoveFirst(q, q[i]) else q;
      RunFromRemovesOnly(step, q', i + 1, s.par3, kept);
    }
  }

  /** The commands left behind keep their relative order. */
  lemma {:induction false} RunFromKeepsOrder(step: Stepper, q: seq<string>, i: nat, par3: Option<string>)
    ensures Subseq(RunFrom(step, q, i, par3).queue, q)
    decreases |q| - i
  {
    if i >= |q| {
      SubseqRefl(q);
    } else {
      var s := step(q[i], par3);
      var q' := if s.remove then RemoveFirst(q, q[i]) else q;
      RunFromKeepsOrder(step, q', i + 1, s.par3);
      if s.remove {
        RemoveFirstSubseq(q, q[i]);
        SubseqTrans(RunFrom(step, q', i + 1, s.par3).queue, q', q);
      } else {
        assert q' == q;
      }
    }
  }

  /**
    A pass of handle_commands loses no command and keeps the order of the
    commands it leaves; each removed command was due, blank or malformed,
    and every copy of a command that is not yet due is still there afterwards.
  */
  lemma PassInvariants(q: seq<string>, now: Timestamp)
    ensures multiset(Pass(q, now).queue) + multiset(Pass(q, now).removed) == multiset(q)
    ensures Subseq(Pass(q, now).queue, q)
    ensures forall x :: VerdictOf(x, now) == NotDue ==> multiset(Pass(q, now).queue)[x] == multiset(q)[x]
  {
    RunFromConserves(StepAt(now), q, 0, None);
    RunFromKeepsOrder(StepAt(now), q, 0, None);
    forall x | VerdictOf(x, now) == NotDue
      ensures multiset(Pass(q, now).queue)[x] == multiset(q)[x]
    {
      forall p ensures !StepAt(now)(x, p).remove {
        StepFate(x, now, p);
      }
      RunFromRemovesOnly(StepAt(now), q, 0, None, x);
    }
  }

  /**
    As written, the command after a removed one is skipped: of two queued
    commands of which the first is removed, the second stays in the queue
    untouched and only the first one's buttons are pressed.
  */
  lemma PassSkipsAfterRemoval(a: string, b: string, now: Timestamp)
    requires Step(a, now, None).remove
    ensures Pass([a, b], now).queue == [b]
    ensures Pass([a, b], now).presses == ActionPresses(Step(a, now, None).action)
  {
    var s := StepAt(now)(a, None);
    assert RemoveFirst([a, b], a) == [b];
    assert RunFrom(StepAt(now), [b], 1, s.par3) == Idle([b]);
  }

  /**
    The pass as evidently intended: every command is looked at exactly once,
    in queue order, with `par3` unset.
  */
  function Drain(step: Stepper, q: seq<string>): (r: PassResult)
  {
    if q == [] then Idle([])
    else
      var s := step(q[0], None);
      var rest := Drain(step, q[1..]);
      PassResult((if s.remove then [] else [q[0]]) + rest.queue,
                 (if s.remove then [q[0]] else []) + rest.removed,
                 ActionPresses(s.action) + rest.presses,
                 (if s.outcome.Some? then [s.outcome.value] else []) + rest.outcomes)
  }

  /** The first command of the corrected pass, unfolded. */
  lemma DrainNext(step: Stepper, q: seq<string>)
    requires q != []
    ensures var s := step(q[0], None);
      var rest := Drain(step, q[1..]);
      Drain(step, q) == PassResult((if s.remove then [] else [q[0]]) + rest.queue,
                                   (if s.remove then [q[0]] else []) + rest.removed,
                                   ActionPresses(s.action) + rest.presses,
                                   (if s.outcome.Some? then [s.outcome.value] else []) + rest.outcomes)
  {
  }

  /** `del q[i]`: drop the element at index `i`. */
  function RemoveAt(q: seq<string>, i: nat): (r: seq<string>)
    requires i < |q|
    ensures |r| == |q| - 1
    ensures r[..i] == q[..i] && r[i..] == q[i + 1..]
  {
    q[..i] + q[i + 1..]
  }

  /** The queue as the corrected loop sees it: the commands kept so far, then the ones not yet looked at. */
  lemma QueueAdvance(kept: seq<string>, original: seq<string>, n: nat)
    requires n < |original|
    ensures (kept + original[n..])[|kept|] == original[n]
    ensures RemoveAt(kept + original[n..], |kept|) == kept + original[n + 1..]
    ensures kept + original[n..] == (kept + [original[n]]) + original[n + 1..]
  {
    var q := kept + original[n..];
    var r := RemoveAt(q, |kept|);
    assert r == r[..|kept|] + r[|kept|..];
    assert q[|kept| + 1..] == original[n + 1..];
    assert original[n..] == [original[n]] + original[n + 1..];
  }

  /**
    Moving past one command of the corrected pass: what was done so far plus
    the rest of the pass is still the whole pass.
  */
  lemma DrainAdvance(step: Stepper, original: seq<string>, n: nat, kept: seq<string>, queue: seq<string>,
                     presses: seq<int>, pressesTotal: seq<int>, outcomes: seq<Outcome>, outcomesTotal: seq<Outcome>)
    requires n < |original|
    requires kept + Drain(step, original[n..]).queue == queue
    requires presses + Drain(step, original[n..]).presses == pressesTotal
    requires outcomes + Drain(step, original[n..]).outcomes == outcomesTotal
    ensures var s := step(original[n], None);
      var rest := Drain(step, original[n + 1..]);
      && (kept + (if s.remove then [] else [original[n]])) + rest.queue == queue
      && (presses + ActionPresses(s.action)) + rest.presses == pressesTotal
      && (outcomes + (if s.outcome.Some? then [s.outcome.value] else [])) + rest.outcomes == outcomesTotal
  {
    var tail := original[n..];
    assert tail[1..] == original[n + 1..];
    DrainNext(step, tail);
    var s := step(original[n], None);
    var rest := Drain(step, original[n + 1..]);
    Reassociate(kept, if s.remove then [] else [original[n]], rest.queue);
    Reassociate(presses, ActionPresses(s.action), rest.presses);
    Reassociate(outcomes, if s.outcome.Some? then [s.outcome.value] else [], rest.outcomes);
  }

  /**
    The corrected pass leaves exactly the commands the step keeps, every copy
    of each; all others are removed in this pass.
  */
  lemma {:induction false} DrainKeepsExactly(step: Stepper, q: seq<string>, x: string)
    ensures multiset(Drain(step, q).queue)[x] == if step(x, None).remove then 0 else multiset(q)[x]
  {
    if q != [] {
      var s := step(q[0], None);
      DrainKeepsExactly(step, q[1..], x);
      assert q == [q[0]] + q[1..];
      var rest := Drain(step, q[1..]);
      var r := Drain(step, q);
      assert r.queue == (if s.remove then [] else [q[0]]) + rest.queue;
      assert multiset(r.queue) == multiset(if s.remove then [] else [q[0]]) + multiset(rest.queue);
      assert multiset(q) == multiset{q[0]} + multiset(q[1..]);
    }
  }

  /** The corrected pass keeps the order of the commands it leaves. */
  lemma {:induction false} DrainKeepsOrder(step: Stepper, q: seq<string>)
    ensures Subseq(Drain(step, q).queue, q)
  {
    if q != [] {
      var s := step(q[0], None);
      DrainKeepsOrder(step, q[1..]);
      var rest := Drain(step, q[1..]);
      var r := Drain(step, q);
      assert r.queue == (if s.remove then [] else [q[0]]) + rest.queue;
      if !s.remove {
        assert r.queue[1..] == rest.queue;
      } else {
        assert r.queue == rest.queue;
        SubseqTail(rest.queue, q);
      }
    }
  }

  /** The corrected handle_commands pass at `now`. */
  function PassFixed(q: seq<string>, now: Timestamp): (r: PassResult)
    ensures Subseq(r.queue, q)
  {
    DrainKeepsOrder(StepAt(now), q);
    Drain(StepAt(now), q)
  }

  /**
    After a corrected pass the queue holds exactly the commands that are not
    yet due (every copy, original order); no due, blank or malformed command
    is left for a later pass.
  */
  lemma PassFixedKeepsExactlyNotDue(q: seq<string>, now: Timestamp)
    ensures forall x :: multiset(PassFixed(q, now).queue)[x] == if VerdictOf(x, now) == NotDue then multiset(q)[x] else 0
    ensures Subseq(PassFixed(q, now).queue, q)
  {
    DrainKeepsOrder(StepAt(now), q);
    forall x
      ensures multiset(PassFixed(q, now).queue)[x] == if VerdictOf(x, now) == NotDue then multiset(q)[x] else 0
    {
      DrainKeepsExactly(StepAt(now), q, x);
      StepFate(x, now, None);
    }
  }

  /** Of two commands that are both removed, the corrected pass runs both, in order, and empties the queue. */
  lemma PassFixedRunsEveryCommand(a: string, b: string, now: Timestamp)
    requires Step(a, now, None).remove && Step(b, now, None).remove
    ensures PassFixed([a, b], now).queue == []
    ensures PassFixed([a, b], now).presses == ActionPresses(Step(a, now, None).action) + ActionPresses(Step(b, now, None).action)
  {
    var step := StepAt(now);
    assert step(a, None) == Step(a, now, None) && step(b, None) == Step(b, now, None);
    assert [a, b][1..] == [b];
    assert [b][1..] == [];
    assert Drain(step, [b]).queue == [];
    assert Drain(step, [b]).presses == ActionPresses(Step(b, now, None).action);
  }

  /**
    The two-command example: as written, setting 30 degrees removes the first
    line and the iterator then steps past "heat 5", which waits for the next
    pass; the corrected pass sets both, in order, and empties the queue.
  */
  lemma SkipExample(now: Timestamp)
    ensures Pass(["heat 30", "heat 5"], now).queue == ["heat 5"]
    ensures Pass(["heat 30", "heat 5"], now).presses == SetTempPresses(30)
    ensures PassFixed(["heat 30", "heat 5"], now).queue == []
    ensures PassFixed(["heat 30", "heat 5"], now).presses == SetTempPresses(30) + SetTempPresses(5)
  {
    assert "heat 30" == "heat " + "30" && "heat 5" == "heat " + "5";
    assert IsDigits("30") && DigitsValue("30") == 30;
    assert IsDigits("5") && DigitsValue("5") == 5;
    StepSetTempCommand("30", now, None);
    StepSetTempCommand("5", now, None);
    PassSkipsAfterRemoval("heat 30", "heat 5", now);
    PassFixedRunsEveryCommand("heat 30", "heat 5", now);
  }

  /** The pass at the last of two commands, when that command is removed: the first one is left. */
  lemma RunFromLastRemoved(step: Stepper, x: string, b: string, par3: Option<string>)
    requires step(b, par3).remove
    ensures RunFrom(step, [x, b], 1, par3) == Prepend(b, step(b, par3), Idle([x]))
  {
    assert RemoveFirst([x, b], b) == [x];
    RunFromNext(step, [x, b], 1, par3);
  }

  /**
    As written, when the first of three commands is removed the second is
    stepped past, and the third runs with the par3 the first one left.
  */
  lemma RunFromCarriesPar3(step: Stepper, a: string, x: string, b: string)
    requires step(a, None).remove
    requires step(b, step(a, None).par3).remove
    ensures RunFrom(step, [a, x, b], 0, None).queue == [x]
    ensures RunFrom(step, [a, x, b], 0, None).presses ==
              ActionPresses(step(a, None).action) + ActionPresses(step(b, step(a, None).par3).action)
  {
    var first := step(a, None);
    var second := step(b, first.par3);
    assert RemoveFirst([a, x, b], a) == [x, b];
    RunFromNext(step, [a, x, b], 0, None);
    RunFromLastRemoved(step, x, b, first.par3);
    var p1, p2 := ActionPresses(first.action), ActionPresses(second.action);
    assert RunFrom(step, [a, x, b], 0, None).presses == p1 + (p2 + []);
    assert p2 + [] == p2;
  }

  /** The corrected pass, when its first command is removed: that command's presses, then the rest of the pass. */
  lemma DrainRemovesFirst(step: Stepper, c: string, rest: seq<string>)
    requires step(c, None).remove
    ensures Drain(step, [c] + rest).queue == Drain(step, rest).queue
    ensures Drain(step, [c] + rest).presses == ActionPresses(step(c, None).action) + Drain(step, rest).presses
  {
    assert ([c] + rest)[1..] == rest;
    DrainNext(step, [c] + rest);
  }

  /** The corrected pass removes three commands whose step removes them, each run with par3 unset. */
  lemma DrainThree(step: Stepper, a: string, x: string, b: string)
    requires step(a, None).remove && step(x, None).remove && step(b, None).remove
    ensures Drain(step, [a, x, b]).queue == []
    ensures Drain(step, [a, x, b]).presses ==
              ActionPresses(step(a, None).action) + ActionPresses(step(x, None).action) + ActionPresses(step(b, None).action)
  {
    DrainRemovesFirst(step, b, []);
    assert [b] + [] == [b];
    DrainRemovesFirst(step, x, [b]);
    assert [x] + [b] == [x, b];
    DrainRemovesFirst(step, a, [x, b]);
    assert [a] + [x, b] == [a, x, b];
    assert Drain(step, []).presses == [];
    Reassociate(ActionPresses(step(a, None).action), ActionPresses(step(x, None).action), ActionPresses(step(b, None).action));
  }

  /**
    The stale-temperature example, as written: `heat off <w>` is removed, the
    iterator steps past the next line `x`, whatever it is, and `heat on` then
    starts the program at the temperature left in par3; `x` waits for the
    next pass.
  */
  lemma StaleExample(w: string, x: string, on: string, now: Timestamp)
    requires IsDigits(w) && Lower(on) == "on"
    ensures Pass(["heat off " + w, x, "heat " + on], now).queue == [x]
    ensures Pass(["heat off " + w, x, "heat " + on], now).presses ==
              ModePresses(HOLD_TEMP, Some(DigitsValue(w))) + ModePresses(START_PROGRAM, Some(DigitsValue(w)))
  {
    StepHoldDigits(w, now, None);
    StepStartOn(on, now, Some(w));
    var step := StepAt(now);
    assert step("heat off " + w, None) == Step("heat off " + w, now, None);
    assert step("heat " + on, Some(w)) == Step("heat " + on, now, Some(w));
    RunFromCarriesPar3(step, "heat off " + w, x, "heat " + on);
    assert ModeTemp(Some(w)) == Some(DigitsValue(w));
  }

  /**
    The same queue, corrected, with an unknown one-word command in the
    middle: it is reported and removed, and `heat on` starts the program
    without a temperature.
  */
  lemma StaleExampleFixed(w: string, x: string, on: string, now: Timestamp)
    requires IsDigits(w) && IsToken(x) && ':' !in x && Lower(x) != "heat" && Lower(on) == "on"
    ensures PassFixed(["heat off " + w, x, "heat " + on], now).queue == []
    ensures PassFixed(["heat off " + w, x, "heat " + on], now).presses ==
              ModePresses(HOLD_TEMP, Some(DigitsValue(w))) + ModePresses(START_PROGRAM, None)
  {
    StepHoldDigits(w, now, None);
    StepUnknownCommand(x, now, None);
    StepStartOn(on, now, None);
    var step := StepAt(now);
    assert step("heat off " + w, None) == Step("heat off " + w, now, None);
    assert step(x, None) == Step(x, now, None);
    assert step("heat " + on, None) == Step("heat " + on, now, None);
    DrainThree(step, "heat off " + w, x, "heat " + on);
    assert ModePresses(HOLD_TEMP, Some(DigitsValue(w))) + [] == ModePresses(HOLD_TEMP, Some(DigitsValue(w)));
  }
}

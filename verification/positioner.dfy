/**
  The Temperature Positioning Protocol. The Chronotherm has no "set
  temperature" input, only relative WARMER and COOLER buttons, and its current
  setting cannot be read back. set_temp therefore first presses COOLER often
  enough to reach MIN_TEMP from any setting up to MAX_TEMP + 2, then presses
  WARMER once per degree above MIN_TEMP, after clamping the target to MAX_TEMP.
  This module gives the press sequences as values and proves what they do to
  a device that obeys the assumed button semantics.
*/
module Positioner {
  import opened Wrappers

  /** Lowest setting of the Chronotherm; COOLER does nothing there. */
  const MIN_TEMP: int := 7
  /** Highest temperature that may be set remotely. */
  const MAX_TEMP: int := 20

  /** Button codes written to the port expander; NO_BUTTON releases a button. */
  const NO_BUTTON: int := 0x00
  const START_PROGRAM: int := 0x01
  const HOLD_TEMP: int := 0x02
  const WARMER: int := 0x04
  const COOLER: int := 0x08

  /** COOLER presses of the reset phase: enough to go from MAX_TEMP + 2 down to MIN_TEMP. */
  const RESET_PRESSES: nat := MAX_TEMP + 2 - MIN_TEMP

  /** `n` presses of one button. */
  function Repeat(button: int, n: nat): (r: seq<int>)
    ensures |r| == n
    ensures forall i :: 0 <= i < n ==> r[i] == button
  {
    if n == 0 then [] else Repeat(button, n - 1) + [button]
  }

  /** The WARMER presses after the reset: `range(temp - MIN_TEMP)` once the target is clamped to MAX_TEMP. */
  function WarmerCount(temp: int): nat {
    var t := if temp > MAX_TEMP then MAX_TEMP else temp;
    if t - MIN_TEMP > 0 then t - MIN_TEMP else 0
  }

  /** The presses set_temp(temp) issues: the reset phase of COOLER presses, then the WARMER presses. */
  function SetTempPresses(temp: int): seq<int>
  {
    Repeat(COOLER, RESET_PRESSES) + Repeat(WARMER, WarmerCount(temp))
  }

  /** The presses start_program / hold_temp issue: the mode button, then set_temp when a temperature is given. */
  function ModePresses(mode: int, temp: Option<int>): (r: seq<int>)
    ensures |r| > 0 && r[0] == mode
    ensures r[1..] == if temp.Some? then SetTempPresses(temp.value) else []
  {
    [mode] + (if temp.Some? then SetTempPresses(temp.value) else [])
  }

  /** How often `button` occurs in `presses`. */
  function Count(presses: seq<int>, button: int): nat {
    if presses == [] then 0
    else Count(presses[..|presses| - 1], button) + (if presses[|presses| - 1] == button then 1 else 0)
  }

  lemma {:induction false} CountAppend(a: seq<int>, b: seq<int>, button: int)
    ensures Count(a + b, button) == Count(a, button) + Count(b, button)
    decreases |b|
  {
    if b != [] {
      var b' := b[..|b| - 1];
      assert (a + b)[..|a + b| - 1] == a + b';
      CountAppend(a, b', button);
    } else {
      assert a + b == a;
    }
  }

  lemma {:induction false} CountRepeat(x: int, n: nat, button: int)
    ensures Count(Repeat(x, n), button) == if x == button then n else 0
  {
    if n > 0 {
      assert Repeat(x, n)[..n - 1] == Repeat(x, n - 1);
      CountRepeat(x, n - 1, button);
    }
  }

  /**
    set_temp(temp) presses COOLER exactly MAX_TEMP + 2 - MIN_TEMP times and
    WARMER exactly max(0, min(temp, MAX_TEMP) - MIN_TEMP) times, no other
    button, and never a COOLER after a WARMER.
  */
  lemma SetTempShape(temp: int)
    ensures Count(SetTempPresses(temp), COOLER) == MAX_TEMP + 2 - MIN_TEMP
    ensures Count(SetTempPresses(temp), WARMER) ==
              if temp >= MAX_TEMP then MAX_TEMP - MIN_TEMP
              else if temp > MIN_TEMP then temp - MIN_TEMP
              else 0
    ensures |SetTempPresses(temp)| == Count(SetTempPresses(temp), COOLER) + Count(SetTempPresses(temp), WARMER)
    ensures forall i, j :: 0 <= i < j < |SetTempPresses(temp)| && SetTempPresses(temp)[j] == COOLER ==>
              SetTempPresses(temp)[i] == COOLER
  {
    var p := SetTempPresses(temp);
    CountAppend(Repeat(COOLER, RESET_PRESSES), Repeat(WARMER, WarmerCount(temp)), COOLER);
    CountAppend(Repeat(COOLER, RESET_PRESSES), Repeat(WARMER, WarmerCount(temp)), WARMER);
    CountRepeat(COOLER, RESET_PRESSES, COOLER);
    CountRepeat(COOLER, RESET_PRESSES, WARMER);
    CountRepeat(WARMER, WarmerCount(temp), COOLER);
    CountRepeat(WARMER, WarmerCount(temp), WARMER);
    forall i, j | 0 <= i < j < |p| && p[j] == COOLER
      ensures p[i] == COOLER
    {
      assert j < RESET_PRESSES;
    }
  }

  /** Any target above MAX_TEMP produces exactly the presses for MAX_TEMP. */
  lemma SetTempClampsAbove(temp: int)
    requires temp > MAX_TEMP
    ensures SetTempPresses(temp) == SetTempPresses(MAX_TEMP)
  {
  }

  /** A target at or below MIN_TEMP produces only the reset presses. */
  lemma SetTempFloor(temp: int)
    requires temp <= MIN_TEMP
    ensures SetTempPresses(temp) == Repeat(COOLER, MAX_TEMP + 2 - MIN_TEMP)
  {
  }

  /** The setting a target is meant to end at: below MIN_TEMP the device stays at MIN_TEMP, above MAX_TEMP the request is clamped. */
  function Target(temp: int): int {
    if temp > MAX_TEMP then MAX_TEMP else if temp < MIN_TEMP then MIN_TEMP else temp
  }

  /** A temperature button. */
  predicate IsTempButton(button: int) {
    button == COOLER || button == WARMER
  }

  /**
    The assumed behaviour of the Chronotherm's temperature buttons: COOLER
    lowers the setting by one degree but never below MIN_TEMP, WARMER raises
    it by one degree but never above the device's own highest setting `top`.
  */
  function Press(setting: int, button: int, top: int): int
    requires IsTempButton(button)
  {
    if button == COOLER then (if setting > MIN_TEMP then setting - 1 else setting)
    else (if setting < top then setting + 1 else setting)
  }

  /** The setting after a sequence of temperature presses. */
  function Apply(setting: int, presses: seq<int>, top: int): int
    requires forall i :: 0 <= i < |presses| ==> IsTempButton(presses[i])
  {
    if presses == [] then setting
    else Press(Apply(setting, presses[..|presses| - 1], top), presses[|presses| - 1], top)
  }

  lemma {:induction false} ApplyAppend(setting: int, a: seq<int>, b: seq<int>, top: int)
    requires forall i :: 0 <= i < |a| ==> IsTempButton(a[i])
    requires forall i :: 0 <= i < |b| ==> IsTempButton(b[i])
    ensures forall i :: 0 <= i < |a + b| ==> IsTempButton((a + b)[i])
    ensures Apply(setting, a + b, top) == Apply(Apply(setting, a, top), b, top)
    decreases |b|
  {
    assert forall i :: 0 <= i < |a + b| ==> IsTempButton((a + b)[i]) by {
      forall i | 0 <= i < |a + b| ensures IsTempButton((a + b)[i]) {
        if i < |a| { assert (a + b)[i] == a[i]; } else { assert (a + b)[i] == b[i - |a|]; }
      }
    }
    if b == [] {
      assert a + b == a;
    } else {
      var b' := b[..|b| - 1];
      assert (a + b)[..|a + b| - 1] == a + b';
      ApplyAppend(setting, a, b', top);
    }
  }

  /** From any setting at or above MIN_TEMP, n COOLER presses end at max(MIN_TEMP, setting - n). */
  lemma {:induction false} ApplyCoolers(setting: int, n: nat, top: int)
    requires setting >= MIN_TEMP
    ensures Apply(setting, Repeat(COOLER, n), top) == if setting - n > MIN_TEMP then setting - n else MIN_TEMP
  {
    if n > 0 {
      assert Repeat(COOLER, n)[..n - 1] == Repeat(COOLER, n - 1);
      ApplyCoolers(setting, n - 1, top);
    }
  }

  /** n WARMER presses raise the setting by n while the device's top is not reached. */
  lemma {:induction false} ApplyWarmers(setting: int, n: nat, top: int)
    requires setting + n <= top
    ensures Apply(setting, Repeat(WARMER, n), top) == setting + n
  {
    if n > 0 {
      assert Repeat(WARMER, n)[..n - 1] == Repeat(WARMER, n - 1);
      ApplyWarmers(setting, n - 1, top);
    }
  }

  /**
    The protocol's central promise: whatever the unknown starting setting, as
    long as it lies between MIN_TEMP and MAX_TEMP + 2, set_temp(temp) leaves
    the device at Target(temp). The result depends on the request only.
  */
  lemma SetTempConverges(setting: int, temp: int, top: int)
    requires MIN_TEMP <= setting <= MAX_TEMP + 2
    requires top >= MAX_TEMP
    ensures forall i :: 0 <= i < |SetTempPresses(temp)| ==> IsTempButton(SetTempPresses(temp)[i])
    ensures Apply(setting, SetTempPresses(temp), top) == Target(temp)
  {
    ApplyAppend(setting, Repeat(COOLER, RESET_PRESSES), Repeat(WARMER, WarmerCount(temp)), top);
    ApplyCoolers(setting, RESET_PRESSES, top);
    ApplyWarmers(MIN_TEMP, WarmerCount(temp), top);
  }

  /**
    The bound of the reset phase is tight: one degree above MAX_TEMP + 2 the
    device does not reach the target.
  */
  lemma SetTempNeedsResetBound(top: int)
    requires top >= MAX_TEMP
    ensures forall i :: 0 <= i < |SetTempPresses(MIN_TEMP)| ==> IsTempButton(SetTempPresses(MIN_TEMP)[i])
    ensures Apply(MAX_TEMP + 3, SetTempPresses(MIN_TEMP), top) == MIN_TEMP + 1
  {
    ApplyAppend(MAX_TEMP + 3, Repeat(COOLER, RESET_PRESSES), Repeat(WARMER, WarmerCount(MIN_TEMP)), top);
    ApplyCoolers(MAX_TEMP + 3, RESET_PRESSES, top);
  }
}

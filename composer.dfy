/**
 * The single-threshold, debounced decision logic of `away_from_home/composer.py`.
 * The temperature the source reads from its weather object and the time it reads from
 * the clock are parameters; the aircon's `on()` and `off()` are recorded as commands.
 */
module Composer {
  import opened Wrappers

  /** A command sent to the aircon. */
  datatype Command = On | Off

  /** What a Composer remembers between runs: `_aircon_is_on` and `_last_action_timestamp`. */
  datatype Memory = Memory(airconIsOn: Option<bool>, lastActionTimestamp: Option<int>)

  /** The memory of a newly built Composer. */
  const Blank := Memory(None, None)

  /** The result of one `run`: its return value (`None` when deferred), the command it issued, the new memory. */
  datatype RunOutcome = RunOutcome(returned: Option<bool>, issued: Option<Command>, memory: Memory)

  /** `_check_above_threshold`: the threshold itself counts as above. */
  predicate AboveThreshold(temperature: int, threshold: int)
  {
    temperature >= threshold
  }

  /**
   * `_check_need_to_defer`: never before the first command; afterwards, while fewer than
   * `debounce` seconds have passed since the last command.
   */
  function NeedToDefer(lastActionTimestamp: Option<int>, debounce: int, timestamp: int): (defer: bool)
    ensures lastActionTimestamp.None? ==> !defer
    ensures lastActionTimestamp.Some? ==> (defer <==> timestamp < lastActionTimestamp.value + debounce)
  {
    match lastActionTimestamp
    case None => false
    case Some(last) => !(timestamp - last >= debounce)
  }

  /** `_turn_aircon_on`: sends `On` unless the aircon is already known to be on. */
  function TurnOn(m: Memory, timestamp: int): (r: (Option<Command>, Memory))
    ensures r.0.Some? <==> m.airconIsOn != Some(true)
    ensures r.0.Some? ==> r.0.value == On && r.1 == Memory(Some(true), Some(timestamp))
    ensures r.0.None? ==> r.1 == m
  {
    if m.airconIsOn.None? || !m.airconIsOn.value then (Some(On), Memory(Some(true), Some(timestamp)))
    else (None, m)
  }

  /** `_turn_aircon_off`: sends `Off` unless the aircon is already known to be off. */
  function TurnOff(m: Memory, timestamp: int): (r: (Option<Command>, Memory))
    ensures r.0.Some? <==> m.airconIsOn != Some(false)
    ensures r.0.Some? ==> r.0.value == Off && r.1 == Memory(Some(false), Some(timestamp))
    ensures r.0.None? ==> r.1 == m
  {
    if m.airconIsOn.None? || m.airconIsOn.value then (Some(Off), Memory(Some(false), Some(timestamp)))
    else (None, m)
  }

  /**
   * `run` as a function of the remembered state. A deferred run does nothing and returns
   * `None`; otherwise the run returns whether the temperature is at or above the threshold,
   * leaves the aircon remembered on that side, and issues a command only when that side
   * differs from the remembered one, stamping the command's time.
   */
  function RunStep(m: Memory, threshold: int, debounce: int, temperature: int, timestamp: int): (o: RunOutcome)
    ensures NeedToDefer(m.lastActionTimestamp, debounce, timestamp) ==> o == RunOutcome(None, None, m)
    ensures !NeedToDefer(m.lastActionTimestamp, debounce, timestamp) ==>
      o.returned == Some(temperature >= threshold) && o.memory.airconIsOn == Some(temperature >= threshold)
    ensures o.issued.Some? <==>
      !NeedToDefer(m.lastActionTimestamp, debounce, timestamp) && m.airconIsOn != Some(temperature >= threshold)
    ensures o.issued.Some? ==> (o.issued.value == On <==> temperature >= threshold)
    ensures o.memory.lastActionTimestamp == if o.issued.Some? then Some(timestamp) else m.lastActionTimestamp
  {
    if NeedToDefer(m.lastActionTimestamp, debounce, timestamp) then
      RunOutcome(None, None, m)
    else if AboveThreshold(temperature, threshold) then
      var (c, m') := TurnOn(m, timestamp);
      RunOutcome(Some(true), c, m')
    else
      var (c, m') := TurnOff(m, timestamp);
      RunOutcome(Some(false), c, m')
  }

  /** The commands a run sends: none or one. */
  function Sent(issued: Option<Command>): seq<Command>
  {
    if issued.Some? then [issued.value] else []
  }

  /** A second run on the same side of the threshold as a completed run issues nothing and changes nothing. */
  lemma RepeatRunIssuesNothing(m: Memory, threshold: int, debounce: int, t1: int, ts1: int, t2: int, ts2: int)
    requires !NeedToDefer(m.lastActionTimestamp, debounce, ts1)
    requires AboveThreshold(t1, threshold) == AboveThreshold(t2, threshold)
    ensures var o1 := RunStep(m, threshold, debounce, t1, ts1);
      var o2 := RunStep(o1.memory, threshold, debounce, t2, ts2);
      o2.issued == None && o2.memory == o1.memory
  {
  }

  /** One call of `run`: the temperature the weather reports and the time of the call. */
  datatype Reading = Reading(temperature: int, timestamp: int)

  /** A command sent to the aircon and the time of the run that sent it. */
  datatype Action = Action(command: Command, timestamp: int)

  /** The memory after a series of runs and every command they sent, oldest first. */
  datatype Trace = Trace(memory: Memory, log: seq<Action>)

  /** A series of `run` calls on one Composer, starting from memory `m`. */
  function Runs(m: Memory, threshold: int, debounce: int, readings: seq<Reading>): (t: Trace)
    decreases |readings|
  {
    if readings == [] then Trace(m, [])
    else
      var before := Runs(m, threshold, debounce, readings[..|readings| - 1]);
      var r := readings[|readings| - 1];
      var o := RunStep(before.memory, threshold, debounce, r.temperature, r.timestamp);
      Trace(o.memory, before.log + if o.issued.Some? then [Action(o.issued.value, r.timestamp)] else [])
  }

  /** No two consecutive commands are the same. */
  ghost predicate Alternating(log: seq<Action>)
  {
    forall i :: 0 < i < |log| ==> log[i].command != log[i - 1].command
  }

  /** Consecutive commands are at least `debounce` seconds apart. */
  ghost predicate Debounced(log: seq<Action>, debounce: int)
  {
    forall i :: 0 < i < |log| ==> log[i].timestamp >= log[i - 1].timestamp + debounce
  }

  /** The memory records the last command sent and its time, and is blank before any command. */
  ghost predicate Reflects(m: Memory, log: seq<Action>)
  {
    if log == [] then m == Blank
    else m == Memory(Some(log[|log| - 1].command == On), Some(log[|log| - 1].timestamp))
  }

  /**
   * Over any series of runs of a new Composer, the commands alternate between on and off,
   * consecutive commands are at least `debounce` seconds apart, and the remembered state
   * is the last command actually sent with its time.
   */
  lemma {:induction false} RunsKeepLogSound(threshold: int, debounce: int, readings: seq<Reading>)
    ensures var t := Runs(Blank, threshold, debounce, readings);
      Alternating(t.log) && Debounced(t.log, debounce) && Reflects(t.memory, t.log)
    decreases |readings|
  {
    if readings != [] {
      var prefix := readings[..|readings| - 1];
      RunsKeepLogSound(threshold, debounce, prefix);
      var before := Runs(Blank, threshold, debounce, prefix);
      var r := readings[|readings| - 1];
      var o := RunStep(before.memory, threshold, debounce, r.temperature, r.timestamp);
      if o.issued.Some? {
        var log := before.log + [Action(o.issued.value, r.timestamp)];
        assert Runs(Blank, threshold, debounce, readings).log == log;
        if before.log != [] {
          var last := before.log[|before.log| - 1];
          assert log[|log| - 2] == last;
          assert o.issued.value != last.command;
          assert r.timestamp >= last.timestamp + debounce;
        }
      }
    }
  }

  /**
   * The debounce scenario with a threshold of 25 and a debounce of 30 minutes: 26 degrees
   * at time 0 turns the aircon on, 20 degrees five minutes later is deferred, and 20 degrees
   * 31 minutes after the first command turns it off.
   */
  lemma DebounceScenario()
    ensures Runs(Blank, 25, 1800, [Reading(26, 0), Reading(20, 300), Reading(20, 1860)]).log
      == [Action(On, 0), Action(Off, 1860)]
  {
    var rs := [Reading(26, 0), Reading(20, 300), Reading(20, 1860)];
    assert rs[..2][..1][..0] == [];
    assert rs[..2][..1] == [Reading(26, 0)];
    assert rs[..2] == [Reading(26, 0), Reading(20, 300)];
    var on := Memory(Some(true), Some(0));
    assert Runs(Blank, 25, 1800, rs[..2][..1]) == Trace(on, [Action(On, 0)]);
    assert Runs(Blank, 25, 1800, rs[..2]) == Trace(on, [Action(On, 0)]);
    assert Runs(Blank, 25, 1800, rs) == Trace(Memory(Some(false), Some(1860)), [Action(On, 0), Action(Off, 1860)]);
  }

  /** The Composer object, whose `run` updates its memory in place and drives the aircon. */
  class Composer {
    const threshold: int
    const debounce: int
    var airconIsOn: Option<bool>
    var lastActionTimestamp: Option<int>
    /** The commands sent to the aircon so far, oldest first. */
    var sent: seq<Command>

    /** The remembered state as a value. */
    function Remembered(): Memory
      reads this
    {
      Memory(airconIsOn, lastActionTimestamp)
    }

    /** A new Composer has issued nothing and knows nothing of the aircon. */
    constructor (threshold: int, debounce: int)
      ensures this.threshold == threshold && this.debounce == debounce
      ensures Remembered() == Blank && sent == []
    {
      this.threshold := threshold;
      this.debounce := debounce;
      airconIsOn := None;
      lastActionTimestamp := None;
      sent := [];
    }

    /** `_turn_aircon_on`, as `TurnOn` describes it. */
    method TurnAirconOn(timestamp: int)
      modifies this
      ensures var (c, m) := TurnOn(old(Remembered()), timestamp);
        Remembered() == m && sent == old(sent) + Sent(c)
    {
      if airconIsOn.None? || !airconIsOn.value {
        sent := sent + [On];
        airconIsOn := Some(true);
        lastActionTimestamp := Some(timestamp);
      }
    }

    /** `_turn_aircon_off`, as `TurnOff` describes it. */
    method TurnAirconOff(timestamp: int)
      modifies this
      ensures var (c, m) := TurnOff(old(Remembered()), timestamp);
        Remembered() == m && sent == old(sent) + Sent(c)
    {
      if airconIsOn.None? || airconIsOn.value {
        sent := sent + [Off];
        airconIsOn := Some(false);
        lastActionTimestamp := Some(timestamp);
      }
    }

    /** `run(timestamp)` with the weather's current temperature, as `RunStep` describes it. */
    method Run(temperature: int, timestamp: int) returns (r: Option<bool>)
      modifies this
      ensures var o := RunStep(old(Remembered()), threshold, debounce, temperature, timestamp);
        r == o.returned && Remembered() == o.memory && sent == old(sent) + Sent(o.issued)
    {
      if !NeedToDefer(lastActionTimestamp, debounce, timestamp) {
        if AboveThreshold(temperature, threshold) {
          TurnAirconOn(timestamp);
          return Some(true);
        } else {
          TurnAirconOff(timestamp);
          return Some(false);
        }
      }
      r := None;
    }
  }
}

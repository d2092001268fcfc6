# away_from_home: the decision core of a redundant aircon controller, in Dafny

`away_from_home` switches an air conditioner on or off from the outside temperature and
runs as several redundant instances, of which one should be "active". This project models
its sequential decision logic and proves properties of it:

- `Expirer` (`expirer.dfy`): `ExpiringBool`, a boolean stamped with the time it was set.
  Reading it before any set is a `ValueError`. Once more than `period` seconds have passed
  since the last set, reading gives the *negation* of the stored value. Setting it with
  anything but a bool is a `TypeError` that leaves it untouched.
- `Composer` (`composer.dfy`): the single-threshold controller with a debounce. A run is
  deferred while fewer than `debounce` seconds have passed since the last command sent.
  Otherwise it compares the temperature with the threshold and sends `on` or `off`, but only
  when that changes the remembered aircon state. The pure function `RunStep` describes one
  run; the class `Composer` does it in place and records the commands it sends.
  `Runs` chains runs together so that properties of whole series can be proved.
- `Heartbeat` (`heartbeat.dfy`): the peer table and the active flag of the heartbeat
  service. A received announcement from another instance inserts or refreshes that peer's
  record. An expire sweep drops records older than 5 seconds. Both then re-derive `active`:
  true when there are no peers or the own priority is below the largest peer priority.
- `Store` (`store.dfy`): a key/value dictionary with `Set` and `Get`.
- `Wrappers` (`wrappers.dfy`): `Option`, `Result` and `Outcome`, standing for Python's
  `None` and for raised exceptions.

Every read of the wall clock is an explicit timestamp argument in whole seconds. Periods,
debounce intervals and the stale age are whole seconds. Temperatures are integers.

The instances are redundant copies of one controller, one of which should be active, and
the lowest priority should win. The code instead tests the own priority against the
MAXIMUM peer priority (`away_from_home/heartbeat.py:67`). The model follows the code and
states the lowest-priority rule beside it; see "## Findings".

## Model

| member | source | states |
|---|---|---|
| `Expirer.ExpiringBool.constructor` | away_from_home/expirer.py:5-10 | a new ExpiringBool has neither a value nor a set time, and keeps the given period |
| `Expirer.ExpiringBool.IsStale` | away_from_home/expirer.py:12-16 | a `ValueError` exactly when nothing was ever set; otherwise stale exactly when the set time is strictly more than `period` seconds before the timestamp |
| `Expirer.ExpiringBool.Value` | away_from_home/expirer.py:22-24 | the `ValueError` before any set; the stored bool up to and including `period` seconds after the set; its negation afterwards |
| `Expirer.ExpiringBool.SetValue` | away_from_home/expirer.py:26-37 | a bool is stored with the given time and the call passes; any other value raises `TypeError` and leaves value and set time unchanged |
| `Expirer.ReadAtSetTime` | away_from_home/expirer.py:16-33 | reading at the very time of a set returns the value just set, for any non-negative period |
| `Expirer.StalenessPersists` | away_from_home/expirer.py:16 | once stale, the value stays stale at every later time until it is set again |
| `Expirer.FiveSecondBoundaries` | away_from_home/expirer_test.py:23-37 | with period 5: 4 s and 5 s after the set are fresh, 8 s after is stale |
| `Composer.NeedToDefer` | away_from_home/composer.py:44-61 | never defers before the first command; afterwards defers exactly while the time since the last command is below `debounce` (equal does not defer) |
| `Composer.TurnOn` | away_from_home/composer.py:28-34 | sends `On` exactly when the aircon is not known to be on, and then remembers it on with the run's time; otherwise nothing changes |
| `Composer.TurnOff` | away_from_home/composer.py:36-42 | sends `Off` exactly when the aircon is not known to be off, and then remembers it off with the run's time; otherwise nothing changes |
| `Composer.RunStep` | away_from_home/composer.py:18-72 | the threshold test of `_check_above_threshold` (`AboveThreshold`, folded in here) counts the threshold itself as above; a deferred run returns `None`, sends nothing and changes nothing; otherwise it returns whether temperature >= threshold and leaves the aircon remembered on that side; a command is sent exactly when that side differs from the remembered one, it is `On` exactly for the upper side, and the last-action time becomes the run's time exactly when a command is sent |
| `Composer.RepeatRunIssuesNothing` | away_from_home/composer.py:31-42 | after a run that was not deferred, any later run on the same side of the threshold sends nothing and leaves the memory as it was |
| `Composer.RunsKeepLogSound` | away_from_home/composer.py:44-72 | over any series of runs of a new Composer, commands alternate between on and off, consecutive commands are at least `debounce` seconds apart, and the memory holds the last command sent and its time |
| `Composer.DebounceScenario` | away_from_home/composer.py:63-72 | threshold 25, debounce 1800 s: 26 degrees at 0 s sends on, 20 degrees at 300 s sends nothing, 20 degrees at 1860 s sends off |
| `Composer.Composer.constructor` | away_from_home/composer.py:7-16 | a new Composer keeps threshold and debounce, knows nothing of the aircon, has no last-action time and has sent nothing |
| `Composer.Composer.TurnAirconOn` | away_from_home/composer.py:28-34 | the object's memory and sent commands change as `TurnOn` says |
| `Composer.Composer.TurnAirconOff` | away_from_home/composer.py:36-42 | the object's memory and sent commands change as `TurnOff` says |
| `Composer.Composer.Run` | away_from_home/composer.py:63-72 | returns what `RunStep` returns, takes its new memory, and appends at most the one command it issues to the commands sent |
| `Heartbeat.MaxPriority` | away_from_home/heartbeat.py:67 | the largest priority of a non-empty list of peer records: no record exceeds it and some record has it |
| `Heartbeat.DerivedActive` | away_from_home/heartbeat.py:66-80 | the active test holds exactly when there are no peers or some peer has a larger priority than the own one |
| `Heartbeat.SnapshotDecidesActive` | away_from_home/heartbeat.py:49-67 | the max rule applied to any list holding exactly the records of a table is true exactly when the table is empty or holds a peer with a larger priority than the own one |
| `Heartbeat.HandleActiveExamples` | away_from_home/heartbeat_test.py:70-89 | own priority 2 against peers with priorities 1 and 2 is inactive; own priority 0 is active |
| `Heartbeat.MinPriority` | away_from_home/heartbeat.py:67 | the smallest priority of a non-empty list of records: no record is below it and some record has it (reference for the intended rule) |
| `Heartbeat.LowestPriorityActive` | away_from_home/heartbeat.py:67 | the intended rule: active exactly when the own priority is below every peer's |
| `Heartbeat.MaxRuleAdmitsTwoActive` | away_from_home/heartbeat.py:67 | under the rule as written, instances with priorities 0 and 1 in a cluster of 0, 1 and 2 are both active |
| `Heartbeat.LowestRuleElectsAtMostOne` | away_from_home/heartbeat.py:67 | under the intended rule, no two instances of a fully connected cluster are active together |
| `Heartbeat.StrictLowestIsActive` | away_from_home/heartbeat.py:67 | the instance with the strictly smallest priority is active under both rules |
| `Heartbeat.SinglePeerRulesAgree` | away_from_home/heartbeat.py:67 | with exactly one peer the rule as written and the intended rule agree |
| `Heartbeat.Heartbeat.constructor` | away_from_home/heartbeat.py:23-42 | a new Heartbeat knows no peers and is active, with the given priority and uuid |
| `Heartbeat.Heartbeat.Peers` | away_from_home/heartbeat.py:49-52 | a list holding every record of the table, each exactly once and as it is in the table; being a value, it never aliases the table |
| `Heartbeat.Heartbeat.HandleActive` | away_from_home/heartbeat.py:66-80 | afterwards the flag is true exactly when the table is empty or holds a peer with a larger priority than the own one; when it already was, it is left alone, so a second call does nothing |
| `Heartbeat.Heartbeat.Receive` | away_from_home/heartbeat.py:89-112 | the own uuid leaves table and flag unchanged; another uuid gets the record (uuid, priority, now), all other records stay, and the flag is consistent with the new table |
| `Heartbeat.Heartbeat.Expire` | away_from_home/heartbeat.py:130-141 | removes exactly the records last seen more than 5 s before `now`, keeps the others unchanged, and leaves the flag consistent with the table |
| `Store.Store.constructor` | away_from_home/store.py:2-5 | a new store holds no key |
| `Store.Store.Get` | away_from_home/store.py:10-11 | `None` exactly for a key not in the dictionary, otherwise `Some` of the value stored under the key (see "## Left out" for a stored `None`) |
| `Store.Store.Set` | away_from_home/store.py:7-8 | afterwards `Get(key)` is the new value, replacing any earlier one, and every other key reads as before |

## Findings

| source | as written | input that shows it | evidently intended | confidence | as-written member | corrected member |
|---|---|---|---|---|---|---|
| away_from_home/heartbeat.py:67 | active when the own priority is below the MAXIMUM peer priority | three instances with priorities 0, 1 and 2 that all hear each other: the instances with 0 and 1 both derive active | active only when the own priority is below EVERY peer's (the minimum), so one instance is active | medium (two instances behave the same under both rules); not executed | `Heartbeat.MaxRuleAdmitsTwoActive` | `Heartbeat.LowestRuleElectsAtMostOne` |

The `Heartbeat.Heartbeat` class keeps the rule as written, since it models the code; the
intended rule is defined beside it as `Heartbeat.LowestPriorityActive`.

## Left out

- Sockets, multicast membership, `bind`, `sendto`, `recv` and the socket timeout: network I/O. The send loop `_send` only broadcasts the own uuid and priority, so it is not modelled.
- The three threads, the lock, the `_stopped` flag, `start`, `stop` and the sleeps: concurrency. `Receive` and `Expire` model one pass of each loop body as a sequential method.
- JSON encoding and decoding of heartbeat datagrams: `Receive` takes the decoded uuid and priority. A malformed datagram makes `json.loads` raise inside the receive thread, which ends that thread; that is not modelled. A well-formed datagram that lacks `uuid` or `priority` yields `None` for it through `.get` and is still filed in the table; the model's uuid is always a string and its priority always an integer, so it does not capture that case.
- `uuid4()`: the uuid is a constructor argument.
- Logging: no behavioural effect.
- The `active` property of the heartbeat is a plain read of the `active` field.
- Heartbeat.Heartbeat.Expire: the source reads the clock afresh for each record of a sweep; the model uses one `now` for the whole sweep.
- The `stale` property and the `value` getter and setter of `ExpiringBool` read the clock; `IsStale`, `Value` and `SetValue` take the time as an argument.
- Expirer.ExpiringBool.Value: assumes the object invariant that a value is stored whenever a set time is; the source's tests can break it by writing the fields directly.
- `weather.py` (the temperature source) is not part of this model: `Run` takes the temperature as an argument. Its cache gating is `ExpiringBool`.
- `aircon.py` (the device sender with retries) is not part of this model: `on()` and `off()` are recorded as commands in the `sent` field of `Composer`, and a command always succeeds. In the source the connector's send can raise; `run` then propagates the exception and `_aircon_is_on` and `_last_action_timestamp` stay as they were. The model does not capture that failure path.
- `__main__.py` (process wiring, scheduling, configuration) is not part of this model.
- `compose_test.py` tests an older two-threshold composer that `composer.py` no longer has; it is not modelled.
- Store.Store.Get: the `Option` result keeps a stored `None` apart from an absent key. Python's `dict.get` returns `None` for both, so in the source `set(k, None)` followed by `get(k)` looks like a key never set; the model returns `Some` of the stored value.
- The `heartbeat` argument of the `Store` constructor is stored but never used; it is left out.
- Python `datetime` values: every time is a whole number of seconds.

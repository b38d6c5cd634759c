/**
 * The per-person alert cooldown table of the detector (`AlertCooldown`).
 * The table maps a person's name to the time of the last alert let through
 * for that name; the name "UNKNOWN" is never rate-limited. Times are seconds
 * supplied by the caller instead of being read from the clock.
 */
module Cooldown {
  import opened Util

  /** The identity the detector gives every face it cannot name. */
  const UnknownName: string := "UNKNOWN"

  /** What one `can_alert` call answers and the table it leaves behind. */
  datatype Decision = Decision(allowed: bool, table: map<string, real>)

  /** True when `name` was let through less than `cooldown` seconds before `now`. */
  predicate CoolingDown(table: map<string, real>, cooldown: real, name: string, now: real)
  {
    name in table && now - table[name] < cooldown
  }

  /** The decision `can_alert(name)` takes at time `now` on table `table`. */
  function Decide(table: map<string, real>, cooldown: real, name: string, now: real): (d: Decision)
    ensures name == UnknownName ==> d.allowed && d.table == table
    ensures name != UnknownName ==> (d.allowed <==> !CoolingDown(table, cooldown, name, now))
    ensures !d.allowed ==> d.table == table
    ensures name != UnknownName && d.allowed ==> name in d.table && d.table[name] == now
    ensures forall other :: other != name ==> (other in d.table <==> other in table)
    ensures forall other :: other != name && other in table ==> d.table[other] == table[other]
  {
    if name == UnknownName then Decision(true, table)
    else if CoolingDown(table, cooldown, name, now) then Decision(false, table)
    else Decision(true, table[name := now])
  }

  /** The table `reset_cooldown(name)` leaves: one entry dropped, or all when the name is falsy. */
  function Reset(table: map<string, real>, name: Option<string>): (t: map<string, real>)
    ensures Truthy(name) ==> name.value !in t && forall k :: k != name.value ==> (k in t <==> k in table)
    ensures Truthy(name) ==> forall k :: k in t ==> t[k] == table[k]
    ensures !Truthy(name) ==> t == map[]
  {
    if Truthy(name) then table - {name.value} else map[]
  }

  /**
   * Rate limit: once a known name is let through at `t1`, every later call
   * for the same name before `t1 + cooldown` is refused, whatever other
   * names were let through in between.
   */
  lemma {:induction false} NoSecondAlertWithinCooldown(table: map<string, real>, cooldown: real, name: string,
                                                       t1: real, others: seq<(string, real)>, t2: real)
    requires name != UnknownName
    requires Decide(table, cooldown, name, t1).allowed
    requires forall i :: 0 <= i < |others| ==> others[i].0 != name
    requires t1 <= t2 < t1 + cooldown
    ensures !Decide(Replay(Decide(table, cooldown, name, t1).table, cooldown, others), cooldown, name, t2).allowed
  {
    var after := Decide(table, cooldown, name, t1).table;
    ReplayKeeps(after, cooldown, others, name);
  }

  /** The table after a sequence of `can_alert` calls, each a name and a time. */
  function Replay(table: map<string, real>, cooldown: real, calls: seq<(string, real)>): map<string, real>
    decreases |calls|
  {
    if calls == [] then table
    else Replay(Decide(table, cooldown, calls[0].0, calls[0].1).table, cooldown, calls[1..])
  }

  /** Calls for other names never touch the entry of `name`. */
  lemma {:induction false} ReplayKeeps(table: map<string, real>, cooldown: real, calls: seq<(string, real)>, name: string)
    requires forall i :: 0 <= i < |calls| ==> calls[i].0 != name
    ensures name in Replay(table, cooldown, calls) <==> name in table
    ensures name in table ==> Replay(table, cooldown, calls)[name] == table[name]
    decreases |calls|
  {
    if calls != [] {
      ReplayKeeps(Decide(table, cooldown, calls[0].0, calls[0].1).table, cooldown, calls[1..], name);
    }
  }

  /** After a reset of `name` (or of everything) the next alert for `name` is let through. */
  lemma ResetReopens(table: map<string, real>, cooldown: real, reset: Option<string>, name: string, now: real)
    requires !Truthy(reset) || reset.value == name
    ensures Decide(Reset(table, reset), cooldown, name, now).allowed
  {
  }

  /** `AlertCooldown`: the cooldown length and the table of last alert times. */
  class AlertCooldown {
    const cooldownSeconds: real
    var lastAlerts: map<string, real>

    constructor (cooldownSeconds: real)
      ensures this.cooldownSeconds == cooldownSeconds && lastAlerts == map[]
    {
      this.cooldownSeconds := cooldownSeconds;
      lastAlerts := map[];
    }

    /** `can_alert(person_name)` at time `now`. */
    method CanAlert(name: string, now: real) returns (ok: bool)
      modifies this
      ensures ok == Decide(old(lastAlerts), cooldownSeconds, name, now).allowed
      ensures lastAlerts == Decide(old(lastAlerts), cooldownSeconds, name, now).table
    {
      if name == UnknownName {
        return true;
      }
      if name in lastAlerts {
        var elapsed := now - lastAlerts[name];
        if elapsed < cooldownSeconds {
          return false;
        }
      }
      lastAlerts := lastAlerts[name := now];
      return true;
    }

    /** `reset_cooldown(person_name)`: drop one entry, or clear the table for a falsy name. */
    method ResetCooldown(name: Option<string>)
      modifies this
      ensures lastAlerts == Reset(old(lastAlerts), name)
    {
      if Truthy(name) {
        lastAlerts := lastAlerts - {name.value};
      } else {
        lastAlerts := map[];
      }
    }
  }
}

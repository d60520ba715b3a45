/** The routing table of one router: the learned routes keyed by
    destination router id, the neighbour data read from the configuration
    file, and the two times that drive periodic and triggered updates.
    Times are whole seconds; the random draws of `routingtable.py` become
    parameters constrained to their ranges. */
module RoutingTables {
  import opened Common
  import opened RouteEntries

  /** The port and link cost of a configured neighbour. */
  datatype ConfigData = ConfigData(port: int, cost: int)

  /** A Python dict from router id to route, as an object: `keys` is the
      insertion order that iteration follows and `entries` the mapping.
      It is an object, not a value, because the table rebinds its field to
      a copy on removal and an iteration already running over the old
      object must keep seeing the old contents. */
  class RouteDict {
    var keys: seq<int>
    var entries: map<int, RouteEntry>

    ghost predicate Valid()
      reads this
    {
      && Distinct(keys)
      && (forall id :: id in keys <==> id in entries)
    }

    /** An empty dict, `{}`. */
    constructor ()
      ensures Valid() && keys == [] && entries == map[]
    {
      keys, entries := [], map[];
    }

    /** `dict(other)`: a new dict with the same keys, in the same order,
        bound to the same values. */
    constructor Copy(other: RouteDict)
      requires other.Valid()
      ensures Valid() && keys == other.keys && entries == other.entries
    {
      keys, entries := other.keys, other.entries;
    }

    /** `d[id] = route`: a new key goes to the end of the iteration order,
        an existing key keeps its place and gets the new value. */
    method Set(id: int, route: RouteEntry)
      requires Valid()
      modifies this
      ensures Valid()
      ensures entries == old(entries)[id := route]
      ensures keys == if id in old(entries) then old(keys) else old(keys) + [id]
    {
      if id !in entries {
        keys := keys + [id];
      }
      entries := entries[id := route];
    }

    /** `del d[id]`: `found` is false exactly when Python raises KeyError,
        in which case nothing changes. */
    method Delete(id: int) returns (found: bool)
      requires Valid()
      modifies this
      ensures Valid()
      ensures found <==> id in old(entries)
      ensures entries == old(entries) - {id}
      ensures keys == Erase(old(keys), id)
    {
      found := id in entries;
      keys := Erase(keys, id);
      entries := entries - {id};
    }
  }

  class RoutingTable {
    var table: RouteDict
    var configTable: map<int, ConfigData>
    const routerId: int
    /** When the next periodic Response is due. */
    var schedUpdateTime: int
    /** The time the last triggered update asked for; `None` until the first request. */
    var triggeredUpdateTime: Option<int>
    const updateDelta: int
    const timeoutDelta: int
    const gcDelta: int

    ghost predicate Valid()
      reads this, table
    {
      table.Valid()
    }

    /** A table with no routes and no neighbour data, whose first periodic
        update is scheduled from `now` with the random offset `jitter`. */
    constructor (routerId: int, updateDelta: int, timeoutDelta: int, gcDelta: int, now: int, jitter: int)
      requires -5 <= jitter <= 5
      ensures Valid() && fresh(table)
      ensures table.keys == [] && table.entries == map[] && configTable == map[]
      ensures this.routerId == routerId && this.updateDelta == updateDelta
      ensures this.timeoutDelta == timeoutDelta && this.gcDelta == gcDelta
      ensures schedUpdateTime == now + updateDelta + jitter
      ensures triggeredUpdateTime == None
    {
      this.routerId := routerId;
      this.updateDelta := updateDelta;
      this.timeoutDelta := timeoutDelta;
      this.gcDelta := gcDelta;
      table := new RouteDict();
      configTable := map[];
      triggeredUpdateTime := None;
      new;
      var _ := UpdateSchedUpdateTime(now, jitter);
    }

    /** `len(table)`: the number of destinations with a route. */
    function Len(): (n: nat)
      reads this, table
      requires Valid()
      ensures n == |table.entries|
    {
      assert forall id :: id in table.keys <==> id in table.entries.Keys;
      DistinctSameMembersSameLength(table.keys, table.entries.Keys);
      |table.keys|
    }

    /** `iter(table)`: the destinations in the order the dict yields them,
        each exactly once, and no other ids. */
    function Iter(): (ids: seq<int>)
      reads this, table
      requires Valid()
      ensures Distinct(ids)
      ensures forall id :: id in ids <==> id in table.entries
      ensures |ids| == Len()
    {
      table.keys
    }

    /** `table[id]`: `None` stands for the KeyError raised for a destination
        with no route. */
    function Get(id: int): (r: Option<RouteEntry>)
      reads this, table
      ensures r.Some? <==> id in table.entries
      ensures r.Some? ==> r.value == table.entries[id]
    {
      if id in table.entries then Some(table.entries[id]) else None
    }

    /** `id in table`: membership agrees with iteration. */
    function Contains(id: int): (b: bool)
      reads this, table
      requires Valid()
      ensures b <==> id in Iter()
      ensures b <==> Get(id).Some?
    {
      id in table.entries
    }

    /** The ids that count as neighbours: the destinations of the routing
        table itself, not the routers named in the configuration data. */
    function Neighbours(): (ns: set<int>)
      reads this, table
      requires Valid()
      ensures forall id :: id in ns <==> id in Iter()
      ensures |ns| == Len()
    {
      table.entries.Keys
    }

    /** `del table[id]`. */
    method DelItem(id: int) returns (found: bool)
      requires Valid()
      modifies this
      ensures Valid() && fresh(table)
      ensures found <==> id in old(table.entries)
      ensures table.entries == old(table.entries) - {id}
      ensures table.keys == Erase(old(table.keys), id)
      ensures Len() == if found then old(Len()) - 1 else old(Len())
      ensures old(table).keys == old(table.keys) && old(table).entries == old(table.entries)
      ensures configTable == old(configTable)
      ensures schedUpdateTime == old(schedUpdateTime) && triggeredUpdateTime == old(triggeredUpdateTime)
    {
      found := RemoveRoute(id);
    }

    /** Adds or replaces the route to `id` in the dict in place. */
    method AddRoute(id: int, route: RouteEntry)
      requires Valid()
      modifies table
      ensures Valid()
      ensures table.entries == old(table.entries)[id := route]
      ensures table.keys == if id in old(table.entries) then old(table.keys) else old(table.keys) + [id]
      ensures configTable == old(configTable)
      ensures schedUpdateTime == old(schedUpdateTime) && triggeredUpdateTime == old(triggeredUpdateTime)
    {
      table.Set(id, route);
    }

    /** Records a configured neighbour's port and cost. */
    method AddConfigData(id: int, port: int, cost: int)
      modifies this`configTable
      ensures configTable == old(configTable)[id := ConfigData(port, cost)]
      ensures table == old(table)
      ensures schedUpdateTime == old(schedUpdateTime) && triggeredUpdateTime == old(triggeredUpdateTime)
    {
      configTable := configTable[id := ConfigData(port, cost)];
    }

    /** Removes the route to `id`. The field is first rebound to a copy of
        the dict and the key deleted from the copy, so the dict object the
        table held before, and any iteration walking it, is untouched.
        `found` is false when `del` raises KeyError; the field has been
        rebound to an identical copy by then. */
    method RemoveRoute(id: int) returns (found: bool)
      requires Valid()
      modifies this
      ensures Valid() && fresh(table)
      ensures found <==> id in old(table.entries)
      ensures table.entries == old(table.entries) - {id}
      ensures table.keys == Erase(old(table.keys), id)
      ensures Len() == if found then old(Len()) - 1 else old(Len())
      ensures old(table).keys == old(table.keys) && old(table).entries == old(table.entries)
      ensures configTable == old(configTable)
      ensures schedUpdateTime == old(schedUpdateTime) && triggeredUpdateTime == old(triggeredUpdateTime)
    {
      table := new RouteDict.Copy(table);
      found := table.Delete(id);
    }

    /** Schedules the next periodic update `updateDelta` seconds after
        `now`, shifted by the random `jitter`; returns the base time used. */
    method UpdateSchedUpdateTime(now: int, jitter: int) returns (base: int)
      requires -5 <= jitter <= 5
      modifies this`schedUpdateTime
      ensures schedUpdateTime == now + updateDelta + jitter
      ensures now + updateDelta - 5 <= schedUpdateTime <= now + updateDelta + 5
      ensures base == now
    {
      schedUpdateTime := now + updateDelta + jitter;
      base := now;
    }

    /** The part of a triggered-update request before it sleeps: record the
        candidate time `now + delay` and decide whether to wait at all. It
        does not wait when the periodic update comes no later than the
        candidate; the request is then suppressed. */
    method BeginTriggeredUpdate(now: int, delay: int) returns (waits: bool)
      requires 1 <= delay <= 5
      modifies this`triggeredUpdateTime
      ensures triggeredUpdateTime == Some(now + delay)
      ensures waits <==> now + delay < schedUpdateTime
    {
      triggeredUpdateTime := Some(now + delay);
      waits := !(triggeredUpdateTime.value >= schedUpdateTime);
    }

    /** The part after the sleep: the request is confirmed exactly when no
        other request has changed the recorded time meanwhile. */
    method FinishTriggeredUpdate(now: int, delay: int) returns (confirmed: bool)
      ensures confirmed <==> triggeredUpdateTime == Some(now + delay)
    {
      confirmed := triggeredUpdateTime == Some(now + delay);
    }

    /** A whole triggered-update request with nothing else running during
        its wait: it is confirmed exactly when its candidate time comes
        before the next periodic update. */
    method SetTriggeredUpdateTime(now: int, delay: int) returns (confirmed: bool)
      requires 1 <= delay <= 5
      modifies this`triggeredUpdateTime
      ensures triggeredUpdateTime == Some(now + delay)
      ensures confirmed <==> now + delay < schedUpdateTime
    {
      var waits := BeginTriggeredUpdate(now, delay);
      if !waits {
        return false;
      }
      confirmed := FinishTriggeredUpdate(now, delay);
    }
  }

  /** Two triggered-update requests where the second starts while the first
      is asleep. The second is confirmed exactly when it waits; the first is
      confirmed only if it waited and the second recorded the very same
      candidate time, so of two requests with different candidates at most
      the later one confirms. */
  method OverlappingTriggeredUpdates(rt: RoutingTable, t1: int, d1: int, t2: int, d2: int)
    returns (first: bool, second: bool)
    requires 1 <= d1 <= 5 && 1 <= d2 <= 5
    requires t1 <= t2 < t1 + d1
    modifies rt`triggeredUpdateTime
    ensures rt.triggeredUpdateTime == Some(t2 + d2)
    ensures second <==> t2 + d2 < rt.schedUpdateTime
    ensures first <==> t1 + d1 < rt.schedUpdateTime && t1 + d1 == t2 + d2
    ensures t1 + d1 != t2 + d2 ==> !first
  {
    var firstWaits := rt.BeginTriggeredUpdate(t1, d1);
    if !firstWaits {
      first := false;
      second := rt.SetTriggeredUpdateTime(t2, d2);
      return;
    }
    // the first request sleeps; the second starts during that sleep
    var secondWaits := rt.BeginTriggeredUpdate(t2, d2);
    // whichever wakes first, nothing writes the field between the two rechecks
    first := rt.FinishTriggeredUpdate(t1, d1);
    if secondWaits {
      second := rt.FinishTriggeredUpdate(t2, d2);
    } else {
      second := false;
    }
  }
}

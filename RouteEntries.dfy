/** A single destination's routing state. Only the fields the routing
    table and the packet builder touch are kept; times are whole seconds,
    and a timer that was never set is `None`. */
module RouteEntries {
  import opened Common

  datatype RouteEntry = RouteEntry(
    port: int,
    nextHop: int,
    metric: int,
    flag: bool,
    timeoutTime: Option<int>,
    gcTime: Option<int>)
  {
    /** A shallow copy whose metric is overridden: the stored entry is a
        value, so the copy shares every other field and the original is
        left as it was. */
    function WithMetric(m: int): (r: RouteEntry)
      ensures r.metric == m
      ensures r.port == port && r.nextHop == nextHop && r.flag == flag
      ensures r.timeoutTime == timeoutTime && r.gcTime == gcTime
    {
      this.(metric := m)
    }
  }
}

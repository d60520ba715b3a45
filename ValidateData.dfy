/** Validation of the data read from a router's configuration file: its
    router id, its input ports, its output links (port, cost, neighbour id)
    and its three timers. The checks run in groups, in a fixed order, and
    the first group that fails decides the outcome. */
module ValidateData {
  import opened Common

  // Router id limits
  const MIN_ID := 1
  const MAX_ID := 64000

  // Input / output port limits
  const MIN_PORT := 1024
  const MAX_PORT := 64000

  // Metric limits; a metric of INFINITY means unreachable
  const INFINITY := 16
  const MIN_METRIC := 1
  const MAX_METRIC := INFINITY

  // The timeout timer and the garbage-collection timer as multiples of the periodic timer
  const PERIODIC_DEAD_RATIO := 6
  const PERIODIC_GARBAGE_RATIO := 4

  /** One output link: the neighbour's input port, the link cost and the neighbour's id. */
  datatype OutputPort = OutputPort(port: int, metric: int, id: int)

  /** What the validator reports. Every error but `DivisionByZero` returns 1
      after printing its message; `OutputPortError` covers both a port out
      of range and a reused port (its message reads "Port number re-use" in
      either case); `DivisionByZero` is the ZeroDivisionError raised when the
      first timer is 0; `Ok` returns 0. */
  datatype Outcome =
    | Ok
    | RouterIdError
    | InputPortError
    | CostError
    | OutputIdError
    | OutputPortError
    | TimersError
    | DivisionByZero

  /** The value `validate_data` returns, for the outcomes that return one. */
  function ReturnCode(o: Outcome): (code: int)
    requires !o.DivisionByZero?
    ensures code == 0 <==> o == Ok
    ensures code == 0 || code == 1
  {
    if o == Ok then 0 else 1
  }

  predicate IdInRange(id: int) { MIN_ID <= id <= MAX_ID }
  predicate PortInRange(port: int) { MIN_PORT <= port <= MAX_PORT }
  predicate MetricInRange(metric: int) { MIN_METRIC <= metric <= MAX_METRIC }

  function Ports(outputs: seq<OutputPort>): (ps: seq<int>)
    ensures |ps| == |outputs| && forall i :: 0 <= i < |outputs| ==> ps[i] == outputs[i].port
  {
    seq(|outputs|, i requires 0 <= i < |outputs| => outputs[i].port)
  }

  /** The fault the output loop stops at for one item: its port is checked
      first, then its cost, then its id. */
  function ItemFault(item: OutputPort): (f: Option<Outcome>)
    ensures f.Some? ==> f.value in {OutputPortError, CostError, OutputIdError}
  {
    if !PortInRange(item.port) then Some(OutputPortError)
    else if !MetricInRange(item.metric) then Some(CostError)
    else if !IdInRange(item.id) then Some(OutputIdError)
    else None
  }

  /** The fault of the first faulty item, if any: the loop breaks there, so
      later items are never looked at. */
  function FirstFault(outputs: seq<OutputPort>): (f: Option<Outcome>)
    ensures f.Some? ==> f.value in {OutputPortError, CostError, OutputIdError}
  {
    if outputs == [] then None
    else
      var f := FirstFault(outputs[..|outputs| - 1]);
      if f.Some? then f else ItemFault(outputs[|outputs| - 1])
  }

  /** The outcome of validation as an ordered chain of checks. */
  ghost function Verdict(routerId: int, inputs: seq<int>, outputs: seq<OutputPort>, timers: seq<int>): Outcome {
    if !IdInRange(routerId) then RouterIdError
    else if (exists i :: 0 <= i < |inputs| && !PortInRange(inputs[i])) || !Distinct(inputs) then InputPortError
    else if FirstFault(outputs).Some? then FirstFault(outputs).value
    else if !Distinct(Ports(outputs)) || (exists i, j :: 0 <= i < |outputs| && 0 <= j < |inputs| && outputs[i].port == inputs[j])
    then OutputPortError
    else if |timers| != 3 then TimersError
    else if timers[0] == 0 then DivisionByZero
    else if timers[1] != PERIODIC_DEAD_RATIO * timers[0] || timers[2] != PERIODIC_GARBAGE_RATIO * timers[0] then TimersError
    else Ok
  }

  /** A configuration all of whose values are acceptable, stated without
      any order among the checks. */
  ghost predicate ConfigOk(routerId: int, inputs: seq<int>, outputs: seq<OutputPort>, timers: seq<int>) {
    && IdInRange(routerId)
    && (forall i :: 0 <= i < |inputs| ==> PortInRange(inputs[i]))
    && Distinct(inputs)
    && (forall i :: 0 <= i < |outputs| ==> PortInRange(outputs[i].port))
    && (forall i :: 0 <= i < |outputs| ==> MetricInRange(outputs[i].metric))
    && (forall i :: 0 <= i < |outputs| ==> IdInRange(outputs[i].id))
    && Distinct(Ports(outputs))
    && (forall i, j :: 0 <= i < |outputs| && 0 <= j < |inputs| ==> outputs[i].port != inputs[j])
    && |timers| == 3
    && timers[0] != 0
    && timers[1] == PERIODIC_DEAD_RATIO * timers[0]
    && timers[2] == PERIODIC_GARBAGE_RATIO * timers[0]
  }

  /** No item is faulty exactly when the output loop runs to its end. */
  lemma {:induction false} FirstFaultNone(outputs: seq<OutputPort>)
    ensures FirstFault(outputs) == None <==> forall i :: 0 <= i < |outputs| ==> ItemFault(outputs[i]) == None
  {
    if outputs != [] {
      var p := outputs[..|outputs| - 1];
      FirstFaultNone(p);
      assert forall i :: 0 <= i < |p| ==> p[i] == outputs[i];
    }
  }

  /** Once a prefix holds a faulty item, items after the prefix do not matter. */
  lemma {:induction false} FirstFaultOfPrefix(outputs: seq<OutputPort>, n: nat)
    requires n <= |outputs|
    requires FirstFault(outputs[..n]).Some?
    ensures FirstFault(outputs) == FirstFault(outputs[..n])
    decreases |outputs| - n
  {
    if n < |outputs| {
      var p := outputs[..|outputs| - 1];
      assert p[..n] == outputs[..n];
      FirstFaultOfPrefix(p, n);
    } else {
      assert outputs[..n] == outputs;
    }
  }

  /** The first faulty item alone determines the reported fault. */
  lemma FirstFaultAt(outputs: seq<OutputPort>, k: nat)
    requires k < |outputs|
    requires forall i :: 0 <= i < k ==> ItemFault(outputs[i]) == None
    requires ItemFault(outputs[k]).Some?
    ensures FirstFault(outputs) == ItemFault(outputs[k])
  {
    var p := outputs[..k];
    assert forall i :: 0 <= i < k ==> p[i] == outputs[i];
    FirstFaultNone(p);
    assert outputs[..k + 1][..k] == p;
    FirstFaultOfPrefix(outputs, k + 1);
  }

  /** Validation succeeds exactly when every value is acceptable; the one
      acceptable-looking case it does not survive is a zero first timer,
      which the source divides by. */
  lemma AcceptsExactlyValidConfigs(routerId: int, inputs: seq<int>, outputs: seq<OutputPort>, timers: seq<int>)
    ensures Verdict(routerId, inputs, outputs, timers) == Ok <==> ConfigOk(routerId, inputs, outputs, timers)
  {
    FirstFaultNone(outputs);
    if FirstFault(outputs) == None {
      forall i | 0 <= i < |outputs|
        ensures PortInRange(outputs[i].port) && MetricInRange(outputs[i].metric) && IdInRange(outputs[i].id)
      {
        assert ItemFault(outputs[i]) == None;
      }
    }
  }

  /** A router id out of range is reported before anything else is looked at. */
  lemma RouterIdCheckedFirst(routerId: int, inputs: seq<int>, outputs: seq<OutputPort>, timers: seq<int>)
    requires !IdInRange(routerId)
    ensures Verdict(routerId, inputs, outputs, timers) == RouterIdError
  {
  }

  /** With a valid router id, a bad input port (out of range or repeated)
      is reported whatever the output links and timers are. */
  lemma InputPortsCheckedSecond(routerId: int, inputs: seq<int>, outputs: seq<OutputPort>, timers: seq<int>, k: nat)
    requires IdInRange(routerId)
    requires (k < |inputs| && !PortInRange(inputs[k])) || !Distinct(inputs)
    ensures Verdict(routerId, inputs, outputs, timers) == InputPortError
  {
  }

  /** Among the output-link errors, the first faulty item decides: its cost
      or id error is reported even when ports are also reused, and a later
      item's errors are never reported. */
  lemma FirstFaultyOutputDecides(routerId: int, inputs: seq<int>, outputs: seq<OutputPort>, timers: seq<int>, k: nat)
    requires IdInRange(routerId)
    requires (forall i :: 0 <= i < |inputs| ==> PortInRange(inputs[i])) && Distinct(inputs)
    requires k < |outputs|
    requires forall i :: 0 <= i < k ==> ItemFault(outputs[i]) == None
    requires ItemFault(outputs[k]).Some?
    ensures Verdict(routerId, inputs, outputs, timers) == ItemFault(outputs[k]).value
  {
    FirstFaultAt(outputs, k);
  }

  /** With every item individually valid, a port shared between two
      outputs, or between an output and an input, is reported before the
      timers are checked. */
  lemma PortReuseCheckedBeforeTimers(routerId: int, inputs: seq<int>, outputs: seq<OutputPort>, timers: seq<int>)
    requires IdInRange(routerId)
    requires (forall i :: 0 <= i < |inputs| ==> PortInRange(inputs[i])) && Distinct(inputs)
    requires forall i :: 0 <= i < |outputs| ==> ItemFault(outputs[i]) == None
    requires !Distinct(Ports(outputs)) || exists i, j :: 0 <= i < |outputs| && 0 <= j < |inputs| && outputs[i].port == inputs[j]
    ensures Verdict(routerId, inputs, outputs, timers) == OutputPortError
  {
    FirstFaultNone(outputs);
  }

  /** The timers pass only as exactly three values in the ratio 1 : 6 : 4. */
  lemma TimersRatio(routerId: int, inputs: seq<int>, outputs: seq<OutputPort>, timers: seq<int>)
    requires Verdict(routerId, inputs, outputs, timers) == Ok
    ensures |timers| == 3 && timers[1] == 6 * timers[0] && timers[2] == 4 * timers[0] && timers[0] != 0
  {
  }

  /** The doctests of `validate_data` that fail on the router id or on the input
      ports, with the message each prints (hence the outcome). */
  lemma DoctestsRouterIdAndInputPorts()
    ensures var outs, ts := [OutputPort(5003, 3, 5), OutputPort(9003, 3, 9), OutputPort(1303, 3, 13)], [10, 60, 40];
      && Verdict(0, [3001, 4001, 5001], outs, ts) == RouterIdError
      && Verdict(64001, [3001, 4001, 5001], outs, ts) == RouterIdError
      && Verdict(1, [1023, 4001, 5001], outs, ts) == InputPortError
      && Verdict(1, [3001, 4001, 64001], outs, ts) == InputPortError
      && Verdict(1, [3001, 4001, 3001], outs, ts) == InputPortError
  {
    assert !PortInRange([1023, 4001, 5001][0]);
    assert !PortInRange([3001, 4001, 64001][2]);
    assert [3001, 4001, 3001][0] == [3001, 4001, 3001][2];
  }

  /** The doctests of `validate_data` that fail on an output link's port. */
  lemma DoctestsOutputPorts()
    ensures var ins, ts := [3001, 4001, 5001], [10, 60, 40];
      && Verdict(1, ins, [OutputPort(1022, 3, 5), OutputPort(9003, 3, 9), OutputPort(1303, 3, 13)], ts) == OutputPortError
      && Verdict(1, ins, [OutputPort(5003, 3, 5), OutputPort(64001, 3, 9), OutputPort(1303, 3, 13)], ts) == OutputPortError
      && Verdict(1, ins, [OutputPort(5003, 3, 5), OutputPort(1303, 3, 9), OutputPort(1303, 3, 13)], ts) == OutputPortError
      && Verdict(1, ins, [OutputPort(5003, 3, 5), OutputPort(9003, 3, 9), OutputPort(3001, 3, 13)], ts) == OutputPortError
  {
    var ins, ts := [3001, 4001, 5001], [10, 60, 40];
    DistinctThree(3001, 4001, 5001);
    FirstFaultyOutputDecides(1, ins, [OutputPort(1022, 3, 5), OutputPort(9003, 3, 9), OutputPort(1303, 3, 13)], ts, 0);
    FirstFaultyOutputDecides(1, ins, [OutputPort(5003, 3, 5), OutputPort(64001, 3, 9), OutputPort(1303, 3, 13)], ts, 1);
    var dup := [OutputPort(5003, 3, 5), OutputPort(1303, 3, 9), OutputPort(1303, 3, 13)];
    assert Ports(dup)[1] == Ports(dup)[2];
    PortReuseCheckedBeforeTimers(1, ins, dup, ts);
    var shared := [OutputPort(5003, 3, 5), OutputPort(9003, 3, 9), OutputPort(3001, 3, 13)];
    assert shared[2].port == ins[0];
    PortReuseCheckedBeforeTimers(1, ins, shared, ts);
  }

  /** The doctests of `validate_data` that fail on an output link's cost or id. */
  lemma DoctestsCostsAndIds()
    ensures var ins, ts := [3001, 4001, 5001], [10, 60, 40];
      && Verdict(1, ins, [OutputPort(5003, 0, 5), OutputPort(9003, 15, 9), OutputPort(1303, 3, 13)], ts) == CostError
      && Verdict(1, ins, [OutputPort(5003, 1, 5), OutputPort(9003, 17, 9), OutputPort(1303, 3, 13)], ts) == CostError
      && Verdict(1, ins, [OutputPort(5003, 3, 0), OutputPort(9003, 3, 9), OutputPort(1303, 3, 13)], ts) == OutputIdError
      && Verdict(1, ins, [OutputPort(5003, 3, 1), OutputPort(9003, 3, 64001), OutputPort(1303, 3, 13)], ts) == OutputIdError
  {
    var ins, ts := [3001, 4001, 5001], [10, 60, 40];
    DistinctThree(3001, 4001, 5001);
    FirstFaultyOutputDecides(1, ins, [OutputPort(5003, 0, 5), OutputPort(9003, 15, 9), OutputPort(1303, 3, 13)], ts, 0);
    FirstFaultyOutputDecides(1, ins, [OutputPort(5003, 1, 5), OutputPort(9003, 17, 9), OutputPort(1303, 3, 13)], ts, 1);
    FirstFaultyOutputDecides(1, ins, [OutputPort(5003, 3, 0), OutputPort(9003, 3, 9), OutputPort(1303, 3, 13)], ts, 0);
    FirstFaultyOutputDecides(1, ins, [OutputPort(5003, 3, 1), OutputPort(9003, 3, 64001), OutputPort(1303, 3, 13)], ts, 1);
  }

  /** Within one link the port range is checked first, then the cost, then
      the id; and a cost or id error found by the loop is reported before
      a port that two links share. */
  lemma FaultOrderWithinLink()
    ensures var ins, ts := [3001], [10, 60, 40];
      && Verdict(1, ins, [OutputPort(1000, 0, 0)], ts) == OutputPortError
      && Verdict(1, ins, [OutputPort(5003, 0, 0)], ts) == CostError
      && Verdict(1, ins, [OutputPort(5003, 3, 0)], ts) == OutputIdError
      && Verdict(1, ins, [OutputPort(5003, 3, 5), OutputPort(5003, 0, 9)], ts) == CostError
  {
    var ins, ts := [3001], [10, 60, 40];
    assert Distinct(ins);
    FirstFaultyOutputDecides(1, ins, [OutputPort(1000, 0, 0)], ts, 0);
    FirstFaultyOutputDecides(1, ins, [OutputPort(5003, 0, 0)], ts, 0);
    FirstFaultyOutputDecides(1, ins, [OutputPort(5003, 3, 0)], ts, 0);
    FirstFaultyOutputDecides(1, ins, [OutputPort(5003, 3, 5), OutputPort(5003, 0, 9)], ts, 1);
  }

  lemma DistinctThree(a: int, b: int, c: int)
    requires a != b && b != c && a != c
    ensures Distinct([a, b, c])
  {
  }

  /** The shape of the accepted doctests of `validate_data`: inputs 3001, 4001 and
      5001, links on ports 5003, 9003 and 1303 whose first two have the
      given costs and ids. It is accepted with the timers 10, 60, 40 and
      rejected with each of the other timer triples the doctests try. The
      doctests use costs 3, 3 with ids 5, 9; costs 1, 16 and 1, 15 (so 16
      and 15 are accepted); and costs 3, 3 with ids 1, 64000. */
  lemma DoctestsAccepted(c1: int, c2: int, id1: int, id2: int)
    requires MetricInRange(c1) && MetricInRange(c2) && IdInRange(id1) && IdInRange(id2)
    ensures var outs := [OutputPort(5003, c1, id1), OutputPort(9003, c2, id2), OutputPort(1303, 3, 13)];
      && Verdict(1, [3001, 4001, 5001], outs, [10, 60, 40]) == Ok
      && Verdict(1, [3001, 4001, 5001], outs, [10, 50, 40]) == TimersError
      && Verdict(1, [3001, 4001, 5001], outs, [10, 60, 30]) == TimersError
      && Verdict(1, [3001, 4001, 5001], outs, [10, 35, 40]) == TimersError
      && Verdict(1, [3001, 4001, 5001], outs, [20, 10, 42]) == TimersError
  {
    var ins := [3001, 4001, 5001];
    var outs := [OutputPort(5003, c1, id1), OutputPort(9003, c2, id2), OutputPort(1303, 3, 13)];
    DistinctThree(3001, 4001, 5001);
    assert Ports(outs) == [5003, 9003, 1303];
    DistinctThree(5003, 9003, 1303);
    FirstFaultNone(outs);
    AcceptsExactlyValidConfigs(1, ins, outs, [10, 60, 40]);
  }

  /** Items are looked at in order: an id error in an earlier link is
      reported even when a later link's cost is out of range. */
  lemma EarlierItemReportedFirst()
    ensures Verdict(1, [3001], [OutputPort(5003, 3, 0), OutputPort(9003, 0, 9)], [10, 60, 40]) == OutputIdError
  {
    FirstFaultyOutputDecides(1, [3001], [OutputPort(5003, 3, 0), OutputPort(9003, 0, 9)], [10, 60, 40], 0);
  }

  /** CPython's `a is not b` for two int values computed separately: the
      ints from -5 to 256 are shared objects, so there identity agrees with
      equality; equal values outside that range are distinct objects. */
  function IsNotAsWritten(a: int, b: int): (r: bool)
    ensures -5 <= a <= 256 ==> (r <==> a != b)
    ensures (a < -5 || a > 256) ==> r
  {
    !(a == b && -5 <= a <= 256)
  }

  /** The input-port length test as written compares lengths by identity:
      257 distinct ports, all in range, make it report an error although
      the configuration is acceptable (with no output links and the timers
      10, 60, 40 it validates). */
  lemma ManyInputPortsRejectedAsWritten()
    ensures var ports := seq(257, i => MIN_PORT + i);
      && (forall i :: 0 <= i < |ports| ==> PortInRange(ports[i]))
      && Distinct(ports)
      && IsNotAsWritten(|ToSet(ports)|, |ports|)
      && Verdict(1, ports, [], [10, 60, 40]) == Ok
  {
    var ports := seq(257, i => MIN_PORT + i);
    CardToSet(ports);
    AcceptsExactlyValidConfigs(1, ports, [], [10, 60, 40]);
  }

  /** The input-port group: collect the ports into a set, stopping at the
      first one out of range; the group fails on such a port or when the set
      comes out smaller than the list, that is, when a port repeats. */
  method CheckInputPorts(inputPorts: seq<int>) returns (inputSet: set<int>, inputPortError: bool)
    ensures inputPortError <==> (exists i :: 0 <= i < |inputPorts| && !PortInRange(inputPorts[i])) || !Distinct(inputPorts)
    ensures !inputPortError ==> inputSet == ToSet(inputPorts)
  {
    inputPortError := false;
    inputSet := {};
    var i := 0;
    while i < |inputPorts|
      invariant 0 <= i <= |inputPorts|
      invariant inputSet == ToSet(inputPorts[..i])
      invariant forall k :: 0 <= k < i ==> PortInRange(inputPorts[k])
      invariant !inputPortError
    {
      if inputPorts[i] < MIN_PORT || inputPorts[i] > MAX_PORT {
        inputPortError := true;
        break;
      }
      ToSetSnoc(inputPorts, i);
      inputSet := inputSet + {inputPorts[i]};
      i := i + 1;
    }
    if i == |inputPorts| {
      assert inputPorts[..i] == inputPorts;
      CardToSet(inputPorts);
    } else {
      assert !PortInRange(inputPorts[i]);
    }
    if |inputSet| != |inputPorts| {
      inputPortError := true;
    }
  }

  /** The loop stops at item `j` when the items before it are sound and it is not. */
  lemma StopAt(outputs: seq<OutputPort>, j: nat)
    requires j < |outputs|
    requires FirstFault(outputs[..j]) == None
    requires ItemFault(outputs[j]).Some?
    ensures FirstFault(outputs) == ItemFault(outputs[j])
  {
    assert outputs[..j + 1][..j] == outputs[..j];
    FirstFaultOfPrefix(outputs, j + 1);
  }

  /** A link that passes every test extends the fault-free, collected prefix. */
  lemma PassItem(outputs: seq<OutputPort>, j: nat)
    requires j < |outputs|
    requires FirstFault(outputs[..j]) == None
    requires ItemFault(outputs[j]) == None
    ensures FirstFault(outputs[..j + 1]) == None
  {
    assert outputs[..j + 1][..j] == outputs[..j];
  }

  /** The output-link loop: one pass over the links that stops at the
      first faulty one, setting the flag for its fault, while collecting
      the ports of the links it has passed the port test for. */
  method CollectOutputPorts(outputPorts: seq<OutputPort>)
    returns (outputSet: set<int>, outputPortError: bool, metricError: bool, idError: bool)
    ensures outputPortError <==> FirstFault(outputPorts) == Some(OutputPortError)
    ensures metricError <==> FirstFault(outputPorts) == Some(CostError)
    ensures idError <==> FirstFault(outputPorts) == Some(OutputIdError)
    ensures FirstFault(outputPorts) == None ==> outputSet == ToSet(Ports(outputPorts))
  {
    outputPortError, metricError, idError := false, false, false;
    outputSet := {};
    var j := 0;
    while j < |outputPorts|
      invariant 0 <= j <= |outputPorts|
      invariant outputSet == ToSet(Ports(outputPorts)[..j])
      invariant FirstFault(outputPorts[..j]) == None
    {
      var item := outputPorts[j];
      if item.port < MIN_PORT || item.port > MAX_PORT {
        StopAt(outputPorts, j);
        return outputSet, true, false, false;
      }
      ToSetSnoc(Ports(outputPorts), j);
      outputSet := outputSet + {item.port};
      if item.metric < MIN_METRIC || item.metric > MAX_METRIC {
        StopAt(outputPorts, j);
        return outputSet, false, true, false;
      }
      if item.id < MIN_ID || item.id > MAX_ID {
        StopAt(outputPorts, j);
        return outputSet, false, false, true;
      }
      PassItem(outputPorts, j);
      j := j + 1;
    }
    assert outputPorts[..j] == outputPorts;
    assert Ports(outputPorts)[..j] == Ports(outputPorts);
  }

  /** The output-link group: the loop above, then the port flag is also
      set when a port repeats among the collected ones or is one of the
      input ports. */
  method CheckOutputPorts(outputPorts: seq<OutputPort>, inputSet: set<int>)
    returns (outputPortError: bool, metricError: bool, idError: bool)
    ensures metricError <==> FirstFault(outputPorts) == Some(CostError)
    ensures idError <==> FirstFault(outputPorts) == Some(OutputIdError)
    ensures FirstFault(outputPorts) == Some(OutputPortError) ==> outputPortError
    ensures FirstFault(outputPorts) == None ==>
      (outputPortError <==> !Distinct(Ports(outputPorts)) || exists i :: 0 <= i < |outputPorts| && outputPorts[i].port in inputSet)
  {
    var outputSet;
    outputSet, outputPortError, metricError, idError := CollectOutputPorts(outputPorts);
    if |outputSet| != |outputPorts| {
      outputPortError := true;
    }
    if !(outputSet !! inputSet) {
      outputPortError := true;
    }
    if FirstFault(outputPorts) == None {
      CardToSet(Ports(outputPorts));
      assert forall i :: 0 <= i < |outputPorts| ==> outputPorts[i].port in outputSet;
    }
  }

  /** `validate_data` step by step: the groups in order, each
      setting error flags, and the flags examined in a fixed order. */
  method ValidateData(routerId: int, inputPorts: seq<int>, outputPorts: seq<OutputPort>, timers: seq<int>)
    returns (outcome: Outcome)
    ensures outcome == Verdict(routerId, inputPorts, outputPorts, timers)
  {
    var idError, timersError := false, false;

    // router id
    if routerId < MIN_ID || routerId > MAX_ID {
      idError := true;
    }
    if idError {
      return RouterIdError;
    }

    // input ports
    var inputSet, inputPortError := CheckInputPorts(inputPorts);
    if inputPortError {
      return InputPortError;
    }

    // output links
    var outputPortError, metricError;
    outputPortError, metricError, idError := CheckOutputPorts(outputPorts, inputSet);
    if metricError {
      return CostError;
    }
    if idError {
      return OutputIdError;
    }
    if outputPortError {
      return OutputPortError;
    }
    assert FirstFault(outputPorts) == None;

    // timers
    if |timers| != 3 {
      timersError := true;
    } else {
      if timers[0] == 0 {
        return DivisionByZero;
      }
      if timers[1] != PERIODIC_DEAD_RATIO * timers[0] {
        timersError := true;
      }
      if timers[2] != PERIODIC_GARBAGE_RATIO * timers[0] {
        timersError := true;
      }
    }
    if timersError {
      return TimersError;
    }
    return Ok;
  }
}

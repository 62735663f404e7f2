/** The whole of `scan_ports` (tools/network.py, lines 93-149) with the
    network abstracted: the result of each submitted probe is an oracle
    value, and the thread pool's completion order is an arbitrary
    permutation of the submitted futures. */
module Scan {
  import opened Wrappers
  import opened Seqs
  import opened PortList
  import opened Aggregation
  import opened Sorting
  import opened Distinct
  import opened Decimal

  /** What running `probe` for one future produced: a connection, a caught
      connection error with its `str(exc)`, or a failure of the future itself. */
  datatype Attempt =
    | Connected
    | ConnectFailed(text: string)
    | ExecutionFailed(detail: string)

  /** The outcome the aggregation loop sees for a future probing `port`. */
  function Resolve(port: int, a: Attempt): (o: Outcome)
    ensures o.port == port
    ensures IsOpen(o) <==> a.Connected?
    ensures o.Probed? <==> !a.ExecutionFailed?
    ensures a.Connected? ==> o.Probed? && o.err == None
    ensures a.ConnectFailed? ==> o.Probed? && o.err == Some(a.text)
    ensures a.ExecutionFailed? ==> o == Unexpected(port, a.detail)
  {
    match a
    case Connected => Probed(port, true, None)
    case ConnectFailed(text) => Probed(port, false, Some(text))
    case ExecutionFailed(detail) => Unexpected(port, detail)
  }

  /** One outcome per entry of the port list, duplicates included, in
      submission order; `attempt(i)` is the result of the i-th future. */
  function Submitted(ports: seq<int>, attempt: nat -> Attempt): (r: seq<Outcome>)
    ensures Ports(r) == ports
  {
    var r := seq(|ports|, i requires 0 <= i < |ports| => Resolve(ports[i], attempt(i)));
    assert Ports(r) == ports by {
      forall k | 0 <= k < |ports|
        ensures Ports(r)[k] == ports[k]
      {
        assert r[k] == Resolve(ports[k], attempt(k));
      }
    }
    r
  }

  /** The outcomes in the order `as_completed` yields them. */
  function Completed(ports: seq<int>, attempt: nat -> Attempt, order: seq<nat>): (r: seq<Outcome>)
    requires IsIndexPermutation(order, |ports|)
    ensures multiset(r) == multiset(Submitted(ports, attempt))
    ensures multiset(Ports(r)) == multiset(ports)
  {
    var submitted := Submitted(ports, attempt);
    PickPermutation(submitted, order);
    var r := Pick(submitted, order);
    PickPermutation(ports, order);
    assert Ports(r) == Pick(ports, order);
    r
  }

  /** The completion orders a request admits: permutations of its futures. */
  predicate AdmitsOrder(req: Request, order: seq<nat>)
  {
    BuildPortList(req).Success? ==> IsIndexPermutation(order, |BuildPortList(req).value|)
  }

  /** `scan_ports(host, ...)`: the validation error, or the report. */
  function ScanPorts(host: string, req: Request, attempt: nat -> Attempt, order: seq<nat>): (r: Result<Report, string>)
    requires AdmitsOrder(req, order)
    ensures r.Failure? <==> BuildPortList(req).Failure?
    ensures r.Failure? ==> r.error == BuildPortList(req).error
    ensures r.Success? ==>
      var ports := BuildPortList(req).value;
      && r.value.target == host
      && Sorted(r.value.openPorts)
      && Sorted(r.value.closedOrFiltered)
      && multiset(r.value.openPorts) + multiset(r.value.closedOrFiltered) == multiset(ports)
      && |r.value.openPorts| + |r.value.closedOrFiltered| == |ports|
      && NoDuplicates(r.value.errors)
  {
    match BuildPortList(req)
    case Failure(message) => Failure(message)
    case Success(ports) =>
      var outcomes := Completed(ports, attempt, order);
      var report := Summarize(host, outcomes);
      assert |multiset(report.openPorts) + multiset(report.closedOrFiltered)| == |multiset(ports)|;
      Success(report)
  }

  /** Whatever order the futures complete in, the open and closed lists are
      the same, and so is the set of error entries. */
  lemma ScanOrderIndependent(host: string, req: Request, attempt: nat -> Attempt, a: seq<nat>, b: seq<nat>)
    requires AdmitsOrder(req, a) && AdmitsOrder(req, b)
    ensures ScanPorts(host, req, attempt, a).Success? == ScanPorts(host, req, attempt, b).Success?
    ensures ScanPorts(host, req, attempt, a).Success? ==>
      var ra, rb := ScanPorts(host, req, attempt, a).value, ScanPorts(host, req, attempt, b).value;
      && ra.openPorts == rb.openPorts
      && ra.closedOrFiltered == rb.closedOrFiltered
      && (forall m :: m in ra.errors <==> m in rb.errors)
  {
    if BuildPortList(req).Success? {
      var ports := BuildPortList(req).value;
      SummarizeOrderIndependent(host, Completed(ports, attempt, a), Completed(ports, attempt, b));
    }
  }

  /** The ports of the futures whose connection succeeded (`connected`)
      or did not, in submission order. */
  function FuturePorts(ports: seq<int>, attempt: nat -> Attempt, connected: bool): seq<int>
  {
    if ports == [] then []
    else
      var n := |ports| - 1;
      FuturePorts(ports[..n], attempt, connected)
        + (if attempt(n).Connected? == connected then [ports[n]] else [])
  }

  /** A port is among `FuturePorts` exactly when some future for it had
      that result. */
  lemma {:induction false} FuturePortsMembers(ports: seq<int>, attempt: nat -> Attempt, connected: bool, p: int)
    ensures p in FuturePorts(ports, attempt, connected) <==>
      exists i :: 0 <= i < |ports| && ports[i] == p && attempt(i).Connected? == connected
  {
    if ports != [] {
      var n := |ports| - 1;
      FuturePortsMembers(ports[..n], attempt, connected, p);
      if exists i :: 0 <= i < |ports| && ports[i] == p && attempt(i).Connected? == connected {
        var i :| 0 <= i < |ports| && ports[i] == p && attempt(i).Connected? == connected;
        if i < n {
          assert ports[..n][i] == p;
        }
      }
    }
  }

  /** In submission order, the open and closed lists the loop would build
      are the ports of the connected and of the other futures. */
  lemma {:induction false} SubmittedPartition(ports: seq<int>, attempt: nat -> Attempt)
    ensures OpenPorts(Submitted(ports, attempt)) == FuturePorts(ports, attempt, true)
    ensures ClosedPorts(Submitted(ports, attempt)) == FuturePorts(ports, attempt, false)
  {
    if ports != [] {
      var n := |ports| - 1;
      var submitted := Submitted(ports, attempt);
      assert submitted[..n] == Submitted(ports[..n], attempt);
      SubmittedPartition(ports[..n], attempt);
      assert submitted[n] == Resolve(ports[n], attempt(n));
    }
  }

  /** Which futures land where, with multiplicity: the open list holds the
      ports of the futures that connected, the closed list those of every
      other future, execution failures included. A port is listed as open
      exactly when some future for it connected, and as closed exactly when
      some future for it did not. */
  lemma ScanClassifies(host: string, req: Request, attempt: nat -> Attempt, order: seq<nat>)
    requires AdmitsOrder(req, order)
    requires BuildPortList(req).Success?
    ensures var report, ports := ScanPorts(host, req, attempt, order).value, BuildPortList(req).value;
      && multiset(report.openPorts) == multiset(FuturePorts(ports, attempt, true))
      && multiset(report.closedOrFiltered) == multiset(FuturePorts(ports, attempt, false))
    ensures var report, ports := ScanPorts(host, req, attempt, order).value, BuildPortList(req).value;
      forall p :: p in report.openPorts <==>
        exists i :: 0 <= i < |ports| && ports[i] == p && attempt(i).Connected?
    ensures var report, ports := ScanPorts(host, req, attempt, order).value, BuildPortList(req).value;
      forall p :: p in report.closedOrFiltered <==>
        exists i :: 0 <= i < |ports| && ports[i] == p && !attempt(i).Connected?
  {
    var ports := BuildPortList(req).value;
    var outcomes := Completed(ports, attempt, order);
    var report := Summarize(host, outcomes);
    var submitted := Submitted(ports, attempt);
    FlatMapRespectsMultiset(OpenPiece, outcomes, submitted);
    FlatMapRespectsMultiset(ClosedPiece, outcomes, submitted);
    SubmittedPartition(ports, attempt);
    var open, closed := FuturePorts(ports, attempt, true), FuturePorts(ports, attempt, false);
    assert multiset(report.openPorts) == multiset(open);
    assert multiset(report.closedOrFiltered) == multiset(closed);
    forall p
      ensures p in report.openPorts <==> exists i :: 0 <= i < |ports| && ports[i] == p && attempt(i).Connected?
    {
      assert p in report.openPorts <==> p in multiset(report.openPorts);
      assert p in open <==> p in multiset(open);
      FuturePortsMembers(ports, attempt, true, p);
    }
    forall p
      ensures p in report.closedOrFiltered <==> exists i :: 0 <= i < |ports| && ports[i] == p && !attempt(i).Connected?
    {
      assert p in report.closedOrFiltered <==> p in multiset(report.closedOrFiltered);
      assert p in closed <==> p in multiset(closed);
      FuturePortsMembers(ports, attempt, false, p);
    }
  }

  /** The error line a future contributes, stated on its attempt: a refusal
      or timeout with non-empty text, or a failure of the future itself. */
  predicate AttemptEntry(port: int, a: Attempt, m: string)
  {
    || (a.ConnectFailed? && a.text != "" && m == PortMessage(port, a.text))
    || (a.ExecutionFailed? && m == PortMessage(port, "unexpected error " + a.detail))
  }

  /** Where the scan's error entries come from: each is the line of some
      future whose connection failed with non-empty text or which failed
      itself, and every such future's line is in the report. Each entry
      names a port of the closed list. */
  lemma ScanErrors(host: string, req: Request, attempt: nat -> Attempt, order: seq<nat>)
    requires AdmitsOrder(req, order)
    requires BuildPortList(req).Success?
    ensures var report, ports := ScanPorts(host, req, attempt, order).value, BuildPortList(req).value;
      forall m :: m in report.errors <==>
        exists i :: 0 <= i < |ports| && AttemptEntry(ports[i], attempt(i), m)
    ensures var report := ScanPorts(host, req, attempt, order).value;
      forall m :: m in report.errors ==>
        ParsePortMessage(m).Some? && ParsePortMessage(m).value.0 in report.closedOrFiltered
  {
    var ports := BuildPortList(req).value;
    var outcomes := Completed(ports, attempt, order);
    ScanReport(host, req, attempt, order);
    ErrorsFromFailures(host, outcomes);
    ErrorsNameClosedPorts(host, outcomes);
    var report := Summarize(host, outcomes);
    forall m
      ensures m in report.errors <==> exists i :: 0 <= i < |ports| && AttemptEntry(ports[i], attempt(i), m)
    {
      EntryFromFuture(ports, attempt, outcomes, m);
    }
  }

  /** A successful scan reports the summary of the completed outcomes. */
  lemma ScanReport(host: string, req: Request, attempt: nat -> Attempt, order: seq<nat>)
    requires AdmitsOrder(req, order)
    requires BuildPortList(req).Success?
    ensures IsIndexPermutation(order, |BuildPortList(req).value|)
    ensures ScanPorts(host, req, attempt, order)
      == Success(Summarize(host, Completed(BuildPortList(req).value, attempt, order)))
  {
  }

  /** An outcome's failure line is the line of the attempt it resolves. */
  lemma ResolveEntry(port: int, a: Attempt, m: string)
    ensures FailureEntry(Resolve(port, a), m) <==> AttemptEntry(port, a, m)
  {
  }

  lemma EntryFromFuture(ports: seq<int>, attempt: nat -> Attempt, outcomes: seq<Outcome>, m: string)
    requires multiset(outcomes) == multiset(Submitted(ports, attempt))
    ensures (exists o :: o in outcomes && FailureEntry(o, m)) <==>
      exists i :: 0 <= i < |ports| && AttemptEntry(ports[i], attempt(i), m)
  {
    var submitted := Submitted(ports, attempt);
    if exists o :: o in outcomes && FailureEntry(o, m) {
      var o :| o in outcomes && FailureEntry(o, m);
      assert o in multiset(submitted);
      var i :| 0 <= i < |ports| && submitted[i] == o;
      ResolveEntry(ports[i], attempt(i), m);
    }
    if exists i :: 0 <= i < |ports| && AttemptEntry(ports[i], attempt(i), m) {
      var i :| 0 <= i < |ports| && AttemptEntry(ports[i], attempt(i), m);
      var o := submitted[i];
      ResolveEntry(ports[i], attempt(i), m);
      assert o in multiset(outcomes);
    }
  }

  /** A valid `port_range` scan reports every port of the range exactly once:
      each list is strictly ascending, no port is in both, and together they
      cover the range. */
  lemma RangeScanCoversRange(host: string, start: int, end: int, attempt: nat -> Attempt, order: seq<nat>)
    requires ValidRange(start, end)
    requires AdmitsOrder(RangeOnly(start, end), order)
    ensures ScanPorts(host, RangeOnly(start, end), attempt, order).Success?
    ensures var report := ScanPorts(host, RangeOnly(start, end), attempt, order).value;
      && StrictlyAscending(report.openPorts)
      && StrictlyAscending(report.closedOrFiltered)
      && (forall p :: p in report.openPorts ==> p !in report.closedOrFiltered)
      && (forall p :: start <= p <= end <==> p in report.openPorts || p in report.closedOrFiltered)
      && |report.openPorts| + |report.closedOrFiltered| == end - start + 1
  {
    var ports := Range(start, end);
    RangeContents(start, end);
    var outcomes := Completed(ports, attempt, order);
    var report := Summarize(host, outcomes);
    PermutationKeepsDistinct(ports, Ports(outcomes));
    DistinctPortsPartition(host, outcomes);
    forall p
      ensures start <= p <= end <==> p in report.openPorts || p in report.closedOrFiltered
    {
      SplitMembers(report.openPorts, report.closedOrFiltered, ports, p);
    }
    PartitionLength(outcomes);
  }

  /** An explicit list is probed as given: the report is the summary of its
      outcomes, with no validation step in between. */
  lemma ExplicitScan(host: string, ports: seq<int>, attempt: nat -> Attempt, order: seq<nat>)
    requires AdmitsOrder(Explicit(ports), order)
    ensures IsIndexPermutation(order, |ports|)
    ensures ScanPorts(host, Explicit(ports), attempt, order)
      == Success(Summarize(host, Completed(ports, attempt, order)))
  {
  }

  /** An empty explicit list probes nothing and reports nothing. */
  lemma EmptyListScan(host: string, attempt: nat -> Attempt, order: seq<nat>)
    requires AdmitsOrder(Explicit([]), order)
    ensures ScanPorts(host, Explicit([]), attempt, order) == Success(Report(host, [], [], []))
  {
    var outcomes := Completed([], attempt, order);
    assert |multiset(outcomes)| == 0;
    assert outcomes == [];
  }

  /** Neither argument given: the call fails before any probing. */
  lemma MissingArgumentsScan(host: string, attempt: nat -> Attempt, order: seq<nat>)
    ensures ScanPorts(host, Neither, attempt, order) == Failure(MissingPortsMessage)
  {
  }

  /** A listener on port 7 only, with refusals carrying no text, and the
      futures completing out of order: 7 is open, 8-10 are closed, no errors. */
  lemma ListenerOnSevenScan(host: string, ports: seq<int>, order: seq<nat>)
    requires ports == [7, 8, 9, 10] && order == [2, 0, 3, 1]
    ensures AdmitsOrder(Explicit(ports), order)
      && ScanPorts(host, Explicit(ports), RefusedExceptFirst(""), order)
         == Success(Report(host, [7], [8, 9, 10], []))
  {
    ScenarioOrder(order);
    assert AdmitsOrder(Explicit(ports), order);
    calc {
      ScanPorts(host, Explicit(ports), RefusedExceptFirst(""), order);
      { ExplicitScan(host, ports, RefusedExceptFirst(""), order); }
      Success(Summarize(host, Completed(ports, RefusedExceptFirst(""), order)));
      { ScenarioCompleted(ports, order, ""); }
      Success(Summarize(host, ScenarioOutcomes(ports, "")));
      { ScenarioSummary(host, ports); }
      Success(Report(host, [7], [8, 9, 10], []));
    }
  }

  /** Port 8 listed twice, a listener on 7, and every refusal carrying the
      operating system's text: both futures for 8 are closed and listed, and
      their identical error lines collapse into one entry, which keeps its
      place after the line for 9 that arrived first. */
  lemma RefusedWithTextScan(host: string, ports: seq<int>, order: seq<nat>, text: string)
    requires ports == [7, 8, 9, 8] && order == [2, 0, 3, 1]
    requires text == "[Errno 111] Connection refused"
    ensures AdmitsOrder(Explicit(ports), order)
      && ScanPorts(host, Explicit(ports), RefusedExceptFirst(text), order)
         == Success(Report(host, [7], [8, 8, 9], ["port 9: " + text, "port 8: " + text]))
  {
    ScenarioOrder(order);
    assert AdmitsOrder(Explicit(ports), order);
    var outcomes := ScenarioOutcomes(ports, text);
    calc {
      ScanPorts(host, Explicit(ports), RefusedExceptFirst(text), order);
      { ExplicitScan(host, ports, RefusedExceptFirst(text), order); }
      Success(Summarize(host, Completed(ports, RefusedExceptFirst(text), order)));
      { ScenarioCompleted(ports, order, text); }
      Success(Summarize(host, outcomes));
      { RefusedSummary(host, outcomes, text); }
      Success(Report(host, [7], [8, 8, 9], [PortMessage(9, text), PortMessage(8, text)]));
      { RefusedLines(text); }
      Success(Report(host, [7], [8, 8, 9], ["port 9: " + text, "port 8: " + text]));
    }
  }

  lemma RefusedLines(text: string)
    ensures PortMessage(9, text) == "port 9: " + text
    ensures PortMessage(8, text) == "port 8: " + text
  {
    SingleDigitText(9);
    SingleDigitText(8);
  }

  lemma SingleDigitText(d: nat)
    requires d < 10
    ensures IntToText(d) == [DigitChar(d)]
  {
  }

  lemma RefusedSummary(host: string, outcomes: seq<Outcome>, text: string)
    requires text != ""
    requires outcomes == [Probed(9, false, Some(text)), Probed(7, true, None),
                          Probed(8, false, Some(text)), Probed(8, false, Some(text))]
    ensures Summarize(host, outcomes) == Report(host, [7], [8, 8, 9], [PortMessage(9, text), PortMessage(8, text)])
  {
    var nine, eight := PortMessage(9, text), PortMessage(8, text);
    RefusedCollected(outcomes, text);
    calc {
      Summarize(host, outcomes);
      Report(host, Sort(OpenPorts(outcomes)), Sort(ClosedPorts(outcomes)), Dedup(ErrorMessages(outcomes)));
      Report(host, Sort([7]), Sort([9, 8, 8]), Dedup([nine, eight, eight]));
      { RefusedSorted([9, 8, 8], [7]); DistinctLines(text); DedupRepeatedLast(nine, eight); }
      Report(host, [7], [8, 8, 9], [nine, eight]);
    }
  }

  lemma DistinctLines(text: string)
    ensures PortMessage(9, text) != PortMessage(8, text)
  {
    if PortMessage(9, text) == PortMessage(8, text) {
      PortMessageInjective(9, text, 8, text);
    }
  }

  lemma RefusedSorted(closed: seq<int>, open: seq<int>)
    requires closed == [9, 8, 8] && open == [7]
    ensures Sort(closed) == [8, 8, 9]
    ensures Sort(open) == [7]
  {
    var ascending := [8, 8, 9];
    assert Sorted(ascending) && multiset(closed) == multiset(ascending);
    SortCharacterized(closed, ascending);
    SortCharacterized(open, open);
  }

  lemma RefusedCollected(outcomes: seq<Outcome>, text: string)
    requires text != ""
    requires outcomes == [Probed(9, false, Some(text)), Probed(7, true, None),
                          Probed(8, false, Some(text)), Probed(8, false, Some(text))]
    ensures OpenPorts(outcomes) == [7]
    ensures ClosedPorts(outcomes) == [9, 8, 8]
    ensures ErrorMessages(outcomes) == [PortMessage(9, text), PortMessage(8, text), PortMessage(8, text)]
  {
    var p1, p2, p3 := outcomes[..1], outcomes[..2], outcomes[..3];
    FlatMapSingleton(OpenPiece, p1[0]);
    FlatMapSingleton(ClosedPiece, p1[0]);
    FlatMapSingleton(ErrorPiece, p1[0]);
    assert p1 == [p1[0]] && p2[..1] == p1 && p3[..2] == p2 && outcomes[..3] == p3;
    var nine, eight := PortMessage(9, text), PortMessage(8, text);
    assert OpenPorts(p2) == [7] && ClosedPorts(p2) == [9] && ErrorMessages(p2) == [nine];
    assert OpenPorts(p3) == [7] && ClosedPorts(p3) == [9, 8] && ErrorMessages(p3) == [nine, eight];
  }

  lemma DedupRepeatedLast(x: string, y: string)
    requires x != y
    ensures Dedup([x, y, y]) == [x, y]
  {
    assert [x][..0] == [];
    assert Dedup([x]) == [x];
    assert [x, y][..1] == [x];
    assert Dedup([x, y]) == [x, y];
    assert [x, y, y][..2] == [x, y];
  }

  lemma ScenarioSummary(host: string, ports: seq<int>)
    requires ports == [7, 8, 9, 10]
    ensures Summarize(host, ScenarioOutcomes(ports, "")) == Report(host, [7], [8, 9, 10], [])
  {
    var outcomes := ScenarioOutcomes(ports, "");
    ScenarioCollected(outcomes);
    ScenarioSorted(ClosedPorts(outcomes), OpenPorts(outcomes));
  }

  lemma ScenarioOrder(order: seq<nat>)
    requires order == [2, 0, 3, 1]
    ensures IsIndexPermutation(order, 4)
  {
    assert Indices(4) == [0, 1, 2, 3];
  }

  /** The first future connects; every other one is refused with `text`. */
  function RefusedExceptFirst(text: string): nat -> Attempt
  {
    (i: nat) => if i == 0 then Connected else ConnectFailed(text)
  }

  /** The scenarios' outcomes in their completion order. */
  function ScenarioOutcomes(ports: seq<int>, text: string): seq<Outcome>
    requires |ports| == 4
  {
    [Probed(ports[2], false, Some(text)), Probed(ports[0], true, None),
     Probed(ports[3], false, Some(text)), Probed(ports[1], false, Some(text))]
  }

  lemma ScenarioCompleted(ports: seq<int>, order: seq<nat>, text: string)
    requires |ports| == 4 && order == [2, 0, 3, 1]
    requires IsIndexPermutation(order, 4)
    ensures Completed(ports, RefusedExceptFirst(text), order) == ScenarioOutcomes(ports, text)
  {
    var submitted := Submitted(ports, RefusedExceptFirst(text));
    assert submitted[0] == Probed(ports[0], true, None);
    assert submitted[1] == Probed(ports[1], false, Some(text));
    assert submitted[2] == Probed(ports[2], false, Some(text));
    assert submitted[3] == Probed(ports[3], false, Some(text));
  }

  lemma ScenarioCollected(outcomes: seq<Outcome>)
    requires outcomes == [Probed(9, false, Some("")), Probed(7, true, None),
                          Probed(10, false, Some("")), Probed(8, false, Some(""))]
    ensures OpenPorts(outcomes) == [7]
    ensures ClosedPorts(outcomes) == [9, 10, 8]
    ensures ErrorMessages(outcomes) == []
  {
    var p1, p2, p3 := outcomes[..1], outcomes[..2], outcomes[..3];
    FlatMapSingleton(OpenPiece, p1[0]);
    FlatMapSingleton(ClosedPiece, p1[0]);
    FlatMapSingleton(ErrorPiece, p1[0]);
    assert p1 == [p1[0]] && p2[..1] == p1 && p3[..2] == p2 && outcomes[..3] == p3;
    assert OpenPorts(p2) == [7] && ClosedPorts(p2) == [9] && ErrorMessages(p2) == [];
    assert OpenPorts(p3) == [7] && ClosedPorts(p3) == [9, 10] && ErrorMessages(p3) == [];
  }

  lemma ScenarioSorted(closed: seq<int>, open: seq<int>)
    requires closed == [9, 10, 8] && open == [7]
    ensures Sort(closed) == [8, 9, 10]
    ensures Sort(open) == [7]
  {
    var ascending := [8, 9, 10];
    assert Sorted(ascending) && multiset(closed) == multiset(ascending);
    SortCharacterized(closed, ascending);
    SortCharacterized(open, open);
  }
}

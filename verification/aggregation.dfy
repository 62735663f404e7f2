/** The aggregation `scan_ports` performs over the probe outcomes as they
    complete (tools/network.py, lines 118-149): partition into open and
    closed-or-filtered ports, error text per failed probe, ascending sort
    of both port lists, first-occurrence de-duplication of the errors. */
module Aggregation {
  import opened Wrappers
  import opened Seqs
  import opened Sorting
  import opened Distinct
  import opened Decimal

  /** What one completed future yields: the `(port, is_open, err)` triple
      `probe` returns, or the failure of `fut.result()` itself. */
  datatype Outcome =
    | Probed(port: int, isOpen: bool, err: Option<string>)
    | Unexpected(port: int, detail: string)

  /** The JSON-serialisable dictionary `scan_ports` returns. */
  datatype Report = Report(
    target: string,
    openPorts: seq<int>,
    closedOrFiltered: seq<int>,
    errors: seq<string>)

  predicate IsOpen(o: Outcome)
  {
    o.Probed? && o.isOpen
  }

  /** `f"port {p}: {text}"`. */
  function PortMessage(p: int, text: string): string
  {
    "port " + IntToText(p) + ": " + text
  }

  /** The port an outcome adds to `open_ports`, if any. */
  function OpenPiece(o: Outcome): seq<int>
  {
    if IsOpen(o) then [o.port] else []
  }

  /** The port an outcome adds to `closed_or_filtered`, if any. */
  function ClosedPiece(o: Outcome): seq<int>
  {
    if IsOpen(o) then [] else [o.port]
  }

  /** The message an outcome adds to `errors`, if any: a closed probe with
      non-empty error text, or any execution failure. */
  function ErrorPiece(o: Outcome): seq<string>
  {
    match o
    case Probed(p, isOpen, err) =>
      if !isOpen && err.Some? && err.value != "" then [PortMessage(p, err.value)] else []
    case Unexpected(p, detail) => [PortMessage(p, "unexpected error " + detail)]
  }

  /** The port each outcome reports, in arrival order. */
  function Ports(outcomes: seq<Outcome>): (r: seq<int>)
    ensures |r| == |outcomes|
    ensures forall k :: 0 <= k < |outcomes| ==> r[k] == outcomes[k].port
  {
    seq(|outcomes|, k requires 0 <= k < |outcomes| => outcomes[k].port)
  }

  function OpenPorts(outcomes: seq<Outcome>): seq<int>
  {
    FlatMap(OpenPiece, outcomes)
  }

  function ClosedPorts(outcomes: seq<Outcome>): seq<int>
  {
    FlatMap(ClosedPiece, outcomes)
  }

  /** The error messages in the order the outcomes arrive, before de-duplication. */
  function ErrorMessages(outcomes: seq<Outcome>): seq<string>
  {
    FlatMap(ErrorPiece, outcomes)
  }

  /** Every outcome lands in exactly one of the two port lists: together
      they hold the reported ports, each as often as it was reported. */
  lemma {:induction false} PartitionComplete(outcomes: seq<Outcome>)
    ensures multiset(OpenPorts(outcomes)) + multiset(ClosedPorts(outcomes)) == multiset(Ports(outcomes))
  {
    if outcomes != [] {
      var init := outcomes[..|outcomes| - 1];
      var last := outcomes[|outcomes| - 1];
      PartitionComplete(init);
      assert OpenPorts(outcomes) == OpenPorts(init) + OpenPiece(last);
      assert ClosedPorts(outcomes) == ClosedPorts(init) + ClosedPiece(last);
      assert Ports(outcomes) == Ports(init) + [last.port];
      var openBefore, closedBefore := multiset(OpenPorts(init)), multiset(ClosedPorts(init));
      var openLast, closedLast := multiset(OpenPiece(last)), multiset(ClosedPiece(last));
      PieceSplit(last);
      assert multiset(OpenPorts(outcomes)) == openBefore + openLast;
      assert multiset(ClosedPorts(outcomes)) == closedBefore + closedLast;
      assert multiset(Ports(outcomes)) == multiset(Ports(init)) + multiset{last.port};
      assert (openBefore + openLast) + (closedBefore + closedLast)
        == (openBefore + closedBefore) + (openLast + closedLast);
    }
  }

  /** Each outcome contributes exactly one port entry. */
  lemma PartitionLength(outcomes: seq<Outcome>)
    ensures |OpenPorts(outcomes)| + |ClosedPorts(outcomes)| == |outcomes|
  {
    PartitionComplete(outcomes);
    var open, closed := OpenPorts(outcomes), ClosedPorts(outcomes);
    assert |multiset(open) + multiset(closed)| == |multiset(Ports(outcomes))|;
  }

  lemma PieceSplit(o: Outcome)
    ensures multiset(OpenPiece(o)) + multiset(ClosedPiece(o)) == multiset{o.port}
  {
  }

  /** A port is in `open_ports` exactly when some open outcome reports it,
      and in `closed_or_filtered` exactly when some other outcome does. */
  lemma PartitionMembers(outcomes: seq<Outcome>, p: int)
    ensures p in OpenPorts(outcomes) <==> exists o :: o in outcomes && IsOpen(o) && o.port == p
    ensures p in ClosedPorts(outcomes) <==> exists o :: o in outcomes && !IsOpen(o) && o.port == p
  {
    FlatMapMembers(OpenPiece, outcomes, p);
    FlatMapMembers(ClosedPiece, outcomes, p);
  }

  /** The loop over completed futures, appending to the three lists. */
  method Collect(outcomes: seq<Outcome>) returns (open: seq<int>, closed: seq<int>, errors: seq<string>)
    ensures open == OpenPorts(outcomes)
    ensures closed == ClosedPorts(outcomes)
    ensures errors == ErrorMessages(outcomes)
  {
    open, closed, errors := [], [], [];
    var i := 0;
    while i < |outcomes|
      invariant 0 <= i <= |outcomes|
      invariant open == OpenPorts(outcomes[..i])
      invariant closed == ClosedPorts(outcomes[..i])
      invariant errors == ErrorMessages(outcomes[..i])
    {
      assert outcomes[..i + 1][..i] == outcomes[..i];
      match outcomes[i] {
        case Probed(port, isOpen, err) =>
          if isOpen {
            open := open + [port];
          } else {
            closed := closed + [port];
            if err.Some? && err.value != "" {
              errors := errors + [PortMessage(port, err.value)];
            }
          }
        case Unexpected(p, detail) =>
          closed := closed + [p];
          errors := errors + [PortMessage(p, "unexpected error " + detail)];
      }
      i := i + 1;
    }
    assert outcomes[..i] == outcomes;
  }

  /** The report for outcomes consumed in the given order. */
  function Summarize(host: string, outcomes: seq<Outcome>): (r: Report)
    ensures r.target == host
    ensures Sorted(r.openPorts) && Sorted(r.closedOrFiltered)
    ensures multiset(r.openPorts) == multiset(OpenPorts(outcomes))
    ensures multiset(r.closedOrFiltered) == multiset(ClosedPorts(outcomes))
    ensures multiset(r.openPorts) + multiset(r.closedOrFiltered) == multiset(Ports(outcomes))
    ensures forall p :: p in r.openPorts <==> exists o :: o in outcomes && IsOpen(o) && o.port == p
    ensures forall p :: p in r.closedOrFiltered <==> exists o :: o in outcomes && !IsOpen(o) && o.port == p
    ensures NoDuplicates(r.errors)
    ensures forall m :: m in r.errors <==> m in ErrorMessages(outcomes)
  {
    PartitionComplete(outcomes);
    var open, closed := OpenPorts(outcomes), ClosedPorts(outcomes);
    var sortedOpen, sortedClosed := Sort(open), Sort(closed);
    assert forall p :: p in sortedOpen <==> exists o :: o in outcomes && IsOpen(o) && o.port == p by {
      forall p ensures p in sortedOpen <==> p in open {
        assert p in sortedOpen <==> p in multiset(sortedOpen);
        assert p in open <==> p in multiset(open);
      }
      forall p ensures p in open <==> exists o :: o in outcomes && IsOpen(o) && o.port == p {
        PartitionMembers(outcomes, p);
      }
    }
    assert forall p :: p in sortedClosed <==> exists o :: o in outcomes && !IsOpen(o) && o.port == p by {
      forall p ensures p in sortedClosed <==> p in closed {
        assert p in sortedClosed <==> p in multiset(sortedClosed);
        assert p in closed <==> p in multiset(closed);
      }
      forall p ensures p in closed <==> exists o :: o in outcomes && !IsOpen(o) && o.port == p {
        PartitionMembers(outcomes, p);
      }
    }
    Report(host, sortedOpen, sortedClosed, Dedup(ErrorMessages(outcomes)))
  }

  /** The whole of lines 118-149: collect in arrival order, sort both port
      lists, de-duplicate the errors. */
  method Aggregate(host: string, outcomes: seq<Outcome>) returns (r: Report)
    ensures r == Summarize(host, outcomes)
  {
    var open, closed, errors := Collect(outcomes);
    r := Report(host, Sort(open), Sort(closed), Dedup(errors));
  }

  /** The position of the first colon in `s`, or `|s|` when there is none. */
  function ColonIndex(s: string): (k: nat)
    ensures k <= |s|
    ensures ':' !in s[..k]
  {
    if s == [] then 0
    else if s[0] == ':' then 0
    else
      assert s[..1 + ColonIndex(s[1..])] == [s[0]] + s[1..][..ColonIndex(s[1..])];
      1 + ColonIndex(s[1..])
  }

  lemma {:induction false} ColonIndexAfter(a: string, b: string)
    requires ':' !in a
    requires b != [] && b[0] == ':'
    ensures ColonIndex(a + b) == |a|
  {
    if a != [] {
      assert (a + b)[1..] == a[1..] + b;
      ColonIndexAfter(a[1..], b);
    }
  }

  /** Reads an error entry back into the port it names and the text after
      the colon, if it has the shape `port <int>: <text>`. */
  function ParsePortMessage(m: string): Option<(int, string)>
  {
    if |m| < 5 || m[..5] != "port " then None
    else
      var rest := m[5..];
      var k := ColonIndex(rest);
      if k + 2 > |rest| || rest[k + 1] != ' ' then None
      else
        match ParseInt(rest[..k])
        case None => None
        case Some(p) => Some((p, rest[k + 2..]))
  }

  /** Every error entry names its port: the formatting is undone by the parse. */
  lemma PortMessageRoundTrip(p: int, text: string)
    ensures ParsePortMessage(PortMessage(p, text)) == Some((p, text))
  {
    var digits := IntToText(p);
    var m := PortMessage(p, text);
    assert m[..5] == "port ";
    var rest := m[5..];
    assert rest == digits + (": " + text);
    ColonIndexAfter(digits, ": " + text);
    assert rest[..|digits|] == digits;
    assert rest[|digits| + 2..] == text;
    ParseIntToText(p);
  }

  /** Two equal error entries come from the same port with the same text,
      so de-duplication never merges the errors of different ports. */
  lemma PortMessageInjective(p: int, text: string, q: int, other: string)
    requires PortMessage(p, text) == PortMessage(q, other)
    ensures p == q && text == other
  {
    PortMessageRoundTrip(p, text);
    PortMessageRoundTrip(q, other);
  }

  /** The report depends only on which outcomes arrived, not on the order in
      which they completed: the port lists are identical and the errors hold
      the same messages (their order follows arrival). */
  lemma SummarizeOrderIndependent(host: string, a: seq<Outcome>, b: seq<Outcome>)
    requires multiset(a) == multiset(b)
    ensures Summarize(host, a).openPorts == Summarize(host, b).openPorts
    ensures Summarize(host, a).closedOrFiltered == Summarize(host, b).closedOrFiltered
    ensures forall m :: m in Summarize(host, a).errors <==> m in Summarize(host, b).errors
    ensures |Summarize(host, a).errors| == |Summarize(host, b).errors|
  {
    FlatMapRespectsMultiset(OpenPiece, a, b);
    FlatMapRespectsMultiset(ClosedPiece, a, b);
    SortOrderIndependent(OpenPorts(a), OpenPorts(b));
    SortOrderIndependent(ClosedPorts(a), ClosedPorts(b));
    ErrorsOrderIndependent(a, b);
  }

  lemma ErrorsOrderIndependent(a: seq<Outcome>, b: seq<Outcome>)
    requires multiset(a) == multiset(b)
    ensures forall m :: m in Dedup(ErrorMessages(a)) <==> m in Dedup(ErrorMessages(b))
    ensures |Dedup(ErrorMessages(a))| == |Dedup(ErrorMessages(b))|
  {
    var ea, eb := ErrorMessages(a), ErrorMessages(b);
    FlatMapRespectsMultiset(ErrorPiece, a, b);
    forall m
      ensures m in ea <==> m in eb
    {
      assert m in ea <==> m in multiset(ea);
      assert m in eb <==> m in multiset(eb);
    }
    DistinctSameMembersSameLength(Dedup(ea), Dedup(eb));
  }

  /** The error entries keep the order in which their first occurrences
      arrived. */
  lemma ErrorsFirstOccurrenceOrder(host: string, outcomes: seq<Outcome>)
    ensures forall i, j :: 0 <= i < j < |Summarize(host, outcomes).errors| ==>
      FirstIndex(ErrorMessages(outcomes), Summarize(host, outcomes).errors[i])
        < FirstIndex(ErrorMessages(outcomes), Summarize(host, outcomes).errors[j])
  {
    DedupFirstOccurrenceOrder(ErrorMessages(outcomes));
  }

  /** `m` is the line the aggregation writes for the outcome `o` when it is
      not open: the error text of a closed probe, when present and
      non-empty, or the detail of an execution failure. */
  predicate FailureEntry(o: Outcome, m: string)
  {
    !IsOpen(o) &&
    ((o.Probed? && o.err.Some? && o.err.value != "" && m == PortMessage(o.port, o.err.value))
     || (o.Unexpected? && m == PortMessage(o.port, "unexpected error " + o.detail)))
  }

  lemma ErrorPieceMembers(o: Outcome, m: string)
    ensures m in ErrorPiece(o) <==> FailureEntry(o, m)
  {
  }

  /** Where the report's error entries come from, in both directions: each
      entry is the failure line of some outcome that is not open, and every
      closed probe with error text and every execution failure has its line
      in the report. */
  lemma ErrorsFromFailures(host: string, outcomes: seq<Outcome>)
    ensures var r := Summarize(host, outcomes);
      forall m :: m in r.errors <==> exists o :: o in outcomes && FailureEntry(o, m)
    ensures var r := Summarize(host, outcomes);
      forall o :: o in outcomes && o.Probed? && !o.isOpen && o.err.Some? && o.err.value != "" ==>
        PortMessage(o.port, o.err.value) in r.errors
    ensures var r := Summarize(host, outcomes);
      forall o :: o in outcomes && o.Unexpected? ==>
        PortMessage(o.port, "unexpected error " + o.detail) in r.errors
  {
    var r := Summarize(host, outcomes);
    forall m
      ensures m in r.errors <==> exists o :: o in outcomes && FailureEntry(o, m)
    {
      FlatMapMembers(ErrorPiece, outcomes, m);
      forall o ensures m in ErrorPiece(o) <==> FailureEntry(o, m) {
        ErrorPieceMembers(o, m);
      }
    }
  }

  /** Every error entry names, in its `port p:` prefix, a port of the closed
      list: an open port never carries an error. */
  lemma ErrorsNameClosedPorts(host: string, outcomes: seq<Outcome>)
    ensures var r := Summarize(host, outcomes);
      forall m :: m in r.errors ==>
        ParsePortMessage(m).Some? && ParsePortMessage(m).value.0 in r.closedOrFiltered
  {
    var r := Summarize(host, outcomes);
    forall m | m in r.errors
      ensures ParsePortMessage(m).Some? && ParsePortMessage(m).value.0 in r.closedOrFiltered
    {
      FlatMapMembers(ErrorPiece, outcomes, m);
      var o :| o in outcomes && m in ErrorPiece(o);
      if o.Probed? {
        PortMessageRoundTrip(o.port, o.err.value);
      } else {
        PortMessageRoundTrip(o.port, "unexpected error " + o.detail);
      }
    }
  }

  /** When no port is reported twice, as for a range, both lists are strictly
      ascending and no port is in both. */
  lemma DistinctPortsPartition(host: string, outcomes: seq<Outcome>)
    requires NoDuplicates(Ports(outcomes))
    ensures StrictlyAscending(Summarize(host, outcomes).openPorts)
    ensures StrictlyAscending(Summarize(host, outcomes).closedOrFiltered)
    ensures forall p :: p in Summarize(host, outcomes).openPorts ==> p !in Summarize(host, outcomes).closedOrFiltered
  {
    var r := Summarize(host, outcomes);
    DistinctSplit(r.openPorts, r.closedOrFiltered, Ports(outcomes));
    SortedDistinctAscending(r.openPorts);
    SortedDistinctAscending(r.closedOrFiltered);
  }
}

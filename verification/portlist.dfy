/** The port list `scan_ports` builds from its `ports` and `port_range`
    arguments before any probing (tools/network.py, lines 93-104). */
module PortList {
  import opened Wrappers
  import opened Seqs

  const MinPort: int := 1
  const MaxPort: int := 65535

  const MissingPortsMessage: string := "either 'ports' or 'port_range' must be provided"
  const InvalidRangeMessage: string := "invalid port_range; ports must be between 1 and 65535"

  /** Which of the two optional arguments the caller supplied. */
  datatype Request =
    | Neither
    | Explicit(ports: seq<int>)
    | RangeOnly(start: int, end: int)
    | Both(ports: seq<int>, start: int, end: int)

  /** The bounds check applied to `port_range`. */
  predicate ValidRange(start: int, end: int)
  {
    MinPort <= start <= MaxPort && MinPort <= end <= MaxPort && start <= end
  }

  /** `list(range(start, end + 1))`. */
  function Range(start: int, end: int): seq<int>
    requires start <= end + 1
  {
    seq(end - start + 1, i => start + i)
  }

  /** The inclusive range holds exactly the integers from `start` to `end`,
      each once, in ascending order. */
  lemma RangeContents(start: int, end: int)
    requires start <= end + 1
    ensures |Range(start, end)| == end - start + 1
    ensures StrictlyAscending(Range(start, end))
    ensures NoDuplicates(Range(start, end))
    ensures forall p :: p in Range(start, end) <==> start <= p <= end
  {
    var r := Range(start, end);
    forall p | start <= p <= end
      ensures p in r
    {
      assert r[p - start] == p;
    }
  }

  /** The port list `scan_ports` probes, or the `ValueError` it raises. */
  function BuildPortList(req: Request): (r: Result<seq<int>, string>)
    ensures r.Failure? <==> req.Neither? || (req.RangeOnly? && !ValidRange(req.start, req.end))
    ensures req.Neither? ==> r == Failure(MissingPortsMessage)
    ensures req.RangeOnly? && !ValidRange(req.start, req.end) ==> r == Failure(InvalidRangeMessage)
    ensures (req.Explicit? || req.Both?) ==> r == Success(req.ports)
    ensures req.RangeOnly? && r.Success? ==>
      && |r.value| == req.end - req.start + 1
      && StrictlyAscending(r.value)
      && (forall p :: p in r.value <==> req.start <= p <= req.end)
      && (forall p :: p in r.value ==> MinPort <= p <= MaxPort)
  {
    match req
    case Neither => Failure(MissingPortsMessage)
    case Explicit(ports) => Success(ports)
    case Both(ports, _, _) => Success(ports)
    case RangeOnly(start, end) =>
      if !ValidRange(start, end) then Failure(InvalidRangeMessage)
      else
        RangeContents(start, end);
        Success(Range(start, end))
  }

  /** The boundary cases of the range check: a zero start and a reversed
      range are rejected, the full port space expands to 65535 ports, and an
      explicit list is kept as given even when it repeats or leaves the range. */
  lemma BuildPortListBoundaries()
    ensures BuildPortList(RangeOnly(0, 10)) == Failure(InvalidRangeMessage)
    ensures BuildPortList(RangeOnly(100, 50)) == Failure(InvalidRangeMessage)
    ensures BuildPortList(RangeOnly(1, 65536)) == Failure(InvalidRangeMessage)
    ensures BuildPortList(RangeOnly(1, 65535)).Success?
    ensures |BuildPortList(RangeOnly(1, 65535)).value| == 65535
    ensures BuildPortList(Explicit([])) == Success([])
    ensures BuildPortList(Explicit([0, 70000, 0])) == Success([0, 70000, 0])
    ensures BuildPortList(Both([22], 0, 10)) == Success([22])
  {
  }
}

# TCP port scanner core, modelled in Dafny

This project models the logic of `scan_ports`, the TCP connect-style port
scanner exposed as a network-diagnostic tool. The sockets and the thread pool
are left out. Two parts are modelled:

- **Port list builder.** `scan_ports` accepts an optional explicit `ports`
  list and an optional inclusive `port_range`. It rejects a call that gives
  neither. An explicit list is probed exactly as given and wins over a range.
  A range is checked against 1..65535 with start <= end and then expanded.
- **Result aggregator.** The futures complete in an arbitrary order. Each
  yields a `(port, is_open, err)` triple, or its `result()` raises. The
  aggregator puts each port in `open_ports` or `closed_or_filtered`. It
  formats error entries as `port <p>: <text>`, sorts both port lists and
  de-duplicates the errors, keeping first occurrences.

Network I/O is replaced by an oracle. `attempt(i)` is what the i-th submitted
future produced: a connection, a caught connection error carrying its
`str(exc)` text, or a failure of the future itself. The completion order of
`as_completed` is a parameter `order`: any permutation of the submitted
futures' indices. Every property about the report is proved for all oracles
and all completion orders.

Modules, one per concept:

| file | module | models |
|---|---|---|
| `wrappers.dfy` | `Wrappers` | `Option` for `None`-able values, `Result` for a `ValueError` |
| `seqs.dfy` | `Seqs` | sortedness and uniqueness of sorted rearrangements, duplicate freedom, index permutations, flat map |
| `sorting.dfy` | `Sorting` | `list.sort()` on ints |
| `distinct.dfy` | `Distinct` | `list(dict.fromkeys(xs))` |
| `decimal.dfy` | `Decimal` | `str(int)` inside the f-strings, and its inverse |
| `portlist.dfy` | `PortList` | argument validation and the port list |
| `aggregation.dfy` | `Aggregation` | the completion loop, sort, de-duplication and result dictionary |
| `scan.dfy` | `Scan` | the whole call, with the oracle and completion order |

The model follows what the code does, including where it departs from its
own documentation or from what a reader might expect:

- An explicit `ports` list is neither range-checked nor de-duplicated
  (tools/network.py:97-99). This holds even though the comment on line 98
  says "validate", and even though the docstring (lines 81-84) promises a
  `ValueError` for invalid port numbers. Only a `port_range` is checked.
- With duplicate ports, each copy gets its own future and its own entry. The
  two lists are then non-decreasing rather than strictly ascending, and may
  even share a port. `Aggregation.DistinctPortsPartition` and
  `Scan.RangeScanCoversRange` prove strict order and disjointness when the
  ports are distinct, which is always so for a range.
- Completeness counts list entries, not distinct ports:
  `|open_ports| + |closed_or_filtered|` equals the length of the port list.

## Model

| member | source | states |
|---|---|---|
| PortList.BuildPortList | tools/network.py:93-104 | The call fails exactly when neither argument is given, or when only a range is given and it is out of 1..65535 or reversed; each failure carries its exact message. An explicit list, with or without a range, is returned verbatim. A valid range yields ascending ports covering exactly start..end, end-start+1 of them, all within 1..65535 |
| PortList.RangeContents | tools/network.py:104 | `range(start, end + 1)` has end-start+1 entries, is strictly ascending and duplicate-free, and contains exactly the integers from start to end |
| PortList.BuildPortListBoundaries | tools/network.py:93-104 | (0,10), (100,50) and (1,65536) are rejected; (1,65535) yields 65535 ports; an empty explicit list is accepted as empty; an explicit list with out-of-range and repeated ports is kept as given; an explicit list wins over an invalid range |
| Sorting.Sort | tools/network.py:139-140 | The sorted list is in non-decreasing order and is a permutation of its input |
| Sorting.SortCharacterized | tools/network.py:139-140 | A list is the result of sorting `s` if and only if it is sorted and a permutation of `s` |
| Sorting.SortOrderIndependent | tools/network.py:139-140 | Two inputs with the same elements, counted with repetition, sort to the same list |
| Distinct.Dedup | tools/network.py:142 | The de-duplicated errors have no repeated entry and contain exactly the messages collected |
| Distinct.DedupFirstOccurrenceOrder | tools/network.py:142 | The kept messages appear in the order of their first occurrences |
| Distinct.DedupCharacterized | tools/network.py:142 | A list is the de-duplicated errors if and only if it holds exactly the collected messages, in the order of their first occurrences, so `dict.fromkeys` has exactly one possible result |
| Distinct.DedupOfDistinct | tools/network.py:142 | A list without repeats passes through de-duplication unchanged |
| Distinct.DedupIdempotent | tools/network.py:142 | De-duplicating the errors a second time changes nothing |
| Decimal.ParseIntToText | tools/network.py:133 | The decimal rendering of a port number in an error entry reads back as that number, negative numbers included |
| Aggregation.PortMessageRoundTrip | tools/network.py:133 | Every `port {p}: {text}` entry can be parsed back into its port and its text |
| Aggregation.PortMessageInjective | tools/network.py:131-137 | Two equal error entries come from the same port with the same text, so de-duplication never merges the errors of different ports |
| Aggregation.PartitionComplete | tools/network.py:123-137 | Open and closed lists together hold exactly the reported ports, each as often as it was reported |
| Aggregation.PartitionLength | tools/network.py:123-137 | Each outcome contributes exactly one entry to the two port lists |
| Aggregation.PartitionMembers | tools/network.py:126-137 | A port is in the open list exactly when some open outcome reports it, and in the closed list exactly when some non-open outcome, execution failures included, reports it |
| Aggregation.Collect | tools/network.py:118-137 | The loop over completed futures builds the open, closed and error lists of the outcomes in arrival order |
| Aggregation.Summarize | tools/network.py:118-149 | The report's target is the host unchanged. Both port lists are sorted. The open list holds the open outcomes' ports and the closed list the other outcomes' ports, execution failures included, each as often as reported, so together they are the reported ports as a multiset. A port is in the open list exactly when some open outcome reports it, and in the closed list exactly when some other outcome does. The errors have no repeats and hold exactly the collected messages |
| Aggregation.Aggregate | tools/network.py:118-149 | Collecting in arrival order, then sorting and de-duplicating, produces the report described by Summarize |
| Aggregation.SummarizeOrderIndependent | tools/network.py:124-142 | Outcomes arriving in any other order give identical port lists and the same set and number of error entries |
| Aggregation.ErrorsOrderIndependent | tools/network.py:131-142 | The de-duplicated errors hold the same messages, and as many, whatever the arrival order |
| Aggregation.ErrorsFirstOccurrenceOrder | tools/network.py:142 | The report's errors follow the order in which each message first arrived |
| Aggregation.ErrorsFromFailures | tools/network.py:126-142 | A message is in the report's errors exactly when some outcome that is not open writes it: a closed probe with present, non-empty text writes `port p: text`, an execution failure writes `port p: unexpected error d`. Every such outcome's line is in the errors; open probes and closed probes without text contribute none |
| Aggregation.ErrorsNameClosedPorts | tools/network.py:130-137 | Every error entry parses back to a port, and that port is in the closed list: no open port ever carries an error |
| Aggregation.DistinctPortsPartition | tools/network.py:139-140 | When no port is reported twice, both lists are strictly ascending and no port is in both |
| Scan.Resolve | tools/network.py:107-137 | The outcome of a future carries the port it was submitted for and is open exactly when the connection succeeded. A success carries no error text. A caught connection error is a closed probe carrying the exception's text. A failure of the future itself is an execution failure carrying its detail |
| Scan.Submitted | tools/network.py:123 | One future per port-list entry, duplicates included: the outcomes' ports are the port list itself |
| Scan.Completed | tools/network.py:122-124 | Any completion order yields the submitted outcomes, rearranged; their ports are the port list as a multiset |
| Scan.ScanPorts | tools/network.py:93-149 | For a pool that accepts its worker count, the scan fails exactly when building the port list fails, with the same message. Otherwise the target is the host, both lists are sorted, and together they hold the port list as a multiset, with length equal to the port list's. The errors have no repeats |
| Scan.ScanOrderIndependent | tools/network.py:122-142 | Two completion orders give the same success or failure, identical port lists and the same error messages |
| Scan.ScanClassifies | tools/network.py:123-140 | The open list holds, as a multiset, exactly the ports of the futures that connected, and the closed list exactly those of every other future, execution failures included. A port is in the open list exactly when some future for it connected, and in the closed list exactly when some future for it did not |
| Scan.ScanErrors | tools/network.py:107-142 | A message is in the scan's errors exactly when some future wrote it: a connection error with non-empty text gives `port p: text`, a failure of the future gives `port p: unexpected error d`. Every error entry names a port of the closed list |
| Scan.RangeScanCoversRange | tools/network.py:101-140 | A valid range scan succeeds, both lists are strictly ascending and disjoint, and together they cover exactly start..end with end-start+1 entries |
| Scan.EmptyListScan | tools/network.py:97-149 | An empty explicit list probes nothing and gives empty open, closed and error lists |
| Scan.MissingArgumentsScan | tools/network.py:93-94 | With neither argument the scan fails with "either 'ports' or 'port_range' must be provided" |
| Scan.ListenerOnSevenScan | tools/network.py:97-149 | Ports [7, 8, 9, 10] with only the first future connecting, refusals without text and an out-of-order completion give open [7], closed [8, 9, 10] and no errors |
| Scan.RefusedWithTextScan | tools/network.py:97-149 | Ports [7, 8, 9, 8] with only the first future connecting, every refusal carrying the text "[Errno 111] Connection refused" and an out-of-order completion give open [7], closed [8, 8, 9], and the errors `port 9: …` then `port 8: …`: the two identical lines for port 8 collapse into one |

## Left out

- Socket connect and timeout handling inside `probe` (tools/network.py:107-116). This is network I/O with a floating-point deadline, so it becomes the `attempt` oracle. `timeout_seconds` is therefore not modelled.
- Scan.ScanPorts: does not model the `ValueError` that `ThreadPoolExecutor(max_workers=...)` raises at tools/network.py:122 when `max_workers` is not positive, because the worker count only sizes the pool and is not a parameter of the model; the scan's failure cases are those of the port list builder alone.
- `ThreadPoolExecutor`, `max_workers` and `as_completed` scheduling (tools/network.py:122-124). The concurrency itself is not modelled. Only its observable effect is: one outcome per submitted future, in any permutation.
- `str(exc)` conversion of exceptions. Error texts and failure details are opaque strings supplied by the oracle.
- `int(p)` coercion of the `ports` elements (tools/network.py:99). Inputs are taken to be ints already, so the `ValueError` or `TypeError` that a non-numeric element would raise is not modelled.
- Unpacking a `port_range` that is not a pair (tools/network.py:101). The request type always carries two integers.
- `get_network_configs` (tools/network.py:17-32). It is a subprocess wrapper around `ifconfig` with no logic of its own.
- Tool registration in mcp_server.py and the `@mcp.tool()` decorators. They belong to the transport layer of a library that is not part of this model.

/**
 * Serial-port snapshots and the polling discovery of a newly appeared port
 * (`toKeys`, `diffPortMaps`, `discoverPort` of uploading.go). A snapshot is
 * the set of device paths one enumeration returned; the enumeration itself is
 * hardware I/O and is supplied as the sequence of snapshots it would return.
 */
module PortDiscovery {
  import opened Wrappers
  import opened GoStrings

  /** The ports one call of `serial.GetPortsList` reported (`getPortsMap`). */
  type PortSnapshot = set<string>

  /**
   * `toKeys`: the keys gathered in whatever order the map yields them, then
   * sorted. The result holds every port of `m` exactly once, in strictly
   * increasing order, so it does not depend on the iteration order.
   */
  method ToKeys(m: PortSnapshot) returns (keys: seq<string>)
    ensures multiset(keys) == multiset(m)
    ensures |keys| == |m|
    ensures StrictlySorted(keys)
  {
    var unsorted: seq<string> := [];
    var rest := m;
    while rest != {}
      invariant rest <= m
      invariant multiset(unsorted) == multiset(m - rest)
      decreases |rest|
    {
      var k :| k in rest;
      assert m - (rest - {k}) == (m - rest) + {k};
      unsorted := unsorted + [k];
      rest := rest - {k};
    }
    keys := SortStrings(unsorted);
    assert |multiset(keys)| == |keys|;
    SortedDistinctIsStrict(keys);
  }

  /**
   * `diffPortMaps`: the ports of `after` missing from `before` (added) and
   * the ports of `before` missing from `after` (removed), each listed once,
   * in iteration order.
   */
  method DiffPortMaps(before: PortSnapshot, after: PortSnapshot) returns (added: seq<string>, removed: seq<string>)
    ensures multiset(added) == multiset(after - before)
    ensures multiset(removed) == multiset(before - after)
    ensures forall p :: p in added <==> p in after && p !in before
    ensures forall p :: p in removed <==> p in before && p !in after
  {
    added := Missing(after, before);
    removed := Missing(before, after);
  }

  /** One loop of `diffPortMaps`: the ports of `from` that `other` lacks, in iteration order. */
  method Missing(from: PortSnapshot, other: PortSnapshot) returns (ports: seq<string>)
    ensures multiset(ports) == multiset(from - other)
    ensures forall p :: p in ports <==> p in from && p !in other
  {
    ports := [];
    var rest := from;
    while rest != {}
      invariant rest <= from
      invariant multiset(ports) == multiset((from - rest) - other)
      decreases |rest|
    {
      var p :| p in rest;
      if p !in other {
        assert (from - (rest - {p})) - other == ((from - rest) - other) + {p};
        ports := ports + [p];
      } else {
        assert (from - (rest - {p})) - other == (from - rest) - other;
      }
      rest := rest - {p};
    }
    assert forall p :: p in ports <==> p in multiset(ports);
  }

  // ---------------------------------------------------------------------------
  // discoverPort over a history of snapshots
  // ---------------------------------------------------------------------------

  /**
   * The snapshot poll `k` is compared with: the baseline for the first poll,
   * and the previous poll afterwards (the baseline advances after each poll).
   */
  function Previous(baseline: PortSnapshot, polls: seq<PortSnapshot>, k: nat): PortSnapshot
    requires k < |polls|
  {
    if k == 0 then baseline else polls[k - 1]
  }

  /** The ports poll `k` reports as added. */
  function Arrivals(baseline: PortSnapshot, polls: seq<PortSnapshot>, k: nat): PortSnapshot
    requires k < |polls|
  {
    polls[k] - Previous(baseline, polls, k)
  }

  /** The first poll at index `k` or later whose added list is non-empty. */
  function FirstArrivalFrom(baseline: PortSnapshot, polls: seq<PortSnapshot>, k: nat): (r: Option<nat>)
    requires k <= |polls|
    ensures r.Some? ==> k <= r.value < |polls| && Arrivals(baseline, polls, r.value) != {}
    ensures r.Some? ==> forall i :: k <= i < r.value ==> Arrivals(baseline, polls, i) == {}
    ensures r.None? <==> forall i :: k <= i < |polls| ==> Arrivals(baseline, polls, i) == {}
    decreases |polls| - k
  {
    if k == |polls| then None
    else if Arrivals(baseline, polls, k) != {} then Some(k)
    else FirstArrivalFrom(baseline, polls, k + 1)
  }

  function FirstArrival(baseline: PortSnapshot, polls: seq<PortSnapshot>): Option<nat>
  {
    FirstArrivalFrom(baseline, polls, 0)
  }

  /**
   * `p` is a result `discoverPort` can return: some port added at the first
   * poll that added any, or `""` when no poll within the budget added one.
   */
  ghost predicate Discovers(baseline: PortSnapshot, polls: seq<PortSnapshot>, p: string)
    ensures Discovers(baseline, polls, p) && p != "" ==> exists k :: 0 <= k < |polls| && p in polls[k]
    ensures (forall k :: 0 <= k < |polls| ==> polls[k] <= Previous(baseline, polls, k)) ==>
      (Discovers(baseline, polls, p) <==> p == "")
  {
    match FirstArrival(baseline, polls)
    case None => p == ""
    case Some(k) => p in Arrivals(baseline, polls, k)
  }

  /**
   * `discoverPort`: `baseline` is the enumeration taken before the loop and
   * `polls` are the enumerations of successive iterations; their number is
   * the budget the 10-second timeout allows. The loop body always runs once
   * before the clock is consulted, hence at least one poll.
   */
  method DiscoverPort(baseline: PortSnapshot, polls: seq<PortSnapshot>) returns (port: string)
    requires |polls| > 0
    ensures Discovers(baseline, polls, port)
  {
    var before := baseline;
    var i := 0;
    while true
      invariant 0 <= i < |polls|
      invariant before == Previous(baseline, polls, i)
      invariant FirstArrival(baseline, polls) == FirstArrivalFrom(baseline, polls, i)
      decreases |polls| - i
    {
      var after := polls[i];
      var added, removed := DiffPortMaps(before, after);
      if |added| > 0 {
        assert added[0] in Arrivals(baseline, polls, i);
        assert FirstArrivalFrom(baseline, polls, i) == Some(i);
        return added[0];
      }
      if i + 1 == |polls| {
        break;
      }
      before := after;
      i := i + 1;
    }
    return "";
  }

  /**
   * A non-empty result is in the latest snapshot polled and absent from the
   * one just before it, and no earlier poll added anything.
   */
  lemma DiscoveredPortIsNew(baseline: PortSnapshot, polls: seq<PortSnapshot>, p: string)
    requires Discovers(baseline, polls, p) && p != ""
    ensures exists k :: 0 <= k < |polls| && p in polls[k] && p !in Previous(baseline, polls, k)
                          && forall i :: 0 <= i < k ==> Arrivals(baseline, polls, i) == {}
  {
    var k := FirstArrival(baseline, polls).value;
    assert p in polls[k] && p !in Previous(baseline, polls, k);
  }

  /**
   * `""` comes back only when no poll added a port (or the only port added
   * is named `""`, which no enumeration reports).
   */
  lemma EmptyMeansTimeout(baseline: PortSnapshot, polls: seq<PortSnapshot>)
    requires Discovers(baseline, polls, "")
    requires forall k :: 0 <= k < |polls| ==> "" !in polls[k]
    ensures forall k :: 0 <= k < |polls| ==> polls[k] <= Previous(baseline, polls, k)
  {
    match FirstArrival(baseline, polls)
    case None =>
      forall k | 0 <= k < |polls| ensures polls[k] <= Previous(baseline, polls, k) {
        assert Arrivals(baseline, polls, k) == {};
        forall x | x in polls[k] ensures x in Previous(baseline, polls, k) {
          assert x !in Arrivals(baseline, polls, k);
        }
      }
    case Some(k) =>
  }

  /** A port that appears at poll `k` makes discovery stop at poll `k` or earlier. */
  lemma {:induction false} ArrivalIsNotMissed(baseline: PortSnapshot, polls: seq<PortSnapshot>, from: nat, k: nat, p: string)
    requires from <= k < |polls|
    requires p in polls[k] && p !in Previous(baseline, polls, k)
    ensures FirstArrivalFrom(baseline, polls, from).Some?
    ensures FirstArrivalFrom(baseline, polls, from).value <= k
    decreases k - from
  {
    assert p in Arrivals(baseline, polls, k);
    if from < k && Arrivals(baseline, polls, from) == {} {
      ArrivalIsNotMissed(baseline, polls, from + 1, k, p);
    }
  }

  /**
   * The comparison is with the latest snapshot, not the original baseline: a
   * port present at the start that drops out and comes back is reported.
   */
  lemma ReturningPortIsDiscovered()
    ensures FirstArrival({"/dev/ttyACM0"}, [{}, {"/dev/ttyACM0"}]) == Some(1)
    ensures Discovers({"/dev/ttyACM0"}, [{}, {"/dev/ttyACM0"}], "/dev/ttyACM0")
  {
    var b: PortSnapshot := {"/dev/ttyACM0"};
    var polls: seq<PortSnapshot> := [{}, {"/dev/ttyACM0"}];
    assert Arrivals(b, polls, 0) == {};
    assert "/dev/ttyACM0" in Arrivals(b, polls, 1);
  }
}

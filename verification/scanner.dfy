/** The scan shared by the three front ends: one `test_port` per port of
    `range(start, end + 1)` on a thread pool, results gathered with
    `as_completed` and kept when not `None`. The pool is modelled as a
    sequential fold over the order in which the probes complete. */
module Scanner {
  import opened Wrappers

  /** What one `test_port` call ends with: `None`, a result, or an exception
      (a missing key or a value of the wrong type in the status object). */
  datatype Probed<+R> = NoServer | Server(value: R) | Raised

  /** `range(start, end + 1)`. */
  function Range(start: int, end: int): (r: seq<int>)
    ensures |r| == if start <= end then end - start + 1 else 0
    ensures forall i :: 0 <= i < |r| ==> r[i] == start + i
    decreases end - start
  {
    if start > end then [] else [start] + Range(start + 1, end)
  }

  /** The order in which `as_completed` hands back the futures: each time,
      one of the probes still pending finishes next, `picks` saying which.
      Any order of completion arises from some `picks` (`ScheduleReaches`). */
  function Schedule(pending: seq<int>, picks: seq<nat>): (r: seq<int>)
    ensures multiset(r) == multiset(pending)
    decreases |pending|
  {
    if pending == [] then []
    else
      var i := if picks == [] then 0 else picks[0] % |pending|;
      var others := pending[..i] + pending[i + 1..];
      RemoveOne(pending, i);
      [pending[i]] + Schedule(others, if picks == [] then [] else picks[1..])
  }

  /** Every rearrangement of the pending ports is a completion order: some
      `picks` makes `Schedule` produce exactly it. */
  lemma {:induction false} ScheduleReaches(pending: seq<int>, order: seq<int>) returns (picks: seq<nat>)
    requires multiset(order) == multiset(pending)
    ensures Schedule(pending, picks) == order
    decreases |pending|
  {
    if pending == [] {
      assert |order| == |multiset(order)| == 0;
      picks := [];
    } else {
      assert pending[0] in multiset(order);
      var i := Position(pending, order[0]);
      var others := pending[..i] + pending[i + 1..];
      OthersPermute(pending, i, order);
      var more := ScheduleReaches(others, order[1..]);
      ScheduleStep(pending, i, more);
      picks := [i] + more;
      assert order == [order[0]] + order[1..];
    }
  }

  /** A position where `x` occurs in `s`. */
  lemma Position(s: seq<int>, x: int) returns (i: nat)
    requires x in multiset(s)
    ensures i < |s| && s[i] == x
  {
    assert x in s;
    i :| 0 <= i < |s| && s[i] == x;
  }

  /** Picking position `i` first puts that port first and schedules the rest
      with the remaining picks. */
  lemma ScheduleStep(pending: seq<int>, i: nat, more: seq<nat>)
    requires i < |pending|
    ensures Schedule(pending, [i] + more) == [pending[i]] + Schedule(pending[..i] + pending[i + 1..], more)
  {
    var picks := [i] + more;
    assert picks != [] && picks[0] == i && picks[1..] == more;
    ModBelow(i, |pending|);
  }

  lemma ModBelow(i: nat, n: nat)
    requires i < n
    ensures i % n == i
  {
    assert i / n == 0;
  }

  /** Once the first port of `order` is taken out of `pending`, what remains
      of either is a rearrangement of the other. */
  lemma OthersPermute(pending: seq<int>, i: nat, order: seq<int>)
    requires i < |pending| && order != [] && pending[i] == order[0]
    requires multiset(order) == multiset(pending)
    ensures multiset(order[1..]) == multiset(pending[..i] + pending[i + 1..])
  {
    var tail, others := order[1..], pending[..i] + pending[i + 1..];
    RemoveOne(pending, i);
    assert order == [order[0]] + tail;
    assert multiset(order) == multiset{order[0]} + multiset(tail);
    forall x ensures multiset(tail)[x] == multiset(others)[x] {
      assert multiset(order)[x] == multiset(pending)[x];
    }
  }

  lemma RemoveOne(s: seq<int>, i: int)
    requires 0 <= i < |s|
    ensures multiset(s) == multiset{s[i]} + multiset(s[..i] + s[i + 1..])
  {
    assert s == s[..i] + [s[i]] + s[i + 1..];
  }

  /** The ports probed, in completion order. */
  function Probes(start: int, end: int, picks: seq<nat>): (r: seq<int>)
    ensures |r| == if start <= end then end - start + 1 else 0
    ensures forall p :: multiset(r)[p] == if start <= p <= end then 1 else 0
  {
    var ports := Range(start, end);
    var r := Schedule(ports, picks);
    assert |r| == |multiset(r)| == |multiset(ports)| == |ports|;
    forall p ensures multiset(r)[p] == if start <= p <= end then 1 else 0 {
      RangeCount(start, end, p);
    }
    r
  }

  lemma {:induction false} RangeCount(start: int, end: int, p: int)
    ensures multiset(Range(start, end))[p] == if start <= p <= end then 1 else 0
    decreases end - start
  {
    if start <= end {
      RangeCount(start + 1, end, p);
      assert Range(start, end) == [start] + Range(start + 1, end);
    }
  }

  /** The `for f in as_completed(futures)` loop over probes finishing in
      `order`: `None` when some `f.result()` re-raises, otherwise the
      results that are not `None`, in that order. */
  function Collect<R(==)>(order: seq<int>, probe: int -> Probed<R>): (r: Option<seq<R>>)
    ensures r.None? <==> exists i :: 0 <= i < |order| && probe(order[i]).Raised?
    ensures r.Some? ==> |r.value| <= |order|
    ensures r.Some? ==> forall k :: 0 <= k < |r.value| ==> exists i :: 0 <= i < |order| && probe(order[i]) == Server(r.value[k])
    ensures r.Some? ==> forall i :: 0 <= i < |order| && probe(order[i]).Server? ==> probe(order[i]).value in r.value
    decreases |order|
  {
    if order == [] then Some([])
    else
      var rest := Collect(order[1..], probe);
      assert forall i :: 0 < i < |order| ==> order[i] == order[1..][i - 1];
      match probe(order[0])
      case Raised => None
      case NoServer => rest
      case Server(v) => if rest.None? then None else Some([v] + rest.value)
  }

  function Join<R>(a: Option<seq<R>>, b: Option<seq<R>>): Option<seq<R>> {
    if a.None? || b.None? then None else Some(a.value + b.value)
  }

  lemma {:induction false} CollectConcat<R>(a: seq<int>, b: seq<int>, probe: int -> Probed<R>)
    ensures Collect(a + b, probe) == Join(Collect(a, probe), Collect(b, probe))
    decreases |a|
  {
    if a == [] {
      assert a + b == b;
      if Collect(b, probe).Some? {
        assert [] + Collect(b, probe).value == Collect(b, probe).value;
      }
    } else {
      assert (a + b)[0] == a[0];
      assert (a + b)[1..] == a[1..] + b;
      CollectConcat(a[1..], b, probe);
      var ra, rb := Collect(a[1..], probe), Collect(b, probe);
      if probe(a[0]).Server? && ra.Some? && rb.Some? {
        var v := probe(a[0]).value;
        assert [v] + (ra.value + rb.value) == ([v] + ra.value) + rb.value;
      }
    }
  }

  /** `a` and `b` fail together and otherwise hold the same results, in any order. */
  ghost predicate Rearranged<R>(a: Option<seq<R>>, b: Option<seq<R>>) {
    && (a.None? <==> b.None?)
    && (a.Some? ==> multiset(a.value) == multiset(b.value))
  }

  /** The completion order changes the order of the results and nothing
      else: whatever `picks` is, the scan raises exactly when the port-order
      fold raises, and otherwise it returns the same results. */
  lemma {:induction false} CollectSchedule<R>(pending: seq<int>, picks: seq<nat>, probe: int -> Probed<R>)
    ensures Rearranged(Collect(Schedule(pending, picks), probe), Collect(pending, probe))
    decreases |pending|
  {
    if pending != [] {
      var i := if picks == [] then 0 else picks[0] % |pending|;
      var x := pending[i];
      var before, after := pending[..i], pending[i + 1..];
      var next := if picks == [] then [] else picks[1..];
      var later := Schedule(before + after, next);
      CollectSchedule(before + after, next, probe);
      CollectScheduledStep(pending, picks, probe);
      CollectSplit(pending, i, probe);
      JoinPermutes(Collect([x], probe), Collect(later, probe), Collect(before, probe), Collect(after, probe));
    }
  }

  lemma CollectScheduledStep<R>(pending: seq<int>, picks: seq<nat>, probe: int -> Probed<R>)
    requires pending != []
    ensures var i := if picks == [] then 0 else picks[0] % |pending|;
      var next := if picks == [] then [] else picks[1..];
      Collect(Schedule(pending, picks), probe)
      == Join(Collect([pending[i]], probe), Collect(Schedule(pending[..i] + pending[i + 1..], next), probe))
  {
    var i := if picks == [] then 0 else picks[0] % |pending|;
    var next := if picks == [] then [] else picks[1..];
    var later := Schedule(pending[..i] + pending[i + 1..], next);
    assert Schedule(pending, picks) == [pending[i]] + later;
    CollectConcat([pending[i]], later, probe);
  }

  lemma CollectSplit<R>(pending: seq<int>, i: int, probe: int -> Probed<R>)
    requires 0 <= i < |pending|
    ensures var before, after := pending[..i], pending[i + 1..];
      && Collect(before + after, probe) == Join(Collect(before, probe), Collect(after, probe))
      && Collect(pending, probe) == Join(Join(Collect(before, probe), Collect([pending[i]], probe)), Collect(after, probe))
  {
    var before, after := pending[..i], pending[i + 1..];
    assert pending == before + [pending[i]] + after;
    CollectConcat(before, after, probe);
    CollectConcat(before + [pending[i]], after, probe);
    CollectConcat(before, [pending[i]], probe);
  }

  lemma JoinPermutes<R>(x: Option<seq<R>>, later: Option<seq<R>>, before: Option<seq<R>>, after: Option<seq<R>>)
    requires later.None? <==> Join(before, after).None?
    requires later.Some? ==> multiset(later.value) == multiset(Join(before, after).value)
    ensures Join(x, later).None? <==> Join(Join(before, x), after).None?
    ensures Join(x, later).Some? ==> multiset(Join(x, later).value) == multiset(Join(Join(before, x), after).value)
  {
  }

  ghost predicate DistinctPorts<R>(results: seq<R>, portOf: R -> int) {
    forall i, j :: 0 <= i < j < |results| ==> portOf(results[i]) != portOf(results[j])
  }

  /** When every result carries the port it came from and no port is probed
      twice, no two results share a port. */
  lemma {:induction false} CollectDistinctPorts<R>(order: seq<int>, probe: int -> Probed<R>, portOf: R -> int)
    requires forall i, j :: 0 <= i < j < |order| ==> order[i] != order[j]
    requires forall p :: probe(p).Server? ==> portOf(probe(p).value) == p
    ensures Collect(order, probe).Some? ==> DistinctPorts(Collect(order, probe).value, portOf)
    decreases |order|
  {
    if order != [] {
      var tail := order[1..];
      CollectDistinctPorts(tail, probe, portOf);
      var rest := Collect(tail, probe);
      if probe(order[0]).Server? && rest.Some? {
        var v := probe(order[0]).value;
        forall k | 0 <= k < |rest.value| ensures portOf(rest.value[k]) != portOf(v) {
          var m :| 0 <= m < |tail| && probe(tail[m]) == Server(rest.value[k]);
          assert tail[m] == order[m + 1];
        }
        ConsDistinct(v, rest.value, portOf);
      }
    }
  }

  lemma ConsDistinct<R>(v: R, rest: seq<R>, portOf: R -> int)
    requires DistinctPorts(rest, portOf)
    requires forall k :: 0 <= k < |rest| ==> portOf(rest[k]) != portOf(v)
    ensures DistinctPorts([v] + rest, portOf)
  {
    var results := [v] + rest;
    forall a, b | 0 <= a < b < |results| ensures portOf(results[a]) != portOf(results[b]) {
      assert results[b] == rest[b - 1];
      if a > 0 {
        assert results[a] == rest[a - 1];
      }
    }
  }

  /** Each port of the range is probed exactly once, so no port is probed twice. */
  lemma ProbesDistinct(start: int, end: int, picks: seq<nat>)
    ensures var order := Probes(start, end, picks);
      forall i, j :: 0 <= i < j < |order| ==> order[i] != order[j]
  {
    var order := Probes(start, end, picks);
    forall i, j | 0 <= i < j < |order| ensures order[i] != order[j] {
      assert multiset(order)[order[i]] <= 1;
      OnceIsDistinct(order, i, j);
    }
  }

  /** A value that occurs at most once cannot sit at two positions. */
  lemma OnceIsDistinct(s: seq<int>, i: int, j: int)
    requires 0 <= i < j < |s| && multiset(s)[s[i]] <= 1
    ensures s[i] != s[j]
  {
    assert s == s[..j] + s[j..];
    assert s[i] in s[..j];
    assert s[j..][0] == s[j];
  }

  /** What a scan of `[start, end]` that ends with `r` promises: it raises
      exactly when some port's probe raises; otherwise every result belongs
      to a port of the range and is that port's probe result, every port
      that found a server contributed its result, no port appears twice, and
      the results are empty exactly when no port found a server. */
  ghost predicate ScanResult<R>(start: int, end: int, probe: int -> Probed<R>, portOf: R -> int, r: Option<seq<R>>) {
    && (r.None? <==> exists p :: start <= p <= end && probe(p).Raised?)
    && (r.Some? ==> forall k :: 0 <= k < |r.value| ==>
          start <= portOf(r.value[k]) <= end && probe(portOf(r.value[k])) == Server(r.value[k]))
    && (r.Some? ==> forall p :: start <= p <= end && probe(p).Server? ==> probe(p).value in r.value)
    && (r.Some? ==> DistinctPorts(r.value, portOf))
    && (r.Some? ==> (r.value == [] <==> forall p :: start <= p <= end ==> !probe(p).Server?))
  }

  /** A scan in any completion order keeps the promises of `ScanResult`, and
      its results are those of a scan in port order, rearranged. */
  lemma ScanFacts<R>(start: int, end: int, picks: seq<nat>, probe: int -> Probed<R>, portOf: R -> int)
    requires forall p :: probe(p).Server? ==> portOf(probe(p).value) == p
    ensures var r := Collect(Probes(start, end, picks), probe);
      && ScanResult(start, end, probe, portOf, r)
      && Rearranged(r, Collect(Range(start, end), probe))
  {
    var order := Probes(start, end, picks);
    ProbesMembers(start, end, picks);
    ScanRaises(start, end, order, probe);
    ScanResults(start, end, order, probe, portOf);
    ProbesDistinct(start, end, picks);
    CollectDistinctPorts(order, probe, portOf);
    assert order == Schedule(Range(start, end), picks);
    CollectSchedule(Range(start, end), picks, probe);
  }

  lemma ProbesMembers(start: int, end: int, picks: seq<nat>)
    ensures forall p :: p in Probes(start, end, picks) <==> start <= p <= end
  {
    var order := Probes(start, end, picks);
    forall p ensures p in order <==> start <= p <= end {
      assert p in order <==> multiset(order)[p] > 0;
    }
  }

  lemma ScanRaises<R>(start: int, end: int, order: seq<int>, probe: int -> Probed<R>)
    requires forall p :: p in order <==> start <= p <= end
    ensures Collect(order, probe).None? <==> exists p :: start <= p <= end && probe(p).Raised?
  {
    if Collect(order, probe).None? {
      var i :| 0 <= i < |order| && probe(order[i]).Raised?;
      assert order[i] in order;
    }
    if exists p :: start <= p <= end && probe(p).Raised? {
      var p :| start <= p <= end && probe(p).Raised?;
      assert p in order;
      var i :| 0 <= i < |order| && order[i] == p;
    }
  }

  lemma ScanResults<R>(start: int, end: int, order: seq<int>, probe: int -> Probed<R>, portOf: R -> int)
    requires forall p :: p in order <==> start <= p <= end
    requires forall p :: probe(p).Server? ==> portOf(probe(p).value) == p
    ensures var r := Collect(order, probe);
      && (r.Some? ==> forall k :: 0 <= k < |r.value| ==>
            start <= portOf(r.value[k]) <= end && probe(portOf(r.value[k])) == Server(r.value[k]))
      && (r.Some? ==> forall p :: start <= p <= end && probe(p).Server? ==> probe(p).value in r.value)
      && (r.Some? ==> (r.value == [] <==> forall p :: start <= p <= end ==> !probe(p).Server?))
  {
    var r := Collect(order, probe);
    if r.Some? {
      forall k | 0 <= k < |r.value|
        ensures start <= portOf(r.value[k]) <= end && probe(portOf(r.value[k])) == Server(r.value[k])
      {
        var i :| 0 <= i < |order| && probe(order[i]) == Server(r.value[k]);
        var p := order[i];
        assert p in order;
        assert probe(p).Server? && portOf(probe(p).value) == p;
      }
      forall p | start <= p <= end && probe(p).Server? ensures probe(p).value in r.value {
        assert p in order;
        var i :| 0 <= i < |order| && order[i] == p;
      }
      if r.value != [] {
        var p := portOf(r.value[0]);
        assert start <= p <= end && probe(p).Server?;
      }
    }
  }
}

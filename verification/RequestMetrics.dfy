/** In-memory request metrics: counters that always add up. */
module RequestMetrics {
  import opened Text

  datatype Sample = Sample(domain: string, method_: string, route: string, statusCode: int, durationMillis: real)

  datatype StreamSample = StreamSample(operation: string, provider: string, outcome: string, chunkCount: int,
                                       durationMillis: real)

  datatype RouteAccumulator = RouteAccumulator(count: nat, errorCount: nat, totalMillis: real)

  datatype StreamAccumulator = StreamAccumulator(count: nat, errorCount: nat, totalChunks: nat, totalMillis: real)

  datatype RouteHit = RouteHit(count: nat, errorCount: nat, totalMillis: real, averageMillis: real)

  datatype StreamHit = StreamHit(count: nat, errorCount: nat, totalChunks: nat, totalMillis: real, averageMillis: real)

  datatype Snapshot = Snapshot(
    requests: nat,
    errors: nat,
    byStatusClass: map<string, nat>,
    byDomain: map<string, nat>,
    byRoute: map<string, RouteHit>,
    providerFails: map<string, nat>,
    streamHealth: map<string, StreamHit>,
    lifecycle: map<string, nat>)

  function NormalizedValue(value: string, fallback: string): string {
    if TrimSpace(value) == "" then fallback else TrimSpace(value)
  }

  /** The first digit is computed in a byte. */
  function StatusClass(statusCode: int): string {
    if statusCode <= 0 then "unknown" else [(('0' as int + statusCode / 100) % 256) as char, 'x', 'x']
  }

  predicate IsError(statusCode: int) {
    statusCode >= 500
  }

  function RouteKey(s: Sample): string {
    NormalizedValue(s.method_, "UNKNOWN") + " " + NormalizedValue(s.route, "unknown")
  }

  function DomainKey(s: Sample): string {
    NormalizedValue(s.domain, "unknown")
  }

  function StreamKey(s: StreamSample): string {
    NormalizedValue(s.operation, "unknown") + " " + NormalizedValue(s.provider, "unknown") + " "
    + NormalizedValue(s.outcome, "unknown")
  }

  function Average(total: real, count: nat): real {
    if count == 0 then 0.0 else total / count as real
  }

  function Bump(counts: map<string, nat>, key: string): map<string, nat> {
    counts[key := (if key in counts then counts[key] else 0) + 1]
  }

  function RouteOf(routes: map<string, RouteAccumulator>, key: string): RouteAccumulator {
    if key in routes then routes[key] else RouteAccumulator(0, 0, 0.0)
  }

  function AddToRoute(acc: RouteAccumulator, s: Sample): RouteAccumulator {
    RouteAccumulator(acc.count + 1, acc.errorCount + (if IsError(s.statusCode) then 1 else 0),
                     acc.totalMillis + s.durationMillis)
  }

  function StreamOf(streams: map<string, StreamAccumulator>, key: string): StreamAccumulator {
    if key in streams then streams[key] else StreamAccumulator(0, 0, 0, 0.0)
  }

  function AddToStream(acc: StreamAccumulator, s: StreamSample): StreamAccumulator {
    StreamAccumulator(acc.count + 1, acc.errorCount + (if s.outcome != "completed" then 1 else 0),
                      acc.totalChunks + (if s.chunkCount > 0 then s.chunkCount else 0),
                      acc.totalMillis + s.durationMillis)
  }

  // ----- sums over counter maps -----

  ghost function Sum(weights: map<string, nat>): nat {
    if weights == map[] then 0
    else
      var key :| key in weights;
      weights[key] + Sum(weights - {key})
  }

  /** The sum does not depend on which entry is taken first. */
  lemma {:induction false} SumWithout(weights: map<string, nat>, key: string)
    requires key in weights
    ensures Sum(weights) == weights[key] + Sum(weights - {key})
    decreases |weights|
  {
    var first :| first in weights && Sum(weights) == weights[first] + Sum(weights - {first});
    if first != key {
      SumWithout(weights - {first}, key);
      SumWithout(weights - {key}, first);
      assert weights - {first} - {key} == weights - {key} - {first};
    }
  }

  lemma SumUpdate(weights: map<string, nat>, key: string, value: nat)
    ensures Sum(weights[key := value]) + (if key in weights then weights[key] else 0) == Sum(weights) + value
  {
    SumWithout(weights[key := value], key);
    assert weights[key := value] - {key} == weights - {key};
    if key in weights {
      SumWithout(weights, key);
    } else {
      assert weights - {key} == weights;
    }
  }

  ghost function RouteCounts(routes: map<string, RouteAccumulator>): map<string, nat> {
    map key | key in routes :: routes[key].count
  }

  ghost function RouteErrors(routes: map<string, RouteAccumulator>): map<string, nat> {
    map key | key in routes :: routes[key].errorCount
  }

  lemma RouteUpdate(routes: map<string, RouteAccumulator>, key: string, acc: RouteAccumulator)
    ensures Sum(RouteCounts(routes[key := acc])) + RouteOf(routes, key).count == Sum(RouteCounts(routes)) + acc.count
    ensures Sum(RouteErrors(routes[key := acc])) + RouteOf(routes, key).errorCount
         == Sum(RouteErrors(routes)) + acc.errorCount
  {
    assert RouteCounts(routes[key := acc]) == RouteCounts(routes)[key := acc.count];
    assert RouteErrors(routes[key := acc]) == RouteErrors(routes)[key := acc.errorCount];
    SumUpdate(RouteCounts(routes), key, acc.count);
    SumUpdate(RouteErrors(routes), key, acc.errorCount);
  }

  lemma BumpSum(counts: map<string, nat>, key: string)
    ensures Sum(Bump(counts, key)) == Sum(counts) + 1
  {
    SumUpdate(counts, key, Bump(counts, key)[key]);
  }

  /** No route has more errors than requests. */
  ghost predicate RouteErrorsWithin(routes: map<string, RouteAccumulator>) {
    forall key :: key in routes ==> routes[key].errorCount <= routes[key].count
  }

  /** No stream has more failures than ends. */
  ghost predicate StreamErrorsWithin(streams: map<string, StreamAccumulator>) {
    forall key :: key in streams ==> streams[key].errorCount <= streams[key].count
  }

  /** One more record keeps all sums in step. */
  lemma RecordConserves(classes: map<string, nat>, domains: map<string, nat>, routes: map<string, RouteAccumulator>,
                        s: Sample)
    ensures Sum(Bump(classes, StatusClass(s.statusCode))) == Sum(classes) + 1
    ensures Sum(Bump(domains, DomainKey(s))) == Sum(domains) + 1
    ensures var next := routes[RouteKey(s) := AddToRoute(RouteOf(routes, RouteKey(s)), s)];
            && Sum(RouteCounts(next)) == Sum(RouteCounts(routes)) + 1
            && Sum(RouteErrors(next)) == Sum(RouteErrors(routes)) + (if IsError(s.statusCode) then 1 else 0)
  {
    BumpSum(classes, StatusClass(s.statusCode));
    BumpSum(domains, DomainKey(s));
    RouteUpdate(routes, RouteKey(s), AddToRoute(RouteOf(routes, RouteKey(s)), s));
  }

  /** Every request is counted once in every breakdown, and every error once by its route. */
  ghost predicate Conserved(requests: nat, errors: nat, classes: map<string, nat>, domains: map<string, nat>,
                            routes: map<string, RouteAccumulator>)
  {
    && requests == Sum(classes) == Sum(domains) == Sum(RouteCounts(routes))
    && errors == Sum(RouteErrors(routes))
    && errors <= requests
    && RouteErrorsWithin(routes)
  }

  lemma RecordKeepsConserved(requests: nat, errors: nat, classes: map<string, nat>, domains: map<string, nat>,
                             routes: map<string, RouteAccumulator>, s: Sample)
    requires Conserved(requests, errors, classes, domains, routes)
    ensures Conserved(requests + 1, errors + (if IsError(s.statusCode) then 1 else 0),
                      Bump(classes, StatusClass(s.statusCode)), Bump(domains, DomainKey(s)),
                      routes[RouteKey(s) := AddToRoute(RouteOf(routes, RouteKey(s)), s)])
  {
    RecordConserves(classes, domains, routes, s);
  }

  // ----- the recorder -----

  class InMemoryRequestMetrics {
    var totalRequests: nat
    var totalErrors: nat
    var byStatusClass: map<string, nat>
    var byDomain: map<string, nat>
    var byRoute: map<string, RouteAccumulator>
    var providerFails: map<string, nat>
    var streamHealth: map<string, StreamAccumulator>
    var lifecycle: map<string, nat>

    /** Conservation, and no route and no stream with more errors than events. */
    ghost predicate Valid()
      reads this
    {
      Conserved(totalRequests, totalErrors, byStatusClass, byDomain, byRoute) && StreamErrorsWithin(streamHealth)
    }

    constructor ()
      ensures Valid() && totalRequests == totalErrors == 0
      ensures byStatusClass == byDomain == providerFails == lifecycle == map[]
      ensures byRoute == map[] && streamHealth == map[]
    {
      totalRequests, totalErrors := 0, 0;
      byStatusClass, byDomain, providerFails, lifecycle := map[], map[], map[], map[];
      byRoute, streamHealth := map[], map[];
    }

    method Record(s: Sample)
      requires Valid()
      modifies `totalRequests, `totalErrors, `byStatusClass, `byDomain, `byRoute
      ensures Valid()
      ensures totalRequests == old(totalRequests) + 1
      ensures totalErrors == old(totalErrors) + if IsError(s.statusCode) then 1 else 0
      ensures byStatusClass == Bump(old(byStatusClass), StatusClass(s.statusCode))
      ensures byDomain == Bump(old(byDomain), DomainKey(s))
      ensures byRoute == old(byRoute)[RouteKey(s) := AddToRoute(RouteOf(old(byRoute), RouteKey(s)), s)]
    {
      var statusClass, domain, route := StatusClass(s.statusCode), DomainKey(s), RouteKey(s);
      var accumulator := AddToRoute(RouteOf(byRoute, route), s);
      RecordKeepsConserved(totalRequests, totalErrors, byStatusClass, byDomain, byRoute, s);
      totalRequests := totalRequests + 1;
      if IsError(s.statusCode) {
        totalErrors := totalErrors + 1;
      }
      byStatusClass := Bump(byStatusClass, statusClass);
      byDomain := Bump(byDomain, domain);
      byRoute := byRoute[route := accumulator];
    }

    method RecordStreamHealth(s: StreamSample)
      requires Valid()
      modifies `streamHealth
      ensures Valid()
      ensures streamHealth == old(streamHealth)[StreamKey(s) := AddToStream(StreamOf(old(streamHealth), StreamKey(s)), s)]
    {
      streamHealth := streamHealth[StreamKey(s) := AddToStream(StreamOf(streamHealth, StreamKey(s)), s)];
    }

    /** A copy of the counters with averages; later records do not reach it. */
    method TakeSnapshot() returns (snapshot: Snapshot)
      requires Valid()
      ensures snapshot.requests == totalRequests && snapshot.errors == totalErrors
      ensures snapshot.byStatusClass == byStatusClass && snapshot.byDomain == byDomain
      ensures snapshot.providerFails == providerFails && snapshot.lifecycle == lifecycle
      ensures snapshot.byRoute.Keys == byRoute.Keys && snapshot.streamHealth.Keys == streamHealth.Keys
      ensures forall key :: key in byRoute ==>
                var acc := byRoute[key];
                snapshot.byRoute[key] == RouteHit(acc.count, acc.errorCount, acc.totalMillis,
                                                  Average(acc.totalMillis, acc.count))
      ensures forall key :: key in streamHealth ==>
                var acc := streamHealth[key];
                snapshot.streamHealth[key] == StreamHit(acc.count, acc.errorCount, acc.totalChunks, acc.totalMillis,
                                                        Average(acc.totalMillis, acc.count))
    {
      var routes := map key | key in byRoute ::
        RouteHit(byRoute[key].count, byRoute[key].errorCount, byRoute[key].totalMillis,
                 Average(byRoute[key].totalMillis, byRoute[key].count));
      var streams := map key | key in streamHealth ::
        StreamHit(streamHealth[key].count, streamHealth[key].errorCount, streamHealth[key].totalChunks,
                  streamHealth[key].totalMillis, Average(streamHealth[key].totalMillis, streamHealth[key].count));
      snapshot := Snapshot(totalRequests, totalErrors, byStatusClass, byDomain, routes, providerFails, streams, lifecycle);
    }
  }

  // ----- what the counters mean -----

  function CountsBy(keys: seq<string>): map<string, nat> {
    if keys == [] then map[] else Bump(CountsBy(keys[..|keys| - 1]), keys[|keys| - 1])
  }

  /** Bumping one counter per event makes every counter the number of its events, and their sum the number of all. */
  lemma {:induction false} CountsAreMultiplicities(keys: seq<string>)
    ensures Sum(CountsBy(keys)) == |keys|
    ensures forall key :: key in CountsBy(keys) <==> key in keys
    ensures forall key :: key in keys ==> CountsBy(keys)[key] == multiset(keys)[key]
  {
    if keys != [] {
      var n := |keys| - 1;
      CountsAreMultiplicities(keys[..n]);
      assert keys == keys[..n] + [keys[n]];
      BumpSum(CountsBy(keys[..n]), keys[n]);
    }
  }

  datatype Counters = Counters(byStatusClass: map<string, nat>, byDomain: map<string, nat>,
                               byRoute: map<string, RouteAccumulator>)

  /** The counters after a run of records, each as `Record` changes them. */
  function RunRecords(samples: seq<Sample>): Counters {
    if samples == [] then Counters(map[], map[], map[])
    else
      var n := |samples| - 1;
      var before, s := RunRecords(samples[..n]), samples[n];
      Counters(Bump(before.byStatusClass, StatusClass(s.statusCode)), Bump(before.byDomain, DomainKey(s)),
               before.byRoute[RouteKey(s) := AddToRoute(RouteOf(before.byRoute, RouteKey(s)), s)])
  }

  ghost function ClassesOf(samples: seq<Sample>): (classes: seq<string>)
    ensures |classes| == |samples| && forall i :: 0 <= i < |samples| ==> classes[i] == StatusClass(samples[i].statusCode)
  {
    seq(|samples|, i requires 0 <= i < |samples| => StatusClass(samples[i].statusCode))
  }

  ghost function DomainsOf(samples: seq<Sample>): (domains: seq<string>)
    ensures |domains| == |samples|
    ensures forall i :: 0 <= i < |samples| ==> domains[i] == NormalizedValue(samples[i].domain, "unknown")
  {
    seq(|samples|, i requires 0 <= i < |samples| => NormalizedValue(samples[i].domain, "unknown"))
  }

  /** The breakdowns by status class and by domain count the classes and the domains of the records. */
  lemma {:induction false} BreakdownsCount(samples: seq<Sample>)
    ensures RunRecords(samples).byStatusClass == CountsBy(ClassesOf(samples))
    ensures RunRecords(samples).byDomain == CountsBy(DomainsOf(samples))
  {
    if samples != [] {
      var n := |samples| - 1;
      BreakdownsCount(samples[..n]);
      assert ClassesOf(samples)[..n] == ClassesOf(samples[..n]);
      assert DomainsOf(samples)[..n] == DomainsOf(samples[..n]);
    }
  }

  ghost function CountSamples(samples: seq<Sample>, route: string, errorsOnly: bool): nat {
    if samples == [] then 0
    else
      var n := |samples| - 1;
      CountSamples(samples[..n], route, errorsOnly)
      + if RouteKey(samples[n]) == route && (!errorsOnly || IsError(samples[n].statusCode)) then 1 else 0
  }

  ghost function TotalErrors(samples: seq<Sample>): nat {
    if samples == [] then 0
    else TotalErrors(samples[..|samples| - 1]) + if IsError(samples[|samples| - 1].statusCode) then 1 else 0
  }

  /** Over any run: the breakdowns all sum to the number of records, and the route errors to the number of errors. */
  lemma {:induction false} CountersConserve(samples: seq<Sample>)
    ensures var c := RunRecords(samples);
            && Sum(c.byStatusClass) == Sum(c.byDomain) == Sum(RouteCounts(c.byRoute)) == |samples|
            && Sum(RouteErrors(c.byRoute)) == TotalErrors(samples) <= |samples|
  {
    if samples != [] {
      var n := |samples| - 1;
      var c, s := RunRecords(samples[..n]), samples[n];
      CountersConserve(samples[..n]);
      RecordConserves(c.byStatusClass, c.byDomain, c.byRoute, s);
    }
  }

  ghost function TotalMillis(samples: seq<Sample>, route: string): real {
    if samples == [] then 0.0
    else
      var n := |samples| - 1;
      TotalMillis(samples[..n], route) + if RouteKey(samples[n]) == route then samples[n].durationMillis else 0.0
  }

  /** Every route counts exactly its own records and its own errors, and adds up its own durations. */
  lemma {:induction false} RoutesCountTheirSamples(samples: seq<Sample>, route: string)
    ensures var acc := RouteOf(RunRecords(samples).byRoute, route);
            && acc.count == CountSamples(samples, route, false) && acc.errorCount == CountSamples(samples, route, true)
            && acc.errorCount <= acc.count && acc.totalMillis == TotalMillis(samples, route)
  {
    if samples != [] {
      RoutesCountTheirSamples(samples[..|samples| - 1], route);
    }
  }

  /** The streams after a run of records, each as `RecordStreamHealth` changes them. */
  function RunStreams(samples: seq<StreamSample>): map<string, StreamAccumulator> {
    if samples == [] then map[]
    else
      var n := |samples| - 1;
      var before, s := RunStreams(samples[..n]), samples[n];
      before[StreamKey(s) := AddToStream(StreamOf(before, StreamKey(s)), s)]
  }

  ghost function CountStreams(samples: seq<StreamSample>, stream: string, failedOnly: bool): nat {
    if samples == [] then 0
    else
      var n := |samples| - 1;
      CountStreams(samples[..n], stream, failedOnly)
      + if StreamKey(samples[n]) == stream && (!failedOnly || samples[n].outcome != "completed") then 1 else 0
  }

  /** The chunks of a stream; a negative number counts as none. */
  ghost function StreamChunks(samples: seq<StreamSample>, stream: string): nat {
    if samples == [] then 0
    else
      var n := |samples| - 1;
      StreamChunks(samples[..n], stream)
      + if StreamKey(samples[n]) != stream || samples[n].chunkCount < 0 then 0 else samples[n].chunkCount
  }

  ghost function StreamMillis(samples: seq<StreamSample>, stream: string): real {
    if samples == [] then 0.0
    else
      var n := |samples| - 1;
      StreamMillis(samples[..n], stream) + if StreamKey(samples[n]) == stream then samples[n].durationMillis else 0.0
  }

  lemma StreamStep(samples: seq<StreamSample>, stream: string)
    requires samples != []
    ensures var before, s := RunStreams(samples[..|samples| - 1]), samples[|samples| - 1];
            StreamOf(RunStreams(samples), stream)
            == if StreamKey(s) == stream then AddToStream(StreamOf(before, stream), s) else StreamOf(before, stream)
  {
  }

  /** Every stream counts its own ends and those that did not complete. */
  lemma {:induction false} StreamsCountTheirSamples(samples: seq<StreamSample>, stream: string)
    ensures var acc := StreamOf(RunStreams(samples), stream);
            acc.count == CountStreams(samples, stream, false) && acc.errorCount == CountStreams(samples, stream, true)
  {
    if samples != [] {
      StreamsCountTheirSamples(samples[..|samples| - 1], stream);
      StreamStep(samples, stream);
    }
  }

  /** Every stream adds up its own chunks and durations. */
  lemma {:induction false} StreamsAddUpTheirSamples(samples: seq<StreamSample>, stream: string)
    ensures var acc := StreamOf(RunStreams(samples), stream);
            acc.totalChunks == StreamChunks(samples, stream) && acc.totalMillis == StreamMillis(samples, stream)
  {
    if samples != [] {
      StreamsAddUpTheirSamples(samples[..|samples| - 1], stream);
      StreamStep(samples, stream);
    }
  }

  /** An average times the count is the total. */
  lemma AverageIsShare(total: real, count: nat)
    ensures if count == 0 then Average(total, count) == 0.0 else Average(total, count) * count as real == total
  {
  }

  /** A name without outer space is kept; any other loses it, and a blank one gives way to the fallback. */
  lemma NormalizedNames(value: string, fallback: string)
    ensures if forall i :: 0 <= i < |value| ==> IsSpace(value[i]) then NormalizedValue(value, fallback) == fallback
            else Core(value, NormalizedValue(value, fallback)) && NormalizedValue(value, fallback) != ""
  {
    TrimSpaceIsCore(value);
  }

  lemma FirstSpace(word: string, rest: string, i: nat)
    requires ' ' !in word && i < |word + " " + rest| && (word + " " + rest)[i] == ' '
    ensures i >= |word|
  {
  }

  lemma FirstWords(a: string, b: string, x: string, y: string)
    requires ' ' !in a && ' ' !in b
    ensures a + " " + x == b + " " + y <==> a == b && x == y
  {
    var left, right := a + " " + x, b + " " + y;
    if left == right {
      assert left[|a|] == ' ' && right[|b|] == ' ';
      FirstSpace(a, x, |b|);
      FirstSpace(b, y, |a|);
      assert a == left[..|a|] && b == right[..|b|];
      assert x == left[|a| + 1..] && y == right[|b| + 1..];
    }
  }

  /** Where methods are words, records share a route exactly when method and route agree as normalised. */
  lemma RouteKeysAreFaithful(s: Sample, t: Sample)
    requires ' ' !in NormalizedValue(s.method_, "UNKNOWN") && ' ' !in NormalizedValue(t.method_, "UNKNOWN")
    ensures RouteKey(s) == RouteKey(t)
       <==> && NormalizedValue(s.method_, "UNKNOWN") == NormalizedValue(t.method_, "UNKNOWN")
            && NormalizedValue(s.route, "unknown") == NormalizedValue(t.route, "unknown")
  {
    FirstWords(NormalizedValue(s.method_, "UNKNOWN"), NormalizedValue(t.method_, "UNKNOWN"),
               NormalizedValue(s.route, "unknown"), NormalizedValue(t.route, "unknown"));
  }

  /** Where operations and providers are words, streams are told apart by operation, provider and outcome. */
  lemma StreamKeysAreFaithful(s: StreamSample, t: StreamSample)
    requires ' ' !in NormalizedValue(s.operation, "unknown") && ' ' !in NormalizedValue(t.operation, "unknown")
    requires ' ' !in NormalizedValue(s.provider, "unknown") && ' ' !in NormalizedValue(t.provider, "unknown")
    ensures StreamKey(s) == StreamKey(t)
       <==> && NormalizedValue(s.operation, "unknown") == NormalizedValue(t.operation, "unknown")
            && NormalizedValue(s.provider, "unknown") == NormalizedValue(t.provider, "unknown")
            && NormalizedValue(s.outcome, "unknown") == NormalizedValue(t.outcome, "unknown")
  {
    var o, p := NormalizedValue(s.operation, "unknown"), NormalizedValue(t.operation, "unknown");
    var x, y := NormalizedValue(s.provider, "unknown"), NormalizedValue(t.provider, "unknown");
    var u, v := NormalizedValue(s.outcome, "unknown"), NormalizedValue(t.outcome, "unknown");
    assert StreamKey(s) == o + " " + (x + " " + u) && StreamKey(t) == p + " " + (y + " " + v);
    FirstWords(o, p, x + " " + u, y + " " + v);
    FirstWords(x, y, u, v);
  }

  /** The status classes, of which the fifth holds the errors; the first digit is kept in a byte. */
  lemma StatusClasses(statusCode: int)
    ensures statusCode <= 0 ==> StatusClass(statusCode) == "unknown"
    ensures 100 <= statusCode < 600 ==>
              StatusClass(statusCode) == if statusCode < 200 then "1xx" else if statusCode < 300 then "2xx"
                                         else if statusCode < 400 then "3xx" else if statusCode < 500 then "4xx" else "5xx"
    ensures 100 <= statusCode < 600 ==> (IsError(statusCode) <==> StatusClass(statusCode) == "5xx")
    ensures 0 < statusCode ==> StatusClass(statusCode) == StatusClass(statusCode + 25600)
  {
  }
}

/**
 * The fixed-window, per-IP rate limiter of the public submission endpoint
 * (src/lib/rate-limit.ts). The clock read becomes the `now` parameter, in
 * milliseconds; calls are a sequential stream of (ip, now) events.
 */
module RateLimit {

  const WindowMs: int := 60 * 1000
  const MaxRequests: int := 5

  /** The stored record for one IP: requests counted in the window and when the window began. */
  datatype Entry = Entry(count: int, start: int)

  /** The limiter's answer: whether the call may proceed, how many calls are
      left in the window, and when the window ends. */
  datatype Verdict = Verdict(success: bool, remaining: int, reset: int)

  type Table = map<string, Entry>

  /** Every stored count lies in 1..MaxRequests. */
  predicate WellFormed(table: Table) {
    forall ip :: ip in table ==> 1 <= table[ip].count <= MaxRequests
  }

  /** Whether `ip` has a window that is still open at `now`; at exactly
      `start + WindowMs` the old window still applies. */
  predicate InWindow(table: Table, ip: string, now: int) {
    ip in table && now - table[ip].start <= WindowMs
  }

  /**
   * One call of the limiter for `ip` at time `now`: the new table and the verdict.
   * Only `ip`'s entry can change; the verdict's `reset` is always the end of
   * `ip`'s (new or current) window; a denial happens exactly when the window is
   * open and full, and then nothing changes; an allowed call leaves
   * `MaxRequests - count` calls.
   */
  function Check(table: Table, ip: string, now: int): (r: (Table, Verdict))
    ensures ip in r.0 && r.0 - {ip} == table - {ip}
    ensures r.1.reset == r.0[ip].start + WindowMs
    ensures r.1.success <==> !InWindow(table, ip, now) || table[ip].count < MaxRequests
    ensures r.1.success ==> r.1.remaining == MaxRequests - r.0[ip].count
    ensures !r.1.success ==> r.1.remaining == 0 && r.0 == table && r.1.reset >= now
    ensures !InWindow(table, ip, now) ==> r.0[ip] == Entry(1, now)
    ensures InWindow(table, ip, now) && r.1.success ==>
              r.0[ip] == Entry(table[ip].count + 1, table[ip].start)
    ensures WellFormed(table) ==> WellFormed(r.0) && 0 <= r.1.remaining < MaxRequests
  {
    if !InWindow(table, ip, now) then
      (table[ip := Entry(1, now)], Verdict(true, MaxRequests - 1, now + WindowMs))
    else
      var entry := table[ip];
      if entry.count < MaxRequests then
        var entry' := entry.(count := entry.count + 1);
        (table[ip := entry'], Verdict(true, MaxRequests - entry'.count, entry'.start + WindowMs))
      else
        (table, Verdict(false, 0, entry.start + WindowMs))
  }

  /** The in-process limiter: the module-level map from IP to entry. */
  class RateLimiter {
    var ipMap: Table

    ghost predicate Valid()
      reads this
    {
      WellFormed(ipMap)
    }

    constructor ()
      ensures Valid() && ipMap == map[]
    {
      ipMap := map[];
    }

    /** `rateLimit(ip)`, with the clock reading passed in as `now`. */
    method RateLimit(ip: string, now: int) returns (v: Verdict)
      requires Valid()
      modifies this
      ensures Valid()
      ensures (ipMap, v) == Check(old(ipMap), ip, now)
    {
      if ip !in ipMap || now - ipMap[ip].start > WindowMs {
        ipMap := ipMap[ip := Entry(1, now)];
        return Verdict(true, MaxRequests - 1, now + WindowMs);
      }
      var entry := ipMap[ip];
      if entry.count < MaxRequests {
        entry := entry.(count := entry.count + 1);
        ipMap := ipMap[ip := entry];
        return Verdict(true, MaxRequests - entry.count, entry.start + WindowMs);
      }
      return Verdict(false, 0, entry.start + WindowMs);
    }
  }

  /** One call of the limiter. */
  datatype Call = Call(ip: string, now: int)

  /** A sequence of calls, one after another: the final table and every verdict in order. */
  function Run(table: Table, calls: seq<Call>): (r: (Table, seq<Verdict>))
    ensures |r.1| == |calls|
    decreases |calls|
  {
    if calls == [] then (table, [])
    else
      var step := Check(table, calls[0].ip, calls[0].now);
      var rest := Run(step.0, calls[1..]);
      (rest.0, [step.1] + rest.1)
  }

  /** Over any run, stored counts stay in 1..5 and every `remaining` in 0..4. */
  lemma {:induction false} RunKeepsBounds(table: Table, calls: seq<Call>)
    requires WellFormed(table)
    ensures WellFormed(Run(table, calls).0)
    ensures forall k :: 0 <= k < |calls| ==> 0 <= Run(table, calls).1[k].remaining < MaxRequests
    decreases |calls|
  {
    if calls != [] {
      var step := Check(table, calls[0].ip, calls[0].now);
      RunKeepsBounds(step.0, calls[1..]);
      var r := Run(table, calls);
      assert r.1 == [step.1] + Run(step.0, calls[1..]).1;
      forall k | 0 <= k < |calls| ensures 0 <= r.1[k].remaining < MaxRequests {
        if k > 0 {
          assert r.1[k] == Run(step.0, calls[1..]).1[k - 1];
        }
      }
    }
  }

  /** Calls for other IPs never touch `ip`'s entry. */
  lemma {:induction false} RunLeavesOthers(table: Table, calls: seq<Call>, ip: string)
    requires forall k :: 0 <= k < |calls| ==> calls[k].ip != ip
    ensures ip in Run(table, calls).0 <==> ip in table
    ensures ip in table ==> Run(table, calls).0[ip] == table[ip]
    decreases |calls|
  {
    if calls != [] {
      var step := Check(table, calls[0].ip, calls[0].now);
      assert ip in step.0 <==> ip in table;
      assert ip in table ==> step.0[ip] == table[ip];
      RunLeavesOthers(step.0, calls[1..], ip);
    }
  }

  /** Every call is for `ip` and stays within the window that began at `start`. */
  predicate BurstWithin(calls: seq<Call>, ip: string, start: int) {
    forall k :: 0 <= k < |calls| ==> calls[k].ip == ip && calls[k].now - start <= WindowMs
  }

  /**
   * From an open window for `ip` holding `n` calls, a burst of further calls
   * inside the window: the k-th is allowed exactly when `n + k < 5`, an allowed
   * one leaves `5 - (n + k + 1)` calls, and every reset is the window's end.
   */
  lemma {:induction false} BurstInWindow(table: Table, ip: string, n: int, start: int, calls: seq<Call>)
    requires ip in table && table[ip] == Entry(n, start) && 1 <= n <= MaxRequests
    requires BurstWithin(calls, ip, start)
    ensures forall k :: 0 <= k < |calls| ==>
      && (Run(table, calls).1[k].success <==> n + k < MaxRequests)
      && (n + k < MaxRequests ==> Run(table, calls).1[k].remaining == MaxRequests - (n + k + 1))
      && Run(table, calls).1[k].reset == start + WindowMs
    decreases |calls|
  {
    if calls != [] {
      var step := Check(table, ip, calls[0].now);
      var n' := if n < MaxRequests then n + 1 else n;
      assert step.0[ip] == Entry(n', start);
      BurstInWindow(step.0, ip, n', start, calls[1..]);
      var r := Run(table, calls);
      assert r.1 == [step.1] + Run(step.0, calls[1..]).1;
      forall k | 0 <= k < |calls|
        ensures (r.1[k].success <==> n + k < MaxRequests)
        ensures n + k < MaxRequests ==> r.1[k].remaining == MaxRequests - (n + k + 1)
        ensures r.1[k].reset == start + WindowMs
      {
        if k > 0 {
          assert r.1[k] == Run(step.0, calls[1..]).1[k - 1];
        }
      }
    }
  }

  /**
   * Starting with no open window for `ip` (no entry, or an expired one), calls
   * whose timestamps stay within 60000 ms of the first: exactly the first five
   * are allowed, the sixth and later are denied.
   */
  lemma {:induction false} FiveAllowedThenDenied(table: Table, calls: seq<Call>)
    requires |calls| >= 1
    requires !InWindow(table, calls[0].ip, calls[0].now)
    requires BurstWithin(calls, calls[0].ip, calls[0].now)
    ensures forall k :: 0 <= k < |calls| ==> (Run(table, calls).1[k].success <==> k < MaxRequests)
    ensures forall k :: 0 <= k < |calls| ==> Run(table, calls).1[k].reset == calls[0].now + WindowMs
  {
    var ip, t0 := calls[0].ip, calls[0].now;
    var step := Check(table, ip, t0);
    assert step.0[ip] == Entry(1, t0);
    BurstInWindow(step.0, ip, 1, t0, calls[1..]);
    var r := Run(table, calls);
    assert r.1 == [step.1] + Run(step.0, calls[1..]).1;
    forall k | 0 <= k < |calls|
      ensures (r.1[k].success <==> k < MaxRequests) && r.1[k].reset == t0 + WindowMs
    {
      if k > 0 {
        assert r.1[k] == Run(step.0, calls[1..]).1[k - 1];
      }
    }
  }

  /** Running two batches of calls one after the other is running their concatenation. */
  lemma {:induction false} RunConcat(table: Table, a: seq<Call>, b: seq<Call>)
    ensures Run(table, a + b).0 == Run(Run(table, a).0, b).0
    ensures Run(table, a + b).1 == Run(table, a).1 + Run(Run(table, a).0, b).1
    decreases |a|
  {
    if a == [] {
      assert a + b == b;
    } else {
      assert (a + b)[0] == a[0] && (a + b)[1..] == a[1..] + b;
      var step := Check(table, a[0].ip, a[0].now);
      RunConcat(step.0, a[1..], b);
    }
  }

  /**
   * The window is fixed, not rolling: one call at time 0, four at 60000 ms and
   * five at 60001 ms are all allowed, so nine calls pass within 2 ms.
   */
  lemma NineAllowedAcrossBoundary(ip: string)
    ensures var calls := [Call(ip, 0)] + seq(4, _ => Call(ip, WindowMs)) + seq(5, _ => Call(ip, WindowMs + 1));
            forall k :: 0 <= k < |calls| ==> Run(map[], calls).1[k].success
  {
    var first := [Call(ip, 0)] + seq(4, _ => Call(ip, WindowMs));
    var second := seq(5, _ => Call(ip, WindowMs + 1));
    FiveAllowedThenDenied(map[], first);
    StartStays(Check(map[], ip, 0).0, ip, 1, 0, first[1..]);
    assert !InWindow(Run(map[], first).0, ip, WindowMs + 1);
    FiveAllowedThenDenied(Run(map[], first).0, second);
    RunConcat(map[], first, second);
    assert [Call(ip, 0)] + seq(4, _ => Call(ip, WindowMs)) + second == first + second;
  }

  /** A burst inside an open window never moves that window's start. */
  lemma {:induction false} StartStays(table: Table, ip: string, n: int, start: int, calls: seq<Call>)
    requires ip in table && table[ip] == Entry(n, start) && 1 <= n <= MaxRequests
    requires BurstWithin(calls, ip, start)
    ensures ip in Run(table, calls).0 && Run(table, calls).0[ip].start == start
    ensures 1 <= Run(table, calls).0[ip].count <= MaxRequests
    decreases |calls|
  {
    if calls != [] {
      var step := Check(table, ip, calls[0].now);
      var n' := if n < MaxRequests then n + 1 else n;
      assert step.0[ip] == Entry(n', start);
      StartStays(step.0, ip, n', start, calls[1..]);
    }
  }
}

/** The token-bucket rate limiter of the dashboard: one lazily refilled bucket per client and a
    periodic sweep of idle buckets. Times are seconds and, like tokens, real numbers. */
module RateLimiter {

  type Key = string

  /** Ten minutes. */
  const IDLE: real := 600.0

  function Min(x: real, y: real): real {
    if x <= y then x else y
  }

  // ---------------------------------------------------------------- specification

  datatype Params = Params(rate: real, capacity: real)

  /** What NewAuthenticator's two limiters satisfy: at least one request, and a bucket refills
      completely within the idle time. */
  ghost predicate Proper(p: Params) {
    p.capacity >= 1.0 && p.rate * 600.0 >= p.capacity
  }

  /** The login limiter and the control limiter of NewAuthenticator. */
  lemma InstancesAreProper()
    ensures Proper(Params(5.0, 10.0)) && Proper(Params(2.0, 5.0))
  {
  }

  datatype Bucket = Bucket(tokens: real, lastUpdate: real)

  datatype Limiter = Limiter(buckets: map<Key, Bucket>, lastCleanup: real)

  datatype Call = Call(key: Key, now: real)

  function WithoutIdle(s: Limiter, now: real): Limiter {
    Limiter(map k | k in s.buckets && !(now - s.buckets[k].lastUpdate > IDLE) :: s.buckets[k], now)
  }

  function Swept(s: Limiter, now: real): Limiter {
    if now - s.lastCleanup > IDLE then WithoutIdle(s, now) else s
  }

  function Earned(p: Params, elapsed: real): real {
    elapsed * p.rate
  }

  /** The tokens of a bucket after some elapsed time. */
  function Refill(p: Params, tokens: real, elapsed: real): real {
    Min(p.capacity, tokens + Earned(p, elapsed))
  }

  /** A call on a limiter that has already swept. */
  function Taken(p: Params, s: Limiter, c: Call): (Limiter, bool) {
    if c.key !in s.buckets then
      (s.(buckets := s.buckets[c.key := Bucket(p.capacity - 1.0, c.now)]), true)
    else
      var tokens := Refill(p, s.buckets[c.key].tokens, c.now - s.buckets[c.key].lastUpdate);
      var ok := tokens >= 1.0;
      (s.(buckets := s.buckets[c.key := Bucket(if ok then tokens - 1.0 else tokens, c.now)]), ok)
  }

  /** One call; a limiter with sweeps false never deletes a bucket. */
  function Step(p: Params, sweeps: bool, s: Limiter, c: Call): (Limiter, bool) {
    Taken(p, if sweeps then Swept(s, c.now) else s, c)
  }

  // ---------------------------------------------------------------- the code

  class TokenBucket {
    var tokens: real
    var lastUpdate: real

    constructor (tokens: real, lastUpdate: real)
      ensures this.tokens == tokens && this.lastUpdate == lastUpdate
    {
      this.tokens := tokens;
      this.lastUpdate := lastUpdate;
    }

    /** The part of Allow that refills and charges an existing bucket. */
    method Take(p: Params, now: real) returns (ok: bool)
      modifies this
      ensures lastUpdate == now
      ensures var refilled := Refill(p, old(tokens), now - old(lastUpdate));
        ok == (refilled >= 1.0) && tokens == if ok then refilled - 1.0 else refilled
    {
      var elapsed := now - lastUpdate;
      lastUpdate := now;
      tokens := Refill(p, tokens, elapsed);
      if tokens >= 1.0 {
        tokens := tokens - 1.0;
        return true;
      }
      return false;
    }
  }

  class RateLimiter {
    var buckets: map<Key, TokenBucket>
    const params: Params
    var lastCleanup: real

    /** No bucket is shared by two clients. */
    ghost predicate Valid()
      reads this
    {
      forall k, l :: k in buckets && l in buckets && k != l ==> buckets[k] != buckets[l]
    }

    ghost function View(): Limiter
      reads this, buckets.Values
    {
      Limiter(map k | k in buckets :: Bucket(buckets[k].tokens, buckets[k].lastUpdate), lastCleanup)
    }

    constructor (requestsPerSecond: real, burstCapacity: real, now: real)
      ensures Valid() && fresh(buckets.Values)
      ensures params == Params(requestsPerSecond, burstCapacity)
      ensures View() == Limiter(map[], now)
    {
      buckets := map[];
      params := Params(requestsPerSecond, burstCapacity);
      lastCleanup := now;
    }

    /** The loop that deletes the buckets idle for more than ten minutes. */
    method Cleanup(now: real)
      requires Valid()
      modifies this
      ensures Valid() && buckets.Values <= old(buckets.Values)
      ensures View() == WithoutIdle(old(View()), now)
    {
      var keys := buckets.Keys;
      while keys != {}
        invariant keys <= buckets.Keys <= old(buckets).Keys
        invariant lastCleanup == old(lastCleanup)
        invariant forall k :: k in buckets ==> buckets[k] == old(buckets)[k]
        invariant forall k :: k in old(buckets) && k !in keys ==>
          (k in buckets <==> !(now - old(buckets)[k].lastUpdate > IDLE))
      {
        var key :| key in keys;
        keys := keys - {key};
        if now - buckets[key].lastUpdate > IDLE {
          buckets := buckets - {key};
        }
      }
      lastCleanup := now;
    }

    method Allow(clientKey: Key, now: real) returns (ok: bool)
      requires Valid()
      modifies this, buckets.Values
      ensures Valid() && fresh(buckets.Values - old(buckets.Values))
      ensures (View(), ok) == Step(params, true, old(View()), Call(clientKey, now))
    {
      hide Refill;
      if now - lastCleanup > IDLE {
        Cleanup(now);
      }
      ok := Charge(clientKey, now);
    }

    /** The part of Allow after the sweep. */
    method Charge(clientKey: Key, now: real) returns (ok: bool)
      requires Valid()
      modifies `buckets, buckets.Values
      ensures Valid() && fresh(buckets.Values - old(buckets.Values))
      ensures (View(), ok) == Taken(params, old(View()), Call(clientKey, now))
    {
      hide Refill;
      ghost var before := View().buckets;
      if clientKey !in buckets {
        var bucket := new TokenBucket(params.capacity - 1.0, now);
        buckets := buckets[clientKey := bucket];
        assert View().buckets == before[clientKey := Bucket(bucket.tokens, now)];
        return true;
      }
      var bucket := buckets[clientKey];
      ok := bucket.Take(params, now);
      assert View().buckets == before[clientKey := Bucket(bucket.tokens, now)];
    }
  }

  // ---------------------------------------------------------------- histories

  /** The limiter and the answers after a history of calls. */
  ghost function Run(p: Params, sweeps: bool, start: real, calls: seq<Call>): (r: (Limiter, seq<bool>))
    ensures |r.1| == |calls|
  {
    if calls == [] then
      (Limiter(map[], start), [])
    else
      var n := |calls| - 1;
      var (s, answers) := Run(p, sweeps, start, calls[..n]);
      var (s', ok) := Step(p, sweeps, s, calls[n]);
      (s', answers + [ok])
  }

  /** The clock never goes back. */
  ghost predicate Ordered(start: real, calls: seq<Call>) {
    && (forall i :: 0 <= i < |calls| ==> start <= calls[i].now)
    && (forall i, j :: 0 <= i <= j < |calls| ==> calls[i].now <= calls[j].now)
  }

  /** The times of the admitted calls of one client. */
  ghost function Admitted(key: Key, calls: seq<Call>, answers: seq<bool>): seq<real>
    requires |answers| == |calls|
  {
    if calls == [] then
      []
    else
      var n := |calls| - 1;
      Admitted(key, calls[..n], answers[..n]) + if calls[n].key == key && answers[n] then [calls[n].now] else []
  }

  /** One more call now keeps every window that starts at an admitted call within its bound. */
  ghost predicate Fits(p: Params, admitted: seq<real>, now: real) {
    forall i :: 0 <= i < |admitted| ==>
      (|admitted| - i + 1) as real <= p.capacity + (now - admitted[i]) * p.rate
  }

  // ---------------------------------------------------------------- the level of a bucket

  /** The tokens a client has left when all that happened is that these calls were admitted. */
  ghost function Budget(p: Params, admitted: seq<real>, now: real): real {
    if admitted == [] then
      p.capacity
    else
      var n := |admitted| - 1;
      Refill(p, Budget(p, admitted[..n], admitted[n]) - 1.0, now - admitted[n])
  }

  ghost predicate Sorted(times: seq<real>) {
    forall i, j :: 0 <= i <= j < |times| ==> times[i] <= times[j]
  }

  lemma EarnedMore(p: Params, x: real, y: real)
    requires x <= y && p.rate >= 0.0
    ensures Earned(p, x) <= Earned(p, y)
  {
  }

  lemma EarnedSum(p: Params, x: real, y: real)
    ensures Earned(p, x + y) == Earned(p, x) + Earned(p, y)
    ensures Earned(p, 0.0) == 0.0
  {
  }

  lemma {:induction false} BudgetMeaning(p: Params, admitted: seq<real>, now: real, x: real)
    ensures x <= Budget(p, admitted, now) <==>
      && x <= p.capacity
      && forall i :: 0 <= i < |admitted| ==>
           x + (|admitted| - i) as real <= p.capacity + Earned(p, now - admitted[i])
  {
    hide Earned;
    if admitted != [] {
      var n := |admitted| - 1;
      var rest, last := admitted[..n], admitted[n];
      var y := x + 1.0 - Earned(p, now - last);
      BudgetMeaning(p, rest, last, y);
      forall i | 0 <= i < n
        ensures y + (n - i) as real <= p.capacity + Earned(p, last - rest[i])
           <==> x + (n + 1 - i) as real <= p.capacity + Earned(p, now - admitted[i])
      {
        EarnedSum(p, last - rest[i], now - last);
        assert now - admitted[i] == (last - rest[i]) + (now - last);
      }
    }
  }

  lemma FitsIsBudget(p: Params, admitted: seq<real>, now: real)
    requires p.capacity >= 1.0
    ensures Fits(p, admitted, now) <==> Budget(p, admitted, now) >= 1.0
  {
    BudgetMeaning(p, admitted, now, 1.0);
  }

  /** The stored bucket, or its absence, stands for the budget of the client from now on. */
  ghost predicate Tracks(p: Params, s: Limiter, key: Key, admitted: seq<real>, now: real) {
    if key in s.buckets then
      var b := s.buckets[key];
      && b.lastUpdate <= now
      && 0.0 <= b.tokens
      && forall t :: b.lastUpdate <= t ==> Budget(p, admitted, t) == Refill(p, b.tokens, t - b.lastUpdate)
    else
      forall t :: now <= t ==> Budget(p, admitted, t) == p.capacity
  }

  lemma SweepTracks(p: Params, s: Limiter, key: Key, admitted: seq<real>, now: real)
    requires Proper(p) && Tracks(p, s, key, admitted, now)
    ensures Tracks(p, Swept(s, now), key, admitted, now)
  {
    if key in s.buckets && key !in Swept(s, now).buckets {
      var b := s.buckets[key];
      forall t | now <= t
        ensures Budget(p, admitted, t) == p.capacity
      {
        EarnedMore(p, IDLE, t - b.lastUpdate);
      }
    }
  }

  lemma RefillTwice(p: Params, tokens: real, first: real, second: real)
    requires p.rate >= 0.0 && first >= 0.0 && second >= 0.0
    ensures Refill(p, Refill(p, tokens, first), second) == Refill(p, tokens, first + second)
    ensures tokens >= 0.0 && p.capacity >= 0.0 ==> Refill(p, tokens, first) >= 0.0
  {
    hide Earned;
    EarnedSum(p, first, second);
    EarnedMore(p, 0.0, first);
    EarnedMore(p, 0.0, second);
  }

  lemma TakenTracks(p: Params, s: Limiter, c: Call, key: Key, admitted: seq<real>)
    requires Proper(p) && Tracks(p, s, key, admitted, c.now)
    ensures var (s', ok) := Taken(p, s, c);
      && (key == c.key ==> ok == (Budget(p, admitted, c.now) >= 1.0))
      && Tracks(p, s', key, if key == c.key && ok then admitted + [c.now] else admitted, c.now)
  {
    var (s', ok) := Taken(p, s, c);
    if key == c.key {
      var after := if ok then admitted + [c.now] else admitted;
      assert ok ==> after[..|admitted|] == admitted;
      if key in s.buckets {
        var b := s.buckets[key];
        RefillTwice(p, b.tokens, c.now - b.lastUpdate, 0.0);
        if !ok {
          forall t | c.now <= t
            ensures Budget(p, after, t) == Refill(p, s'.buckets[key].tokens, t - c.now)
          {
            RefillTwice(p, b.tokens, c.now - b.lastUpdate, t - c.now);
          }
        }
      }
    }
  }

  lemma {:induction false} RunTracks(p: Params, sweeps: bool, start: real, calls: seq<Call>, key: Key, now: real)
    requires Proper(p) && Ordered(start, calls)
    requires forall i :: 0 <= i < |calls| ==> calls[i].now <= now
    ensures var (s, answers) := Run(p, sweeps, start, calls);
      Tracks(p, s, key, Admitted(key, calls, answers), now)
  {
    if calls != [] {
      var n := |calls| - 1;
      var (s, answers) := Run(p, sweeps, start, calls[..n]);
      var c, admitted := calls[n], Admitted(key, calls[..n], answers);
      RunTracks(p, sweeps, start, calls[..n], key, c.now);
      SweepTracks(p, s, key, admitted, c.now);
      TakenTracks(p, if sweeps then Swept(s, c.now) else s, c, key, admitted);
      assert Run(p, sweeps, start, calls).1[..n] == answers;
      assert admitted + [] == admitted;
    }
  }

  // ---------------------------------------------------------------- main results

  /** The exact rule: after any history a call is admitted if and only if, counting it, every
      window from an earlier admitted call of the same client holds at most capacity + rate * length. */
  lemma AdmissionRule(p: Params, sweeps: bool, start: real, calls: seq<Call>, c: Call)
    requires Proper(p) && Ordered(start, calls + [c])
    ensures var (s, answers) := Run(p, sweeps, start, calls);
      Step(p, sweeps, s, c).1 <==> Fits(p, Admitted(c.key, calls, answers), c.now)
  {
    var (s, answers) := Run(p, sweeps, start, calls);
    var admitted := Admitted(c.key, calls, answers);
    forall i, j | 0 <= i <= j < |calls|
      ensures start <= calls[i].now <= calls[j].now <= c.now
    {
      assert (calls + [c])[i] == calls[i] && (calls + [c])[j] == calls[j] && (calls + [c])[|calls|] == c;
    }
    RunTracks(p, sweeps, start, calls, c.key, c.now);
    SweepTracks(p, s, c.key, admitted, c.now);
    TakenTracks(p, if sweeps then Swept(s, c.now) else s, c, c.key, admitted);
    FitsIsBudget(p, admitted, c.now);
  }

  /** The sweep is invisible: the answers are those of a limiter that never deletes a bucket. */
  lemma {:induction false} SweepIsInvisible(p: Params, start: real, calls: seq<Call>)
    requires Proper(p) && Ordered(start, calls)
    ensures Run(p, true, start, calls).1 == Run(p, false, start, calls).1
  {
    if calls != [] {
      var n := |calls| - 1;
      SweepIsInvisible(p, start, calls[..n]);
      assert calls[..n] + [calls[n]] == calls;
      AdmissionRule(p, true, start, calls[..n], calls[n]);
      AdmissionRule(p, false, start, calls[..n], calls[n]);
    }
  }

  /** When the last sweep is more than ten minutes ago, a call leaves exactly the buckets used within
      ten minutes beside that of its own client; otherwise it leaves all. */
  lemma SweptExactly(p: Params, s: Limiter, c: Call)
    ensures var s' := Step(p, true, s, c).0;
      && (c.now - s.lastCleanup > 600.0 ==>
            && s'.lastCleanup == c.now
            && forall k :: k in s'.buckets <==>
                 k == c.key || (k in s.buckets && c.now - s.buckets[k].lastUpdate <= 600.0))
      && (c.now - s.lastCleanup <= 600.0 ==>
            && s'.lastCleanup == s.lastCleanup
            && forall k :: k in s'.buckets <==> k == c.key || k in s.buckets)
      && forall k :: k in s'.buckets && k != c.key ==> s'.buckets[k] == s.buckets[k]
  {
  }

  /** The times of the calls of one client, and the answers it got. */
  ghost function Own(key: Key, calls: seq<Call>): seq<real> {
    if calls == [] then
      []
    else
      var n := |calls| - 1;
      Own(key, calls[..n]) + if calls[n].key == key then [calls[n].now] else []
  }

  ghost function OwnAnswers(key: Key, calls: seq<Call>, answers: seq<bool>): seq<bool>
    requires |answers| == |calls|
  {
    if calls == [] then
      []
    else
      var n := |calls| - 1;
      OwnAnswers(key, calls[..n], answers[..n]) + if calls[n].key == key then [answers[n]] else []
  }

  /** The rule on its own: the admitted times and the answers of a lone client. */
  ghost function Alone(p: Params, times: seq<real>): (seq<real>, seq<bool>) {
    if times == [] then
      ([], [])
    else
      var n := |times| - 1;
      var (admitted, answers) := Alone(p, times[..n]);
      var ok := Fits(p, admitted, times[n]);
      (if ok then admitted + [times[n]] else admitted, answers + [ok])
  }

  lemma AloneSnoc(p: Params, times: seq<real>, t: real)
    ensures var (admitted, answers) := Alone(p, times);
      var ok := Fits(p, admitted, t);
      Alone(p, times + [t]) == (if ok then admitted + [t] else admitted, answers + [ok])
  {
    assert (times + [t])[..|times|] == times;
  }

  /** The answers of a client depend only on the times of its own calls. */
  lemma {:induction false} ClientsAreIndependent(p: Params, start: real, calls: seq<Call>, key: Key)
    requires Proper(p) && Ordered(start, calls)
    ensures var answers := Run(p, true, start, calls).1;
      Alone(p, Own(key, calls)) == (Admitted(key, calls, answers), OwnAnswers(key, calls, answers))
  {
    hide Fits, Step;
    if calls != [] {
      var n := |calls| - 1;
      var c, answers := calls[n], Run(p, true, start, calls).1;
      ClientsAreIndependent(p, start, calls[..n], key);
      assert answers[..n] == Run(p, true, start, calls[..n]).1;
      assert calls[..n] + [c] == calls;
      AdmissionRule(p, true, start, calls[..n], c);
      var own := Own(key, calls[..n]);
      if c.key == key {
        AloneSnoc(p, own, c.now);
      }
      var admitted, got := Admitted(key, calls[..n], answers[..n]), OwnAnswers(key, calls[..n], answers[..n]);
      assert own + [] == own && admitted + [] == admitted && got + [] == got;
    }
  }

  /** How many of the times lie in a closed window. */
  ghost function CountIn(times: seq<real>, t1: real, t2: real): nat {
    if times == [] then
      0
    else
      var n := |times| - 1;
      CountIn(times[..n], t1, t2) + if t1 <= times[n] <= t2 then 1 else 0
  }

  /** No window between two of the times holds more than capacity + rate * length of them. */
  ghost predicate Spaced(p: Params, times: seq<real>) {
    forall i, j :: 0 <= i <= j < |times| ==>
      (j - i + 1) as real <= p.capacity + Earned(p, times[j] - times[i])
  }

  ghost predicate Until(times: seq<real>, now: real) {
    forall i :: 0 <= i < |times| ==> times[i] <= now
  }

  lemma {:induction false} AloneIsSpaced(p: Params, times: seq<real>, now: real)
    requires Proper(p) && Sorted(times) && Until(times, now)
    ensures var admitted := Alone(p, times).0;
      Spaced(p, admitted) && Sorted(admitted) && Until(admitted, now)
  {
    hide Earned, Fits;
    EarnedSum(p, 0.0, 0.0);
    if times != [] {
      var n := |times| - 1;
      AloneIsSpaced(p, times[..n], times[n]);
      FitsIsEarned(p, Alone(p, times[..n]).0, times[n]);
    }
  }

  lemma FitsIsEarned(p: Params, admitted: seq<real>, now: real)
    ensures Fits(p, admitted, now) ==>
      forall i :: 0 <= i < |admitted| ==>
        (|admitted| - i + 1) as real <= p.capacity + Earned(p, now - admitted[i])
  {
  }

  /** Of sorted times that end before t2, those from t1 on are a suffix. */
  lemma {:induction false} CountSuffix(times: seq<real>, t1: real, t2: real) returns (i: nat)
    requires Sorted(times) && Until(times, t2)
    ensures i <= |times| && CountIn(times, t1, t2) == |times| - i
    ensures i < |times| ==> t1 <= times[i]
  {
    i := 0;
    if times != [] {
      var n := |times| - 1;
      i := CountSuffix(times[..n], t1, t2);
      if times[n] < t1 {
        i := n + 1;
      }
    }
  }

  lemma {:induction false} SpacedBound(p: Params, times: seq<real>, t1: real, t2: real)
    requires Proper(p) && Sorted(times) && Spaced(p, times) && t1 <= t2
    ensures CountIn(times, t1, t2) as real <= p.capacity + Earned(p, t2 - t1)
  {
    hide Earned;
    EarnedSum(p, 0.0, 0.0);
    EarnedMore(p, 0.0, t2 - t1);
    if times != [] {
      var n := |times| - 1;
      if times[n] > t2 {
        SpacedBound(p, times[..n], t1, t2);
      } else {
        var i := CountSuffix(times, t1, t2);
        if i <= n {
          EarnedMore(p, times[n] - times[i], t2 - t1);
        }
      }
    }
  }

  lemma {:induction false} OwnIsSorted(start: real, calls: seq<Call>, key: Key, now: real)
    requires Ordered(start, calls) && forall i :: 0 <= i < |calls| ==> calls[i].now <= now
    ensures Sorted(Own(key, calls)) && Until(Own(key, calls), now)
  {
    if calls != [] {
      var n := |calls| - 1;
      OwnIsSorted(start, calls[..n], key, calls[n].now);
    }
  }

  /** In every history, across any number of sweeps, the calls of a client admitted in [t1, t2]
      number at most capacity + rate * (t2 - t1). */
  lemma WindowBound(p: Params, start: real, calls: seq<Call>, key: Key, t1: real, t2: real)
    requires Proper(p) && Ordered(start, calls) && t1 <= t2
    ensures CountIn(Admitted(key, calls, Run(p, true, start, calls).1), t1, t2) as real
      <= p.capacity + (t2 - t1) * p.rate
  {
    hide Run, Alone, Admitted, Own, CountIn, Step, Fits, Spaced;
    var now := if calls == [] then start else calls[|calls| - 1].now;
    ClientsAreIndependent(p, start, calls, key);
    OwnIsSorted(start, calls, key, now);
    AloneIsSpaced(p, Own(key, calls), now);
    SpacedBound(p, Alone(p, Own(key, calls)).0, t1, t2);
  }
}

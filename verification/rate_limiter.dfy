/** The per-address sliding-window rate limiter in front of the API: each
    address may make at most 20 requests in any 60 seconds.  The limiter's
    memory is an explicit map from address to the times of its admitted
    requests, and the clock reading is a parameter. */
module RateLimiter {
  /** The window, in seconds. */
  const WindowSeconds: int := 60

  /** The most requests admitted within one window. */
  const MaxRequests: nat := 20

  /** The times of each address's admitted requests, oldest first. */
  type Requests = map<string, seq<int>>

  /** The outcome for one address's log. */
  datatype Verdict = Verdict(allowed: bool, log: seq<int>)

  /** The outcome for the whole limiter. */
  datatype Decision = Decision(allowed: bool, requests: Requests)

  /** The times in `ts` that are still inside the window ending at `now`,
      in their original order. */
  function Recent(ts: seq<int>, now: int): (r: seq<int>)
    ensures forall t :: t in r <==> t in ts && now - t < WindowSeconds
    ensures forall t :: multiset(r)[t] == if now - t < WindowSeconds then multiset(ts)[t] else 0
    ensures |r| <= |ts|
  {
    if |ts| == 0 then []
    else
      var init, t := ts[..|ts| - 1], ts[|ts| - 1];
      assert ts == init + [t];
      Recent(init, now) + (if now - t < WindowSeconds then [t] else [])
  }

  /** One address's log after a request at `now`: old times are dropped,
      and the request is recorded only when it is admitted. */
  function Admit(ts: seq<int>, now: int): (v: Verdict)
    ensures v.allowed <==> |Recent(ts, now)| < MaxRequests
    ensures forall t :: t in v.log <==> (t in ts && now - t < WindowSeconds) || (v.allowed && t == now)
    ensures v.log == if v.allowed then Recent(ts, now) + [now] else Recent(ts, now)
    ensures |ts| <= MaxRequests ==> |v.log| <= MaxRequests
  {
    var r := Recent(ts, now);
    if |r| >= MaxRequests then Verdict(false, r) else Verdict(true, r + [now])
  }

  /** The log of an address the limiter has not seen is empty. */
  function Prior(requests: Requests, ip: string): seq<int> {
    if ip in requests then requests[ip] else []
  }

  /** A request from `ip` at `now`: only that address's log changes. */
  function CheckRateLimit(requests: Requests, ip: string, now: int): (d: Decision)
    ensures d.requests.Keys == requests.Keys + {ip}
    ensures forall k :: k in requests && k != ip ==> d.requests[k] == requests[k]
    ensures d.allowed <==> |Recent(Prior(requests, ip), now)| < MaxRequests
    ensures d.requests[ip] == Admit(Prior(requests, ip), now).log
  {
    var v := Admit(Prior(requests, ip), now);
    Decision(v.allowed, requests[ip := v.log])
  }

  // ------------------------------------------------------------ invariants

  /** No log holds more than the limit. */
  predicate WithinLimit(requests: Requests) {
    forall k :: k in requests ==> |requests[k]| <= MaxRequests
  }

  predicate Sorted(ts: seq<int>) {
    forall i, j :: 0 <= i < j < |ts| ==> ts[i] <= ts[j]
  }

  /** Every log is oldest-first and no later than `now`. */
  predicate Ordered(requests: Requests, now: int) {
    forall k :: k in requests ==> Sorted(requests[k]) && forall t :: t in requests[k] ==> t <= now
  }

  /** No log ever holds more than the limit. */
  lemma CheckKeepsWithinLimit(requests: Requests, ip: string, now: int)
    requires WithinLimit(requests)
    ensures WithinLimit(CheckRateLimit(requests, ip, now).requests)
  {
  }

  lemma {:induction false} RecentSorted(ts: seq<int>, now: int)
    requires Sorted(ts)
    ensures Sorted(Recent(ts, now))
    decreases |ts|
  {
    if |ts| > 0 {
      var init := ts[..|ts| - 1];
      assert Sorted(init);
      RecentSorted(init, now);
      var r := Recent(init, now);
      var last := ts[|ts| - 1];
      forall i | 0 <= i < |r| ensures r[i] <= last {
        assert r[i] in init;
        var j :| 0 <= j < |init| && init[j] == r[i];
        assert ts[j] == init[j];
      }
      var tail := if now - last < WindowSeconds then [last] else [];
      assert Recent(ts, now) == r + tail;
      forall i, j | 0 <= i < j < |r + tail| ensures (r + tail)[i] <= (r + tail)[j] {
        if j < |r| {
          assert (r + tail)[i] == r[i] && (r + tail)[j] == r[j];
        } else {
          assert (r + tail)[i] == r[i] && (r + tail)[j] == last;
        }
      }
    }
  }

  /** With a clock that does not run backwards, logs stay oldest-first. */
  lemma CheckKeepsOrder(requests: Requests, ip: string, now: int, later: int)
    requires Ordered(requests, now) && now <= later
    ensures Ordered(CheckRateLimit(requests, ip, later).requests, later)
  {
    var ts := Prior(requests, ip);
    RecentSorted(ts, later);
    var r := Recent(ts, later);
    assert Sorted(r + [later]) by {
      forall i | 0 <= i < |r| ensures r[i] <= later {
        assert r[i] in ts;
      }
    }
  }

  /** A request with the window full is refused and leaves nothing behind. */
  lemma FullWindowRefuses(requests: Requests, ip: string, now: int)
    requires |Recent(Prior(requests, ip), now)| >= MaxRequests
    ensures var d := CheckRateLimit(requests, ip, now);
      !d.allowed && d.requests[ip] == Recent(Prior(requests, ip), now)
  {
  }

  // ------------------------------------------------------- the guarantee

  /** Filtering by a window and then by a later one is filtering by the
      later one. */
  lemma {:induction false} RecentTwice(ts: seq<int>, earlier: int, now: int)
    requires earlier <= now
    ensures Recent(Recent(ts, earlier), now) == Recent(ts, now)
    decreases |ts|
  {
    if |ts| > 0 {
      var init := ts[..|ts| - 1];
      var t := ts[|ts| - 1];
      RecentTwice(init, earlier, now);
      RecentAppend(Recent(init, earlier), if earlier - t < WindowSeconds then [t] else [], now);
    }
  }

  lemma {:induction false} RecentAppend(a: seq<int>, b: seq<int>, now: int)
    ensures Recent(a + b, now) == Recent(a, now) + Recent(b, now)
    decreases |b|
  {
    if |b| == 0 {
      assert a + b == a;
    } else {
      var t := b[|b| - 1];
      assert (a + b)[..|a + b| - 1] == a + b[..|b| - 1];
      RecentAppend(a, b[..|b| - 1], now);
    }
  }

  /** One address's history: its log and the decisions, one per request. */
  datatype History = History(log: seq<int>, decisions: seq<bool>)

  /** The requests of one address at the given times, from an empty log. */
  function Replay(times: seq<int>): (h: History)
    ensures |h.decisions| == |times|
  {
    if |times| == 0 then History([], [])
    else
      var h := Replay(times[..|times| - 1]);
      var v := Admit(h.log, times[|times| - 1]);
      History(v.log, h.decisions + [v.allowed])
  }

  /** The times of the admitted requests. */
  function Granted(times: seq<int>, decisions: seq<bool>): (g: seq<int>)
    requires |decisions| == |times|
    ensures |g| <= |times|
  {
    if |times| == 0 then []
    else
      Granted(times[..|times| - 1], decisions[..|decisions| - 1]) +
      (if decisions[|decisions| - 1] then [times[|times| - 1]] else [])
  }

  /** With a clock that does not run backwards, an address's log is
      exactly the admitted requests of the last window, and there are never
      more than the limit of those. */
  lemma {:induction false} ReplayLog(times: seq<int>)
    requires Sorted(times) && |times| > 0
    ensures var h := Replay(times);
      h.log == Recent(Granted(times, h.decisions), times[|times| - 1])
    ensures |Replay(times).log| <= MaxRequests
    decreases |times|
  {
    var init := times[..|times| - 1];
    var now := times[|times| - 1];
    var h := Replay(init);
    var g := Granted(init, h.decisions);
    var v := Admit(h.log, now);
    assert Replay(times).decisions[..|times| - 1] == h.decisions;
    if |init| == 0 {
      assert h.log == [] && g == [];
    } else {
      assert Sorted(init);
      ReplayLog(init);
      RecentTwice(g, init[|init| - 1], now);
    }
    assert Recent(h.log, now) == Recent(g, now);
    AdmitStep(g, h.log, now);
  }

  /** A log that agrees with the admitted times on the current window
      becomes, after one more request, exactly the window of the admitted
      times including that request when it is admitted. */
  lemma AdmitStep(g: seq<int>, log: seq<int>, now: int)
    requires Recent(log, now) == Recent(g, now)
    ensures var v := Admit(log, now);
      v.log == Recent(g + (if v.allowed then [now] else []), now)
  {
    if Admit(log, now).allowed {
      RecentAppend(g, [now], now);
    } else {
      RecentAppend(g, [], now);
      assert g + [] == g;
    }
  }

  /** Decisions are never revised: replaying a prefix of the requests
      yields a prefix of the decisions. */
  lemma {:induction false} ReplayPrefix(times: seq<int>, k: nat)
    requires k <= |times|
    ensures Replay(times[..k]).decisions == Replay(times).decisions[..k]
    decreases |times|
  {
    if k < |times| {
      var init := times[..|times| - 1];
      assert times[..k] == init[..k];
      ReplayPrefix(init, k);
    } else {
      assert times[..k] == times;
    }
  }

  /** The sliding-window guarantee: for every request of an address, at
      most 20 of its admitted requests fall within the 60 seconds ending at
      that request. */
  lemma WindowGuarantee(times: seq<int>, j: nat)
    requires Sorted(times) && j < |times|
    ensures var ds := Replay(times).decisions;
      |Recent(Granted(times[..j + 1], ds[..j + 1]), times[j])| <= MaxRequests
  {
    var prefix := times[..j + 1];
    assert Sorted(prefix);
    assert prefix[|prefix| - 1] == times[j];
    ReplayPrefix(times, j + 1);
    WindowAtLast(prefix);
  }

  /** The guarantee at the latest request. */
  lemma WindowAtLast(times: seq<int>)
    requires Sorted(times) && |times| > 0
    ensures |Recent(Granted(times, Replay(times).decisions), times[|times| - 1])| <= MaxRequests
  {
    ReplayLog(times);
  }
}

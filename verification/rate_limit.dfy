/** The sliding-window limiter of ResultManagement/decorators.py
    (`rate_limit`). Each client key keeps the times of its recent accepted
    requests; a request is refused when `maxRequests` of them are younger
    than the window. Time is a parameter (the source reads the clock). */
module RateLimit {
  import opened Wrappers

  /** The request headers the limiter reads. */
  datatype Meta = Meta(forwardedFor: Option<string>, remoteAddr: Option<string>)

  /** The per-client request times, by client key. */
  type Store = map<string, seq<int>>

  datatype Response = Allowed | TooMany

  /** The client key: the forwarded-for header whenever it is present (even
      empty), else the remote address, else the empty string. */
  function ClientKey(m: Meta): (k: string)
    ensures m.forwardedFor.Some? ==> k == m.forwardedFor.value
    ensures m.forwardedFor.None? && m.remoteAddr.Some? ==> k == m.remoteAddr.value
    ensures m.forwardedFor.None? && m.remoteAddr.None? ==> k == ""
  {
    m.forwardedFor.GetOr(m.remoteAddr.GetOr(""))
  }

  /** Whether a request at `t` still counts at time `now`. */
  predicate Recent(t: int, now: int, window: int) {
    now - t < window
  }

  /** The times still inside the window at `now`, in their order. */
  function Prune(ts: seq<int>, now: int, window: int): (r: seq<int>)
    ensures |r| <= |ts|
    decreases |ts|
  {
    if ts == [] then []
    else
      var last := ts[|ts| - 1];
      Prune(ts[..|ts| - 1], now, window) + (if Recent(last, now, window) then [last] else [])
  }

  /** Pruning keeps exactly the recent times. */
  lemma {:induction false} PruneKeepsRecent(ts: seq<int>, now: int, window: int)
    ensures forall t :: t in Prune(ts, now, window) <==> t in ts && Recent(t, now, window)
    decreases |ts|
  {
    if ts != [] {
      var init, last := ts[..|ts| - 1], ts[|ts| - 1];
      PruneKeepsRecent(init, now, window);
      assert ts == init + [last];
    }
  }

  /** One client's list before a request, to its list after and whether the
      request was let through. */
  function Step(ts: seq<int>, now: int, maxRequests: int, window: int): (r: (seq<int>, Response))
    ensures r.1 == TooMany <==> |Prune(ts, now, window)| >= maxRequests
    ensures r.1 == TooMany ==> r.0 == Prune(ts, now, window)
    ensures r.1 == Allowed ==> r.0 == Prune(ts, now, window) + [now] && |r.0| <= maxRequests
  {
    var pruned := Prune(ts, now, window);
    if |pruned| >= maxRequests then (pruned, TooMany) else (pruned + [now], Allowed)
  }

  /** One request through the limiter: the client's list is pruned and
      stored back even when the request is refused; an accepted request
      then appends `now`. */
  function Limit(store: Store, m: Meta, now: int, maxRequests: int, window: int): (r: (Store, Response))
    ensures var key := ClientKey(m);
            var before := if key in store then store[key] else [];
            && key in r.0
            && (r.1 == TooMany <==> |Prune(before, now, window)| >= maxRequests)
            && (r.1 == TooMany ==> r.0[key] == Prune(before, now, window))
            && (r.1 == Allowed ==> r.0[key] == Prune(before, now, window) + [now])
    ensures forall k :: k != ClientKey(m) ==> (k in r.0 <==> k in store) && (k in store ==> r.0[k] == store[k])
  {
    var key := ClientKey(m);
    var (ts, response) := Step(if key in store then store[key] else [], now, maxRequests, window);
    (store[key := ts], response)
  }

  /** No client ever holds more than `maxRequests` times. */
  ghost predicate Bounded(store: Store, maxRequests: int) {
    forall k :: k in store ==> |store[k]| <= maxRequests
  }

  /** The limiter keeps every list within `maxRequests`. */
  lemma LimitKeepsBound(store: Store, m: Meta, now: int, maxRequests: int, window: int)
    requires maxRequests >= 0 && Bounded(store, maxRequests)
    ensures Bounded(Limit(store, m, now, maxRequests, window).0, maxRequests)
  {
    var key := ClientKey(m);
    var before := if key in store then store[key] else [];
    assert |Prune(before, now, window)| <= |before| <= maxRequests;
  }

  /** Requests in order of time. */
  predicate Nondecreasing(times: seq<int>) {
    forall i, j :: 0 <= i < j < |times| ==> times[i] <= times[j]
  }

  /** One client's list after requests at `times`, starting from none. */
  function Replay(times: seq<int>, maxRequests: int, window: int): (r: seq<int>)
    ensures maxRequests >= 0 ==> |r| <= maxRequests
    decreases |times|
  {
    if times == [] then []
    else Step(Replay(times[..|times| - 1], maxRequests, window), times[|times| - 1], maxRequests, window).0
  }

  /** The times, among `times`, of the requests the limiter let through. */
  function AcceptedOf(times: seq<int>, maxRequests: int, window: int): (r: seq<int>)
    ensures |r| <= |times|
    ensures forall t :: t in r ==> t in times
    decreases |times|
  {
    if times == [] then []
    else
      var init := times[..|times| - 1];
      var now := times[|times| - 1];
      var acc := AcceptedOf(init, maxRequests, window);
      if Step(Replay(init, maxRequests, window), now, maxRequests, window).1 == Allowed then acc + [now] else acc
  }

  /** Pruning at an earlier time, then at a later one, is pruning at the
      later one. */
  lemma {:induction false} PruneTwice(ts: seq<int>, earlier: int, later: int, window: int)
    requires earlier <= later
    ensures Prune(Prune(ts, earlier, window), later, window) == Prune(ts, later, window)
    decreases |ts|
  {
    if ts != [] {
      var init, last := ts[..|ts| - 1], ts[|ts| - 1];
      PruneTwice(init, earlier, later, window);
      var p := Prune(init, earlier, window);
      if Recent(last, earlier, window) {
        assert Prune(ts, earlier, window) == p + [last];
        assert (p + [last])[..|p|] == p;
      } else {
        assert Prune(ts, earlier, window) == p;
      }
    }
  }

  /** A request at `now` is inside the window at `now` when the window is
      positive. */
  lemma PruneSnoc(ts: seq<int>, now: int, window: int)
    requires window > 0
    ensures Prune(ts + [now], now, window) == Prune(ts, now, window) + [now]
  {
    assert (ts + [now])[..|ts|] == ts;
  }

  /** What the store holds is exactly the accepted requests still inside
      the window at the latest request. */
  lemma {:induction false} ReplayIsWindowOfAccepted(times: seq<int>, maxRequests: int, window: int)
    requires window > 0 && |times| > 0 && Nondecreasing(times)
    ensures Replay(times, maxRequests, window)
            == Prune(AcceptedOf(times, maxRequests, window), times[|times| - 1], window)
    decreases |times|
  {
    var init, now := times[..|times| - 1], times[|times| - 1];
    var acc := AcceptedOf(init, maxRequests, window);
    if init == [] {
      assert Replay(init, maxRequests, window) == [] && acc == [];
      PruneSnoc([], now, window);
    } else {
      ReplayIsWindowOfAccepted(init, maxRequests, window);
      var prevNow := init[|init| - 1];
      assert prevNow <= now;
      PruneTwice(acc, prevNow, now, window);
      if Step(Replay(init, maxRequests, window), now, maxRequests, window).1 == Allowed {
        PruneSnoc(acc, now, window);
      }
    }
  }

  /** The limit itself: at any request, the accepted requests younger than
      the window, that one included, number at most `maxRequests`. */
  lemma AcceptedWithinWindowAreBounded(times: seq<int>, maxRequests: int, window: int)
    requires window > 0 && maxRequests >= 0 && |times| > 0 && Nondecreasing(times)
    ensures |Prune(AcceptedOf(times, maxRequests, window), times[|times| - 1], window)| <= maxRequests
  {
    ReplayIsWindowOfAccepted(times, maxRequests, window);
  }

  /** With a limit of zero nothing is let through. */
  lemma ZeroLimitRefusesAll(store: Store, m: Meta, now: int, window: int)
    ensures Limit(store, m, now, 0, window).1 == TooMany
  {
  }

  /** Example: with room for two requests per 10 time units, the third
      request at times 0, 1, 2 is refused and the fourth, at 10, is let
      through because the first has left the window. */
  lemma ExampleSlidingWindow()
    ensures AcceptedOf([0, 1, 2, 10], 2, 10) == [0, 1, 10]
  {
    assert [0, 1, 2, 10][..3] == [0, 1, 2];
    ExampleAcceptedThree();
    ExampleReplayThree();
    ExampleStepAfterWindow();
  }

  /** The example's four requests, one step each. */
  lemma ExampleStepFirst()
    ensures Step([], 0, 2, 10) == ([0], Allowed)
  {
    var none: seq<int> := [];
    assert Prune(none, 0, 10) == none;
    assert none + [0] == [0];
  }

  lemma ExampleStepSecond()
    ensures Step([0], 1, 2, 10) == ([0, 1], Allowed)
  {
    assert Prune([0], 1, 10) == [0];
    assert [0] + [1] == [0, 1];
  }

  /** The third request finds two recent times and is refused. */
  lemma ExampleStepRefused()
    ensures Step([0, 1], 2, 2, 10) == ([0, 1], TooMany)
  {
    assert Prune([0, 1], 2, 10) == [0, 1];
  }

  /** At 10 the time 0 has left the window. */
  lemma ExampleStepAfterWindow()
    ensures Step([0, 1], 10, 2, 10) == ([1, 10], Allowed)
  {
    assert Prune([0, 1], 10, 10) == [1];
    assert [1] + [10] == [1, 10];
  }

  lemma ExampleReplayOne()
    ensures Replay([0], 2, 10) == [0]
  {
    assert [0][..0] == [];
    ExampleStepFirst();
  }

  lemma ExampleReplayTwo()
    ensures Replay([0, 1], 2, 10) == [0, 1]
  {
    assert [0, 1][..1] == [0];
    ExampleReplayOne();
    ExampleStepSecond();
  }

  lemma ExampleReplayThree()
    ensures Replay([0, 1, 2], 2, 10) == [0, 1]
  {
    assert [0, 1, 2][..2] == [0, 1];
    ExampleReplayTwo();
    ExampleStepRefused();
  }

  lemma ExampleAcceptedOne()
    ensures AcceptedOf([0], 2, 10) == [0]
  {
    assert [0][..0] == [];
    ExampleStepFirst();
  }

  lemma ExampleAcceptedTwo()
    ensures AcceptedOf([0, 1], 2, 10) == [0, 1]
  {
    assert [0, 1][..1] == [0];
    ExampleAcceptedOne();
    ExampleReplayOne();
    ExampleStepSecond();
  }

  lemma ExampleAcceptedThree()
    ensures AcceptedOf([0, 1, 2], 2, 10) == [0, 1]
  {
    assert [0, 1, 2][..2] == [0, 1];
    ExampleAcceptedTwo();
    ExampleReplayTwo();
    ExampleStepRefused();
  }
}

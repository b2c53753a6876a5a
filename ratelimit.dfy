/** The sliding-window rate limiter: one shared record of the timestamps
    (in seconds) of recently admitted requests. The record is passed in as
    read from storage and the record to write back is passed out. */
module RateLimit {

  /** At most this many admitted requests per window (`$maxRequests`). */
  const MaxRequests := 10
  /** Length of the window in seconds (`$timeWindow`). */
  const TimeWindow := 60

  /** The `array_filter` step: the stored timestamps strictly newer than
      `now - TimeWindow`, in their stored order. */
  function Recent(stored: seq<int>, now: int): (r: seq<int>)
    ensures |r| <= |stored|
    ensures forall i :: 0 <= i < |r| ==> r[i] > now - TimeWindow
  {
    if stored == [] then []
    else (if stored[0] > now - TimeWindow then [stored[0]] else []) + Recent(stored[1..], now)
  }

  /** `a` can be obtained from `b` by deleting elements. */
  predicate IsSubsequence(a: seq<int>, b: seq<int>)
    decreases |b|
  {
    if a == [] then true
    else if b == [] then false
    else if a[0] == b[0] then IsSubsequence(a[1..], b[1..])
    else IsSubsequence(a, b[1..])
  }

  /** The outcome of the limiter for one request: throttled (429, nothing
      written), or admitted with the record to persist. */
  datatype Admission = Throttled | Admitted(record: seq<int>)

  /** Lines 39-47 of `csp-reporting.php`: filter, reject when the window is full, otherwise append
      `now` once. */
  function Admit(stored: seq<int>, now: int): (d: Admission)
    ensures d.Throttled? <==> |Recent(stored, now)| >= MaxRequests
    ensures d.Admitted? ==> d.record == Recent(stored, now) + [now]
    ensures d.Admitted? ==> |d.record| <= MaxRequests && d.record[|d.record| - 1] == now
    ensures d.Admitted? ==> forall i :: 0 <= i < |d.record| ==> d.record[i] > now - TimeWindow
  {
    var recent := Recent(stored, now);
    if |recent| >= MaxRequests then Throttled else Admitted(recent + [now])
  }

  /** The filter keeps an order-preserving selection of the stored record. */
  lemma {:induction false} RecentIsSubsequence(stored: seq<int>, now: int)
    ensures IsSubsequence(Recent(stored, now), stored)
  {
    if stored != [] {
      RecentIsSubsequence(stored[1..], now);
      var rest := Recent(stored[1..], now);
      if stored[0] > now - TimeWindow {
        assert Recent(stored, now) == [stored[0]] + rest;
        assert ([stored[0]] + rest)[1..] == rest;
      } else {
        assert Recent(stored, now) == rest;
        SubsequenceDropFront(rest, stored);
      }
    }
  }

  lemma {:induction false} SubsequenceDropFront(a: seq<int>, b: seq<int>)
    requires b != [] && IsSubsequence(a, b[1..])
    ensures IsSubsequence(a, b)
    decreases |b|
  {
    if a != [] && a[0] == b[0] {
      SubsequenceTail(a, b[1..]);
      assert b[1..][1..] == b[2..];
      SubsequenceDropFront(a[1..], b[1..]);
    }
  }

  lemma {:induction false} SubsequenceTail(a: seq<int>, b: seq<int>)
    requires a != [] && IsSubsequence(a, b)
    ensures IsSubsequence(a[1..], b[1..])
    decreases |b|
  {
    if a[0] != b[0] {
      SubsequenceTail(a, b[1..]);
      SubsequenceDropFront(a[1..], b[1..]);
    }
  }

  /** The filter keeps exactly the fresh timestamps, each as often as it is
      stored, and drops every stale one. */
  lemma {:induction false} RecentCounts(stored: seq<int>, now: int)
    ensures forall x :: multiset(Recent(stored, now))[x] == if x > now - TimeWindow then multiset(stored)[x] else 0
  {
    if stored != [] {
      RecentCounts(stored[1..], now);
      assert stored == [stored[0]] + stored[1..];
      var head := if stored[0] > now - TimeWindow then [stored[0]] else [];
      assert multiset(Recent(stored, now)) == multiset(head) + multiset(Recent(stored[1..], now));
      assert multiset(stored) == multiset([stored[0]]) + multiset(stored[1..]);
    }
  }

  lemma {:induction false} RecentConcat(a: seq<int>, b: seq<int>, now: int)
    ensures Recent(a + b, now) == Recent(a, now) + Recent(b, now)
  {
    if a == [] {
      assert a + b == b;
    } else {
      assert (a + b)[0] == a[0];
      assert (a + b)[1..] == a[1..] + b;
      RecentConcat(a[1..], b, now);
    }
  }

  /** Filtering again at a later time removes whatever the later filter
      alone would remove, and nothing else. */
  lemma {:induction false} RecentLater(s: seq<int>, now: int, later: int)
    requires now <= later
    ensures Recent(Recent(s, now), later) == Recent(s, later)
  {
    if s != [] {
      RecentLater(s[1..], now, later);
      var head := if s[0] > now - TimeWindow then [s[0]] else [];
      RecentConcat(head, Recent(s[1..], now), later);
      assert Recent(head, later) == if s[0] > later - TimeWindow then [s[0]] else [] by {
        if head != [] {
          assert head[1..] == [];
        }
      }
    }
  }

  /** Fewer timestamps are fresh at a later time. */
  lemma {:induction false} RecentShrinks(s: seq<int>, now: int, later: int)
    requires now <= later
    ensures |Recent(s, later)| <= |Recent(s, now)|
  {
    RecentLater(s, now, later);
  }

  /** The timestamps of `s` within the window that ends at `t`:
      `t - TimeWindow < x <= t`. */
  function Window(s: seq<int>, t: int): (r: seq<int>)
    ensures |r| <= |s|
  {
    if s == [] then []
    else (if t - TimeWindow < s[0] <= t then [s[0]] else []) + Window(s[1..], t)
  }

  lemma {:induction false} WindowConcat(a: seq<int>, b: seq<int>, t: int)
    ensures Window(a + b, t) == Window(a, t) + Window(b, t)
  {
    if a == [] {
      assert a + b == b;
    } else {
      assert (a + b)[0] == a[0];
      assert (a + b)[1..] == a[1..] + b;
      WindowConcat(a[1..], b, t);
    }
  }

  predicate AllAtMost(s: seq<int>, t: int) {
    forall i :: 0 <= i < |s| ==> s[i] <= t
  }

  /** With no timestamp after `t`, the window ending at `t` is what the
      filter at `t` keeps. */
  lemma {:induction false} WindowIsRecent(s: seq<int>, t: int)
    requires AllAtMost(s, t)
    ensures Window(s, t) == Recent(s, t)
  {
    if s != [] {
      assert s[0] <= t;
      assert AllAtMost(s[1..], t) by {
        forall i | 0 <= i < |s[1..]| ensures s[1..][i] <= t {
          assert s[1..][i] == s[i + 1];
        }
      }
      WindowIsRecent(s[1..], t);
    }
  }

  predicate Nondecreasing(times: seq<int>) {
    forall i, j :: 0 <= i < j < |times| ==> times[i] <= times[j]
  }

  /** A sequential run of requests that pass the header checks, arriving at
      `times`, starting from an absent record: the record stored at the end,
      and the arrival times of the admitted requests. */
  function Replay(times: seq<int>): (seq<int>, seq<int>)
    decreases |times|
  {
    if times == [] then ([], [])
    else
      var (stored, admitted) := Replay(times[..|times| - 1]);
      var now := times[|times| - 1];
      match Admit(stored, now)
      case Throttled => (stored, admitted)
      case Admitted(record) => (record, admitted + [now])
  }

  /** What a sequential run keeps: the admitted requests are among the
      arrivals, the stored record agrees with the admitted history at every
      time not before the last arrival, and no window of `TimeWindow`
      seconds holds more than `MaxRequests` admitted requests. */
  lemma {:induction false} ReplayInvariant(times: seq<int>)
    requires Nondecreasing(times)
    ensures forall x :: x in Replay(times).1 ==> x in times
    ensures forall t :: AllAtMost(times, t) ==> Recent(Replay(times).0, t) == Recent(Replay(times).1, t)
    ensures forall t :: |Window(Replay(times).1, t)| <= MaxRequests
  {
    if times != [] {
      var prior := times[..|times| - 1];
      var now := times[|times| - 1];
      assert times == prior + [now];
      assert Nondecreasing(prior) by {
        forall i, j | 0 <= i < j < |prior| ensures prior[i] <= prior[j] {
          assert prior[i] == times[i] && prior[j] == times[j];
        }
      }
      ReplayInvariant(prior);
      var (stored, admitted) := Replay(prior);
      assert AllAtMost(prior, now) by {
        forall i | 0 <= i < |prior| ensures prior[i] <= now {
          assert prior[i] == times[i];
        }
      }
      assert AllAtMost(admitted, now) by {
        forall i | 0 <= i < |admitted| ensures admitted[i] <= now {
          assert admitted[i] in admitted;
        }
      }
      forall t | AllAtMost(times, t) ensures AllAtMost(prior, t) && now <= t {
        assert times[|times| - 1] == now;
        forall i | 0 <= i < |prior| ensures prior[i] <= t {
          assert prior[i] == times[i];
        }
      }
      match Admit(stored, now)
      case Throttled =>
        assert Replay(times) == (stored, admitted);
      case Admitted(record) =>
        assert Replay(times) == (record, admitted + [now]);
        assert record == Recent(stored, now) + [now];
        forall t | AllAtMost(times, t) ensures Recent(record, t) == Recent(admitted + [now], t) {
          RecentConcat(Recent(stored, now), [now], t);
          RecentLater(stored, now, t);
          RecentConcat(admitted, [now], t);
        }
        forall t ensures |Window(admitted + [now], t)| <= MaxRequests {
          WindowConcat(admitted, [now], t);
          if t - TimeWindow < now <= t {
            assert AllAtMost(admitted, t) by {
              forall i | 0 <= i < |admitted| ensures admitted[i] <= t {
                assert admitted[i] <= now;
              }
            }
            WindowIsRecent(admitted, t);
            RecentShrinks(admitted, now, t);
            assert |Recent(admitted, now)| == |Recent(stored, now)| < MaxRequests;
            assert |Window([now], t)| <= 1;
          } else {
            assert Window([now], t) == [] by {
              assert [now][1..] == [];
            }
          }
        }
    }
  }

  /** The shared record behaves exactly like an ideal sliding-window log: in a
      sequential run, a request is admitted if and only if fewer than
      `MaxRequests` earlier admitted requests fall within the window ending
      at its arrival; a throttled request leaves the history unchanged. */
  lemma {:induction false} ReplayAdmitsIff(times: seq<int>, now: int)
    requires Nondecreasing(times + [now])
    ensures var before := Replay(times).1;
      var after := Replay(times + [now]).1;
      (|Window(before, now)| < MaxRequests ==> after == before + [now]) &&
      (|Window(before, now)| >= MaxRequests ==> after == before)
  {
    var all := times + [now];
    ReplayInvariant(all);
    assert all[..|all| - 1] == times;
    ReplayInvariant(times);
    var (stored, admitted) := Replay(times);
    assert AllAtMost(times, now) by {
      forall i | 0 <= i < |times| ensures times[i] <= now {
        assert times[i] == all[i] && all[|all| - 1] == now;
      }
    }
    assert AllAtMost(admitted, now) by {
      forall i | 0 <= i < |admitted| ensures admitted[i] <= now {
        assert admitted[i] in admitted;
      }
    }
    WindowIsRecent(admitted, now);
    assert Recent(stored, now) == Recent(admitted, now);
  }
}

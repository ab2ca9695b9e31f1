/** The per-address sliding-window limiter (rpc_ratelimit.go): a Redis sorted set of request times.
    Times are nanoseconds. Redis keeps scores as float64, which at present-day timestamps rounds to
    multiples of 256; every result below is stated both for exact scores and for rounded ones. */
module SlidingWindow {
  import opened Wrappers

  const SECOND: int := 1_000_000_000
  const EXPIRY: int := 2 * SECOND

  /** The nearest float64 of an integer between 2 to the 60 and 2 to the 61, ties to even. */
  function Float64(x: int): int {
    var q, r := x / 256, x % 256;
    if r < 128 || (r == 128 && q % 2 == 0) then 256 * q else 256 * (q + 1)
  }

  function Score(exact: bool, x: int): int {
    if exact then x else Float64(x)
  }

  /** How far a score may be from the time it stands for. */
  function Slack(exact: bool): nat {
    if exact then 0 else 128
  }

  lemma ScoreLaws(exact: bool, x: int, y: int)
    ensures x - Slack(exact) <= Score(exact, x) <= x + Slack(exact)
    ensures x <= y ==> Score(exact, x) <= Score(exact, y)
    ensures x >= 0 ==> Score(exact, x) >= 0
  {
  }

  /** The sorted set under one key: member time to score; the key is gone after expireAt. */
  datatype ZSet = ZSet(entries: map<int, int>, expireAt: int)

  /** What Redis still has when the clock shows now. */
  function Live(key: Option<ZSet>, now: int): map<int, int> {
    if key.None? || now > key.value.expireAt then map[] else key.value.entries
  }

  /** ZREMRANGEBYSCORE key 0 bound. */
  function Prune(entries: map<int, int>, bound: int): map<int, int> {
    map t | t in entries && !(0 <= entries[t] <= bound) :: entries[t]
  }

  function Check(exact: bool, key: Option<ZSet>, now: int, limit: int): (Option<ZSet>, bool) {
    var pruned := Prune(Live(key, now), Score(exact, now - SECOND));
    (Some(ZSet(pruned[now := Score(exact, now)], now + EXPIRY)), |pruned| < limit)
  }

  /** The Redis pipeline as one uninterrupted check. */
  class Limiter {
    const exact: bool
    var key: Option<ZSet>

    constructor (exact: bool)
      ensures this.exact == exact && key == None
    {
      this.exact := exact;
      key := None;
    }

    method CheckSlidingWindowRateLimit(now: int, requestsPerSecond: int) returns (allowed: bool)
      modifies this
      ensures (key, allowed) == Check(exact, old(key), now, requestsPerSecond)
    {
      var windowStart := now - SECOND;
      var entries := Prune(Live(key, now), Score(exact, windowStart));
      var count := |entries|;
      entries := entries[now := Score(exact, now)];
      key := Some(ZSet(entries, now + EXPIRY));
      allowed := count < requestsPerSecond;
    }
  }

  /* ---------- Runs ---------- */

  /** The clock never runs back; it may show the same instant to several checks. */
  ghost predicate InOrder(times: seq<int>) {
    (forall i, j :: 0 <= i < j < |times| ==> times[i] <= times[j]) && (forall i :: 0 <= i < |times| ==> times[i] >= SECOND)
  }

  /** The key after the checks at the given times. */
  function After(exact: bool, times: seq<int>): Option<ZSet>
    decreases |times|
  {
    if times == [] then None else Check(exact, After(exact, times[..|times| - 1]), times[|times| - 1], 0).0
  }

  /** Whether check k of a run lets its request through. */
  predicate Admitted(exact: bool, times: seq<int>, k: nat, limit: int)
    requires k < |times|
  {
    Check(exact, After(exact, times[..k]), times[k], limit).1
  }

  /** The distinct instants of the requests before check k, admitted or not, whose score is inside its
      window. */
  function Recent(exact: bool, times: seq<int>, k: nat): set<int>
    requires k < |times|
  {
    set t | t in times[..k] && Score(exact, t) > Score(exact, times[k] - 1_000_000_000)
  }

  /** What the key holds after check k: the requests still recent at that check, and its own. */
  ghost predicate Holds(exact: bool, key: Option<ZSet>, times: seq<int>, k: nat)
    requires k < |times|
  {
    && key.Some? && key.value.expireAt == times[k] + 2_000_000_000
    && key.value.entries.Keys == Recent(exact, times, k) + {times[k]}
    && forall t :: t in key.value.entries ==> key.value.entries[t] == Score(exact, t)
  }

  lemma {:induction false} AfterHolds(exact: bool, times: seq<int>, k: nat)
    requires InOrder(times) && k < |times|
    ensures Holds(exact, After(exact, times[..k + 1]), times, k)
    decreases k, 1
  {
    hide Score, Recent, Live;
    PrunedIsRecent(exact, times, k);
    assert times[..k + 1][..k] == times[..k];
  }

  /** What a check counts: neither the pruning nor the expiry ever drops a recent request, and
      nothing older stays. */
  lemma {:induction false} PrunedIsRecent(exact: bool, times: seq<int>, k: nat)
    requires InOrder(times) && k < |times|
    ensures var now := times[k];
            var pruned := Prune(Live(After(exact, times[..k]), now), Score(exact, now - SECOND));
            && pruned.Keys == Recent(exact, times, k)
            && forall t :: t in pruned ==> pruned[t] == Score(exact, t)
    decreases k, 0
  {
    if k == 0 {
      assert times[..0] == [];
    } else {
      AfterHolds(exact, times, k - 1);
      assert times[..k - 1 + 1] == times[..k];
      PruneStep(exact, After(exact, times[..k]), times, k);
    }
  }

  lemma RecentAt(exact: bool, times: seq<int>, k: nat, t: int)
    requires InOrder(times) && 0 < k < |times|
    ensures t in Recent(exact, times, k) <==>
              (t in Recent(exact, times, k - 1) || t == times[k - 1]) && Score(exact, t) > Score(exact, times[k] - SECOND)
    ensures t in Recent(exact, times, k) || t in Recent(exact, times, k - 1) || t == times[k - 1] ==> SECOND <= t <= times[k - 1]
  {
    assert times[..k] == times[..k - 1] + [times[k - 1]];
    ScoreLaws(exact, times[k - 1] - SECOND, times[k] - SECOND);
  }

  lemma PruneStep(exact: bool, key: Option<ZSet>, times: seq<int>, k: nat)
    requires InOrder(times) && 0 < k < |times| && Holds(exact, key, times, k - 1)
    ensures var pruned := Prune(Live(key, times[k]), Score(exact, times[k] - SECOND));
            && pruned.Keys == Recent(exact, times, k)
            && forall t :: t in pruned ==> pruned[t] == Score(exact, t)
  {
    hide Score, Recent;
    var bound := Score(exact, times[k] - SECOND);
    var pruned := Prune(Live(key, times[k]), bound);
    forall t ensures t in pruned.Keys <==> t in Recent(exact, times, k) {
      RecentAt(exact, times, k, t);
      ScoreLaws(exact, t, times[k] - SECOND);
    }
  }

  /** The decision, exactly: fewer than limit distinct instants in the window, those of rejected
      requests included. */
  lemma AdmittedExactly(exact: bool, times: seq<int>, k: nat, limit: int)
    requires InOrder(times) && k < |times|
    ensures Admitted(exact, times, k, limit) <==> |Recent(exact, times, k)| < limit
  {
    PrunedIsRecent(exact, times, k);
    var pruned := Prune(Live(After(exact, times[..k]), times[k]), Score(exact, times[k] - SECOND));
    assert |pruned| == |pruned.Keys|;
  }

  /** The requests admitted at or after from and before until. */
  function AdmittedIn(exact: bool, times: seq<int>, limit: int, from: int, until: int): set<nat> {
    set k: nat | k < |times| && from <= times[k] < until && Admitted(exact, times, k, limit)
  }

  /** Whether request k comes in the same instant as the one before it. */
  predicate Repeats(times: seq<int>, k: nat)
    requires k < |times|
  {
    k > 0 && times[k] == times[k - 1]
  }

  /** The admitted requests that repeat an instant. */
  function RepeatsIn(exact: bool, times: seq<int>, limit: int, from: int, until: int): set<nat> {
    set k: nat | k < |times| && k in AdmittedIn(exact, times, limit, from, until) && Repeats(times, k)
  }

  /** An interval as long as the bound is good for: one second, or one second less 256 nanoseconds when
      scores are rounded. */
  function Window(exact: bool): int { if exact then 1_000_000_000 else 999_999_744 }

  /** In any such interval of any run, at most limit requests are admitted, not counting repeats. */
  lemma WindowBound(exact: bool, times: seq<int>, limit: nat, from: int)
    requires InOrder(times)
    ensures |AdmittedIn(exact, times, limit, from, from + Window(exact))|
         <= limit + |RepeatsIn(exact, times, limit, from, from + Window(exact))|
  {
    hide Score, Admitted, Recent, AdmittedIn, Repeats;
    var until := from + Window(exact);
    var admitted, repeats := AdmittedIn(exact, times, limit, from, until), RepeatsIn(exact, times, limit, from, until);
    var first := admitted - repeats;
    InTheInterval(exact, times, limit, from, until);
    if first != {} {
      FirstsAreFew(exact, times, limit, from, first);
    }
    assert repeats <= admitted && admitted == first + repeats;
  }

  lemma InTheInterval(exact: bool, times: seq<int>, limit: int, from: int, until: int)
    ensures forall k: nat :: k in AdmittedIn(exact, times, limit, from, until) <==>
              k < |times| && from <= times[k] < until && Admitted(exact, times, k, limit)
  {
    hide Admitted;
  }

  /** The admitted requests that open their instant: the last of them sees the instants of all others. */
  lemma FirstsAreFew(exact: bool, times: seq<int>, limit: nat, from: int, first: set<nat>)
    requires InOrder(times) && first != {}
    requires forall k :: k in first ==>
               k < |times| && from <= times[k] < from + Window(exact) && Admitted(exact, times, k, limit) && !Repeats(times, k)
    ensures |first| <= limit
  {
    hide Score, Admitted, Recent;
    var last := Maximum(first);
    AdmittedExactly(exact, times, last, limit);
    var others := first - {last};
    forall j | j in others ensures times[j] in Recent(exact, times, last) {
      OpensLater(times, j, last);
      NearbyIsRecent(exact, times, j, last);
    }
    InstantsDiffer(times, others);
    SubsetSize(Instants(times, others), Recent(exact, times, last));
  }

  function Instants(times: seq<int>, ks: set<nat>): set<int>
    requires forall k :: k in ks ==> k < |times|
  {
    set k | k in ks :: times[k]
  }

  lemma OpensLater(times: seq<int>, j: nat, k: nat)
    requires InOrder(times) && j < k < |times| && !Repeats(times, k)
    ensures times[j] < times[k]
  {
  }

  /** Requests that open their instants have as many instants. */
  lemma {:induction false} InstantsDiffer(times: seq<int>, ks: set<nat>)
    requires InOrder(times) && forall k :: k in ks ==> k < |times| && !Repeats(times, k)
    ensures |Instants(times, ks)| == |ks|
    decreases |ks|
  {
    hide Repeats;
    if ks == {} {
      assert Instants(times, ks) == {};
    } else {
      var last := Maximum(ks);
      var others := ks - {last};
      InstantsDiffer(times, others);
      forall j | j in others ensures times[j] < times[last] {
        OpensLater(times, j, last);
      }
      assert Instants(times, ks) == Instants(times, others) + {times[last]};
    }
  }

  lemma NearbyIsRecent(exact: bool, times: seq<int>, j: nat, k: nat)
    requires InOrder(times) && j < k < |times|
    requires times[k] - SECOND + 2 * Slack(exact) < times[j]
    ensures times[j] in Recent(exact, times, k)
  {
    assert times[..k][j] == times[j];
    ScoreLaws(exact, times[j], 0);
    ScoreLaws(exact, times[k] - SECOND, 0);
  }

  lemma Member<T>(s: set<T>) returns (x: T)
    requires s != {}
    ensures x in s
  {
    x :| x in s;
  }

  lemma Maximum(s: set<nat>) returns (m: nat)
    requires s != {}
    ensures m in s && forall t :: t in s ==> t <= m
    decreases |s|
  {
    m := Member(s);
    var others := s - {m};
    if others != {} {
      var n := Maximum(others);
      assert forall t :: t in s ==> t == m || t in others;
      if n > m {
        m := n;
      }
    } else {
      assert s == {m};
    }
  }

  lemma SubsetSize<T>(a: set<T>, b: set<T>)
    requires a <= b
    ensures |a| <= |b|
    decreases |a|
  {
    if a != {} {
      var x :| x in a;
      SubsetSize(a - {x}, b - {x});
    }
  }

  /* ---------- How far the bound reaches ---------- */

  /** n requests in one nanosecond. */
  function Together(now: int, n: nat): (times: seq<int>)
    ensures |times| == n
  {
    seq(n, _ => now)
  }

  lemma {:induction false} OneMember(exact: bool, now: int, n: nat)
    ensures var key := After(exact, Together(now, n)); key.Some? ==> key.value.entries.Keys <= {now}
    decreases n
  {
    hide Score;
    if n != 0 {
      OneMember(exact, now, n - 1);
      assert Together(now, n)[..n - 1] == Together(now, n - 1);
      assert Together(now, n)[n - 1] == now;
    }
  }

  /** Requests in the same nanosecond share one member of the set: after any number of them, a check
      admits as soon as the limit is two. */
  lemma SameInstantUndercounts(exact: bool, now: int, times: seq<int>, k: nat, limit: int)
    requires k < |times| && times[..k] == Together(now, k) && limit >= 2
    ensures Admitted(exact, times, k, limit)
  {
    hide Score, After;
    OneMember(exact, now, k);
    var pruned := Prune(Live(After(exact, Together(now, k)), times[k]), Score(exact, times[k] - SECOND));
    SubsetSize(pruned.Keys, {now});
    assert |pruned| == |pruned.Keys|;
  }

  /** n requests at one instant and one more just after it. */
  function TogetherThenOne(now: int, n: nat): seq<int> {
    Together(now, n) + [now + 1]
  }

  /** The bound with repeats is reached: for any n, a run of one instant's n requests and one more has
      n - 1 repeats and, with limit two, n + 1 admissions. */
  lemma RepeatsAreAllExtra(exact: bool, now: int, n: nat)
    requires now >= SECOND && n >= 1
    ensures var times := TogetherThenOne(now, n);
            && InOrder(times)
            && |AdmittedIn(exact, times, 2, now, now + Window(exact))| == n + 1
            && |RepeatsIn(exact, times, 2, now, now + Window(exact))| == n - 1
  {
    hide Admitted, AdmittedIn, Repeats, RepeatsIn, TogetherThenOne, InOrder, Numbers, Slack;
    WindowIsLong(exact);
    var times, until := TogetherThenOne(now, n), now + Window(exact);
    AllAdmitted(exact, now, n);
    ShapeOf(now, n);
    InTheInterval(exact, times, 2, now, until);
    assert AdmittedIn(exact, times, 2, now, until) == Numbers(0, n + 1);
    RepeatsOfInterval(exact, times, 2, now, until);
    assert RepeatsIn(exact, times, 2, now, until) == Numbers(1, n);
  }

  lemma WindowIsLong(exact: bool)
    ensures Window(exact) > 2
  {
  }

  lemma ShapeOf(now: int, n: nat)
    requires now >= SECOND && n >= 1
    ensures var times := TogetherThenOne(now, n);
            && |times| == n + 1 && InOrder(times)
            && (forall k: nat :: k < n + 1 ==> times[k] == (if k < n then now else now + 1))
            && (forall k: nat :: k < n + 1 ==> (Repeats(times, k) <==> 1 <= k < n))
  {
  }

  lemma RepeatsOfInterval(exact: bool, times: seq<int>, limit: int, from: int, until: int)
    ensures forall k: nat :: k in RepeatsIn(exact, times, limit, from, until) <==>
              k in AdmittedIn(exact, times, limit, from, until) && k < |times| && Repeats(times, k)
  {
    hide AdmittedIn, Repeats;
  }

  lemma AllAdmitted(exact: bool, now: int, n: nat)
    ensures forall k: nat :: k < n + 1 ==> Admitted(exact, TogetherThenOne(now, n), k, 2)
  {
    hide Admitted;
    var times := TogetherThenOne(now, n);
    forall k: nat | k < n + 1 ensures Admitted(exact, times, k, 2) {
      assert times[..k] == Together(now, k);
      SameInstantUndercounts(exact, now, times, k, 2);
    }
  }

  function Numbers(lo: nat, hi: nat): (ks: set<nat>)
    requires lo <= hi
    ensures forall k: nat :: k in ks <==> lo <= k < hi
    ensures |ks| == hi - lo
    decreases hi
  {
    if lo == hi then {} else Numbers(lo, hi - 1) + {hi - 1}
  }

  /** A clock that shows an instant to at most m checks. */
  ghost predicate AtMostPerInstant(times: seq<int>, m: nat) {
    forall k :: m <= k < |times| ==> times[k - m] < times[k]
  }

  predicate KeepsLimit(exact: bool, times: seq<int>, len: int, limit: nat, from: int) {
    |AdmittedIn(exact, times, limit, from, from + len)| <= limit
  }

  /** At most limit requests of the run are admitted in any interval of length len, for any limit. */
  ghost predicate Limits(exact: bool, times: seq<int>, len: int) {
    forall limit: nat, from: int :: KeepsLimit(exact, times, len, limit, from)
  }

  lemma NoRepeats(exact: bool, times: seq<int>, len: int)
    requires InOrder(times) && AtMostPerInstant(times, 1) && len <= Window(exact)
    ensures Limits(exact, times, len)
  {
    hide Admitted, AdmittedIn;
    forall limit: nat, from: int ensures KeepsLimit(exact, times, len, limit, from) {
      WindowBound(exact, times, limit, from);
      assert RepeatsIn(exact, times, limit, from, from + Window(exact)) == {};
      InTheInterval(exact, times, limit, from, from + len);
      InTheInterval(exact, times, limit, from, from + Window(exact));
      SubsetSize(AdmittedIn(exact, times, limit, from, from + len), AdmittedIn(exact, times, limit, from, from + Window(exact)));
    }
  }

  /** With a clock that shows an instant to at most m checks, the limit is kept on every run exactly
      when m is one. */
  lemma LimitedIfDistinct(exact: bool, m: nat)
    requires m >= 1
    ensures (forall times :: InOrder(times) && AtMostPerInstant(times, m) ==> Limits(exact, times, Window(exact))) <==> m == 1
  {
    hide AdmittedIn, Slack;
    if m == 1 {
      forall times | InOrder(times) && AtMostPerInstant(times, m) ensures Limits(exact, times, Window(exact)) {
        NoRepeats(exact, times, Window(exact));
      }
    } else {
      var times := TogetherThenOne(SECOND, 2);
      RepeatsAreAllExtra(exact, SECOND, 2);
      assert AtMostPerInstant(times, m);
      assert !KeepsLimit(exact, times, Window(exact), 2, SECOND);
    }
  }

  /** A time in 2023 whose float64 is 128 nanoseconds earlier, while that of 256 nanoseconds before it
      is 128 nanoseconds later. */
  const ROUNDED: int := 1_700_000_000_000_000_128

  lemma AfterOne(exact: bool, t: int)
    ensures After(exact, [t]) == Some(ZSet(map[t := Score(exact, t)], t + EXPIRY))
  {
    hide Score;
    assert [t][..0] == [];
    assert After(exact, [t]) == Check(exact, None, t, 0).0;
    assert Prune(map[], Score(exact, t - SECOND)) == map[];
  }

  lemma RoundedAlike(exact: bool)
    ensures 0 <= Score(exact, ROUNDED) == Score(exact, ROUNDED + Window(exact) - SECOND)
  {
  }

  /** Two checks one window apart, and limit one: both are admitted. */
  lemma WindowApart(exact: bool)
    ensures var times := [ROUNDED, ROUNDED + Window(exact)];
            InOrder(times) && AtMostPerInstant(times, 1) && Admitted(exact, times, 0, 1) && Admitted(exact, times, 1, 1)
  {
    hide Score, After;
    var times := [ROUNDED, ROUNDED + Window(exact)];
    assert times[..0] == [] && times[..1] == [ROUNDED];
    AfterOne(exact, ROUNDED);
    RoundedAlike(exact);
    assert Prune(map[ROUNDED := Score(exact, ROUNDED)], Score(exact, times[1] - SECOND)) == map[];
    AfterNone(exact);
  }

  lemma AfterNone(exact: bool)
    ensures Live(After(exact, []), ROUNDED) == map[] && Prune(map[], Score(exact, ROUNDED - SECOND)) == map[]
  {
  }

  /** With distinct instants the limit is kept in every interval of a length exactly up to one second,
      or up to one second less 256 nanoseconds when scores are rounded. */
  lemma LimitedUpToWindow(exact: bool, len: int)
    ensures (forall times :: InOrder(times) && AtMostPerInstant(times, 1) ==> Limits(exact, times, len)) <==> len <= Window(exact)
  {
    hide Admitted, AdmittedIn;
    if len <= Window(exact) {
      forall times | InOrder(times) && AtMostPerInstant(times, 1) ensures Limits(exact, times, len) {
        NoRepeats(exact, times, len);
      }
    } else {
      var times := [ROUNDED, ROUNDED + Window(exact)];
      WindowApart(exact);
      InTheInterval(exact, times, 1, ROUNDED, ROUNDED + len);
      SubsetSize({0, 1}, AdmittedIn(exact, times, 1, ROUNDED, ROUNDED + len));
      assert !KeepsLimit(exact, times, len, 1, ROUNDED);
    }
  }
}

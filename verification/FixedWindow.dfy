/** The fixed-window limiter: the Redis script of redis.go, and RateLimit of ratelimit.go, which
    counts a request against its credential and against its address. Times are milliseconds; each call of
    the script is atomic and none fails. */
module FixedWindow {
  import opened Wrappers

  /** A counter; expiry None is a key that lost its expiry. */
  datatype Counter = Counter(n: nat, expiry: Option<int>)

  type Store = map<string, Counter>

  /** INCR, PTTL, PEXPIRE on the counter that is left at time now, if any; Redis still has a key in the
      millisecond of its expiry. */
  function Hit(c: Option<Counter>, now: int, window: int): Counter {
    var live := if c.Some? && (c.value.expiry.None? || now <= c.value.expiry.value) then c else None;
    var n := if live.Some? then live.value.n + 1 else 1;
    var expiry := if live.Some? then live.value.expiry else None;
    Counter(n, if n == 1 || expiry.None? then Some(now + window) else expiry)
  }

  function Lookup(s: Store, key: string): Option<Counter> {
    if key in s then Some(s[key]) else None
  }

  /** A request as the limiter sees it. */
  datatype Request = Request(time: int, ip: string, credential: Option<string>)

  const IP_PREFIX := "ratelimit:ip:"
  const CREDENTIAL_PREFIX := "ratelimit:apikey:"

  function IpKey(ip: string): string { IP_PREFIX + ip }

  /** The credential's bucket; digest stands for the hash that replaces it. */
  function CredentialKey(credential: string, digest: string -> string): string { CREDENTIAL_PREFIX + digest(credential) }

  /** rateLimitBuckets: the credential adds a bucket, the IP always has one. */
  function Buckets(r: Request, digest: string -> string): seq<string> {
    (if r.credential.Some? && r.credential.value != "" then [CredentialKey(r.credential.value, digest)] else [])
      + [IpKey(r.ip)]
  }

  function HitAll(s: Store, keys: seq<string>, now: int, window: int): Store
    decreases |keys|
  {
    if keys == [] then s
    else
      var last := |keys| - 1;
      var before := HitAll(s, keys[..last], now, window);
      before[keys[last] := Hit(Lookup(before, keys[last]), now, window)]
  }

  function Max(a: int, b: int): int { if a < b then b else a }

  /** The fullest bucket's count. */
  function Fullest(s: Store, keys: seq<string>, now: int, window: int): nat
    decreases |keys|
  {
    if keys == [] then 0
    else
      var last := |keys| - 1;
      var before := HitAll(s, keys[..last], now, window);
      Max(Fullest(s, keys[..last], now, window), Hit(Lookup(before, keys[last]), now, window).n)
  }

  /** Redis as an object, with the script as one atomic call. */
  class Redis {
    var store: Store

    constructor ()
      ensures store == map[]
    {
      store := map[];
    }

    /** IncrWithExpire: the count and the time the window still has to run. */
    method IncrWithExpire(key: string, now: int, window: int) returns (count: nat, reset: int)
      modifies this
      ensures store == old(store)[key := Hit(Lookup(old(store), key), now, window)]
      ensures count == store[key].n && store[key].expiry == Some(now + reset)
    {
      if key in store && store[key].expiry.Some? && store[key].expiry.value < now {
        store := store - {key};
      }
      var n := if key in store then store[key].n + 1 else 1;
      var expiry := if key in store then store[key].expiry else None;
      if n == 1 || expiry.None? {
        expiry := Some(now + window);
      }
      store := store[key := Counter(n, expiry)];
      count, reset := n, expiry.value - now;
    }

    /** RateLimit: counts against every bucket, and the fullest decides. */
    method RateLimit(r: Request, digest: string -> string, window: int, limit: int, burst: int)
      returns (admitted: bool, count: nat)
      modifies this
      ensures store == HitAll(old(store), Buckets(r, digest), r.time, window)
      ensures count == Fullest(old(store), Buckets(r, digest), r.time, window)
      ensures admitted <==> count <= limit + burst
    {
      var buckets := Buckets(r, digest);
      count := 0;
      for i := 0 to |buckets|
        invariant store == HitAll(old(store), buckets[..i], r.time, window)
        invariant count == Fullest(old(store), buckets[..i], r.time, window)
      {
        assert buckets[..i + 1][..i] == buckets[..i];
        var bucketCount, bucketReset := IncrWithExpire(buckets[i], r.time, window);
        if bucketCount > count {
          count := bucketCount;
        }
      }
      assert buckets[..|buckets|] == buckets;
      admitted := !(count > limit + burst);
    }
  }

  /* ---------- Runs ---------- */

  function After(s: Store, rs: seq<Request>, digest: string -> string, window: int): Store
    decreases |rs|
  {
    if rs == [] then s
    else
      var last := |rs| - 1;
      HitAll(After(s, rs[..last], digest, window), Buckets(rs[last], digest), rs[last].time, window)
  }

  /** Whether request k is let through. */
  predicate Admitted(s: Store, rs: seq<Request>, k: nat, digest: string -> string, window: int, allowance: int)
    requires k < |rs|
  {
    Fullest(After(s, rs[..k], digest, window), Buckets(rs[k], digest), rs[k].time, window) <= allowance
  }

  predicate InOrder(rs: seq<Request>) {
    forall i, j :: 0 <= i < j < |rs| ==> rs[i].time <= rs[j].time
  }

  /* ---------- Who is limited ---------- */

  /** A request is limited as coming from an address, and as showing a credential. */
  datatype Party = Ip(ip: string) | Credential(credential: string)

  predicate Shows(r: Request, p: Party) {
    match p
    case Ip(ip) => r.ip == ip
    case Credential(credential) => credential != "" && r.credential == Some(credential)
  }

  function KeyOf(p: Party, digest: string -> string): string {
    match p
    case Ip(ip) => IpKey(ip)
    case Credential(credential) => CredentialKey(credential, digest)
  }

  ghost predicate Injective(digest: string -> string) {
    forall a, b :: digest(a) == digest(b) ==> a == b
  }

  /** No other party has the same key: always so for an address, and for a credential if digests differ. */
  ghost predicate OwnKey(p: Party, digest: string -> string) {
    p.Credential? ==> Injective(digest)
  }

  /** Admissions of requests that show one party, with times from `from` up to but not including `until`. */
  function AdmittedIn(s: Store, rs: seq<Request>, digest: string -> string, window: int, allowance: int,
                      p: Party, from: int, until: int): nat
    decreases |rs|
  {
    if rs == [] then 0
    else
      var last := |rs| - 1;
      AdmittedIn(s, rs[..last], digest, window, allowance, p, from, until) +
        if Shows(rs[last], p) && from <= rs[last].time < until && Admitted(s, rs, last, digest, window, allowance) then 1 else 0
  }

  /* ---------- One request ---------- */

  /** A credential bucket is never an IP bucket. */
  lemma BucketsDiffer(ip: string, credential: string, digest: string -> string)
    ensures CredentialKey(credential, digest) != IpKey(ip)
  {
    assert CredentialKey(credential, digest)[10] == 'a';
    assert IpKey(ip)[10] == 'i';
  }

  lemma IpKeyInjective(a: string, b: string)
    requires IpKey(a) == IpKey(b)
    ensures a == b
  {
    assert IpKey(a)[|IP_PREFIX|..] == a && IpKey(b)[|IP_PREFIX|..] == b;
  }

  lemma CredentialKeyInjective(a: string, b: string, digest: string -> string)
    requires Injective(digest) && CredentialKey(a, digest) == CredentialKey(b, digest)
    ensures a == b
  {
    var n := |CREDENTIAL_PREFIX|;
    assert CredentialKey(a, digest)[n..] == digest(a) && CredentialKey(b, digest)[n..] == digest(b);
  }

  lemma KeysDiffer(p: Party, q: Party, digest: string -> string)
    requires p != q && OwnKey(p, digest)
    ensures KeyOf(p, digest) != KeyOf(q, digest)
  {
    hide IpKey, CredentialKey;
    match (p, q) {
      case (Ip(a), Ip(b)) => if IpKey(a) == IpKey(b) { IpKeyInjective(a, b); }
      case (Ip(a), Credential(b)) => BucketsDiffer(a, b, digest);
      case (Credential(a), Ip(b)) => BucketsDiffer(b, a, digest);
      case (Credential(a), Credential(b)) =>
        if CredentialKey(a, digest) == CredentialKey(b, digest) { CredentialKeyInjective(a, b, digest); }
    }
  }

  /** What a request does to every party's counter: one hit for each party that it shows, and nothing for
      any other; and the fullest of the counters it hit decides. */
  lemma OneRequest(s: Store, r: Request, digest: string -> string, window: int, p: Party)
    requires OwnKey(p, digest)
    ensures var keys, after := Buckets(r, digest), HitAll(s, Buckets(r, digest), r.time, window);
            if Shows(r, p) then
              && Lookup(after, KeyOf(p, digest)) == Some(Hit(Lookup(s, KeyOf(p, digest)), r.time, window))
              && Fullest(s, keys, r.time, window) >= Hit(Lookup(s, KeyOf(p, digest)), r.time, window).n
            else Lookup(after, KeyOf(p, digest)) == Lookup(s, KeyOf(p, digest))
  {
    hide HitAll, Fullest, Hit, CredentialKey, IpKey, OwnKey;
    if p != Ip(r.ip) {
      KeysDiffer(p, Ip(r.ip), digest);
    }
    if r.credential.Some? && r.credential.value != "" {
      var c := r.credential.value;
      if p != Credential(c) {
        KeysDiffer(p, Credential(c), digest);
      }
      BucketsDiffer(r.ip, c, digest);
      TwoBuckets(s, CredentialKey(c, digest), IpKey(r.ip), r.time, window);
    } else {
      OneBucket(s, IpKey(r.ip), r.time, window);
      assert Buckets(r, digest) == [IpKey(r.ip)];
    }
  }

  /** A request is within the allowance exactly when each counter that it hits is. */
  lemma WithinExactly(s: Store, r: Request, digest: string -> string, window: int, allowance: int)
    ensures Fullest(s, Buckets(r, digest), r.time, window) <= allowance <==>
            forall p :: Shows(r, p) ==> HitOf(s, r, digest, window, p) <= allowance
  {
    hide HitAll, Fullest, Hit, CredentialKey, IpKey;
    assert Shows(r, Ip(r.ip));
    if r.credential.Some? && r.credential.value != "" {
      var c := r.credential.value;
      assert Shows(r, Credential(c));
      BucketsDiffer(r.ip, c, digest);
      TwoBuckets(s, CredentialKey(c, digest), IpKey(r.ip), r.time, window);
    } else {
      OneBucket(s, IpKey(r.ip), r.time, window);
      assert Buckets(r, digest) == [IpKey(r.ip)];
    }
  }

  /** What a party's counter says when the request hits it. */
  function HitOf(s: Store, r: Request, digest: string -> string, window: int, p: Party): nat {
    Hit(Lookup(s, KeyOf(p, digest)), r.time, window).n
  }

  lemma OneBucket(s: Store, key: string, now: int, window: int)
    ensures HitAll(s, [key], now, window) == s[key := Hit(Lookup(s, key), now, window)]
    ensures Fullest(s, [key], now, window) == Hit(Lookup(s, key), now, window).n
  {
    assert [key][..0] == [];
  }

  lemma TwoBuckets(s: Store, a: string, b: string, now: int, window: int)
    requires a != b
    ensures HitAll(s, [a] + [b], now, window) ==
              s[a := Hit(Lookup(s, a), now, window)][b := Hit(Lookup(s, b), now, window)]
    ensures Fullest(s, [a] + [b], now, window) ==
              Max(Hit(Lookup(s, a), now, window).n, Hit(Lookup(s, b), now, window).n)
  {
    assert ([a] + [b])[..1] == [a];
    OneBucket(s, a, now, window);
  }

  /** The counter of a party after a run. */
  function CounterOf(rs: seq<Request>, digest: string -> string, window: int, p: Party): Option<Counter> {
    Lookup(After(map[], rs, digest, window), KeyOf(p, digest))
  }

  lemma CounterNext(rs: seq<Request>, digest: string -> string, window: int, p: Party)
    requires rs != [] && OwnKey(p, digest)
    ensures var last := |rs| - 1;
            var before := CounterOf(rs[..last], digest, window, p);
            CounterOf(rs, digest, window, p) == if Shows(rs[last], p) then Some(Hit(before, rs[last].time, window)) else before
  {
    hide HitAll, Hit, Buckets, Fullest, KeyOf, OwnKey;
    var last := |rs| - 1;
    OneRequest(After(map[], rs[..last], digest, window), rs[last], digest, window, p);
  }

  /** A request is admitted only if the counter of each party that it shows has room. */
  lemma AdmittedHasRoom(rs: seq<Request>, k: nat, digest: string -> string, window: int, allowance: int, p: Party)
    requires k < |rs| && OwnKey(p, digest) && Shows(rs[k], p) && Admitted(map[], rs, k, digest, window, allowance)
    ensures Hit(CounterOf(rs[..k], digest, window, p), rs[k].time, window).n <= allowance
  {
    hide HitAll, Hit, Buckets, Fullest, KeyOf, OwnKey;
    OneRequest(After(map[], rs[..k], digest, window), rs[k], digest, window, p);
  }

  /* ---------- The window invariant ---------- */

  /** The counter of a party after some requests: its window began at `start`, ends a window later and
      has not been re-armed; admissions since `from` are bounded by what this window and, if the
      interval began before it, one earlier window can have admitted. */
  ghost predicate Bounded(c: Option<Counter>, start: int, now: int, window: int, admitted: nat, allowance: nat, from: int) {
    if c.None? then admitted == 0
    else
      && c.value.expiry == Some(start + window) && c.value.n >= 1 && start <= now
      && (start + window < from ==> admitted == 0)
      && (start <= from ==> admitted <= c.value.n && admitted <= allowance)
      && (start > from ==> admitted <= c.value.n + allowance && admitted <= 2 * allowance)
  }

  /** One hit keeps the bound, as long as it comes no more than a window after `from`. */
  lemma HitKeepsBound(c: Option<Counter>, start: int, before: int, now: int, window: int, admitted: nat, allowance: nat,
                      from: int, counts: bool) returns (start': int)
    requires window > 0 && before <= now <= from + window
    requires Bounded(c, start, before, window, admitted, allowance, from)
    requires counts ==> now >= from && Hit(c, now, window).n <= allowance
    requires now < from ==> admitted == 0
    ensures Bounded(Some(Hit(c, now, window)), start', now, window, admitted + (if counts then 1 else 0), allowance, from)
  {
    if c.None? || now > c.value.expiry.value {
      start' := now;
    } else {
      start' := start;
    }
  }

  lemma NothingIsBounded(now: int, window: int, allowance: nat, from: int)
    ensures Bounded(None, 0, now, window, 0, allowance, from)
  {
  }

  lemma BoundedLater(c: Option<Counter>, start: int, before: int, now: int, window: int, admitted: nat, allowance: nat, from: int)
    requires before <= now && Bounded(c, start, before, window, admitted, allowance, from)
    ensures Bounded(c, start, now, window, admitted, allowance, from)
  {
  }

  /** One past the last millisecond of the interval that begins at from and is as long as a window: both
      ends belong to it, as they do to a window. */
  function Until(from: int, window: int): int { from + window + 1 }

  lemma AdmittedNext(rs: seq<Request>, digest: string -> string, window: int, allowance: int, p: Party, from: int, until: int)
    requires rs != []
    ensures var last := |rs| - 1;
            AdmittedIn(map[], rs, digest, window, allowance, p, from, until)
            == AdmittedIn(map[], rs[..last], digest, window, allowance, p, from, until)
               + if Shows(rs[last], p) && from <= rs[last].time < until && Admitted(map[], rs, last, digest, window, allowance)
                 then 1 else 0
  {
    hide Admitted;
  }

  lemma NoneAdmittedBefore(rs: seq<Request>, digest: string -> string, window: int, allowance: int, p: Party, from: int, until: int)
    requires forall i :: 0 <= i < |rs| ==> rs[i].time < from
    ensures AdmittedIn(map[], rs, digest, window, allowance, p, from, until) == 0
    decreases |rs|
  {
    hide Admitted;
    if rs != [] {
      NoneAdmittedBefore(rs[..|rs| - 1], digest, window, allowance, p, from, until);
    }
  }

  /** Requests that do not show the party and earlier requests change nothing for the bound. */
  lemma {:induction false} RunBound(rs: seq<Request>, digest: string -> string, window: int, allowance: nat,
                                    p: Party, from: int) returns (start: int)
    requires window > 0 && InOrder(rs) && OwnKey(p, digest)
    requires forall i :: 0 <= i < |rs| ==> rs[i].time < Until(from, window)
    ensures rs != [] ==>
              Bounded(CounterOf(rs, digest, window, p), start, rs[|rs| - 1].time, window,
                      AdmittedIn(map[], rs, digest, window, allowance, p, from, Until(from, window)), allowance, from)
    decreases |rs|
  {
    start := 0;
    if rs != [] {
      var front, r := rs[..|rs| - 1], rs[|rs| - 1];
      start := RunBound(front, digest, window, allowance, p, from);
      start := BoundNext(rs, start, digest, window, allowance, p, from);
    }
  }

  lemma BoundNext(rs: seq<Request>, start: int, digest: string -> string, window: int, allowance: nat, p: Party, from: int)
    returns (start': int)
    requires window > 0 && InOrder(rs) && OwnKey(p, digest) && rs != [] && rs[|rs| - 1].time < Until(from, window)
    requires var front := rs[..|rs| - 1];
             front != [] ==>
               Bounded(CounterOf(front, digest, window, p), start, front[|front| - 1].time, window,
                       AdmittedIn(map[], front, digest, window, allowance, p, from, Until(from, window)), allowance, from)
    ensures Bounded(CounterOf(rs, digest, window, p), start', rs[|rs| - 1].time, window,
                    AdmittedIn(map[], rs, digest, window, allowance, p, from, Until(from, window)), allowance, from)
  {
    hide AdmittedIn, Admitted, CounterOf, Hit, Bounded;
    var last := |rs| - 1;
    var front, r := rs[..last], rs[last];
    var c, admitted := CounterOf(front, digest, window, p), AdmittedIn(map[], front, digest, window, allowance, p, from, Until(from, window));
    start' := start;
    if front == [] {
      NothingYet(front, digest, window, allowance, p, from, Until(from, window));
      start' := 0;
      NothingIsBounded(r.time, window, allowance, from);
    } else {
      BoundedLater(c, start, front[last - 1].time, r.time, window, admitted, allowance, from);
    }
    if r.time < from {
      NoneAdmittedBefore(front, digest, window, allowance, p, from, Until(from, window));
    }
    CounterNext(rs, digest, window, p);
    AdmittedNext(rs, digest, window, allowance, p, from, Until(from, window));
    if Shows(r, p) {
      var counts := r.time >= from && Admitted(map[], rs, last, digest, window, allowance);
      if counts {
        AdmittedHasRoom(rs, last, digest, window, allowance, p);
      }
      start' := HitKeepsBound(c, start', r.time, r.time, window, admitted, allowance, from, counts);
    }
  }

  lemma NothingYet(rs: seq<Request>, digest: string -> string, window: int, allowance: int, p: Party, from: int, until: int)
    requires rs == []
    ensures CounterOf(rs, digest, window, p) == None && AdmittedIn(map[], rs, digest, window, allowance, p, from, until) == 0
  {
  }

  /* ---------- Windows over runs ---------- */

  /** How many requests that show a party come at or after a time. */
  function HitsSince(rs: seq<Request>, p: Party, from: int): nat
    decreases |rs|
  {
    if rs == [] then 0
    else
      var last := |rs| - 1;
      HitsSince(rs[..last], p, from) + if Shows(rs[last], p) && rs[last].time >= from then 1 else 0
  }

  lemma {:induction false} NoHitsSince(rs: seq<Request>, p: Party, from: int)
    requires forall i :: 0 <= i < |rs| ==> Shows(rs[i], p) ==> rs[i].time < from
    ensures HitsSince(rs, p, from) == 0
    decreases |rs|
  {
    if rs != [] {
      NoHitsSince(rs[..|rs| - 1], p, from);
    }
  }

  /** What the counter of a party says about a run: it is absent before the party's first request; otherwise
      its window began with a request of the party, lasts exactly `window`, is not over before the party's
      last request, and the count is the number of the party's requests since the window began. */
  ghost predicate Describes(c: Option<Counter>, rs: seq<Request>, window: int, p: Party) {
    if c.None? then forall i :: 0 <= i < |rs| ==> !Shows(rs[i], p)
    else
      && c.value.expiry.Some? && WindowBegins(rs, p, c.value.expiry.value - window)
      && (forall i :: 0 <= i < |rs| && Shows(rs[i], p) ==> rs[i].time <= c.value.expiry.value)
      && c.value.n == HitsSince(rs, p, c.value.expiry.value - window) >= 1
  }

  ghost predicate WindowBegins(rs: seq<Request>, p: Party, start: int) {
    exists i :: 0 <= i < |rs| && Shows(rs[i], p) && rs[i].time == start
  }

  lemma BeginsStill(rs: seq<Request>, p: Party, start: int)
    requires rs != [] && WindowBegins(rs[..|rs| - 1], p, start)
    ensures WindowBegins(rs, p, start)
  {
    var front := rs[..|rs| - 1];
    var i :| 0 <= i < |front| && Shows(front[i], p) && front[i].time == start;
    assert rs[i] == front[i];
  }

  lemma DescribesNext(c: Option<Counter>, rs: seq<Request>, window: int, p: Party)
    requires window > 0 && InOrder(rs) && rs != [] && Describes(c, rs[..|rs| - 1], window, p)
    ensures var r := rs[|rs| - 1];
            Describes(if Shows(r, p) then Some(Hit(c, r.time, window)) else c, rs, window, p)
  {
    hide Describes, Hit, Shows;
    var r := rs[|rs| - 1];
    if !Shows(r, p) {
      DescribesStill(c, rs, window, p);
    } else if c.Some? && c.value.expiry.Some? && r.time <= c.value.expiry.value {
      DescribesOneMore(c, rs, window, p);
    } else {
      DescribesAnew(c, rs, window, p);
    }
  }

  lemma DescribesStill(c: Option<Counter>, rs: seq<Request>, window: int, p: Party)
    requires rs != [] && Describes(c, rs[..|rs| - 1], window, p) && !Shows(rs[|rs| - 1], p)
    ensures Describes(c, rs, window, p)
  {
    hide WindowBegins, Shows;
    if c.Some? {
      BeginsStill(rs, p, c.value.expiry.value - window);
    }
  }

  lemma DescribesOneMore(c: Option<Counter>, rs: seq<Request>, window: int, p: Party)
    requires window > 0 && InOrder(rs) && rs != [] && Describes(c, rs[..|rs| - 1], window, p) && Shows(rs[|rs| - 1], p)
    requires c.Some? && c.value.expiry.Some? && rs[|rs| - 1].time <= c.value.expiry.value
    ensures Describes(Some(Hit(c, rs[|rs| - 1].time, window)), rs, window, p)
  {
    hide Shows;
    var front, start := rs[..|rs| - 1], c.value.expiry.value - window;
    BeginsStill(rs, p, start);
    var i :| 0 <= i < |front| && Shows(front[i], p) && front[i].time == start;
    assert start == rs[i].time <= rs[|rs| - 1].time;
    hide InOrder, WindowBegins;
  }

  lemma DescribesAnew(c: Option<Counter>, rs: seq<Request>, window: int, p: Party)
    requires window > 0 && InOrder(rs) && rs != [] && Describes(c, rs[..|rs| - 1], window, p) && Shows(rs[|rs| - 1], p)
    requires c.None? || c.value.expiry.None? || rs[|rs| - 1].time > c.value.expiry.value
    ensures Describes(Some(Hit(c, rs[|rs| - 1].time, window)), rs, window, p)
  {
    hide Shows, WindowBegins;
    NoHitsSince(rs[..|rs| - 1], p, rs[|rs| - 1].time);
    BeginsNow(rs, p);
  }

  lemma BeginsNow(rs: seq<Request>, p: Party)
    requires rs != [] && Shows(rs[|rs| - 1], p)
    ensures WindowBegins(rs, p, rs[|rs| - 1].time)
  {
  }

  lemma {:induction false} CounterCountsWindow(rs: seq<Request>, digest: string -> string, window: int, p: Party)
    requires window > 0 && InOrder(rs) && OwnKey(p, digest)
    ensures Describes(CounterOf(rs, digest, window, p), rs, window, p)
    decreases |rs|
  {
    if rs != [] {
      hide CounterOf, Describes, Hit;
      CounterCountsWindow(rs[..|rs| - 1], digest, window, p);
      CounterNext(rs, digest, window, p);
      DescribesNext(CounterOf(rs[..|rs| - 1], digest, window, p), rs, window, p);
    }
  }

  /** The windows of a party are disjoint, over any run: at a later point its counter is still in the same
      window, not re-armed and not reset, or in one that begins after the old one ended. */
  lemma {:induction false} WindowsAreDisjoint(rs: seq<Request>, i: nat, digest: string -> string, window: int, p: Party)
    requires window > 0 && InOrder(rs) && OwnKey(p, digest) && i <= |rs|
    requires CounterOf(rs[..i], digest, window, p).Some?
    ensures var a, c := CounterOf(rs[..i], digest, window, p).value, CounterOf(rs, digest, window, p);
            && c.Some? && a.expiry.Some? && c.value.expiry.Some?
            && (|| (c.value.expiry == a.expiry && c.value.n >= a.n)
                || c.value.expiry.value > a.expiry.value + window)
    decreases |rs|
  {
    hide CounterOf;
    CounterCountsWindow(rs[..i], digest, window, p);
    if i == |rs| {
      assert rs[..i] == rs;
    } else {
      var front := rs[..|rs| - 1];
      assert front[..i] == rs[..i];
      WindowsAreDisjoint(front, i, digest, window, p);
      CounterCountsWindow(front, digest, window, p);
      CounterNext(rs, digest, window, p);
    }
  }

  /** Requests after the interval add nothing to its admissions. */
  lemma {:induction false} LaterAddNothing(rs: seq<Request>, k: nat, digest: string -> string, window: int,
                                           allowance: nat, p: Party, from: int, until: int)
    requires k <= |rs| && forall i :: k <= i < |rs| ==> rs[i].time >= until
    ensures AdmittedIn(map[], rs, digest, window, allowance, p, from, until)
         == AdmittedIn(map[], rs[..k], digest, window, allowance, p, from, until)
    decreases |rs|
  {
    hide Admitted;
    if k < |rs| {
      var front := rs[..|rs| - 1];
      LaterAddNothing(front, k, digest, window, allowance, p, from, until);
      assert front[..k] == rs[..k];
    } else {
      assert rs[..k] == rs;
    }
  }

  /** Where the requests at or after a time begin. */
  lemma FirstNotBefore(rs: seq<Request>, until: int) returns (k: nat)
    requires InOrder(rs)
    ensures k <= |rs| && (forall i :: 0 <= i < k ==> rs[i].time < until) && (forall i :: k <= i < |rs| ==> rs[i].time >= until)
  {
    k := |rs|;
    while k > 0 && rs[k - 1].time >= until
      invariant k <= |rs| && forall i :: k <= i < |rs| ==> rs[i].time >= until
    {
      k := k - 1;
    }
  }

  /** Any interval of one window's length, both ends included, sees at most two allowances of one party
      admitted: of an address, whatever credentials its requests show, and of a credential, whatever
      addresses show it. */
  lemma IntervalBound(rs: seq<Request>, digest: string -> string, window: int, allowance: nat, p: Party, from: int)
    requires window > 0 && InOrder(rs) && OwnKey(p, digest)
    ensures AdmittedIn(map[], rs, digest, window, allowance, p, from, Until(from, window)) <= 2 * allowance
  {
    hide Admitted, AdmittedIn, CounterOf;
    var k := FirstNotBefore(rs, Until(from, window));
    LaterAddNothing(rs, k, digest, window, allowance, p, from, Until(from, window));
    var start := RunBound(rs[..k], digest, window, allowance, p, from);
    if k == 0 {
      NothingYet(rs[..k], digest, window, allowance, p, from, Until(from, window));
    }
  }

  /** Inside one window of a party's counter at most one allowance is admitted: after the requests
      up to its end, the counter still has the expiry that the window began with. */
  lemma OneWindowBound(rs: seq<Request>, k: nat, digest: string -> string, window: int, allowance: nat, p: Party, from: int)
    requires window > 0 && InOrder(rs) && OwnKey(p, digest) && k <= |rs|
    requires forall i :: 0 <= i < |rs| ==> (i < k <==> rs[i].time <= from + window)
    requires var c := CounterOf(rs[..k], digest, window, p); c.Some? && c.value.expiry == Some(from + window)
    ensures AdmittedIn(map[], rs, digest, window, allowance, p, from, Until(from, window)) <= allowance
  {
    hide Admitted, AdmittedIn, CounterOf;
    LaterAddNothing(rs, k, digest, window, allowance, p, from, Until(from, window));
    var start := RunBound(rs[..k], digest, window, allowance, p, from);
    if k == 0 {
      NothingYet(rs[..k], digest, window, allowance, p, from, Until(from, window));
    }
  }

  /* ---------- The decision, from the requests alone ---------- */

  /** When the party's current window began: with a request after the end of the one before. */
  function WindowStart(rs: seq<Request>, p: Party, window: int): Option<int>
    decreases |rs|
  {
    if rs == [] then None
    else
      var r, before := rs[|rs| - 1], WindowStart(rs[..|rs| - 1], p, window);
      if Shows(r, p) && (before.None? || r.time > before.value + window) then Some(r.time) else before
  }

  /** How many requests have shown the party since its window began. */
  function HitsInWindow(rs: seq<Request>, p: Party, window: int): nat {
    var start := WindowStart(rs, p, window);
    if start.None? then 0 else HitsSince(rs, p, start.value)
  }

  /** The counter runs the window that began at start. */
  predicate Times(c: Option<Counter>, start: Option<int>, window: int) {
    (c.Some? <==> start.Some?) && (c.Some? ==> c.value.expiry == Some(start.value + window) && c.value.n >= 1)
  }

  lemma HitTimes(c: Option<Counter>, start: Option<int>, now: int, window: int)
    requires Times(c, start, window)
    ensures Times(Some(Hit(c, now, window)), if start.None? || now > start.value + window then Some(now) else start, window)
  {
  }

  lemma {:induction false} StartOfCounter(rs: seq<Request>, digest: string -> string, window: int, p: Party)
    requires OwnKey(p, digest)
    ensures Times(CounterOf(rs, digest, window, p), WindowStart(rs, p, window), window)
    decreases |rs|
  {
    if rs != [] {
      hide CounterOf, OwnKey, Shows, Times, Hit;
      var last := |rs| - 1;
      StartOfCounter(rs[..last], digest, window, p);
      CounterNext(rs, digest, window, p);
      HitTimes(CounterOf(rs[..last], digest, window, p), WindowStart(rs[..last], p, window), rs[last].time, window);
    } else {
      assert After(map[], rs, digest, window) == map[];
    }
  }

  /** The counter of a party counts exactly the requests of its window. */
  lemma CountOfCounter(rs: seq<Request>, digest: string -> string, window: int, p: Party)
    requires window > 0 && InOrder(rs) && OwnKey(p, digest)
    ensures var c := CounterOf(rs, digest, window, p);
            HitsInWindow(rs, p, window) == if c.Some? then c.value.n else 0
  {
    hide CounterOf, OwnKey, Shows;
    StartOfCounter(rs, digest, window, p);
    CounterCountsWindow(rs, digest, window, p);
  }

  /** A request of a run is admitted exactly when the requests that show its address, in the address's
      current window, and those that show its credential, in the credential's, are within the allowance. */
  lemma AdmittedExactly(rs: seq<Request>, k: nat, digest: string -> string, window: int, allowance: int)
    requires window > 0 && InOrder(rs) && Injective(digest) && k < |rs|
    ensures Admitted(map[], rs, k, digest, window, allowance) <==>
            forall p :: Shows(rs[k], p) ==> HitsInWindow(rs[..k + 1], p, window) <= allowance
  {
    hide HitAll, Fullest, Buckets, Hit, Shows, Injective, HitsInWindow, KeyOf;
    var before := After(map[], rs[..k], digest, window);
    WithinExactly(before, rs[k], digest, window, allowance);
    forall p | Shows(rs[k], p) ensures HitsInWindow(rs[..k + 1], p, window) == HitOf(before, rs[k], digest, window, p) {
      CountOfCounter(rs[..k + 1], digest, window, p);
      CounterNext(rs[..k + 1], digest, window, p);
      assert rs[..k + 1][..k] == rs[..k];
    }
  }
}

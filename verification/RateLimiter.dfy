/**
  * The licence server's rate limiter: one counter per endpoint and key, opened by the first
  * request and thrown away once its window has passed. Time is in milliseconds.
  */
module RateLimiter {
  import opened Basics

  datatype Endpoint = Activate | Validate | Status

  function Window(e: Endpoint): nat {
    match e case Activate => 3600000 case Validate => 300000 case Status => 60000
  }

  function Max(e: Endpoint): nat {
    match e case Activate => 10 case Validate => 5 case Status => 30
  }

  function Name(e: Endpoint): string {
    match e case Activate => "activate" case Validate => "validate" case Status => "status"
  }

  function BucketKey(e: Endpoint, key: string): string { Name(e) + ":" + key }

  datatype Bucket = Bucket(count: nat, resetAt: int)

  type Buckets = map<string, Bucket>

  datatype Answer = Allowed | Denied(retryAfterMs: int)

  /** The bucket after one more charge: an absent or expired one is replaced first. */
  function Charged(last: Option<Bucket>, now: int, window: nat): Bucket {
    if last.None? || last.value.resetAt < now then Bucket(1, now + window)
    else Bucket(last.value.count + 1, last.value.resetAt)
  }

  function Look(buckets: Buckets, bucketKey: string): Option<Bucket> {
    if bucketKey in buckets then Some(buckets[bucketKey]) else None
  }

  /** The keys are charged in order; the first one over the limit ends the request. */
  function Requested(buckets: Buckets, e: Endpoint, keys: seq<string>, now: int): (Buckets, Answer)
    decreases |keys|
  {
    if keys == [] then (buckets, Allowed)
    else
      var bucketKey := BucketKey(e, keys[0]);
      var bucket := Charged(Look(buckets, bucketKey), now, Window(e));
      if bucket.count > Max(e) then (buckets[bucketKey := bucket], Denied(bucket.resetAt - now))
      else Requested(buckets[bucketKey := bucket], e, keys[1..], now)
  }

  function Cleaned(buckets: Buckets, now: int): Buckets {
    map k | k in buckets && buckets[k].resetAt >= now :: buckets[k]
  }

  class Limiter {
    var buckets: Buckets

    constructor ()
      ensures buckets == map[]
    {
      buckets := map[];
    }

    method Charge(bucketKey: string, now: int, window: nat) returns (bucket: Bucket)
      modifies this
      ensures bucket == Charged(Look(old(buckets), bucketKey), now, window)
      ensures buckets == old(buckets)[bucketKey := bucket]
    {
      if bucketKey !in buckets || buckets[bucketKey].resetAt < now {
        buckets := buckets[bucketKey := Bucket(0, now + window)];
      }
      bucket := Bucket(buckets[bucketKey].count + 1, buckets[bucketKey].resetAt);
      buckets := buckets[bucketKey := bucket];
    }

    method CheckRateLimit(e: Endpoint, keys: seq<string>, now: int) returns (answer: Answer)
      modifies this
      ensures (buckets, answer) == Requested(old(buckets), e, keys, now)
    {
      for i := 0 to |keys|
        invariant Requested(old(buckets), e, keys, now) == Requested(buckets, e, keys[i..], now)
      {
        assert keys[i..][0] == keys[i] && keys[i..][1..] == keys[i + 1..];
        var bucket := Charge(BucketKey(e, keys[i]), now, Window(e));
        if bucket.count > Max(e) {
          return Denied(bucket.resetAt - now);
        }
      }
      return Allowed;
    }

    method Cleanup(now: int)
      modifies this
      ensures buckets == Cleaned(old(buckets), now)
      ensures forall k :: k in buckets <==> k in old(buckets) && !(old(buckets)[k].resetAt < now)
    {
      var rest := buckets.Keys;
      while rest != {}
        invariant rest <= buckets.Keys <= old(buckets).Keys
        invariant forall k :: k in buckets ==> buckets[k] == old(buckets)[k]
        invariant forall k :: k in buckets && k !in rest ==> buckets[k].resetAt >= now
        invariant forall k :: k in old(buckets) && k !in buckets ==> old(buckets)[k].resetAt < now
        decreases |rest|
      {
        var k :| k in rest;
        rest := rest - {k};
        if buckets[k].resetAt < now {
          buckets := buckets - {k};
        }
      }
    }
  }

  // ---------------------------------------------------------------------------
  // Keys

  lemma ColonFree(e: Endpoint)
    ensures ':' !in Name(e)
  {
  }

  /** Two endpoints never share a bucket, nor do two keys of one endpoint. */
  lemma BucketKeyInjective(e: Endpoint, key: string, e': Endpoint, key': string)
    ensures BucketKey(e, key) == BucketKey(e', key') <==> e == e' && key == key'
  {
    if BucketKey(e, key) == BucketKey(e', key') {
      ColonFree(e);
      ColonFree(e');
      FirstSeparator(Name(e), key, Name(e'), key', ':');
      NameInjective(e, e');
    }
  }

  lemma NameInjective(e: Endpoint, e': Endpoint)
    requires Name(e) == Name(e')
    ensures e == e'
  {
    assert Name(Activate)[0] == 'a' && Name(Validate)[0] == 'v' && Name(Status)[0] == 's';
  }

  /** A request touches the buckets of its own endpoint and keys only. */
  lemma {:induction false} OtherBucketsUntouched(buckets: Buckets, e: Endpoint, keys: seq<string>, now: int,
      e': Endpoint, key: string)
    requires e != e' || key !in keys
    ensures Look(Requested(buckets, e, keys, now).0, BucketKey(e', key)) == Look(buckets, BucketKey(e', key))
    decreases |keys|
  {
    if keys != [] {
      var bucket := Charged(Look(buckets, BucketKey(e, keys[0])), now, Window(e));
      BucketKeyInjective(e, keys[0], e', key);
      OtherBucketsUntouched(buckets[BucketKey(e, keys[0]) := bucket], e, keys[1..], now, e', key);
    }
  }

  // ---------------------------------------------------------------------------
  // How a bucket moves

  ghost predicate Active(bucket: Option<Bucket>, now: int) { bucket.Some? && bucket.value.resetAt >= now }

  /** Some number of charges at one moment, possibly none, lead from one bucket to the other. */
  ghost predicate ChargedTo(last: Option<Bucket>, next: Option<Bucket>, now: int, window: nat) {
    last == next || ChargedFurther(last, next, now, window)
  }

  ghost predicate ChargedFurther(last: Option<Bucket>, next: Option<Bucket>, now: int, window: nat) {
    && next.Some?
    && (Active(last, now) ==> next.value.resetAt == last.value.resetAt && next.value.count > last.value.count)
    && (!Active(last, now) ==> next.value.resetAt == now + window && next.value.count >= 1)
  }

  /** An allowed request has charged each of its keys and stayed within the limit. */
  lemma {:induction false} RequestCharges(buckets: Buckets, e: Endpoint, keys: seq<string>, now: int, key: string)
    ensures var (after, answer) := Requested(buckets, e, keys, now);
      var last, next := Look(buckets, BucketKey(e, key)), Look(after, BucketKey(e, key));
      && ChargedTo(last, next, now, Window(e))
      && (answer == Allowed && key in keys ==>
            ChargedFurther(last, next, now, Window(e)) && next.value.count <= Max(e))
    decreases |keys|
  {
    if keys != [] {
      var bucket := Charged(Look(buckets, BucketKey(e, keys[0])), now, Window(e));
      var middle := buckets[BucketKey(e, keys[0]) := bucket];
      BucketKeyInjective(e, keys[0], e, key);
      RequestCharges(middle, e, keys[1..], now, key);
      if key !in keys[1..] {
        OtherBucketsUntouched(middle, e, keys[1..], now, e, key);
      }
    }
  }

  // ---------------------------------------------------------------------------
  // Runs

  datatype Event = Request(endpoint: Endpoint, keys: seq<string>, at: int) | Cleanup(at: int)

  function After(buckets: Buckets, event: Event): Buckets {
    match event
    case Request(e, keys, now) => Requested(buckets, e, keys, now).0
    case Cleanup(now) => Cleaned(buckets, now)
  }

  ghost predicate Ordered(events: seq<Event>) {
    forall i, j :: 0 <= i < j < |events| ==> events[i].at <= events[j].at
  }

  predicate Granted(buckets: Buckets, event: Event) {
    event.Request? && Requested(buckets, event.endpoint, event.keys, event.at).1 == Allowed
  }

  predicate Concerns(event: Event, e: Endpoint, key: string, lo: int, hi: int) {
    event.Request? && event.endpoint == e && key in event.keys && lo <= event.at <= hi
  }

  /** How many requests for a key were allowed between two moments, both included. */
  function GrantedIn(buckets: Buckets, events: seq<Event>, e: Endpoint, key: string, lo: int, hi: int): nat
    decreases |events|
  {
    if events == [] then 0
    else
      (if Concerns(events[0], e, key, lo, hi) && Granted(buckets, events[0]) then 1 else 0)
      + GrantedIn(After(buckets, events[0]), events[1..], e, key, lo, hi)
  }

  /** What the bucket tells at time t of the n requests allowed since lo: one that was opened
    * before lo spent its first charge before lo, and no two can open within one window. */
  ghost predicate Fits(bucket: Option<Bucket>, n: nat, t: int, lo: int, window: nat, max: nat) {
    && (n > 0 ==> t >= lo)
    && n <= 2 * max - 1
    && (bucket.None? ==> t > lo + window || n <= max - 1)
    && (bucket.Some? ==>
          var start := bucket.value.resetAt - window;
          && start <= t
          && (start < lo ==> n <= max - 1 && n <= bucket.value.count - 1)
          && (lo <= start <= lo + window ==> n <= max - 1 + bucket.value.count))
  }

  lemma ChargeFits(last: Option<Bucket>, next: Option<Bucket>, n: nat, t: int, now: int, lo: int, window: nat,
      max: nat, counted: bool)
    requires max >= 1 && t <= now
    requires Fits(last, n, t, lo, window, max)
    requires ChargedTo(last, next, now, window)
    requires counted ==> lo <= now <= lo + window && ChargedFurther(last, next, now, window) && next.value.count <= max
    ensures Fits(next, if counted then n + 1 else n, now, lo, window, max)
  {
  }

  lemma EventFits(buckets: Buckets, event: Event, n: nat, t: int, e: Endpoint, key: string, lo: int)
    requires t <= event.at
    requires Fits(Look(buckets, BucketKey(e, key)), n, t, lo, Window(e), Max(e))
    ensures
      var counted := Concerns(event, e, key, lo, lo + Window(e)) && Granted(buckets, event);
      Fits(Look(After(buckets, event), BucketKey(e, key)), if counted then n + 1 else n, event.at, lo, Window(e),
        Max(e))
  {
    var last, next := Look(buckets, BucketKey(e, key)), Look(After(buckets, event), BucketKey(e, key));
    var counted := Concerns(event, e, key, lo, lo + Window(e)) && Granted(buckets, event);
    if event.Request? {
      if event.endpoint == e {
        RequestCharges(buckets, e, event.keys, event.at, key);
      } else {
        OtherBucketsUntouched(buckets, event.endpoint, event.keys, event.at, e, key);
      }
      ChargeFits(last, next, n, t, event.at, lo, Window(e), Max(e), counted);
    }
  }

  lemma {:induction false} RunFits(buckets: Buckets, events: seq<Event>, n: nat, t: int, e: Endpoint, key: string,
      lo: int)
    requires Ordered(events) && (events != [] ==> t <= events[0].at)
    requires Fits(Look(buckets, BucketKey(e, key)), n, t, lo, Window(e), Max(e))
    ensures n + GrantedIn(buckets, events, e, key, lo, lo + Window(e)) <= 2 * Max(e) - 1
    decreases |events|
  {
    if events != [] {
      var counted := Concerns(events[0], e, key, lo, lo + Window(e)) && Granted(buckets, events[0]);
      EventFits(buckets, events[0], n, t, e, key, lo);
      assert |events| > 1 ==> events[1..][0] == events[1];
      RunFits(After(buckets, events[0]), events[1..], if counted then n + 1 else n, events[0].at, e, key, lo);
    }
  }

  /** The limiter's bound over all runs: in no closed interval of one window's length are more
    * than twice the limit, less one, requests for a key allowed. */
  lemma GrantedBound(events: seq<Event>, e: Endpoint, key: string, lo: int)
    requires Ordered(events)
    ensures GrantedIn(map[], events, e, key, lo, lo + Window(e)) <= 2 * Max(e) - 1
  {
    if events != [] {
      RunFits(map[], events, 0, events[0].at, e, key, lo);
    }
  }

  /** In numbers: nineteen activations in an hour, nine validations in five minutes, 59 status
    * requests in a minute. */
  lemma GrantedAtMost(events: seq<Event>, key: string, lo: int)
    requires Ordered(events)
    ensures GrantedIn(map[], events, Activate, key, lo, lo + 3600000) <= 19
    ensures GrantedIn(map[], events, Validate, key, lo, lo + 300000) <= 9
    ensures GrantedIn(map[], events, Status, key, lo, lo + 60000) <= 59
  {
    GrantedBound(events, Activate, key, lo);
    GrantedBound(events, Validate, key, lo);
    GrantedBound(events, Status, key, lo);
  }

  /** One request opens the buckets, the rest of their limit follows at the last moment of their
    * window, and a full limit one millisecond later. */
  function Worst(e: Endpoint, keys: seq<string>): seq<Event> {
    seq(2 * Max(e), i => Request(e, keys, WorstTime(e, i)))
  }

  function WorstTime(e: Endpoint, i: int): int {
    if i <= 0 then 0 else if i < Max(e) then Window(e) else Window(e) + 1
  }

  function WorstBucket(e: Endpoint, i: nat): Bucket {
    if i <= Max(e) then Bucket(i, Window(e)) else Bucket(i - Max(e), 2 * Window(e) + 1)
  }

  lemma OneKey(buckets: Buckets, e: Endpoint, key: string, now: int)
    ensures var bucket := Charged(Look(buckets, BucketKey(e, key)), now, Window(e));
      Requested(buckets, e, [key], now)
        == (buckets[BucketKey(e, key) := bucket],
            if bucket.count > Max(e) then Denied(bucket.resetAt - now) else Allowed)
  {
    assert [key][1..] == [];
  }

  ghost predicate AllAt(buckets: Buckets, e: Endpoint, keys: seq<string>, bucket: Option<Bucket>) {
    forall key :: key in keys ==> Look(buckets, BucketKey(e, key)) == bucket
  }

  /** Keys whose buckets stand alike are charged alike. */
  lemma {:induction false} AlikeCharged(buckets: Buckets, e: Endpoint, keys: seq<string>, now: int,
      last: Option<Bucket>)
    requires Distinct(keys) && AllAt(buckets, e, keys, last) && Charged(last, now, Window(e)).count <= Max(e)
    ensures Requested(buckets, e, keys, now).1 == Allowed
    ensures AllAt(Requested(buckets, e, keys, now).0, e, keys, Some(Charged(last, now, Window(e))))
    decreases |keys|
  {
    if keys != [] {
      var middle := buckets[BucketKey(e, keys[0]) := Charged(last, now, Window(e))];
      assert keys[0] in keys && keys[0] !in keys[1..];
      forall key | key in keys[1..] ensures Look(middle, BucketKey(e, key)) == last {
        BucketKeyInjective(e, keys[0], e, key);
      }
      AlikeCharged(middle, e, keys[1..], now, last);
      OtherBucketsUntouched(middle, e, keys[1..], now, e, keys[0]);
    }
  }

  lemma GrantedFirst(buckets: Buckets, event: Event, rest: seq<Event>, e: Endpoint, key: string, lo: int, hi: int)
    requires Concerns(event, e, key, lo, hi) && Granted(buckets, event)
    ensures GrantedIn(buckets, [event] + rest, e, key, lo, hi)
         == 1 + GrantedIn(After(buckets, event), rest, e, key, lo, hi)
  {
    assert ([event] + rest)[1..] == rest;
  }

  lemma WorstCharged(e: Endpoint, i: nat)
    requires 1 <= i < 2 * Max(e)
    ensures Charged(Some(WorstBucket(e, i)), WorstTime(e, i), Window(e)) == WorstBucket(e, i + 1)
    ensures WorstBucket(e, i + 1).count <= Max(e)
  {
  }

  lemma {:induction false} WorstFrom(buckets: Buckets, e: Endpoint, keys: seq<string>, key: string, i: nat)
    requires 1 <= i <= 2 * Max(e) && Distinct(keys) && key in keys
    requires AllAt(buckets, e, keys, Some(WorstBucket(e, i)))
    ensures GrantedIn(buckets, Worst(e, keys)[i..], e, key, 1, 1 + Window(e)) == 2 * Max(e) - i
    decreases 2 * Max(e) - i
  {
    var events := Worst(e, keys);
    if i < |events| {
      WorstCharged(e, i);
      AlikeCharged(buckets, e, keys, WorstTime(e, i), Some(WorstBucket(e, i)));
      var after := Requested(buckets, e, keys, WorstTime(e, i)).0;
      WorstFrom(after, e, keys, key, i + 1);
      GrantedFirst(buckets, Request(e, keys, WorstTime(e, i)), events[i + 1..], e, key, 1, 1 + Window(e));
      assert events[i..] == [Request(e, keys, WorstTime(e, i))] + events[i + 1..];
    }
  }

  lemma WorstOrdered(e: Endpoint, keys: seq<string>)
    ensures Ordered(Worst(e, keys))
  {
  }

  /** The bound is reached at every endpoint, for each of any distinct keys: the documented ten,
    * five and thirty requests per window are the limit of one bucket, not of every window. */
  lemma GrantedBoundReached(e: Endpoint, keys: seq<string>, key: string)
    requires Distinct(keys) && key in keys
    ensures Ordered(Worst(e, keys))
    ensures GrantedIn(map[], Worst(e, keys), e, key, 1, 1 + Window(e)) == 2 * Max(e) - 1
  {
    var events := Worst(e, keys);
    assert events[0] == Request(e, keys, WorstTime(e, 0));
    WorstOrdered(e, keys);
    AlikeCharged(map[], e, keys, 0, None);
    WorstFrom(Requested(map[], e, keys, 0).0, e, keys, key, 1);
  }

  lemma NumbersReached(keys: seq<string>, key: string)
    requires Distinct(keys) && key in keys
    ensures GrantedIn(map[], Worst(Activate, keys), Activate, key, 1, 3600001) == 19
    ensures GrantedIn(map[], Worst(Validate, keys), Validate, key, 1, 300001) == 9
    ensures GrantedIn(map[], Worst(Status, keys), Status, key, 1, 60001) == 59
  {
    GrantedBoundReached(Activate, keys, key);
    GrantedBoundReached(Validate, keys, key);
    GrantedBoundReached(Status, keys, key);
  }

  // ---------------------------------------------------------------------------
  // When the documented limit holds

  ghost predicate NotBefore(events: seq<Event>, lo: int) { forall i :: 0 <= i < |events| ==> lo <= events[i].at }

  /** The documented promise for one window: whatever follows, at most `Max` requests for the key
    * are allowed from lo to the end of the window. */
  ghost predicate LimitHolds(buckets: Buckets, e: Endpoint, key: string, lo: int) {
    forall events :: Ordered(events) && NotBefore(events, lo) ==>
      GrantedIn(buckets, events, e, key, lo, lo + Window(e)) <= Max(e)
  }

  /** The bucket runs out within the window and leaves room before: its last requests and those
    * of the next bucket fall into one window. */
  predicate Straddles(bucket: Option<Bucket>, lo: int, window: nat, max: nat) {
    bucket.Some? && lo <= bucket.value.resetAt < lo + window && bucket.value.count < max
  }

  /** Of the n requests allowed since lo, until the window is over: the unexpired bucket has been
    * charged for them and outlives the window, or was used up before; with no such bucket there
    * were none. */
  ghost predicate FitsOnce(bucket: Option<Bucket>, n: nat, t: int, lo: int, window: nat, max: nat) {
    && n <= max && lo <= t
    && (t > lo + window
        || (if Active(bucket, t) then
              (bucket.value.resetAt >= lo + window && n <= bucket.value.count) || (n == 0 && bucket.value.count >= max)
            else n == 0))
  }

  lemma ChargeFitsOnce(last: Option<Bucket>, next: Option<Bucket>, n: nat, t: int, now: int, lo: int, window: nat,
      max: nat, counted: bool)
    requires t <= now && FitsOnce(last, n, t, lo, window, max)
    requires ChargedTo(last, next, now, window)
    requires counted ==> lo <= now <= lo + window && ChargedFurther(last, next, now, window) && next.value.count <= max
    ensures FitsOnce(next, if counted then n + 1 else n, now, lo, window, max)
  {
  }

  lemma EventFitsOnce(buckets: Buckets, event: Event, n: nat, t: int, e: Endpoint, key: string, lo: int)
    requires t <= event.at
    requires FitsOnce(Look(buckets, BucketKey(e, key)), n, t, lo, Window(e), Max(e))
    ensures var counted := Concerns(event, e, key, lo, lo + Window(e)) && Granted(buckets, event);
      FitsOnce(Look(After(buckets, event), BucketKey(e, key)), if counted then n + 1 else n, event.at, lo, Window(e),
        Max(e))
  {
    var last, next := Look(buckets, BucketKey(e, key)), Look(After(buckets, event), BucketKey(e, key));
    var counted := Concerns(event, e, key, lo, lo + Window(e)) && Granted(buckets, event);
    if event.Request? {
      if event.endpoint == e {
        RequestCharges(buckets, e, event.keys, event.at, key);
      } else {
        OtherBucketsUntouched(buckets, event.endpoint, event.keys, event.at, e, key);
      }
      ChargeFitsOnce(last, next, n, t, event.at, lo, Window(e), Max(e), counted);
    }
  }

  lemma {:induction false} RunFitsOnce(buckets: Buckets, events: seq<Event>, n: nat, t: int, e: Endpoint, key: string,
      lo: int)
    requires Ordered(events) && (events != [] ==> t <= events[0].at)
    requires FitsOnce(Look(buckets, BucketKey(e, key)), n, t, lo, Window(e), Max(e))
    ensures n + GrantedIn(buckets, events, e, key, lo, lo + Window(e)) <= Max(e)
    decreases |events|
  {
    if events != [] {
      var counted := Concerns(events[0], e, key, lo, lo + Window(e)) && Granted(buckets, events[0]);
      EventFitsOnce(buckets, events[0], n, t, e, key, lo);
      assert |events| > 1 ==> events[1..][0] == events[1];
      RunFitsOnce(After(buckets, events[0]), events[1..], if counted then n + 1 else n, events[0].at, e, key, lo);
    }
  }

  /** n requests for the key at one moment. */
  function Burst(e: Endpoint, key: string, n: nat, at: int): seq<Event> { seq(n, _ => Request(e, [key], at)) }

  lemma {:induction false} BurstGranted(buckets: Buckets, e: Endpoint, key: string, n: nat, at: int, lo: int)
    requires var bucket := Look(buckets, BucketKey(e, key));
      n <= Max(e) && (Active(bucket, at) ==> bucket.value.count + n <= Max(e))
    requires lo <= at <= lo + Window(e)
    ensures GrantedIn(buckets, Burst(e, key, n, at), e, key, lo, lo + Window(e)) == n
    decreases n
  {
    if n > 0 {
      OneKey(buckets, e, key, at);
      var after := Requested(buckets, e, [key], at).0;
      assert Burst(e, key, n, at) == [Request(e, [key], at)] + Burst(e, key, n - 1, at);
      BurstGranted(after, e, key, n - 1, at, lo);
      GrantedFirst(buckets, Request(e, [key], at), Burst(e, key, n - 1, at), e, key, lo, lo + Window(e));
    }
  }

  /** One request at lo, then a full burst as soon as the bucket has expired. */
  function Straddling(e: Endpoint, key: string, lo: int, resetAt: int): seq<Event> {
    [Request(e, [key], lo)] + Burst(e, key, Max(e), resetAt + 1)
  }

  lemma StraddlingGranted(buckets: Buckets, e: Endpoint, key: string, lo: int, resetAt: int)
    requires var bucket := Look(buckets, BucketKey(e, key));
      Straddles(bucket, lo, Window(e), Max(e)) && bucket.value.resetAt == resetAt
    ensures GrantedIn(buckets, Straddling(e, key, lo, resetAt), e, key, lo, lo + Window(e)) == Max(e) + 1
  {
    var events := Straddling(e, key, lo, resetAt);
    OneKey(buckets, e, key, lo);
    assert events[0] == Request(e, [key], lo) && events[1..] == Burst(e, key, Max(e), resetAt + 1);
    BurstGranted(Requested(buckets, e, [key], lo).0, e, key, Max(e), resetAt + 1, lo);
  }

  /** The documented limit holds for the window from lo, whatever follows, exactly when the key's
    * bucket does not run out within it with room left. */
  lemma LimitHoldsIff(buckets: Buckets, e: Endpoint, key: string, lo: int)
    ensures LimitHolds(buckets, e, key, lo) <==>
      !Straddles(Look(buckets, BucketKey(e, key)), lo, Window(e), Max(e))
  {
    var bucket := Look(buckets, BucketKey(e, key));
    if Straddles(bucket, lo, Window(e), Max(e)) {
      var events := Straddling(e, key, lo, bucket.value.resetAt);
      StraddlingGranted(buckets, e, key, lo, bucket.value.resetAt);
      assert Ordered(events) && NotBefore(events, lo);
    } else {
      forall events | Ordered(events) && NotBefore(events, lo)
        ensures GrantedIn(buckets, events, e, key, lo, lo + Window(e)) <= Max(e)
      {
        RunFitsOnce(buckets, events, 0, lo, e, key, lo);
      }
    }
  }

  /** What precedes a window does not count in it, so the limit holds for the window of a whole
    * run if it holds for the table the run has led to at its start. */
  lemma {:induction false} GrantedFrom(buckets: Buckets, before: seq<Event>, events: seq<Event>, e: Endpoint,
      key: string, lo: int, hi: int)
    requires forall i :: 0 <= i < |before| ==> before[i].at < lo
    ensures GrantedIn(buckets, before + events, e, key, lo, hi)
         == GrantedIn(Run(buckets, before), events, e, key, lo, hi)
    decreases |before|
  {
    if before == [] {
      assert before + events == events;
    } else {
      assert (before + events)[1..] == before[1..] + events;
      GrantedFrom(After(buckets, before[0]), before[1..], events, e, key, lo, hi);
    }
  }

  function Run(buckets: Buckets, events: seq<Event>): Buckets
    decreases |events|
  {
    if events == [] then buckets else Run(After(buckets, events[0]), events[1..])
  }

  // ---------------------------------------------------------------------------
  // When a request is denied

  ghost predicate Exhausted(buckets: Buckets, e: Endpoint, key: string, now: int) {
    var bucket := Look(buckets, BucketKey(e, key));
    Active(bucket, now) && bucket.value.count >= Max(e)
  }

  lemma {:induction false} ExhaustedDenies(buckets: Buckets, e: Endpoint, keys: seq<string>, now: int, key: string)
    requires key in keys && Exhausted(buckets, e, key, now)
    ensures Requested(buckets, e, keys, now).1.Denied?
    decreases |keys|
  {
    if key != keys[0] {
      BucketKeyInjective(e, keys[0], e, key);
      var bucket := Charged(Look(buckets, BucketKey(e, keys[0])), now, Window(e));
      ExhaustedDenies(buckets[BucketKey(e, keys[0]) := bucket], e, keys[1..], now, key);
    }
  }

  lemma {:induction false} UnexhaustedAllows(buckets: Buckets, e: Endpoint, keys: seq<string>, now: int)
    requires Distinct(keys) && forall key :: key in keys ==> !Exhausted(buckets, e, key, now)
    ensures Requested(buckets, e, keys, now).1 == Allowed
    decreases |keys|
  {
    if keys != [] {
      var bucket := Charged(Look(buckets, BucketKey(e, keys[0])), now, Window(e));
      var middle := buckets[BucketKey(e, keys[0]) := bucket];
      assert !Exhausted(buckets, e, keys[0], now);
      forall key | key in keys[1..] ensures !Exhausted(middle, e, key, now) {
        assert key != keys[0] && !Exhausted(buckets, e, key, now);
        BucketKeyInjective(e, keys[0], e, key);
      }
      UnexhaustedAllows(middle, e, keys[1..], now);
    }
  }

  /** With distinct keys, as both callers give, a request is denied exactly when the unexpired
    * bucket of one of its keys has used up the limit. */
  lemma DeniedIff(buckets: Buckets, e: Endpoint, keys: seq<string>, now: int)
    requires Distinct(keys)
    ensures Requested(buckets, e, keys, now).1.Denied? <==> exists key :: key in keys && Exhausted(buckets, e, key, now)
  {
    if key :| key in keys && Exhausted(buckets, e, key, now) {
      ExhaustedDenies(buckets, e, keys, now, key);
    } else {
      UnexhaustedAllows(buckets, e, keys, now);
    }
  }

  lemma {:induction false} DeniedBucket(buckets: Buckets, e: Endpoint, keys: seq<string>, now: int)
      returns (key: string)
    requires Requested(buckets, e, keys, now).1.Denied?
    ensures var (after, answer) := Requested(buckets, e, keys, now);
      var bucket := Look(after, BucketKey(e, key));
      && key in keys && bucket.Some?
      && bucket.value.count > Max(e) && bucket.value.resetAt == now + answer.retryAfterMs && answer.retryAfterMs >= 0
    decreases |keys|
  {
    var bucket := Charged(Look(buckets, BucketKey(e, keys[0])), now, Window(e));
    if bucket.count > Max(e) {
      key := keys[0];
    } else {
      key := DeniedBucket(buckets[BucketKey(e, keys[0]) := bucket], e, keys[1..], now);
    }
  }

  lemma PrefixCons<T>(s: seq<T>, n: nat)
    requires n < |s|
    ensures s[..n + 1] == [s[0]] + s[1..][..n]
    ensures s[..n + 1][1..] == s[1..][..n]
  {
  }

  /** Only the buckets of these keys have changed. */
  ghost predicate ChargedOnly(buckets: Buckets, after: Buckets, e: Endpoint, keys: seq<string>) {
    forall key :: key !in keys ==> Look(after, BucketKey(e, key)) == Look(buckets, BucketKey(e, key))
  }

  lemma ChargedFirst(buckets: Buckets, e: Endpoint, first: string, bucket: Bucket, after: Buckets, rest: seq<string>)
    requires ChargedOnly(buckets[BucketKey(e, first) := bucket], after, e, rest)
    ensures ChargedOnly(buckets, after, e, [first] + rest)
  {
    forall key | key !in [first] + rest
      ensures Look(after, BucketKey(e, key)) == Look(buckets, BucketKey(e, key))
    {
      assert key != first by { assert ([first] + rest)[0] == first; }
      assert key !in rest by { assert forall k :: k in rest ==> k in [first] + rest; }
      BucketKeyInjective(e, key, e, first);
    }
  }

  /** A denied request ends at the key that is over the limit: the keys after it are not charged. */
  lemma {:induction false} DeniedStops(buckets: Buckets, e: Endpoint, keys: seq<string>, now: int) returns (i: nat)
    requires Requested(buckets, e, keys, now).1.Denied?
    ensures i < |keys| && Requested(buckets, e, keys[..i], now).1 == Allowed
    ensures ChargedOnly(buckets, Requested(buckets, e, keys, now).0, e, keys[..i + 1])
    decreases |keys|
  {
    var bucket := Charged(Look(buckets, BucketKey(e, keys[0])), now, Window(e));
    var middle := buckets[BucketKey(e, keys[0]) := bucket];
    if bucket.count > Max(e) {
      i := 0;
      ChargedFirst(buckets, e, keys[0], bucket, middle, []);
      assert keys[..1] == [keys[0]] + [];
    } else {
      i := DeniedStops(middle, e, keys[1..], now);
      ChargedFirst(buckets, e, keys[0], bucket, Requested(middle, e, keys[1..], now).0, keys[1..][..i + 1]);
      PrefixCons(keys, i);
      PrefixCons(keys, i + 1);
      i := i + 1;
    }
  }

  /** A denied client that retries after exactly the time it was told is denied again: the
    * bucket is replaced only after its last millisecond. */
  lemma RetryOnTheDot(buckets: Buckets, e: Endpoint, keys: seq<string>, now: int)
    requires Requested(buckets, e, keys, now).1.Denied?
    ensures var (after, answer) := Requested(buckets, e, keys, now);
      Requested(after, e, keys, now + answer.retryAfterMs).1.Denied?
  {
    var key := DeniedBucket(buckets, e, keys, now);
    var (after, answer) := Requested(buckets, e, keys, now);
    ExhaustedDenies(after, e, keys, now + answer.retryAfterMs, key);
  }

  /** A denied client that is left alone is denied again at a later moment exactly until the
    * announced time has passed, or while another of its keys has used up its limit. */
  lemma RetryIff(buckets: Buckets, e: Endpoint, keys: seq<string>, now: int, later: int) returns (over: string)
    requires Distinct(keys) && Requested(buckets, e, keys, now).1.Denied?
    ensures over in keys
    ensures var (after, answer) := Requested(buckets, e, keys, now);
      Requested(after, e, keys, later).1.Denied? <==>
        || later <= now + answer.retryAfterMs
        || exists key :: key in keys && key != over && Exhausted(after, e, key, later)
  {
    over := DeniedBucket(buckets, e, keys, now);
    var (after, answer) := Requested(buckets, e, keys, now);
    assert Exhausted(after, e, over, later) <==> later <= now + answer.retryAfterMs;
    DeniedIff(after, e, keys, later);
  }

  // ---------------------------------------------------------------------------
  // The cleaner

  /** The cleaned buckets, and what is missing from them has expired. */
  ghost predicate SameButExpired(cleaned: Buckets, kept: Buckets, now: int) {
    && (forall k :: k in cleaned ==> k in kept && kept[k] == cleaned[k])
    && (forall k :: k in kept && k !in cleaned ==> kept[k].resetAt < now)
  }

  lemma SameCharge(cleaned: Buckets, kept: Buckets, bucketKey: string, now: int, window: nat)
    requires SameButExpired(cleaned, kept, now)
    ensures var bucket := Charged(Look(cleaned, bucketKey), now, window);
      && Charged(Look(kept, bucketKey), now, window) == bucket
      && SameButExpired(cleaned[bucketKey := bucket], kept[bucketKey := bucket], now)
  {
  }

  lemma {:induction false} SameRequest(cleaned: Buckets, kept: Buckets, e: Endpoint, keys: seq<string>, now: int)
    requires SameButExpired(cleaned, kept, now)
    ensures Requested(cleaned, e, keys, now).1 == Requested(kept, e, keys, now).1
    ensures SameButExpired(Requested(cleaned, e, keys, now).0, Requested(kept, e, keys, now).0, now)
    decreases |keys|
  {
    if keys != [] {
      var bucketKey := BucketKey(e, keys[0]);
      var bucket := Charged(Look(cleaned, bucketKey), now, Window(e));
      SameCharge(cleaned, kept, bucketKey, now, Window(e));
      SameRequest(cleaned[bucketKey := bucket], kept[bucketKey := bucket], e, keys[1..], now);
    }
  }

  function Answers(buckets: Buckets, events: seq<Event>): seq<Answer>
    decreases |events|
  {
    if events == [] then []
    else
      (match events[0]
       case Request(e, keys, now) => [Requested(buckets, e, keys, now).1]
       case Cleanup(_) => [])
      + Answers(After(buckets, events[0]), events[1..])
  }

  function WithoutCleanups(events: seq<Event>): seq<Event> {
    if events == [] then []
    else (if events[0].Cleanup? then [] else [events[0]]) + WithoutCleanups(events[1..])
  }

  lemma {:induction false} SameAnswers(cleaned: Buckets, kept: Buckets, events: seq<Event>, t: int)
    requires Ordered(events) && (events != [] ==> t <= events[0].at)
    requires SameButExpired(cleaned, kept, t)
    ensures Answers(cleaned, events) == Answers(kept, WithoutCleanups(events))
    decreases |events|
  {
    if events != [] {
      var event, rest := events[0], events[1..];
      assert rest != [] ==> rest[0] == events[1];
      var next := if event.Cleanup? then kept else After(kept, event);
      if event.Request? {
        SameRequest(cleaned, kept, event.endpoint, event.keys, event.at);
        FirstAnswer(kept, event, WithoutCleanups(rest));
        assert WithoutCleanups(events) == [event] + WithoutCleanups(rest);
      } else {
        assert WithoutCleanups(events) == WithoutCleanups(rest);
        assert Answers(cleaned, events) == Answers(After(cleaned, event), rest);
      }
      SameAnswers(After(cleaned, event), next, rest, event.at);
    }
  }

  lemma FirstAnswer(buckets: Buckets, event: Event, rest: seq<Event>)
    requires event.Request?
    ensures Answers(buckets, [event] + rest)
         == [Requested(buckets, event.endpoint, event.keys, event.at).1] + Answers(After(buckets, event), rest)
  {
    assert ([event] + rest)[1..] == rest;
  }

  /** Wherever cleanups fall in a run, its requests get the answers they get without them. */
  lemma CleanerUnobservable(events: seq<Event>)
    requires Ordered(events)
    ensures Answers(map[], events) == Answers(map[], WithoutCleanups(events))
  {
    SameAnswers(map[], map[], events, if events == [] then 0 else events[0].at);
  }
}

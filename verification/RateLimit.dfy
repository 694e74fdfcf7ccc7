/**
 * The fixed-window limiter with bounded memory. The bucket map is a sequence of
 * entries in the insertion order a JavaScript Map keeps (section 24.1 of
 * ECMA-262): setting a present key leaves its place, a new key goes last.
 */
module RateLimit {
  import opened Options
  import opened Seqs

  datatype Window = Window(count: int, resetAt: int, limit: int)

  datatype Bucket = Bucket(key: string, window: Window)

  datatype Verdict = Verdict(allowed: bool, remaining: int, retryAfterSeconds: int)

  const MAX_TRACKED_KEYS: nat := 10_000

  // ------------------------------------------------------------ the map of buckets

  function Lookup(b: seq<Bucket>, key: string): Option<Window> {
    if b == [] then None
    else if b[0].key == key then Some(b[0].window)
    else Lookup(b[1..], key)
  }

  function Keys(b: seq<Bucket>): set<string> {
    if b == [] then {} else {b[0].key} + Keys(b[1..])
  }

  predicate Unique(b: seq<Bucket>) {
    b != [] ==> b[0].key !in Keys(b[1..]) && Unique(b[1..])
  }

  function Put(b: seq<Bucket>, key: string, w: Window): seq<Bucket> {
    if b == [] then [Bucket(key, w)]
    else if b[0].key == key then [Bucket(key, w)] + b[1..]
    else [b[0]] + Put(b[1..], key, w)
  }

  function Delete(b: seq<Bucket>, key: string): seq<Bucket> {
    if b == [] then [] else if b[0].key == key then b[1..] else [b[0]] + Delete(b[1..], key)
  }

  /** A window is live until the moment it resets. */
  predicate Live(w: Window, now: int) {
    now < w.resetAt
  }

  predicate Throttled(w: Window) {
    w.count >= w.limit
  }

  /** The buckets that are still live. */
  function Sweep(b: seq<Bucket>, now: int): seq<Bucket> {
    if b == [] then []
    else (if Live(b[0].window, now) then [b[0]] else []) + Sweep(b[1..], now)
  }

  /** All but the first `n` buckets that are not throttled. */
  function DropIdle(b: seq<Bucket>, n: int): seq<Bucket> {
    if b == [] || n <= 0 then b
    else if Throttled(b[0].window) then [b[0]] + DropIdle(b[1..], n)
    else DropIdle(b[1..], n - 1)
  }

  // --------------------------------------------------------------------- one hit

  function MakeRoom(b: seq<Bucket>, now: int): seq<Bucket> {
    if |b| < MAX_TRACKED_KEYS then b
    else
      var live := Sweep(b, now);
      if |live| < MAX_TRACKED_KEYS then live else DropIdle(live, |live| - MAX_TRACKED_KEYS + 1)
  }

  function Opened(now: int, limit: int, windowMs: int): Window {
    Window(1, now + windowMs, limit)
  }

  function Counted(w: Window, limit: int): Window {
    Window(w.count + 1, w.resetAt, limit)
  }

  function CeilSeconds(ms: int): int {
    (ms + 999) / 1000
  }

  function Judge(w: Window, now: int): Verdict {
    var allowed := w.count <= w.limit;
    Verdict(allowed, if w.limit - w.count > 0 then w.limit - w.count else 0,
            if allowed then 0 else CeilSeconds(w.resetAt - now))
  }

  predicate HasLive(b: seq<Bucket>, key: string, now: int) {
    var w := Lookup(b, key);
    w.Some? && Live(w.value, now)
  }

  function Hit(b: seq<Bucket>, now: int, key: string, limit: int, windowMs: int): (seq<Bucket>, Verdict) {
    if HasLive(b, key, now) then
      var w := Counted(Lookup(b, key).value, limit);
      (Put(b, key, w), Judge(w, now))
    else
      var room := MakeRoom(b, now);
      (if |room| >= MAX_TRACKED_KEYS then room else Put(room, key, Opened(now, limit, windowMs)),
       Verdict(true, limit - 1, 0))
  }

  // -------------------------------------------------------------- the limiter itself

  class Limiter {
    var buckets: seq<Bucket>

    ghost predicate Valid()
      reads this
    {
      Unique(buckets) && |buckets| <= MAX_TRACKED_KEYS
    }

    constructor ()
      ensures Valid() && buckets == []
    {
      buckets := [];
    }

    method Sweeping(now: int)
      modifies this
      ensures buckets == Sweep(old(buckets), now)
    {
      hide Sweep;
      var i := 0;
      while i < |buckets|
        invariant 0 <= i <= |buckets|
        invariant buckets[..i] + Sweep(buckets[i..], now) == Sweep(old(buckets), now)
        decreases |buckets| - i
      {
        SweepOne(buckets, i, now);
        if buckets[i].window.resetAt <= now {
          CutOut(buckets, i);
          buckets := buckets[..i] + buckets[i + 1..];
        } else {
          i := i + 1;
        }
      }
      SweepNothing(buckets[i..], now);
      assert buckets[..i] + [] == buckets;
    }

    method Evicting(n: int)
      modifies this
      ensures buckets == DropIdle(old(buckets), n)
    {
      hide DropIdle;
      var i, toDrop := 0, n;
      while i < |buckets| && toDrop > 0
        invariant 0 <= i <= |buckets|
        invariant buckets[..i] + DropIdle(buckets[i..], toDrop) == DropIdle(old(buckets), n)
        decreases |buckets| - i
      {
        DropOne(buckets, i, toDrop);
        if buckets[i].window.count >= buckets[i].window.limit {
          i := i + 1;
        } else {
          CutOut(buckets, i);
          buckets := buckets[..i] + buckets[i + 1..];
          toDrop := toDrop - 1;
        }
      }
      DropNothing(buckets[i..], toDrop);
      assert buckets[..i] + buckets[i..] == buckets;
    }

    /** `hit`, with the clock passed in. */
    method HitAt(now: int, key: string, limit: int, windowMs: int) returns (v: Verdict)
      requires Valid()
      modifies this
      ensures Valid()
      ensures (buckets, v) == Hit(old(buckets), now, key, limit, windowMs)
    {
      HitEffects(buckets, now, key, limit, windowMs);
      var existing := Lookup(buckets, key);
      if existing.None? || existing.value.resetAt <= now {
        if |buckets| >= MAX_TRACKED_KEYS {
          Sweeping(now);
          if |buckets| >= MAX_TRACKED_KEYS {
            Evicting(|buckets| - MAX_TRACKED_KEYS + 1);
            if |buckets| >= MAX_TRACKED_KEYS {
              return Verdict(true, limit - 1, 0);
            }
          }
        }
        buckets := Put(buckets, key, Window(1, now + windowMs, limit));
        return Verdict(true, limit - 1, 0);
      }
      var w := Window(existing.value.count + 1, existing.value.resetAt, limit);
      buckets := Put(buckets, key, w);
      var allowed := w.count <= limit;
      v := Verdict(allowed, if limit - w.count > 0 then limit - w.count else 0,
                   if allowed then 0 else CeilSeconds(w.resetAt - now));
    }

    method Forget(key: string)
      requires Valid()
      modifies this
      ensures Valid() && buckets == Delete(old(buckets), key)
    {
      DeleteKeeps(buckets, key);
      buckets := Delete(buckets, key);
    }

    method Reset()
      modifies this
      ensures Valid() && buckets == []
    {
      buckets := [];
    }
  }

  // ------------------------------------------------------------- the loops, step by step

  lemma CutOut(b: seq<Bucket>, i: nat)
    requires i < |b|
    ensures (b[..i] + b[i + 1..])[..i] == b[..i] && (b[..i] + b[i + 1..])[i..] == b[i + 1..]
  {
  }

  lemma SweepOne(b: seq<Bucket>, i: nat, now: int)
    requires i < |b|
    ensures b[..i] + Sweep(b[i..], now)
         == if Live(b[i].window, now) then b[..i + 1] + Sweep(b[i + 1..], now) else b[..i] + Sweep(b[i + 1..], now)
  {
    assert b[i..][1..] == b[i + 1..] && b[..i + 1] == b[..i] + [b[i]];
  }

  lemma SweepNothing(b: seq<Bucket>, now: int)
    requires b == []
    ensures Sweep(b, now) == []
  {
  }

  lemma DropOne(b: seq<Bucket>, i: nat, n: int)
    requires i < |b| && n > 0
    ensures b[..i] + DropIdle(b[i..], n)
         == if Throttled(b[i].window) then b[..i + 1] + DropIdle(b[i + 1..], n)
            else b[..i] + DropIdle(b[i + 1..], n - 1)
  {
    assert b[i..][1..] == b[i + 1..] && b[..i + 1] == b[..i] + [b[i]];
  }

  lemma DropNothing(b: seq<Bucket>, n: int)
    requires b == [] || n <= 0
    ensures DropIdle(b, n) == b
  {
  }

  // ------------------------------------------------------- what the map operations do

  lemma {:induction false} LookupFinds(b: seq<Bucket>, key: string)
    ensures Lookup(b, key).Some? <==> key in Keys(b)
    ensures Lookup(b, key).Some? ==> exists i :: 0 <= i < |b| && b[i] == Bucket(key, Lookup(b, key).value)
  {
    if b == [] {
    } else {
      if b[0].key == key {
        assert b[0] == Bucket(key, Lookup(b, key).value);
      } else {
        LookupFinds(b[1..], key);
      }
    }
  }

  lemma {:induction false} LookupAt(b: seq<Bucket>, i: nat)
    requires Unique(b) && i < |b|
    ensures b[i].key in Keys(b)
    ensures Lookup(b, b[i].key) == Some(b[i].window)
  {
    if i == 0 {
    } else {
      LookupAt(b[1..], i - 1);
    }
  }

  lemma {:induction false} PutKeeps(b: seq<Bucket>, key: string, w: Window)
    ensures Keys(Put(b, key, w)) == Keys(b) + {key}
    ensures Unique(b) ==> Unique(Put(b, key, w))
    ensures |Put(b, key, w)| == |b| + if key in Keys(b) then 0 else 1
    ensures forall k :: Lookup(Put(b, key, w), k) == if k == key then Some(w) else Lookup(b, k)
  {
    if b != [] && b[0].key != key {
      PutKeeps(b[1..], key, w);
    }
  }

  lemma {:induction false} DeleteKeeps(b: seq<Bucket>, key: string)
    ensures Keys(Delete(b, key)) <= Keys(b) && |Delete(b, key)| <= |b|
    ensures Unique(b) ==> Unique(Delete(b, key))
    ensures forall k :: k != key ==> Lookup(Delete(b, key), k) == Lookup(b, k)
    ensures Unique(b) ==> Lookup(Delete(b, key), key) == None
  {
    if b == [] {
    } else {
      LookupFinds(b[1..], key);
      if b[0].key != key {
        DeleteKeeps(b[1..], key);
      }
    }
  }

  lemma {:induction false} SweepKeeps(b: seq<Bucket>, now: int)
    requires Unique(b)
    ensures Keys(Sweep(b, now)) <= Keys(b) && Unique(Sweep(b, now)) && |Sweep(b, now)| <= |b|
    ensures forall k :: Lookup(Sweep(b, now), k) == if HasLive(b, k, now) then Lookup(b, k) else None
  {
    if b == [] {
    } else {
      var others := b[1..];
      SweepKeeps(others, now);
      LookupFinds(others, b[0].key);
      assert Sweep(b, now) == if Live(b[0].window, now) then [b[0]] + Sweep(others, now) else Sweep(others, now);
    }
  }

  /** The place of the first bucket that is not throttled, or the end. */
  function FirstIdle(b: seq<Bucket>): (i: nat)
    ensures i <= |b|
    ensures forall k :: 0 <= k < i ==> Throttled(b[k].window)
    ensures i < |b| ==> !Throttled(b[i].window)
  {
    if b == [] || !Throttled(b[0].window) then 0 else 1 + FirstIdle(b[1..])
  }

  lemma WithoutLater(b: seq<Bucket>, j: nat)
    requires j + 1 < |b|
    ensures [b[0]] + (b[1..][..j] + b[1..][j + 1..]) == b[..j + 1] + b[j + 2..]
  {
  }

  lemma FirstIdleNext(b: seq<Bucket>)
    requires b != []
    ensures FirstIdle(b) == if Throttled(b[0].window) then 1 + FirstIdle(b[1..]) else 0
    ensures DropIdle(b, 1) == if Throttled(b[0].window) then [b[0]] + DropIdle(b[1..], 1) else b[1..]
  {
    hide Throttled;
    assert DropIdle(b[1..], 0) == b[1..];
  }

  /** Dropping one idle bucket drops the first one and nothing else. */
  lemma {:induction false} DropsTheFirstIdle(b: seq<Bucket>)
    ensures var i := FirstIdle(b);
      DropIdle(b, 1) == if i < |b| then b[..i] + b[i + 1..] else b
  {
    if b == [] {
    } else {
      hide FirstIdle, DropIdle, Throttled;
      FirstIdleNext(b);
      if Throttled(b[0].window) {
        DropsTheFirstIdle(b[1..]);
        if FirstIdle(b) < |b| {
          WithoutLater(b, FirstIdle(b[1..]));
        }
      } else {
        assert b[..0] + b[1..] == b[1..];
      }
    }
  }

  lemma {:induction false} LookupWithout(b: seq<Bucket>, i: nat, p: seq<Bucket>)
    requires Unique(b) && i < |b| && p == b[..i] + b[i + 1..]
    ensures Unique(p) && Keys(p) <= Keys(b)
    ensures forall k :: Lookup(p, k) == if k == b[i].key then None else Lookup(b, k)
  {
    if i == 0 {
      assert p == b[1..];
      LookupFinds(p, b[0].key);
    } else {
      LookupAt(b[1..], i - 1);
      LookupWithout(b[1..], i - 1, p[1..]);
    }
  }

  lemma {:induction false} UniqueKeysCount(b: seq<Bucket>)
    requires Unique(b)
    ensures |Keys(b)| == |b|
  {
    if b == [] {
    } else {
      UniqueKeysCount(b[1..]);
    }
  }

  lemma {:induction false} SweepOfLive(b: seq<Bucket>, now: int)
    ensures |Sweep(b, now)| <= |b|
    ensures |Sweep(b, now)| == |b| <==> forall i :: 0 <= i < |b| ==> Live(b[i].window, now)
    ensures |Sweep(b, now)| == |b| ==> Sweep(b, now) == b
  {
    if b == [] {
    } else {
      hide Live;
      SweepOfLive(b[1..], now);
      SweepNext(b, now);
      assert forall i :: 0 < i < |b| ==> b[i] == b[1..][i - 1];
      hide Sweep;
    }
  }

  lemma SweepNext(b: seq<Bucket>, now: int)
    requires b != []
    ensures Sweep(b, now) == if Live(b[0].window, now) then [b[0]] + Sweep(b[1..], now) else Sweep(b[1..], now)
  {
    assert [] + Sweep(b[1..], now) == Sweep(b[1..], now);
  }

  // ------------------------------------------------------------ what one hit can do

  predicate Sound(b: seq<Bucket>) {
    Unique(b) && |b| <= MAX_TRACKED_KEYS
  }

  predicate AllLive(b: seq<Bucket>, now: int) {
    forall i :: 0 <= i < |b| ==> Live(b[i].window, now)
  }

  /** The map is full of live buckets and `k` is the oldest that is not throttled. */
  predicate Evicts(b: seq<Bucket>, now: int, k: string) {
    |b| == MAX_TRACKED_KEYS && AllLive(b, now) && FirstIdle(b) < |b| && b[FirstIdle(b)].key == k
  }

  /** The map is full of live buckets and every one of them is throttled. */
  predicate Saturated(b: seq<Bucket>, now: int) {
    |b| == MAX_TRACKED_KEYS && AllLive(b, now) && forall i :: 0 <= i < |b| ==> Throttled(b[i].window)
  }

  /** The map stays full only when it is saturated. */
  lemma RoomIsMade(b: seq<Bucket>, now: int)
    requires |b| <= MAX_TRACKED_KEYS
    ensures |MakeRoom(b, now)| == MAX_TRACKED_KEYS <==> Saturated(b, now)
  {
    hide Live, Throttled, Sweep, DropIdle, FirstIdle;
    SweepOfLive(b, now);
    DropsTheFirstIdle(b);
    var i := FirstIdle(b);
    assert i < |b| ==> !Throttled(b[i].window);
  }

  lemma RoomKeeps(b: seq<Bucket>, now: int)
    requires Sound(b)
    ensures Sound(MakeRoom(b, now))
    ensures |MakeRoom(b, now)| == MAX_TRACKED_KEYS <==> Saturated(b, now)
    ensures forall k :: HasLive(b, k, now) && !Evicts(b, now, k) ==> Lookup(MakeRoom(b, now), k) == Lookup(b, k)
    ensures forall k :: Lookup(MakeRoom(b, now), k).Some? ==> Lookup(MakeRoom(b, now), k) == Lookup(b, k)
  {
    hide Live, Throttled;
    RoomIsMade(b, now);
    SweepKeeps(b, now);
    SweepOfLive(b, now);
    var i := FirstIdle(b);
    if |b| == MAX_TRACKED_KEYS && AllLive(b, now) {
      DropsTheFirstIdle(b);
      if i < |b| {
        LookupAt(b, i);
        LookupWithout(b, i, b[..i] + b[i + 1..]);
      }
    }
  }

  /**
   * One hit keeps the map within bounds. It leaves every other live bucket as
   * it was, save at most the oldest unthrottled one of a map full of live
   * buckets; and its own key goes untracked only when all of those are throttled.
   */
  lemma HitEffects(b: seq<Bucket>, now: int, key: string, limit: int, windowMs: int)
    requires Sound(b)
    ensures var a := Hit(b, now, key, limit, windowMs).0;
      && Sound(a)
      && (key !in Keys(a) <==> Saturated(b, now) && !HasLive(b, key, now))
      && (forall k :: k != key && HasLive(b, k, now) ==>
            Lookup(a, k) == Lookup(b, k) || (Evicts(b, now, k) && !HasLive(b, key, now)))
      && forall k :: k != key && Lookup(a, k).Some? ==> Lookup(a, k) == Lookup(b, k)
  {
    RoomKeeps(b, now);
    LookupFinds(b, key);
    var room := MakeRoom(b, now);
    LookupFinds(room, key);
    if HasLive(b, key, now) {
      PutKeeps(b, key, Counted(Lookup(b, key).value, limit));
    } else if |room| < MAX_TRACKED_KEYS {
      PutKeeps(room, key, Opened(now, limit, windowMs));
    } else {
      SweepOfLive(b, now);
      SaturatedKeepsAll(b, now, key);
    }
  }

  lemma SaturatedKeepsAll(b: seq<Bucket>, now: int, key: string)
    requires Sound(b) && Saturated(b, now)
    ensures MakeRoom(b, now) == b
    ensures key in Keys(b) ==> HasLive(b, key, now)
  {
    SweepOfLive(b, now);
    DropsTheFirstIdle(b);
    LookupFinds(b, key);
  }

  // ------------------------------------------------------------------- insertion order

  function KeySeq(b: seq<Bucket>): (ks: seq<string>)
    ensures |ks| == |b|
  {
    if b == [] then [] else [b[0].key] + KeySeq(b[1..])
  }

  /** The keys `a` are some of the keys `b`, in the same order. */
  predicate Among(a: seq<string>, b: seq<string>) {
    a == [] || (b != [] && ((a[0] == b[0] && Among(a[1..], b[1..])) || Among(a, b[1..])))
  }

  lemma {:induction false} AmongThemselves(a: seq<string>)
    ensures Among(a, a)
  {
    if a == [] {
    } else {
      AmongThemselves(a[1..]);
    }
  }

  lemma {:induction false} SweepKeepsPlaces(b: seq<Bucket>, now: int)
    ensures Among(KeySeq(Sweep(b, now)), KeySeq(b))
  {
    hide Live;
    if b == [] {
    } else {
      SweepKeepsPlaces(b[1..], now);
      assert KeySeq(b)[1..] == KeySeq(b[1..]);
      var others := Sweep(b[1..], now);
      assert ([b[0]] + others)[1..] == others && [] + others == others;
    }
  }

  lemma {:induction false} DropKeepsPlaces(b: seq<Bucket>, n: int)
    ensures Among(KeySeq(DropIdle(b, n)), KeySeq(b))
  {
    hide Throttled;
    if b == [] || n <= 0 {
      AmongThemselves(KeySeq(b));
    } else {
      DropKeepsPlaces(b[1..], if Throttled(b[0].window) then n else n - 1);
      assert KeySeq(b)[1..] == KeySeq(b[1..]);
      var others := DropIdle(b[1..], n);
      assert ([b[0]] + others)[1..] == others;
    }
  }

  lemma {:induction false} AmongAll(a: seq<string>, b: seq<string>, c: seq<string>)
    requires Among(a, b) && Among(b, c)
    ensures Among(a, c)
    decreases |c|
  {
    if a == [] || b == [] {
    } else if b[0] == c[0] && Among(b[1..], c[1..]) {
      if a[0] == b[0] && Among(a[1..], b[1..]) {
        AmongAll(a[1..], b[1..], c[1..]);
      } else {
        AmongAll(a, b[1..], c[1..]);
      }
    } else {
      AmongAll(a, b, c[1..]);
    }
  }

  lemma {:induction false} PutKeepsPlaces(b: seq<Bucket>, key: string, w: Window)
    ensures KeySeq(Put(b, key, w)) == KeySeq(b) + if key in Keys(b) then [] else [key]
  {
    if b == [] {
    } else {
      hide KeySeq;
      var others := b[1..];
      PutKeepsPlaces(others, key, w);
      KeySeqNext(b[0], others);
      KeySeqNext(b[0], Put(others, key, w));
      KeySeqNext(Bucket(key, w), others);
      assert [b[0]] + others == b;
      Joined([b[0].key], KeySeq(others), if key in Keys(others) then [] else [key]);
    }
  }

  lemma KeySeqNext(x: Bucket, others: seq<Bucket>)
    ensures KeySeq([x] + others) == [x.key] + KeySeq(others)
  {
    assert ([x] + others)[1..] == others;
  }

  lemma RoomKeepsPlaces(b: seq<Bucket>, now: int)
    ensures Among(KeySeq(MakeRoom(b, now)), KeySeq(b))
  {
    hide Sweep, DropIdle;
    var live := Sweep(b, now);
    AmongThemselves(KeySeq(b));
    SweepKeepsPlaces(b, now);
    DropKeepsPlaces(live, |live| - MAX_TRACKED_KEYS + 1);
    AmongAll(KeySeq(DropIdle(live, |live| - MAX_TRACKED_KEYS + 1)), KeySeq(live), KeySeq(b));
  }

  /** Forgetting leaves the rest in their order. */
  lemma {:induction false} DeleteKeepsPlaces(b: seq<Bucket>, key: string)
    ensures Among(KeySeq(Delete(b, key)), KeySeq(b))
  {
    if b == [] {
    } else {
      hide KeySeq;
      assert [b[0]] + b[1..] == b;
      KeySeqNext(b[0], b[1..]);
      KeySeqNext(b[0], Delete(b[1..], key));
      AmongThemselves(KeySeq(b[1..]));
      DeleteKeepsPlaces(b[1..], key);
    }
  }

  /** A hit leaves the keys in the order they were inserted; one that was not there goes last. */
  lemma HitKeepsPlaces(b: seq<Bucket>, now: int, key: string, limit: int, windowMs: int)
    ensures var after := KeySeq(Hit(b, now, key, limit, windowMs).0);
      || Among(after, KeySeq(b))
      || (|after| > 0 && after[|after| - 1] == key && Among(after[..|after| - 1], KeySeq(b)))
  {
    hide Put, MakeRoom, Among, HasLive;
    AmongThemselves(KeySeq(b));
    RoomKeepsPlaces(b, now);
    if HasLive(b, key, now) {
      LookupFinds(b, key);
      HasLiveMeans(b, key, now);
      PutKeepsPlaces(b, key, Counted(Lookup(b, key).value, limit));
      assert KeySeq(b) + [] == KeySeq(b);
    } else {
      var room := KeySeq(MakeRoom(b, now));
      PutKeepsPlaces(MakeRoom(b, now), key, Opened(now, limit, windowMs));
      assert (room + [key])[..|room|] == room && room + [] == room;
    }
  }

  // ---------------------------------------------------------------------- whole runs

  datatype Op =
    | Hitting(now: int, key: string, limit: int, windowMs: int)
    | Forgetting(key: string)
    | Resetting

  function Apply(b: seq<Bucket>, op: Op): seq<Bucket> {
    match op
    case Hitting(now, key, limit, windowMs) => Hit(b, now, key, limit, windowMs).0
    case Forgetting(key) => Delete(b, key)
    case Resetting => []
  }

  function Run(b: seq<Bucket>, ops: seq<Op>): seq<Bucket>
    decreases |ops|
  {
    if ops == [] then b else Run(Apply(b, ops[0]), ops[1..])
  }

  /** The clock, at `t` before the run, never goes back. */
  predicate Clocked(t: int, ops: seq<Op>)
    decreases |ops|
  {
    if ops == [] then true
    else if ops[0].Hitting? then t <= ops[0].now && Clocked(ops[0].now, ops[1..]) else Clocked(t, ops[1..])
  }

  lemma ApplyKeepsSound(b: seq<Bucket>, op: Op)
    requires Sound(b)
    ensures Sound(Apply(b, op))
  {
    match op
    case Hitting(now, key, limit, windowMs) => HitEffects(b, now, key, limit, windowMs);
    case Forgetting(key) => DeleteKeeps(b, key);
    case Resetting =>
  }

  /** On every run the map stays within its bound. */
  lemma {:induction false} NeverOverfull(b: seq<Bucket>, ops: seq<Op>)
    requires Sound(b)
    ensures Sound(Run(b, ops)) && |Run(b, ops)| <= 10_000
    decreases |ops|
  {
    if ops == [] {
    } else {
      ApplyKeepsSound(b, ops[0]);
      NeverOverfull(Apply(b, ops[0]), ops[1..]);
    }
  }

  // -------------------------------------------------------- nobody is released early

  /** `key` has used up `limit` in a window that resets at `resetAt`. */
  predicate AtLimit(b: seq<Bucket>, key: string, limit: int, resetAt: int) {
    var w := Lookup(b, key);
    w.Some? && w.value.limit == limit && w.value.resetAt == resetAt && w.value.count >= limit
  }

  /** Neither lifts `key` out of its window nor hits it with another limit. */
  predicate LeavesAlone(op: Op, key: string, limit: int) {
    match op
    case Hitting(_, k, l, _) => k == key ==> l == limit
    case Forgetting(k) => k != key
    case Resetting => false
  }

  /** A tracked hit that leaves nothing remaining puts its key at the limit. */
  lemma NothingRemainingIsAtLimit(b: seq<Bucket>, now: int, key: string, limit: int, windowMs: int)
    requires Sound(b)
    ensures var (a, v) := Hit(b, now, key, limit, windowMs);
      var w := Lookup(a, key);
      w.Some? && v.remaining <= 0 ==> AtLimit(a, key, limit, w.value.resetAt)
  {
    RoomKeeps(b, now);
    var room := MakeRoom(b, now);
    if HasLive(b, key, now) {
      PutKeeps(b, key, Counted(Lookup(b, key).value, limit));
    } else {
      PutKeeps(room, key, Opened(now, limit, windowMs));
      if |room| >= MAX_TRACKED_KEYS {
        SaturatedKeepsAll(b, now, key);
        LookupFinds(b, key);
      }
    }
  }

  lemma LimitOutlastsAStep(b: seq<Bucket>, op: Op, key: string, limit: int, resetAt: int)
    requires Sound(b) && AtLimit(b, key, limit, resetAt)
    requires LeavesAlone(op, key, limit) && (op.Hitting? ==> op.now < resetAt)
    ensures AtLimit(Apply(b, op), key, limit, resetAt)
  {
    match op
    case Hitting(now, k, l, windowMs) =>
      LookupFinds(b, key);
      if k == key {
        PutKeeps(b, key, Counted(Lookup(b, key).value, limit));
      } else {
        HitEffects(b, now, k, l, windowMs);
        if Evicts(b, now, key) {
          LookupAt(b, FirstIdle(b));
          assert false;
        }
      }
    case Forgetting(k) => DeleteKeeps(b, k);
    case Resetting =>
  }

  /**
   * Once a key is at its limit, every later hit with that limit is refused until
   * the window resets, whatever is hit, forgotten or evicted in between.
   */
  lemma {:induction false} NeverReleasedEarly(
      t: int, b: seq<Bucket>, ops: seq<Op>, key: string, limit: int, resetAt: int, now: int, windowMs: int)
    requires Sound(b) && AtLimit(b, key, limit, resetAt)
    requires Clocked(t, ops + [Hitting(now, key, limit, windowMs)]) && now < resetAt
    requires forall i :: 0 <= i < |ops| ==> LeavesAlone(ops[i], key, limit)
    ensures AtLimit(Run(b, ops), key, limit, resetAt)
    ensures !Hit(Run(b, ops), now, key, limit, windowMs).1.allowed
    decreases |ops|
  {
    if ops == [] {
    } else {
      var last := [Hitting(now, key, limit, windowMs)];
      assert (ops + last)[1..] == ops[1..] + last;
      var after := if ops[0].Hitting? then ops[0].now else t;
      ClockBoundsLast(after, ops[1..], last[0]);
      LimitOutlastsAStep(b, ops[0], key, limit, resetAt);
      ApplyKeepsSound(b, ops[0]);
      NeverReleasedEarly(after, Apply(b, ops[0]), ops[1..], key, limit, resetAt, now, windowMs);
    }
  }

  lemma {:induction false} ClockBoundsLast(t: int, ops: seq<Op>, last: Op)
    requires last.Hitting? && Clocked(t, ops + [last])
    ensures t <= last.now
    decreases |ops|
  {
    if ops == [] {
    } else {
      assert (ops + [last])[1..] == ops[1..] + [last];
      ClockBoundsLast(if ops[0].Hitting? then ops[0].now else t, ops[1..], last);
    }
  }

  /** Waiting as long as a refusal asks is enough, and one second less is not. */
  lemma RetryAfterIsExact(b: seq<Bucket>, now: int, key: string, limit: int, windowMs: int, later: int, w2: int)
    requires Sound(b)
    ensures var (a, v) := Hit(b, now, key, limit, windowMs);
      !v.allowed ==>
        && v.retryAfterSeconds >= 1
        && (later >= now + 1000 * v.retryAfterSeconds ==> Hit(a, later, key, limit, w2).1.allowed)
        && (now <= later <= now + 1000 * (v.retryAfterSeconds - 1) ==> !Hit(a, later, key, limit, w2).1.allowed)
  {
    if HasLive(b, key, now) {
      PutKeeps(b, key, Counted(Lookup(b, key).value, limit));
    }
  }

  // --------------------------------------------------- what a hit is answered, from history

  /** An operation, and the keys whose windows the limiter lost with it. */
  datatype Told = Told(op: Op, lost: set<string>)

  predicate IsHit(h: seq<Told>, i: nat) {
    i < |h| && h[i].op.Hitting?
  }

  /** The last hit on `key` among the first `i` operations, unless it was forgotten or lost since. */
  function LastHit(h: seq<Told>, i: nat, key: string): (p: Option<nat>)
    requires i <= |h|
    ensures p.Some? ==> p.value < i && IsHit(h, p.value) && h[p.value].op.key == key
  {
    if i == 0 || key in h[i - 1].lost then None
    else
      match h[i - 1].op
      case Hitting(_, k, _, _) => if k == key then Some(i - 1) else LastHit(h, i - 1, key)
      case Forgetting(k) => if k == key then None else LastHit(h, i - 1, key)
      case Resetting => None
  }

  /** The hit that opened the window in which the `i`-th operation, a hit, falls. */
  function Opener(h: seq<Told>, i: nat): (o: nat)
    requires IsHit(h, i)
    ensures o <= i && IsHit(h, o) && h[o].op.key == h[i].op.key
  {
    var p := LastHit(h, i, h[i].op.key);
    if p.None? then i
    else
      var o := Opener(h, p.value);
      if h[i].op.now < h[o].op.now + h[o].op.windowMs then o else i
  }

  /** When the window of a hit ends. */
  function EndOf(h: seq<Told>, i: nat): int
    requires IsHit(h, i)
  {
    h[Opener(h, i)].op.now + h[Opener(h, i)].op.windowMs
  }

  function Hits(h: seq<Told>, key: string): nat {
    if h == [] then 0
    else
      var op := h[|h| - 1].op;
      Hits(h[..|h| - 1], key) + if op.Hitting? && op.key == key then 1 else 0
  }

  /** The how-manieth hit on its key a hit is, counted from the one that opened its window. */
  function Number(h: seq<Told>, i: nat): nat
    requires IsHit(h, i)
  {
    Hits(h[Opener(h, i)..i + 1], h[i].op.key)
  }

  /**
   * The answer that its place among the hits of its window calls for: the first is
   * always allowed and the later ones up to the limit, what is left of the limit
   * remains, and a refusal asks to wait until the window ends, in whole seconds.
   */
  predicate Answers(v: Verdict, h: seq<Told>, i: nat)
    requires IsHit(h, i)
  {
    var j, limit, left := Number(h, i), h[i].op.limit, EndOf(h, i) - h[i].op.now;
    && (v.allowed <==> j == 1 || j <= limit)
    && v.remaining == (if j > 1 && j > limit then 0 else limit - j)
    && (if v.allowed then v.retryAfterSeconds == 0 else left <= 1000 * v.retryAfterSeconds < left + 1000)
  }

  /** The live keys that an operation leaves untracked, the one hit included; forgetting loses none. */
  function Lost(b: seq<Bucket>, op: Op): set<string> {
    if !op.Hitting? then {}
    else
      set k | k in Keys(b) + {op.key} && (k == op.key || HasLive(b, k, op.now)) && k !in Keys(Apply(b, op))
  }

  /** The run as the limiter lives through it. */
  function Tell(b: seq<Bucket>, ops: seq<Op>): (h: seq<Told>)
    ensures |h| == |ops| && forall i :: 0 <= i < |h| ==> h[i].op == ops[i]
    decreases |ops|
  {
    if ops == [] then [] else [Told(ops[0], Lost(b, ops[0]))] + Tell(Apply(b, ops[0]), ops[1..])
  }

  /** What each hit of a run is answered. */
  function Verdicts(b: seq<Bucket>, ops: seq<Op>): (vs: seq<Option<Verdict>>)
    ensures |vs| == |ops| && forall i :: 0 <= i < |vs| ==> vs[i].Some? == ops[i].Hitting?
    decreases |ops|
  {
    if ops == [] then []
    else
      [if ops[0].Hitting? then Some(Hit(b, ops[0].now, ops[0].key, ops[0].limit, ops[0].windowMs).1) else None]
      + Verdicts(Apply(b, ops[0]), ops[1..])
  }

  // ------------------------------------------------------------------- histories that go on

  lemma {:induction false} LastHitGoesOn(h: seq<Told>, more: seq<Told>, i: nat, key: string)
    requires i <= |h|
    ensures LastHit(h + more, i, key) == LastHit(h, i, key)
  {
    if i == 0 {
    } else {
      LastHitGoesOn(h, more, i - 1, key);
    }
  }

  lemma {:induction false} OpenerGoesOn(h: seq<Told>, more: seq<Told>, i: nat)
    requires IsHit(h, i)
    ensures Opener(h + more, i) == Opener(h, i)
    decreases i
  {
    hide LastHit;
    LastHitGoesOn(h, more, i, h[i].op.key);
    var p := LastHit(h, i, h[i].op.key);
    if p.Some? {
      OpenerGoesOn(h, more, p.value);
    }
  }

  lemma AnswersGoOn(v: Verdict, h: seq<Told>, more: seq<Told>, i: nat)
    requires IsHit(h, i) && Answers(v, h, i)
    ensures Answers(v, h + more, i)
  {
    hide Opener, Hits;
    OpenerGoesOn(h, more, i);
    var o := Opener(h, i);
    assert (h + more)[o..i + 1] == h[o..i + 1];
  }

  lemma HitsNext(h: seq<Told>, told: Told, key: string)
    ensures Hits(h + [told], key) == Hits(h, key) + if told.op.Hitting? && told.op.key == key then 1 else 0
  {
    assert (h + [told])[..|h|] == h;
  }

  lemma {:induction false} HitsOne(h: seq<Told>, i: nat)
    requires IsHit(h, i)
    ensures Hits(h, h[i].op.key) >= 1
  {
    if i == |h| - 1 {
    } else {
      HitsOne(h[..|h| - 1], i);
    }
  }

  // -------------------------------------------------------------------- one more operation

  /** The map holds a live window for `k` just when history does, and it is the same one. */
  predicate Stands(b: seq<Bucket>, h: seq<Told>, now: int, k: string) {
    var p := LastHit(h, |h|, k);
    if HasLive(b, k, now) then
      && p.Some?
      && Lookup(b, k).value.resetAt == EndOf(h, p.value)
      && Lookup(b, k).value.count == Hits(h[Opener(h, p.value)..], k)
    else p.None? || EndOf(h, p.value) <= now
  }

  ghost predicate AllStand(b: seq<Bucket>, h: seq<Told>, now: int) {
    forall k :: Stands(b, h, now, k)
  }

  lemma AllStandLater(b: seq<Bucket>, h: seq<Told>, now: int, later: int)
    requires AllStand(b, h, now) && now <= later
    ensures AllStand(b, h, later)
  {
    hide LastHit, EndOf, Hits, Opener;
    forall k ensures Stands(b, h, later, k) {
      assert Stands(b, h, now, k);
    }
  }

  /** Nothing new is told of `k`: it stands as it stood. */
  lemma StandsStill(b: seq<Bucket>, h: seq<Told>, now: int, a: seq<Bucket>, told: Told, k: string)
    requires Stands(b, h, now, k) && k !in told.lost
    requires match told.op
      case Hitting(_, key, _, _) => key != k
      case Forgetting(key) => key != k
      case Resetting => false
    requires HasLive(a, k, now) == HasLive(b, k, now)
    requires HasLive(b, k, now) ==> Lookup(a, k) == Lookup(b, k)
    ensures Stands(a, h + [told], now, k)
  {
    hide HasLive, Hits, Opener;
    LastHitGoesOn(h, [told], |h|, k);
    var p := LastHit(h, |h|, k);
    assert LastHit(h + [told], |h| + 1, k) == p;
    hide LastHit;
    if p.Some? {
      OpenerGoesOn(h, [told], p.value);
      var o := Opener(h, p.value);
      assert (h + [told])[o..] == h[o..] + [told];
      HitsNext(h[o..], told, k);
    }
  }

  /** Nothing is remembered of `k`. */
  lemma NothingStands(a: seq<Bucket>, h: seq<Told>, now: int, told: Told, k: string)
    requires k in told.lost || told.op == Forgetting(k) || told.op == Resetting
    requires !HasLive(a, k, now)
    ensures Stands(a, h + [told], now, k)
  {
    assert (h + [told])[|h|] == told;
  }

  /** Where a hit falls in history: in the live window of its key, or in one of its own. */
  lemma HitInHistory(b: seq<Bucket>, h: seq<Told>, told: Told)
    requires told.op.Hitting? && Stands(b, h, told.op.now, told.op.key)
    ensures var op, all, i := told.op, h + [told], |h|;
      if HasLive(b, op.key, op.now) then
        var w := Lookup(b, op.key).value;
        && EndOf(all, i) == w.resetAt
        && Number(all, i) == w.count + 1 == Hits(all[Opener(all, i)..], op.key)
        && w.count >= 1
      else Opener(all, i) == i && Number(all, i) == 1 == Hits(all[i..], op.key) && EndOf(all, i) == op.now + op.windowMs
  {
    hide HasLive, LastHit, Hits;
    var key, all := told.op.key, h + [told];
    LastHitGoesOn(h, [told], |h|, key);
    var p := LastHit(h, |h|, key);
    if p.Some? {
      OpenerGoesOn(h, [told], p.value);
    }
    if HasLive(b, key, told.op.now) {
      HasLiveMeans(b, key, told.op.now);
      var o := Opener(h, p.value);
      assert all[o..] == h[o..] + [told] == all[o..|h| + 1];
      HitsNext(h[o..], told, key);
      assert IsHit(h[o..], 0);
      HitsOne(h[o..], 0);
    } else {
      assert all[|h|..] == [] + [told] == all[|h|..|h| + 1];
      HitsNext([], told, key);
      NoHits(key);
    }
  }

  lemma NoHits(key: string)
    ensures Hits([], key) == 0
  {
  }

  lemma HasLiveMeans(b: seq<Bucket>, k: string, now: int)
    ensures HasLive(b, k, now) <==> Lookup(b, k).Some? && Live(Lookup(b, k).value, now)
  {
  }

  /** The hit's answer is the one its place in history calls for. */
  lemma HitAnswers(b: seq<Bucket>, h: seq<Told>, told: Told)
    requires told.op.Hitting? && Stands(b, h, told.op.now, told.op.key)
    ensures var op := told.op;
      Answers(Hit(b, op.now, op.key, op.limit, op.windowMs).1, h + [told], |h|)
  {
    hide Stands, Opener, EndOf, Hits, Number, Put, MakeRoom;
    HitInHistory(b, h, told);
  }

  /** After a hit its key stands in the map as history has it, unless it is lost. */
  lemma HitStands(b: seq<Bucket>, h: seq<Told>, op: Op)
    requires Sound(b) && op.Hitting? && Stands(b, h, op.now, op.key)
    ensures Stands(Apply(b, op), h + [Told(op, Lost(b, op))], op.now, op.key)
  {
    var told, a := Told(op, Lost(b, op)), Apply(b, op);
    var all := h + [told];
    LookupFinds(a, op.key);
    if op.key in told.lost {
      NothingStands(a, h, op.now, told, op.key);
    } else {
      HitInHistory(b, h, told);
      HitTouchesItsKey(b, op.now, op.key, op.limit, op.windowMs, a);
      hide Stands, Opener, Hits, Number, Hit, Apply, Lost;
      LastIsThis(h, told);
      StandsAs(a, all, op.now, op.key);
    }
  }

  lemma LastIsThis(h: seq<Told>, told: Told)
    requires told.op.Hitting? && told.op.key !in told.lost
    ensures LastHit(h + [told], |h| + 1, told.op.key) == Some(|h|)
  {
    assert (h + [told])[|h|] == told;
  }

  lemma StandsAs(a: seq<Bucket>, h: seq<Told>, now: int, k: string)
    requires LastHit(h, |h|, k).Some?
    requires var p := LastHit(h, |h|, k).value;
      Lookup(a, k).Some? && Lookup(a, k).value.resetAt == EndOf(h, p)
      && Lookup(a, k).value.count == Hits(h[Opener(h, p)..], k)
    ensures Stands(a, h, now, k)
  {
  }

  /** A tracked hit counts its live window or opens one. */
  lemma HitTouchesItsKey(b: seq<Bucket>, now: int, key: string, limit: int, windowMs: int, a: seq<Bucket>)
    requires Sound(b) && a == Hit(b, now, key, limit, windowMs).0 && key in Keys(a)
    ensures Lookup(a, key)
         == Some(if HasLive(b, key, now) then Counted(Lookup(b, key).value, limit) else Opened(now, limit, windowMs))
  {
    if HasLive(b, key, now) {
      PutKeeps(b, key, Counted(Lookup(b, key).value, limit));
    } else {
      HitEffects(b, now, key, limit, windowMs);
      hide Put;
      RoomKeeps(b, now);
      PutKeeps(MakeRoom(b, now), key, Opened(now, limit, windowMs));
    }
  }

  lemma OneMoreStands(b: seq<Bucket>, h: seq<Told>, now: int, op: Op)
    requires Sound(b) && AllStand(b, h, now) && (op.Hitting? ==> op.now == now)
    ensures AllStand(Apply(b, op), h + [Told(op, Lost(b, op))], now)
  {
    var a, told := Apply(b, op), Told(op, Lost(b, op));
    forall k ensures Stands(a, h + [told], now, k) {
      assert Stands(b, h, now, k);
      match op {
        case Hitting(_, key, limit, windowMs) =>
          if k == key {
            HitStands(b, h, op);
          } else {
            OtherStands(b, h, op, k);
          }
        case Forgetting(key) =>
          DeleteKeeps(b, key);
          if k == key {
            NothingStands(a, h, now, told, k);
          } else {
            StandsStill(b, h, now, a, told, k);
          }
        case Resetting => NothingStands(a, h, now, told, k);
      }
    }
  }

  lemma OtherStands(b: seq<Bucket>, h: seq<Told>, op: Op, k: string)
    requires Sound(b) && op.Hitting? && k != op.key && Stands(b, h, op.now, k)
    ensures Stands(Apply(b, op), h + [Told(op, Lost(b, op))], op.now, k)
  {
    hide Stands, Hit;
    var a, told := Apply(b, op), Told(op, Lost(b, op));
    HitEffects(b, op.now, op.key, op.limit, op.windowMs);
    LookupFinds(a, k);
    LookupFinds(b, k);
    if k in told.lost {
      NothingStands(a, h, op.now, told, k);
    } else {
      StandsStill(b, h, op.now, a, told, k);
    }
  }

  // -------------------------------------------------------------------------- whole runs

  lemma {:induction false} RunAnswers(t: int, b: seq<Bucket>, h: seq<Told>, ops: seq<Op>, i: nat)
    requires Sound(b) && AllStand(b, h, t) && Clocked(t, ops) && i < |ops| && ops[i].Hitting?
    ensures Answers(Verdicts(b, ops)[i].value, h + Tell(b, ops), |h| + i)
    decreases |ops|
  {
    hide AllStand, Answers, Lost, Hit, Sound, Apply, Clocked, IsHit, Verdicts, Tell;
    var op, told := ops[0], Told(ops[0], Lost(b, ops[0]));
    var now := if op.Hitting? then op.now else t;
    var rest := Tell(Apply(b, op), ops[1..]);
    ToldNext(b, h, ops);
    VerdictsNext(b, ops, i);
    ClockedOn(t, ops);
    AllStandLater(b, h, t, now);
    if i == 0 {
      StandsFor(b, h, now, op.key);
      HitAnswers(b, h, told);
      LastIsHit(h, told);
      AnswersGoOn(Verdicts(b, ops)[0].value, h + [told], rest, |h|);
    } else {
      OneMoreStands(b, h, now, op);
      ApplyKeepsSound(b, op);
      RunAnswers(now, Apply(b, op), h + [told], ops[1..], i - 1);
    }
  }

  lemma ToldNext(b: seq<Bucket>, h: seq<Told>, ops: seq<Op>)
    requires ops != []
    ensures h + Tell(b, ops) == h + [Told(ops[0], Lost(b, ops[0]))] + Tell(Apply(b, ops[0]), ops[1..])
  {
    hide Lost, Apply;
  }

  lemma VerdictsNext(b: seq<Bucket>, ops: seq<Op>, i: nat)
    requires i < |ops|
    ensures Verdicts(b, ops)[i]
         == if i > 0 then Verdicts(Apply(b, ops[0]), ops[1..])[i - 1]
            else if ops[0].Hitting? then Some(Hit(b, ops[0].now, ops[0].key, ops[0].limit, ops[0].windowMs).1) else None
  {
    hide Hit, Apply;
  }

  lemma ClockedOn(t: int, ops: seq<Op>)
    requires Clocked(t, ops) && ops != []
    ensures var now := if ops[0].Hitting? then ops[0].now else t; t <= now && Clocked(now, ops[1..])
  {
  }

  lemma LastIsHit(h: seq<Told>, told: Told)
    requires told.op.Hitting?
    ensures IsHit(h + [told], |h|)
  {
  }

  lemma StandsFor(b: seq<Bucket>, h: seq<Told>, now: int, k: string)
    requires AllStand(b, h, now)
    ensures Stands(b, h, now, k)
  {
  }

  lemma NothingStandsYet(t: int)
    ensures AllStand([], [], t)
  {
  }

  /**
   * From the empty map on, every hit of every run is answered by its number among
   * the hits on its key in its window, as history tells it: the operations, and
   * the keys the limiter lost.
   */
  lemma AnsweredFromHistory(t: int, ops: seq<Op>, i: nat)
    requires Clocked(t, ops) && i < |ops| && ops[i].Hitting?
    ensures Answers(Verdicts([], ops)[i].value, Tell([], ops), i)
  {
    hide AllStand;
    NothingStandsYet(t);
    RunAnswers(t, [], [], ops, i);
    assert [] + Tell([], ops) == Tell([], ops);
  }

  /** With a limit of at least one, the `j`-th hit of a window is allowed just when `j` is within the limit. */
  lemma WithinTheLimit(t: int, ops: seq<Op>, i: nat)
    requires Clocked(t, ops) && i < |ops| && ops[i].Hitting? && ops[i].limit >= 1
    ensures var v, j, limit := Verdicts([], ops)[i].value, Number(Tell([], ops), i), ops[i].limit;
      && (v.allowed <==> j <= limit)
      && v.remaining == (if j <= limit then limit - j else 0)
      && (v.retryAfterSeconds == 0 <==> v.allowed)
  {
    hide Verdicts, Hits;
    AnsweredFromHistory(t, ops, i);
    LaterHitsAreInTime(Tell([], ops), i);
  }

  /** A hit that is not the first of its window comes before the window's end. */
  lemma LaterHitsAreInTime(h: seq<Told>, i: nat)
    requires IsHit(h, i)
    ensures Number(h, i) >= 1
    ensures Number(h, i) > 1 ==> h[i].op.now < EndOf(h, i)
  {
    var o := Opener(h, i);
    HitsOne(h[o..i + 1], i - o);
    if o == i {
      assert h[i..i + 1] == [] + [h[i]];
      HitsNext([], h[i], h[i].op.key);
    }
  }

  /** What is lost: the oldest unthrottled key of a full map, or the key hit when all are throttled. */
  lemma OnlyTheIdleAreLost(b: seq<Bucket>, op: Op, k: string)
    requires Sound(b) && k in Lost(b, op)
    ensures if k == op.key then Saturated(b, op.now) && !HasLive(b, k, op.now)
            else Evicts(b, op.now, k) && !HasLive(b, op.key, op.now)
  {
    hide Hit;
    HitEffects(b, op.now, op.key, op.limit, op.windowMs);
    LookupFinds(Apply(b, op), k);
    LookupFinds(b, k);
  }

  // ------------------------------------------------ refining a limiter without bounds

  /** The run as a limiter that never loses a window lives through it. */
  function Plain(ops: seq<Op>): (h: seq<Told>)
    ensures |h| == |ops| && forall i :: 0 <= i < |h| ==> h[i] == Told(ops[i], {})
  {
    seq(|ops|, i requires 0 <= i < |ops| => Told(ops[i], {}))
  }

  predicate HasWindow(h: seq<Told>, i: nat, k: string)
    requires IsHit(h, i)
  {
    var p := LastHit(h, i, k);
    p.Some? && h[i].op.now < EndOf(h, p.value)
  }

  /** The keys with a live window at the moment of a hit, and the key hit. */
  function LiveKeys(h: seq<Told>, i: nat): set<string>
    requires IsHit(h, i)
  {
    (set j | 0 <= j < i && IsHit(h, j) && HasWindow(h, i, h[j].op.key) :: h[j].op.key) + {h[i].op.key}
  }

  /** At no hit from the `n`-th operation on are there more of them than may be tracked. */
  predicate Fits(h: seq<Told>, n: nat) {
    forall i :: n <= i < |h| && IsHit(h, i) ==> |LiveKeys(h, i)| <= MAX_TRACKED_KEYS
  }

  lemma LiveInMap(b: seq<Bucket>, h: seq<Told>, i: nat)
    requires IsHit(h, i) && AllStand(b, h[..i], h[i].op.now)
    ensures forall k :: HasLive(b, k, h[i].op.now) ==> k in LiveKeys(h, i)
  {
    hide HasLive, LastHit, Opener, Hits;
    forall k | HasLive(b, k, h[i].op.now) ensures k in LiveKeys(h, i) {
      StandsFor(b, h[..i], h[i].op.now, k);
      HasLiveMeans(b, k, h[i].op.now);
      LastHitGoesOn(h[..i], h[i..], i, k);
      var p := LastHit(h[..i], i, k).value;
      OpenerGoesOn(h[..i], h[i..], p);
      assert h[..i] + h[i..] == h;
      assert HasWindow(h, i, h[p].op.key);
    }
  }

  /** While the live keys fit, no window is lost. */
  lemma NothingIsLost(b: seq<Bucket>, h: seq<Told>, i: nat)
    requires Sound(b) && IsHit(h, i) && AllStand(b, h[..i], h[i].op.now) && |LiveKeys(h, i)| <= MAX_TRACKED_KEYS
    ensures Lost(b, h[i].op) == {}
  {
    hide AllStand, LiveKeys, HasLive, Lost;
    var op := h[i].op;
    LiveInMap(b, h, i);
    if k :| k in Lost(b, op) {
      OnlyTheIdleAreLost(b, op, k);
      FullOfLive(b, op.now, op.key, LiveKeys(h, i)) by { KeyIsLive(h, i); }
      assert false;
    }
  }

  lemma KeyIsLive(h: seq<Told>, i: nat)
    requires IsHit(h, i)
    ensures h[i].op.key in LiveKeys(h, i)
  {
  }

  /** A full map of live keys and one more key are too many. */
  lemma FullOfLive(b: seq<Bucket>, now: int, key: string, live: set<string>)
    requires Sound(b) && key in live && forall k :: HasLive(b, k, now) ==> k in live
    ensures |b| == MAX_TRACKED_KEYS && AllLive(b, now) && !HasLive(b, key, now) ==> |live| > MAX_TRACKED_KEYS
  {
    if |b| == MAX_TRACKED_KEYS && AllLive(b, now) && !HasLive(b, key, now) {
      UniqueKeysCount(b);
      forall k | k in Keys(b) ensures HasLive(b, k, now) {
        LookupFinds(b, k);
      }
      Cardinality(Keys(b) + {key}, live);
    }
  }

  lemma {:induction false} TellsPlain(t: int, b: seq<Bucket>, h: seq<Told>, ops: seq<Op>)
    requires Sound(b) && AllStand(b, h, t) && Clocked(t, ops) && Fits(h + Plain(ops), |h|)
    ensures Tell(b, ops) == Plain(ops)
    decreases |ops|
  {
    if ops == [] {
    } else {
      hide AllStand, Lost, Fits, Sound, Apply, Clocked, LiveKeys;
      var op, all := ops[0], h + Plain(ops);
      var now := if op.Hitting? then op.now else t;
      ClockedOn(t, ops);
      AllStandLater(b, h, t, now);
      assert all[..|h|] == h && all[|h|].op == op;
      if op.Hitting? {
        FitsHere(all, |h|);
        NothingIsLost(b, all, |h|);
      } else {
        NoHitLosesNothing(b, op);
      }
      OneMoreStands(b, h, now, op);
      ApplyKeepsSound(b, op);
      assert Plain(ops) == [Told(op, {})] + Plain(ops[1..]);
      Joined(h, [Told(op, {})], Plain(ops[1..]));
      FitsFurther(all, |h|);
      TellsPlain(now, Apply(b, op), h + [Told(op, {})], ops[1..]);
    }
  }

  lemma FitsHere(h: seq<Told>, n: nat)
    requires Fits(h, n) && IsHit(h, n)
    ensures |LiveKeys(h, n)| <= MAX_TRACKED_KEYS
  {
  }

  lemma FitsFurther(h: seq<Told>, n: nat)
    requires Fits(h, n)
    ensures Fits(h, n + 1)
  {
  }

  lemma NoHitLosesNothing(b: seq<Bucket>, op: Op)
    requires !op.Hitting?
    ensures Lost(b, op) == {}
  {
  }

  /**
   * As long as the live keys fit, the bounded limiter answers every hit of a run as
   * one that never loses a window: from the operations alone.
   */
  lemma RefinesUnbounded(t: int, ops: seq<Op>, i: nat)
    requires Clocked(t, ops) && Fits(Plain(ops), 0) && i < |ops| && ops[i].Hitting?
    ensures Answers(Verdicts([], ops)[i].value, Plain(ops), i)
  {
    hide AllStand, Fits, Answers;
    NothingStandsYet(t);
    assert [] + Plain(ops) == Plain(ops);
    TellsPlain(t, [], [], ops);
    AnsweredFromHistory(t, ops, i);
  }
}

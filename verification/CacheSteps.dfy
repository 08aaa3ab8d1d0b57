/**
 The TTL cache as a sequence of locked steps on a map. A `Get` is two of them: the read, and,
 when the entry it read has expired, a later eviction that other steps may overtake.
 */
module CacheSteps {
  import opened Values

  datatype Entry = Entry(value: Bytes, expiresAt: int)

  type Cache = map<string, Entry>

  /** `expected` is `None` for Go's nil; `Some([])` is an empty but non-nil slice. */
  datatype Step =
    | Read(key: string, now: int)
    | Evict(key: string)
    | Set(key: string, value: Bytes, ttl: int, now: int)
    | Delete(key: string)
    | CompareAndSet(key: string, expected: Option<Bytes>, value: Bytes, ttl: int, now: int, later: int)

  /** `Stale` is a read that found its entry expired: a miss that still owes an eviction. */
  datatype Answer = Hit(value: Bytes) | Miss | Stale | Done | Swapped(ok: bool)

  predicate Expired(e: Entry, now: int) {
    e.expiresAt != ZERO_TIME && now > e.expiresAt
  }

  function Expiry(now: int, ttl: int): int {
    if ttl > 0 then now + ttl else ZERO_TIME
  }

  /** `bytes.Equal`: nil equals an empty slice. */
  predicate EqualBytes(value: Bytes, expected: Option<Bytes>) {
    value == match expected case None => [] case Some(bytes) => bytes
  }

  function Apply(c: Cache, s: Step): (Cache, Answer) {
    match s
    case Read(key, now) =>
      (c, if key !in c then Miss else if Expired(c[key], now) then Stale else Hit(c[key].value))
    case Evict(key) => (c - {key}, Done)
    case Set(key, value, ttl, now) => (c[key := Entry(value, Expiry(now, ttl))], Done)
    case Delete(key) => (c - {key}, Done)
    case CompareAndSet(key, expected, value, ttl, now, later) =>
      var swapped := (c[key := Entry(value, Expiry(later, ttl))], Swapped(true));
      if key !in c then
        if expected != None then (c, Swapped(false)) else swapped
      else if Expired(c[key], now) then
        if expected != None then (c - {key}, Swapped(false)) else swapped
      else if !EqualBytes(c[key].value, expected) then (c, Swapped(false))
      else swapped
  }

  // ----- Interleaved runs -------------------------------------------------------------

  function After(run: seq<Step>): Cache {
    if |run| == 0 then map[] else Apply(After(run[..|run| - 1]), run[|run| - 1]).0
  }

  function AnswerAt(run: seq<Step>, k: nat): Answer
    requires k < |run|
  {
    Apply(After(run[..k]), run[k]).1
  }

  /** Step k stores a value under this key. */
  predicate Writes(run: seq<Step>, k: nat, key: string)
    requires k < |run|
  {
    || (run[k].Set? && run[k].key == key)
    || (run[k].CompareAndSet? && run[k].key == key && AnswerAt(run, k) == Swapped(true))
  }

  function Written(s: Step): Entry
    requires s.Set? || s.CompareAndSet?
  {
    match s
    case Set(_, value, ttl, now) => Entry(value, Expiry(now, ttl))
    case CompareAndSet(_, _, value, ttl, _, later) => Entry(value, Expiry(later, ttl))
  }

  /** What callers last put under the key and have not deleted since. */
  function Latest(run: seq<Step>, key: string): Option<Entry> {
    if |run| == 0 then None
    else
      var n := |run| - 1;
      if Writes(run, n, key) then Some(Written(run[n]))
      else if run[n] == Delete(key) then None
      else Latest(run[..n], key)
  }

  /** An eviction has dropped the key since it was last written or deleted. */
  predicate Dropped(run: seq<Step>, key: string) {
    |run| > 0 &&
    var n := |run| - 1;
    if Writes(run, n, key) || run[n] == Delete(key) then false
    else Dropped(run[..n], key) || run[n] == Evict(key) || DropsExpired(run, n, key)
  }

  /** A failing CompareAndSet also evicts the expired entry it meets. */
  predicate DropsExpired(run: seq<Step>, k: nat, key: string)
    requires k < |run|
  {
    var c := After(run[..k]);
    && run[k].CompareAndSet? && run[k].key == key && run[k].expected != None
    && key in c && Expired(c[key], run[k].now)
  }

  /**
   In every interleaving, the map holds under each key exactly the latest effective write,
   unless an eviction dropped it; it never holds anything older or anything deleted.
   */
  lemma {:induction false} PresentIsLatest(run: seq<Step>, key: string)
    ensures key in After(run) <==> Latest(run, key).Some? && !Dropped(run, key)
    ensures key in After(run) ==> Latest(run, key) == Some(After(run)[key])
  {
    if |run| > 0 {
      PresentIsLatest(run[..|run| - 1], key);
    }
  }

  /**
   A read hits exactly when the latest write has not been dropped and has not expired, and
   then it returns the value of that write. Evictions can only cause more misses.
   */
  lemma {:induction false} ReadIsCurrent(run: seq<Step>, k: nat, v: Bytes)
    requires k < |run| && run[k].Read?
    ensures
      var latest := Latest(run[..k], run[k].key);
      AnswerAt(run, k) == Hit(v) <==>
      latest.Some? && latest.value.value == v && !Expired(latest.value, run[k].now) && !Dropped(run[..k], run[k].key)
  {
    PresentIsLatest(run[..k], run[k].key);
  }

  /**
   A CompareAndSet succeeds exactly when the latest write, still present and unexpired, wrote the
   very bytes it expects, a nil expectation standing for no bytes; or when it expects nil and that
   write is absent, dropped or expired.
   */
  lemma {:induction false} SwapWinsExactly(run: seq<Step>, k: nat)
    requires k < |run| && run[k].CompareAndSet?
    ensures
      var latest, expected := Latest(run[..k], run[k].key), run[k].expected;
      var live := latest.Some? && !Dropped(run[..k], run[k].key) && !Expired(latest.value, run[k].now);
      AnswerAt(run, k) == Swapped(true) <==>
      if live then expected == Some(latest.value.value) || (expected == None && latest.value.value == [])
      else expected == None
  {
    PresentIsLatest(run[..k], run[k].key);
  }

  /** The step that put the latest entry there. */
  lemma {:induction false} LatestWriter(run: seq<Step>, key: string, from: nat) returns (m: nat)
    requires from < |run| && Writes(run, from, key) && Latest(run, key).Some?
    ensures from <= m < |run| && Writes(run, m, key) && Latest(run, key) == Some(Written(run[m]))
    ensures forall x :: m < x < |run| ==> !Writes(run, x, key) && run[x] != Delete(key)
  {
    var n := |run| - 1;
    if Writes(run, n, key) {
      m := n;
    } else {
      forall x | 0 <= x < n ensures Writes(run[..n], x, key) <==> Writes(run, x, key) {
        assert run[..n][..x] == run[..x];
      }
      m := LatestWriter(run[..n], key, from);
      forall x | m < x < |run| ensures !Writes(run, x, key) && run[x] != Delete(key) {
        assert x < n ==> !Writes(run[..n], x, key) && run[..n][x] != Delete(key);
      }
    }
  }

  /**
   No update is lost, late evictions included: after a write at i, by a Set or a successful swap,
   a later swap from a non-nil value succeeds only on top of the write that is the latest at that
   moment, that write is i or follows it, and it wrote exactly the expected value. So successful
   swaps form a chain.
   */
  lemma {:induction false} NoLostUpdates(run: seq<Step>, i: nat, k: nat)
    requires i < k < |run| && run[k].CompareAndSet? && Writes(run, i, run[k].key)
    requires AnswerAt(run, k) == Swapped(true) && run[k].expected.Some?
    ensures exists m ::
      && i <= m < k && Writes(run, m, run[k].key)
      && Written(run[m]).value == run[k].expected.value
      && forall x :: m < x < k ==> !Writes(run, x, run[k].key) && run[x] != Delete(run[k].key)
  {
    var key := run[k].key;
    SwapWinsExactly(run, k);
    forall x | 0 <= x < k ensures Writes(run[..k], x, key) <==> Writes(run, x, key) {
      assert run[..k][..x] == run[..x];
    }
    var m := LatestWriter(run[..k], key, i);
    forall x | m < x < k ensures !Writes(run, x, key) && run[x] != Delete(key) {
      assert !Writes(run[..k], x, key) && run[..k][x] != Delete(key);
    }
  }

  /** A write stays the latest until the key is written or deleted again. */
  lemma {:induction false} LatestStays(run: seq<Step>, i: nat, n: nat, key: string)
    requires i < n <= |run| && Writes(run, i, key)
    requires forall x :: i < x < n ==> !Writes(run, x, key) && run[x] != Delete(key)
    ensures Latest(run[..n], key) == Some(Written(run[i]))
    decreases n
  {
    var now := run[..n];
    assert now[..n - 1] == run[..n - 1];
    assert Writes(now, n - 1, key) <==> Writes(run, n - 1, key);
    if i < n - 1 {
      LatestStays(run, i, n - 1, key);
    }
  }

  /**
   Two creators of one key, with a nil `expected` and nothing written or deleted in between: in
   every interleaving the second wins as well exactly when an eviction has dropped what the first
   wrote, or it has expired, or it is empty, as nil counts as equal to that.
   */
  lemma {:induction false} SecondCreatorWinsExactly(run: seq<Step>, i: nat, k: nat)
    requires i < k < |run| && run[i].CompareAndSet? && run[k].CompareAndSet? && run[i].key == run[k].key
    requires run[i].expected == run[k].expected == None && AnswerAt(run, i) == Swapped(true)
    requires forall x :: i < x < k ==> !Writes(run, x, run[k].key) && run[x] != Delete(run[k].key)
    ensures AnswerAt(run, k) == Swapped(true) <==>
            Dropped(run[..k], run[k].key) || Expired(Written(run[i]), run[k].now) || run[i].value == []
  {
    LatestStays(run, i, k, run[k].key);
    SwapWinsExactly(run, k);
  }

  /**
   Creating a key with a nil `expected` is not exclusive when a `Get` is overtaken: its late
   eviction drops the first winner's entry, and a second creator wins as well.
   */
  lemma NilSwapCanWinTwice()
    ensures
      var run := [
        Set("k", [1], 1, 1),
        Read("k", 3),
        CompareAndSet("k", None, [2], 0, 3, 3),
        Evict("k"),
        CompareAndSet("k", None, [3], 0, 4, 4)];
      && AnswerAt(run, 1) == Stale
      && AnswerAt(run, 2) == Swapped(true)
      && AnswerAt(run, 4) == Swapped(true)
  {
  }

  // ----- Whole calls: lazy expiry is the same as eager expiry --------------------------

  /** A call that nothing overtakes: a stale read evicts at once and reports a miss. */
  function Whole(c: Cache, s: Step): (Cache, Answer) {
    var (c', a) := Apply(c, s);
    if a == Stale then (Apply(c', Evict(s.key)).0, Miss) else (c', a)
  }

  /** The entries a reader may still see. */
  function Live(c: Cache, now: int): Cache {
    map k | k in c && !Expired(c[k], now) :: c[k]
  }

  /** The reference: a cache that drops every entry as soon as the clock passes its expiry. */
  function Eager(c: Cache, s: Step): (Cache, Answer) {
    match s
    case Read(key, now) =>
      var v := Live(c, now);
      (v, if key in v then Hit(v[key].value) else Miss)
    case Evict(key) => (c, Done)
    case Set(key, value, ttl, now) => (Live(c, now)[key := Entry(value, Expiry(now, ttl))], Done)
    case Delete(key) => (c - {key}, Done)
    case CompareAndSet(key, expected, value, ttl, now, later) =>
      var v := Live(c, now);
      if (if key in v then EqualBytes(v[key].value, expected) else expected == None)
      then (v[key := Entry(value, Expiry(later, ttl))], Swapped(true))
      else (v, Swapped(false))
  }

  function WholeAfter(run: seq<Step>): Cache {
    if |run| == 0 then map[] else Whole(WholeAfter(run[..|run| - 1]), run[|run| - 1]).0
  }

  function EagerAfter(run: seq<Step>): Cache {
    if |run| == 0 then map[] else Eager(EagerAfter(run[..|run| - 1]), run[|run| - 1]).0
  }

  /** The last clock reading of a run. */
  function Clock(run: seq<Step>): int {
    if |run| == 0 then ZERO_TIME
    else
      match run[|run| - 1]
      case Read(_, now) => now
      case Set(_, _, _, now) => now
      case CompareAndSet(_, _, _, _, _, later) => later
      case _ => Clock(run[..|run| - 1])
  }

  /** The clock never runs backwards, and nothing is evicted but by a call's own read. */
  ghost predicate Sequential(run: seq<Step>) {
    forall k :: 0 <= k < |run| ==>
      match run[k]
      case Read(_, now) => Clock(run[..k]) <= now
      case Set(_, _, _, now) => Clock(run[..k]) <= now
      case CompareAndSet(_, _, _, _, now, later) => Clock(run[..k]) <= now <= later
      case Delete(_) => true
      case Evict(_) => false
  }

  /** What a reader sees under one key. */
  function Seen(c: Cache, key: string, now: int): Option<Entry> {
    if key in c && !Expired(c[key], now) then Some(c[key]) else None
  }

  ghost predicate SameView(a: Cache, b: Cache, now: int) {
    forall key :: Seen(a, key, now) == Seen(b, key, now)
  }

  lemma {:induction false} SeenLater(a: Cache, b: Cache, key: string, now: int, later: int)
    requires now <= later && Seen(a, key, now) == Seen(b, key, now)
    ensures Seen(a, key, later) == Seen(b, key, later)
  {
  }

  /** The clock once a call has returned. */
  function Finished(s: Step, t: int): int {
    match s
    case Read(_, now) => now
    case Set(_, _, _, now) => now
    case CompareAndSet(_, _, _, _, _, later) => later
    case _ => t
  }

  /** A call on caches that look the same answers the same. */
  lemma {:induction false} SameAnswer(a: Cache, b: Cache, s: Step, t: int)
    requires SameView(a, b, t) && !s.Evict?
    requires !s.Delete? ==> t <= s.now
    ensures Whole(a, s).1 == Eager(b, s).1
  {
    if !s.Delete? {
      SeenLater(a, b, s.key, t, s.now);
      assert Seen(b, s.key, s.now).Some? <==> s.key in Live(b, s.now);
    }
  }

  /** A call on caches that look the same leaves them looking the same. */
  lemma {:induction false} StillSameView(a: Cache, b: Cache, s: Step, t: int)
    requires SameView(a, b, t) && !s.Evict?
    requires !s.Delete? ==> t <= s.now && (s.CompareAndSet? ==> s.now <= s.later)
    ensures SameView(Whole(a, s).0, Eager(b, s).0, Finished(s, t))
  {
    SameAnswer(a, b, s, t);
    var a', b', end := Whole(a, s).0, Eager(b, s).0, Finished(s, t);
    forall key ensures Seen(a', key, end) == Seen(b', key, end) {
      assert Seen(a, key, t) == Seen(b, key, t);
      SeenLater(a, b, key, t, end);
      if !s.Delete? {
        SeenLater(a, b, key, t, s.now);
        assert key in Live(b, s.now) <==> Seen(b, key, s.now).Some?;
      }
    }
  }

  /**
   Lazy expiry cannot be told from eager expiry: on every run of whole calls each answer is the
   one of the reference cache, and both keep the same live entries.
   */
  lemma {:induction false} LazyEqualsEager(run: seq<Step>, k: nat)
    requires Sequential(run) && k <= |run|
    ensures SameView(WholeAfter(run[..k]), EagerAfter(run[..k]), Clock(run[..k]))
    ensures k < |run| ==> Whole(WholeAfter(run[..k]), run[k]).1 == Eager(EagerAfter(run[..k]), run[k]).1
  {
    if k > 0 {
      LazyEqualsEager(run, k - 1);
      assert run[..k][..k - 1] == run[..k - 1];
      StillSameView(WholeAfter(run[..k - 1]), EagerAfter(run[..k - 1]), run[k - 1], Clock(run[..k - 1]));
    }
    if k < |run| {
      SameAnswer(WholeAfter(run[..k]), EagerAfter(run[..k]), run[k], Clock(run[..k]));
    }
  }

  /** What one call at step k of a run of whole calls answers. */
  function WholeAnswerAt(run: seq<Step>, k: nat): Answer
    requires k < |run|
  {
    Whole(WholeAfter(run[..k]), run[k]).1
  }

  /** Whole call k leaves a value of its own under the key, or deletes the key. */
  predicate WholeChanges(run: seq<Step>, k: nat, key: string)
    requires k < |run|
  {
    || (run[k].Set? && run[k].key == key)
    || (run[k].CompareAndSet? && run[k].key == key && WholeAnswerAt(run, k) == Swapped(true))
    || run[k] == Delete(key)
  }

  /** Call i is the last to change the key before call k. */
  ghost predicate LastChange(run: seq<Step>, i: nat, k: nat, key: string)
    requires k <= |run|
  {
    i < k && WholeChanges(run, i, key) && forall x :: i < x < k ==> !WholeChanges(run, x, key)
  }

  /** The entry is still there, unless it has expired. */
  predicate Kept(c: Cache, key: string, e: Entry, now: int) {
    if key in c then c[key] == e else Expired(e, now)
  }

  lemma {:induction false} KeptByOthers(c: Cache, s: Step, key: string, e: Entry, t: int)
    requires Kept(c, key, e, t) && !s.Evict? && s != Delete(key)
    requires !s.Delete? ==> t <= s.now && (s.CompareAndSet? ==> s.now <= s.later)
    requires !(s.Set? && s.key == key) && !(s.CompareAndSet? && s.key == key && Whole(c, s).1 == Swapped(true))
    ensures Kept(Whole(c, s).0, key, e, Finished(s, t))
  {
  }

  lemma {:induction false} KeptUntilChanged(run: seq<Step>, i: nat, n: nat, key: string)
    requires Sequential(run) && n <= |run| && LastChange(run, i, n, key) && !run[i].Delete?
    ensures Kept(WholeAfter(run[..n]), key, Written(run[i]), Clock(run[..n]))
    decreases n
  {
    assert run[..n][..n - 1] == run[..n - 1];
    if i < n - 1 {
      KeptUntilChanged(run, i, n - 1, key);
      assert !WholeChanges(run, n - 1, key);
      KeptByOthers(WholeAfter(run[..n - 1]), run[n - 1], key, Written(run[i]), Clock(run[..n - 1]));
    }
  }

  lemma {:induction false} AbsentStep(c: Cache, s: Step, key: string)
    requires key !in c && !(s.Set? && s.key == key)
    requires !(s.CompareAndSet? && s.key == key && Whole(c, s).1 == Swapped(true))
    ensures key !in Whole(c, s).0
  {
  }

  /** Nothing but a write brings a key in. */
  lemma {:induction false} AbsentUntilWritten(run: seq<Step>, from: nat, n: nat, key: string)
    requires Sequential(run) && from <= n <= |run| && key !in WholeAfter(run[..from])
    requires forall x :: from <= x < n ==> !WholeChanges(run, x, key)
    ensures key !in WholeAfter(run[..n])
    decreases n
  {
    if from < n {
      AbsentUntilWritten(run, from, n - 1, key);
      assert run[..n][..n - 1] == run[..n - 1];
      assert !WholeChanges(run, n - 1, key);
      AbsentStep(WholeAfter(run[..n - 1]), run[n - 1], key);
    }
  }

  lemma {:induction false} ClockPastZero(run: seq<Step>, n: nat)
    requires Sequential(run) && n <= |run|
    ensures Clock(run[..n]) >= ZERO_TIME
    decreases n
  {
    if n > 0 {
      ClockPastZero(run, n - 1);
      assert run[..n][..n - 1] == run[..n - 1];
    }
  }

  /** The value written by a call, for as long as its TTL lasts. */
  function LiveValue(s: Step, now: int): Option<Bytes>
    requires s.Set? || s.CompareAndSet?
  {
    var start := if s.Set? then s.now else s.later;
    if s.ttl > 0 && now > start + s.ttl then None else Some(s.value)
  }

  lemma {:induction false} WrittenLives(run: seq<Step>, i: nat, now: int)
    requires Sequential(run) && i < |run| && (run[i].Set? || run[i].CompareAndSet?)
    ensures LiveValue(run[i], now) == if Expired(Written(run[i]), now) then None else Some(Written(run[i]).value)
  {
    ClockPastZero(run, i);
  }

  /**
   On every run of whole calls a read or swap meets, under its key, what the last Set or successful
   swap wrote there, if no Delete came after it, until the write's TTL has passed: a read
   returns exactly that, and a swap succeeds exactly when it expects it, or expects nil and there
   is nothing or an empty value.
   */
  lemma {:induction false} WholeCallsMeetLatest(run: seq<Step>, i: nat, k: nat)
    requires Sequential(run) && k < |run| && (run[k].Read? || run[k].CompareAndSet?)
    requires LastChange(run, i, k, run[k].key)
    ensures
      var held := if run[i].Delete? then None else LiveValue(run[i], run[k].now);
      && (run[k].Read? ==> WholeAnswerAt(run, k) == match held case Some(v) => Hit(v) case None => Miss)
      && (run[k].CompareAndSet? ==>
            WholeAnswerAt(run, k) == Swapped(run[k].expected == held || (run[k].expected == None && held == Some([]))))
  {
    var key := run[k].key;
    if run[i].Delete? {
      assert run[..i + 1][..i] == run[..i];
      AbsentUntilWritten(run, i + 1, k, key);
    } else {
      KeptUntilChanged(run, i, k, key);
      WrittenLives(run, i, run[k].now);
    }
  }

  /** A key that no call has changed holds nothing: reads miss, and a swap succeeds exactly from nil. */
  lemma {:induction false} WholeCallsMeetNothing(run: seq<Step>, k: nat)
    requires Sequential(run) && k < |run| && (run[k].Read? || run[k].CompareAndSet?)
    requires forall x :: 0 <= x < k ==> !WholeChanges(run, x, run[k].key)
    ensures WholeAnswerAt(run, k) == if run[k].Read? then Miss else Swapped(run[k].expected == None)
  {
    AbsentUntilWritten(run, 0, k, run[k].key);
  }

  /** With whole calls only expiry, or an empty value, lets a second creator win. */
  lemma {:induction false} SecondCreatorOfWholeCalls(run: seq<Step>, i: nat, k: nat)
    requires Sequential(run) && i < k < |run|
    requires run[i].CompareAndSet? && run[k].CompareAndSet? && run[i].key == run[k].key
    requires run[i].expected == run[k].expected == None && WholeAnswerAt(run, i) == Swapped(true)
    requires forall x :: i < x < k ==> !WholeChanges(run, x, run[k].key)
    ensures WholeAnswerAt(run, k) == Swapped(true) <==> Expired(Written(run[i]), run[k].now) || run[i].value == []
  {
    KeptUntilChanged(run, i, k, run[k].key);
  }

  /** A value set with a TTL can be read up to the end of it and no longer; without one, always. */
  lemma {:induction false} SetLivesExactly(c: Cache, key: string, value: Bytes, ttl: int, now: int, t: int)
    requires now >= ZERO_TIME
    ensures Whole(Whole(c, Set(key, value, ttl, now)).0, Read(key, t)).1 ==
            if ttl <= 0 || t <= now + ttl then Hit(value) else Miss
  {
  }

  /** A missing Get or a failed CompareAndSet changes nothing anyone can see, now or later. */
  lemma {:induction false} UnsuccessfulCallsAreInvisible(c: Cache, s: Step, t: int)
    requires s.Read? || s.CompareAndSet?
    requires t >= s.now
    requires Whole(c, s).1 == Miss || Whole(c, s).1 == Swapped(false)
    ensures SameView(Whole(c, s).0, c, t)
  {
    forall key ensures Seen(Whole(c, s).0, key, t) == Seen(c, key, t) {}
  }
}

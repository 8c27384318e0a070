/** internal/auth/ratelimit.go: the login rate limiter, and the sliding-window guarantee that
    its fixed windows and its blocking add up to.

    Times and durations are integers (nanoseconds); a zero `time.Time` is `None`. */
module RateLimiter {
  import opened Sets
  import opened Wrappers

  const INT64_MODULUS := 0x1_0000_0000_0000_0000
  const INT64_LIMIT := 0x8000_0000_0000_0000

  datatype Limits = Limits(maxAttempts: int, window: int, maxBackoff: int)

  datatype Record = Record(failures: nat, windowStart: int, blockedUntil: Option<int>)

  /** One doubling of a 64-bit signed duration: the high bit is lost, so the sign may change. */
  function Double(d: int): int {
    var doubled := 2 * d;
    if doubled >= INT64_LIMIT then doubled - INT64_MODULUS
    else if doubled < -INT64_LIMIT then doubled + INT64_MODULUS
    else doubled
  }

  /** `d << k`. */
  function ShiftLeft(d: int, k: nat): int {
    if k == 0 then d else Double(ShiftLeft(d, k - 1))
  }

  function Backoff(l: Limits, excess: nat): int {
    var shifted := ShiftLeft(l.window, excess);
    if shifted > l.maxBackoff || shifted <= 0 then l.maxBackoff else shifted
  }

  // ----- one key -----

  predicate Allowed(r: Option<Record>, now: int) {
    r.Some? && r.value.blockedUntil.Some? ==> now >= r.value.blockedUntil.value
  }

  /** An expired record that never led to a block is forgotten. */
  function AfterAllow(l: Limits, r: Option<Record>, now: int): Option<Record> {
    if r.Some? && r.value.blockedUntil.None? && now - r.value.windowStart > l.window then None else r
  }

  function AfterFailure(l: Limits, r: Option<Record>, now: int): Record {
    var rec := if r.None? || now - r.value.windowStart > l.window then Record(0, now, None) else r.value;
    var failures := rec.failures + 1;
    if failures > l.maxAttempts then
      Record(failures, rec.windowStart, Some(now + Backoff(l, failures - l.maxAttempts - 1)))
    else
      Record(failures, rec.windowStart, rec.blockedUntil)
  }

  // ----- the limiter -----

  datatype Op = Allow(key: string, now: int) | Failure(key: string, now: int) | Success(key: string)

  function Lookup(records: map<string, Record>, key: string): Option<Record> {
    if key in records then Some(records[key]) else None
  }

  function Step(l: Limits, records: map<string, Record>, op: Op): map<string, Record> {
    match op
    case Allow(key, now) =>
      if key in records && AfterAllow(l, Some(records[key]), now).None? then records - {key} else records
    case Failure(key, now) => records[key := AfterFailure(l, Lookup(records, key), now)]
    case Success(key) => records - {key}
  }

  class LoginRateLimiter {
    var records: map<string, Record>
    const limits: Limits

    constructor (maxAttempts: int, window: int, maxBackoff: int)
      ensures records == map[] && limits == Limits(maxAttempts, window, maxBackoff)
    {
      records := map[];
      limits := Limits(maxAttempts, window, maxBackoff);
    }

    method CheckAllowed(key: string, now: int) returns (ok: bool)
      modifies this
      ensures ok <==> Allowed(Lookup(old(records), key), now)
      ensures !ok <==> key in old(records)
                       && var until := old(records)[key].blockedUntil; until.Some? && now < until.value
      ensures records == Step(limits, old(records), Allow(key, now))
    {
      if key !in records {
        return true;
      }
      var rec := records[key];
      if rec.blockedUntil.Some? && now < rec.blockedUntil.value {
        return false;
      }
      if now - rec.windowStart > limits.window && rec.blockedUntil.None? {
        records := records - {key};
        return true;
      }
      return true;
    }

    method RecordFailure(key: string, now: int)
      modifies this
      ensures records == Step(limits, old(records), Failure(key, now))
      ensures key in records && records[key].failures > 0 && records - {key} == old(records) - {key}
    {
      if key !in records || now - records[key].windowStart > limits.window {
        records := records[key := Record(0, now, None)];
      }
      var rec := records[key];
      rec := rec.(failures := rec.failures + 1);
      if rec.failures > limits.maxAttempts {
        var backoff := ShiftLeft(limits.window, rec.failures - limits.maxAttempts - 1);
        if backoff > limits.maxBackoff || backoff <= 0 {
          backoff := limits.maxBackoff;
        }
        rec := rec.(blockedUntil := Some(now + backoff));
      }
      records := records[key := rec];
    }

    method RecordSuccess(key: string)
      modifies this
      ensures records == Step(limits, old(records), Success(key))
      ensures records == old(records) - {key}
    {
      records := records - {key};
    }
  }

  // ----- runs -----

  function Run(l: Limits, records: map<string, Record>, ops: seq<Op>): map<string, Record> {
    if ops == [] then records else Step(l, Run(l, records, ops[..|ops| - 1]), ops[|ops| - 1])
  }

  /** One key's view of a run: its record, whether the last thing that happened to the key was
      an attempt being let through, the times of its recorded failures, and the key's clock. */
  datatype View = View(record: Option<Record>, permitted: bool, failures: seq<int>, clock: int)

  function Observe(l: Limits, v: View, op: Op): View {
    match op
    case Allow(_, now) => View(AfterAllow(l, v.record, now), Allowed(v.record, now), v.failures, now)
    case Failure(_, now) => View(Some(AfterFailure(l, v.record, now)), false, v.failures + [now], now)
    case Success(_) => View(None, false, v.failures, v.clock)
  }

  function Watch(l: Limits, key: string, start: int, ops: seq<Op>): View {
    if ops == [] then View(None, false, [], start)
    else
      var before := Watch(l, key, start, ops[..|ops| - 1]);
      var op := ops[|ops| - 1];
      if op.key == key then Observe(l, before, op) else before
  }

  /** Every failure recorded for the key belongs to an attempt that `Allow` let through, with
      nothing else on that key in between; the clock does not go back and nothing succeeds.
      Operations on other keys may be interleaved freely. */
  predicate Disciplined(l: Limits, key: string, start: int, ops: seq<Op>) {
    if ops == [] then true
    else
      var earlier := ops[..|ops| - 1];
      var op := ops[|ops| - 1];
      var v := Watch(l, key, start, earlier);
      && Disciplined(l, key, start, earlier)
      && (op.key == key ==>
            && !op.Success?
            && op.now >= v.clock
            && (op.Failure? ==> v.permitted))
  }

  /** What happens to other keys does not matter: the limiter's record of a key is the one its
      own operations lead to. */
  lemma {:induction false} KeysAreIndependent(l: Limits, key: string, start: int, ops: seq<Op>)
    ensures Lookup(Run(l, map[], ops), key) == Watch(l, key, start, ops).record
  {
    if ops != [] {
      KeysAreIndependent(l, key, start, ops[..|ops| - 1]);
    }
  }

  function Max(a: int, b: int): int {
    if a >= b then a else b
  }

  function Bound(l: Limits): int {
    Max(1, 2 * l.maxAttempts)
  }

  /** What a window can hold; a window of a single tick is over before a second record can begin. */
  function TightBound(l: Limits): int {
    if l.window == 1 then l.maxAttempts + 1 else Bound(l)
  }

  predicate Reasonable(l: Limits) {
    0 <= l.maxAttempts && 0 < l.window <= l.maxBackoff < INT64_LIMIT
  }

  ghost predicate Ordered(log: seq<int>, clock: int) {
    && (forall i, j | 0 <= i <= j < |log| :: log[i] <= log[j])
    && (forall i | 0 <= i < |log| :: log[i] <= clock)
  }

  /** Any `count + 1` consecutive failures span at least `gap`. */
  ghost predicate Apart(log: seq<int>, count: int, gap: int) {
    forall i, j | 0 <= i <= j < |log| && j == i + count :: log[j] >= log[i] + gap
  }

  ghost predicate Spread(l: Limits, log: seq<int>) {
    Apart(log, Bound(l), l.window)
  }

  /** A failure at `now` that opens a new record is a window after the failure `maxAttempts` before it. */
  ghost predicate RoomForRecord(l: Limits, log: seq<int>, now: int) {
    && (l.maxAttempts == 0 ==> log == [] || now >= log[|log| - 1] + l.window)
    && (l.maxAttempts > 0 && |log| >= l.maxAttempts ==> now >= log[|log| - l.maxAttempts] + l.window)
  }

  ghost predicate RecordMatchesLog(l: Limits, r: Record, log: seq<int>) {
    var n, f := |log|, r.failures;
    && 1 <= f <= n && f <= l.maxAttempts + 2
    && log[n - f] == r.windowStart
    && (f <= l.maxAttempts ==> r.blockedUntil.None?)
    && (f > l.maxAttempts ==>
          r.blockedUntil.Some? && log[n - 1] + l.window <= r.blockedUntil.value <= log[n - 1] + 2 * l.window)
    && (f == l.maxAttempts + 2 ==> log[n - 1] >= r.windowStart + l.window)
    && RoomForRecord(l, log[..n - f], r.windowStart)
  }

  ghost predicate Invariant(l: Limits, v: View) {
    && Ordered(v.failures, v.clock)
    && Spread(l, v.failures)
    && (v.record.Some? ==> RecordMatchesLog(l, v.record.value, v.failures))
    && (v.record.None? ==> RoomForRecord(l, v.failures, v.clock))
    && (v.permitted ==> Allowed(v.record, v.clock))
  }

  lemma BackoffBounds(l: Limits, excess: nat)
    requires Reasonable(l) && excess <= 1
    ensures l.window <= Backoff(l, excess) <= 2 * l.window
  {
    assert excess == 1 ==> ShiftLeft(l.window, 1) == Double(ShiftLeft(l.window, 0));
  }

  lemma SpreadWithOneMore(l: Limits, log: seq<int>, now: int)
    requires Spread(l, log)
    requires |log| >= Bound(l) ==> now >= log[|log| - Bound(l)] + l.window
    ensures Spread(l, log + [now])
  {
  }

  lemma OrderedWithOneMore(log: seq<int>, clock: int, now: int)
    requires Ordered(log, clock) && now >= clock
    ensures Ordered(log + [now], now)
  {
  }

  /** A failure that opens a new record. */
  lemma FailureOpensRecord(l: Limits, v: View, now: int)
    requires Reasonable(l) && Invariant(l, v) && v.permitted && now >= v.clock
    requires v.record.Some? ==> now - v.record.value.windowStart > l.window
    ensures Invariant(l, Observe(l, v, Failure("", now)))
  {
    RoomAfterExpiry(l, v, now);
    OpenedRecordKeeps(l, v.failures, v.clock, now);
    assert AfterFailure(l, v.record, now) == AfterFailure(l, None, now);
  }

  lemma OpenedRecordKeeps(l: Limits, log: seq<int>, clock: int, now: int)
    requires Reasonable(l) && Ordered(log, clock) && Spread(l, log) && RoomForRecord(l, log, now) && now >= clock
    requires |log| >= Bound(l) ==> now >= log[|log| - Bound(l)] + l.window
    ensures Invariant(l, View(Some(AfterFailure(l, None, now)), false, log + [now], now))
  {
    OrderedWithOneMore(log, clock, now);
    SpreadWithOneMore(l, log, now);
    NewRecordMatches(l, log, now);
  }

  lemma RoomAfterExpiry(l: Limits, v: View, now: int)
    requires Reasonable(l) && Invariant(l, v) && v.permitted && now >= v.clock
    requires v.record.Some? ==> now - v.record.value.windowStart > l.window
    ensures RoomForRecord(l, v.failures, now)
    ensures |v.failures| >= Bound(l) ==> now >= v.failures[|v.failures| - Bound(l)] + l.window
  {
    if v.record.Some? {
      var n, f := |v.failures|, v.record.value.failures;
      assert f <= l.maxAttempts && n >= l.maxAttempts ==> v.failures[n - l.maxAttempts] <= v.failures[n - f];
    }
  }

  lemma NewRecordMatches(l: Limits, log: seq<int>, now: int)
    requires Reasonable(l) && RoomForRecord(l, log, now)
    ensures RecordMatchesLog(l, AfterFailure(l, None, now), log + [now])
  {
    BackoffBounds(l, 0);
    assert (log + [now])[..|log|] == log;
  }

  /** A failure counted in the current record. */
  lemma FailureExtendsRecord(l: Limits, v: View, now: int)
    requires Reasonable(l) && Invariant(l, v) && v.permitted && now >= v.clock
    requires v.record.Some? && now - v.record.value.windowStart <= l.window
    ensures Invariant(l, Observe(l, v, Failure("", now)))
  {
    var n, log := |v.failures|, v.failures + [now];
    if n >= Bound(l) { ExtensionIsSpread(l, v, now); }
    OrderedWithOneMore(v.failures, v.clock, now);
    SpreadWithOneMore(l, v.failures, now);
    ExtendedRecordMatches(l, v, now);
    var r' := AfterFailure(l, v.record, now);
    assert Invariant(l, View(Some(r'), false, log, now));
  }

  lemma ExtendedRecordMatches(l: Limits, v: View, now: int)
    requires Reasonable(l) && Invariant(l, v) && v.permitted && now >= v.clock
    requires v.record.Some? && now - v.record.value.windowStart <= l.window
    ensures RecordMatchesLog(l, AfterFailure(l, v.record, now), v.failures + [now])
  {
    var n, r := |v.failures|, v.record.value;
    assert r.failures <= l.maxAttempts + 1;
    BackoffBounds(l, 0);
    BackoffBounds(l, 1);
    assert (v.failures + [now])[..n - r.failures] == v.failures[..n - r.failures];
  }

  lemma ExtensionIsSpread(l: Limits, v: View, now: int)
    requires Reasonable(l) && Invariant(l, v) && v.permitted && now >= v.clock
    requires v.record.Some? && |v.failures| >= Bound(l)
    ensures now >= v.failures[|v.failures| - Bound(l)] + l.window
  {
    var n, r := |v.failures|, v.record.value;
    if r.failures <= l.maxAttempts {
      var earlier := v.failures[..n - r.failures];
      assert earlier[|earlier| - l.maxAttempts] == v.failures[n - r.failures - l.maxAttempts];
    }
  }

  lemma FailureKeeps(l: Limits, v: View, op: Op)
    requires Reasonable(l) && Invariant(l, v) && op.Failure? && v.permitted && op.now >= v.clock
    ensures Invariant(l, Observe(l, v, op))
  {
    if v.record.Some? && op.now - v.record.value.windowStart <= l.window {
      FailureExtendsRecord(l, v, op.now);
    } else {
      FailureOpensRecord(l, v, op.now);
    }
  }

  lemma AllowKeeps(l: Limits, v: View, op: Op)
    requires Reasonable(l) && Invariant(l, v) && op.Allow? && op.now >= v.clock
    ensures Invariant(l, Observe(l, v, op))
  {
    if v.record.Some? && AfterAllow(l, v.record, op.now).None? {
      var n, f := |v.failures|, v.record.value.failures;
      assert n >= l.maxAttempts ==> v.failures[n - l.maxAttempts] <= v.failures[n - f];
    }
  }

  lemma {:induction false} DisciplineKeepsInvariant(l: Limits, key: string, start: int, ops: seq<Op>)
    requires Reasonable(l) && Disciplined(l, key, start, ops)
    ensures Invariant(l, Watch(l, key, start, ops))
  {
    if ops != [] {
      var earlier, op := ops[..|ops| - 1], ops[|ops| - 1];
      DisciplineKeepsInvariant(l, key, start, earlier);
      var v := Watch(l, key, start, earlier);
      if op.key == key {
        if op.Allow? { AllowKeeps(l, v, op); } else { FailureKeeps(l, v, op); }
      }
    }
  }

  /** Positions of the failures in the half-open interval from `from` to `to`. */
  ghost function Within(log: seq<int>, from: int, to: int): set<int> {
    set i | 0 <= i < |log| && from <= log[i] < to
  }

  lemma FarApart(log: seq<int>, clock: int, count: nat, gap: int, i: nat, j: nat)
    requires Ordered(log, clock) && Apart(log, count, gap) && i <= j < |log|
    ensures j >= i + count ==> log[j] >= log[i] + gap
  {
    if j >= i + count {
      assert log[i + count] <= log[j];
    }
  }

  lemma ApartBoundsInterval(log: seq<int>, clock: int, count: nat, gap: int, from: int)
    requires Ordered(log, clock) && Apart(log, count, gap)
    ensures |Within(log, from, from + gap)| <= count
  {
    var inside := Within(log, from, from + gap);
    if inside != {} {
      var first := Least(inside);
      forall i | i in inside ensures first <= i < first + count {
        FarApart(log, clock, count, gap, first, i);
      }
      RangeCardinality(inside, first, first + count);
    }
  }

  // ----- a single instant -----

  /** The current record began after every failure before it, and is not extended once it is a window
      old; without a record the last failure is past. */
  ghost predicate Separate(l: Limits, v: View) {
    var n, log := |v.failures|, v.failures;
    if v.record.Some? then
      var f := v.record.value.failures;
      && 1 <= f <= n
      && (n > f ==> log[n - f - 1] < v.record.value.windowStart)
      && (f <= l.maxAttempts + 1 ==> log[n - 1] <= v.record.value.windowStart + l.window)
    else
      n > 0 ==> log[n - 1] < v.clock
  }

  lemma PastAtOpening(l: Limits, v: View, now: int)
    requires Reasonable(l) && Invariant(l, v) && Separate(l, v) && v.permitted && now >= v.clock
    requires v.record.Some? ==> now - v.record.value.windowStart > l.window
    ensures v.failures != [] ==> v.failures[|v.failures| - 1] < now
    ensures |v.failures| > l.maxAttempts ==> v.failures[|v.failures| - l.maxAttempts - 1] < now
  {
    var n := |v.failures|;
    assert n > l.maxAttempts ==> v.failures[n - l.maxAttempts - 1] <= v.failures[n - 1];
  }

  lemma PastAtExtension(l: Limits, v: View, now: int)
    requires Reasonable(l) && Invariant(l, v) && Separate(l, v) && v.permitted && now >= v.clock
    requires v.record.Some? && now - v.record.value.windowStart <= l.window
    ensures v.record.value.failures <= l.maxAttempts + 1
    ensures |v.failures| > l.maxAttempts ==> v.failures[|v.failures| - l.maxAttempts - 1] < now
  {
    var n, f := |v.failures|, v.record.value.failures;
    if n > l.maxAttempts {
      assert f <= l.maxAttempts ==> v.failures[n - l.maxAttempts - 1] <= v.failures[n - f - 1];
      assert v.failures[n - l.maxAttempts - 1] <= v.failures[n - 1];
    }
  }

  lemma FailureStaysSeparate(l: Limits, v: View, now: int)
    requires Reasonable(l) && Invariant(l, v) && Separate(l, v) && Apart(v.failures, l.maxAttempts + 1, 1)
    requires v.permitted && now >= v.clock
    ensures Separate(l, Observe(l, v, Failure("", now)))
    ensures Apart(v.failures + [now], l.maxAttempts + 1, 1)
  {
    if v.record.None? || now - v.record.value.windowStart > l.window {
      PastAtOpening(l, v, now);
    } else {
      PastAtExtension(l, v, now);
    }
  }

  lemma AllowStaysSeparate(l: Limits, v: View, now: int)
    requires Reasonable(l) && Invariant(l, v) && Separate(l, v) && now >= v.clock
    ensures Separate(l, Observe(l, v, Allow("", now)))
  {
  }

  lemma {:induction false} DisciplineKeepsSeparate(l: Limits, key: string, start: int, ops: seq<Op>)
    requires Reasonable(l) && Disciplined(l, key, start, ops)
    ensures Separate(l, Watch(l, key, start, ops))
    ensures Apart(Watch(l, key, start, ops).failures, l.maxAttempts + 1, 1)
  {
    if ops != [] {
      var earlier, op := ops[..|ops| - 1], ops[|ops| - 1];
      DisciplineKeepsInvariant(l, key, start, earlier);
      DisciplineKeepsSeparate(l, key, start, earlier);
      var v := Watch(l, key, start, earlier);
      if op.key == key {
        if op.Allow? { AllowStaysSeparate(l, v, op.now); } else { FailureStaysSeparate(l, v, op.now); }
      }
    }
  }

  /** The guarantee: in any half-open interval one window long, a disciplined run records at most
      max(1, 2 * maxAttempts) failures for a key, whatever happens to other keys; and at any single
      instant at most maxAttempts + 1. */
  lemma SlidingWindowBound(l: Limits, key: string, start: int, ops: seq<Op>, from: int)
    requires Reasonable(l) && Disciplined(l, key, start, ops)
    ensures |Within(Watch(l, key, start, ops).failures, from, from + l.window)| <= TightBound(l) <= Bound(l)
    ensures |Within(Watch(l, key, start, ops).failures, from, from + 1)| <= l.maxAttempts + 1
  {
    DisciplineKeepsInvariant(l, key, start, ops);
    DisciplineKeepsSeparate(l, key, start, ops);
    var v := Watch(l, key, start, ops);
    ApartBoundsInterval(v.failures, v.clock, Bound(l), l.window, from);
    ApartBoundsInterval(v.failures, v.clock, l.maxAttempts + 1, 1, from);
  }

  /** Under the same discipline a record never counts more than maxAttempts + 2 failures, so the
      doubling that the shift implements is never taken further than once. */
  lemma BlocksStayShort(l: Limits, key: string, start: int, ops: seq<Op>)
    requires Reasonable(l) && Disciplined(l, key, start, ops)
    ensures var v := Watch(l, key, start, ops);
            v.record.Some? && v.record.value.blockedUntil.Some? ==>
              && v.failures != []
              && v.record.value.failures <= l.maxAttempts + 2
              && l.window <= v.record.value.blockedUntil.value - v.failures[|v.failures| - 1] <= 2 * l.window
  {
    DisciplineKeepsInvariant(l, key, start, ops);
  }

  // ----- the bound is reached -----

  /** `n` attempts at time `now`, each let through and each failing. */
  function Attempts(key: string, now: int, n: nat): seq<Op> {
    if n == 0 then [] else Attempts(key, now, n - 1) + [Allow(key, now), Failure(key, now)]
  }

  lemma WatchSnoc(l: Limits, key: string, start: int, ops: seq<Op>, op: Op)
    ensures Watch(l, key, start, ops + [op]) ==
            if op.key == key then Observe(l, Watch(l, key, start, ops), op) else Watch(l, key, start, ops)
    ensures Disciplined(l, key, start, ops + [op]) <==>
            var v := Watch(l, key, start, ops);
            && Disciplined(l, key, start, ops)
            && (op.key == key ==> !op.Success? && op.now >= v.clock && (op.Failure? ==> v.permitted))
  {
    assert (ops + [op])[..|ops|] == ops;
  }

  lemma AttemptOnce(l: Limits, key: string, start: int, ops: seq<Op>, now: int)
    requires Disciplined(l, key, start, ops) && now >= Watch(l, key, start, ops).clock
    requires Allowed(Watch(l, key, start, ops).record, now)
    ensures var v := Watch(l, key, start, ops);
            var more := ops + [Allow(key, now), Failure(key, now)];
            && Disciplined(l, key, start, more)
            && Watch(l, key, start, more) == View(Some(AfterFailure(l, AfterAllow(l, v.record, now), now)), false,
                                                  v.failures + [now], now)
  {
    WatchSnoc(l, key, start, ops, Allow(key, now));
    WatchSnoc(l, key, start, ops + [Allow(key, now)], Failure(key, now));
    assert ops + [Allow(key, now), Failure(key, now)] == ops + [Allow(key, now)] + [Failure(key, now)];
  }

  /** `v'` follows `v` after `n` failures at time `now` in the same record, not blocked before. */
  ghost predicate Counted(l: Limits, v: View, v': View, now: int, n: nat) {
    && v.record.Some? && v'.record.Some?
    && v'.failures == v.failures + seq(n, _ => now)
    && v'.clock == (if n == 0 then v.clock else now)
    && v'.record.value.failures == v.record.value.failures + n
    && v'.record.value.windowStart == v.record.value.windowStart
    && (v.record.value.failures + n <= l.maxAttempts || n == 0 ==> v'.record.value.blockedUntil.None?)
  }

  lemma CountedOnce(l: Limits, v: View, v1: View, v2: View, now: int, n: nat)
    requires Counted(l, v, v1, now, n) && v.record.value.failures + n <= l.maxAttempts
    requires now - v.record.value.windowStart <= l.window
    requires v2 == View(Some(AfterFailure(l, AfterAllow(l, v1.record, now), now)), false, v1.failures + [now], now)
    ensures Counted(l, v, v2, now, n + 1)
  {
    assert seq(n, _ => now) + [now] == seq(n + 1, _ => now);
  }

  /** Attempts at one time extend an unblocked record by as many failures. */
  lemma {:induction false} AttemptsCount(l: Limits, key: string, start: int, ops: seq<Op>, now: int, n: nat)
    requires Disciplined(l, key, start, ops)
    requires var v := Watch(l, key, start, ops);
             && now >= v.clock && v.record.Some? && v.record.value.blockedUntil.None?
             && now - v.record.value.windowStart <= l.window
             && v.record.value.failures + n <= l.maxAttempts + 1
    ensures Disciplined(l, key, start, ops + Attempts(key, now, n))
    ensures Counted(l, Watch(l, key, start, ops), Watch(l, key, start, ops + Attempts(key, now, n)), now, n)
  {
    var v := Watch(l, key, start, ops);
    if n == 0 {
      assert ops + Attempts(key, now, 0) == ops;
    } else {
      AttemptsCount(l, key, start, ops, now, n - 1);
      var before := ops + Attempts(key, now, n - 1);
      var v1 := Watch(l, key, start, before);
      AttemptOnce(l, key, start, before, now);
      assert ops + Attempts(key, now, n) == before + [Allow(key, now), Failure(key, now)];
      CountedOnce(l, v, v1, Watch(l, key, start, ops + Attempts(key, now, n)), now, n - 1);
    }
  }

  /** One failure at 0, maxAttempts - 1 at the last instant of that window, and maxAttempts + 1
      an instant later. */
  function Burst(l: Limits, key: string): seq<Op>
    requires l.maxAttempts >= 1
  {
    [Allow(key, 0), Failure(key, 0)] + Attempts(key, l.window, l.maxAttempts - 1)
    + [Allow(key, l.window + 1), Failure(key, l.window + 1)] + Attempts(key, l.window + 1, l.maxAttempts)
  }

  /** The bound is reached, whatever the limits. */
  lemma BoundIsReached(l: Limits, key: string) returns (ops: seq<Op>, from: int)
    requires Reasonable(l)
    ensures Disciplined(l, key, 0, ops)
    ensures |Within(Watch(l, key, 0, ops).failures, from, from + l.window)| == TightBound(l)
  {
    if l.window == 1 || l.maxAttempts == 0 {
      ops, from := InstantBurst(l, key), 0;
      InstantFailures(l, key);
      TailCount(seq(l.maxAttempts + 1, _ => 0), 0, l.window, 0);
    } else {
      ops, from := Burst(l, key), l.window;
      BurstFailures(l, key);
      var log := BurstTimes(l);
      assert forall i | 0 <= i < |log| :: l.window <= log[i] < 2 * l.window <==> i >= 1;
      TailCount(log, l.window, 2 * l.window, 1);
    }
  }

  /** All at once: the attempts of one record and the one that blocks. */
  function InstantBurst(l: Limits, key: string): seq<Op>
    requires Reasonable(l)
  {
    [Allow(key, 0), Failure(key, 0)] + Attempts(key, 0, l.maxAttempts)
  }

  lemma InstantFailures(l: Limits, key: string)
    requires Reasonable(l)
    ensures Disciplined(l, key, 0, InstantBurst(l, key))
    ensures Watch(l, key, 0, InstantBurst(l, key)).failures == seq(l.maxAttempts + 1, _ => 0)
  {
    var first := [Allow(key, 0), Failure(key, 0)];
    AttemptOnce(l, key, 0, [], 0);
    assert [] + first == first;
    if l.maxAttempts == 0 {
      assert InstantBurst(l, key) == first;
    } else {
      AttemptsCount(l, key, 0, first, 0, l.maxAttempts);
    }
  }

  ghost function BurstTimes(l: Limits): seq<int>
    requires l.maxAttempts >= 1
  {
    [0] + seq(l.maxAttempts - 1, _ => l.window) + [l.window + 1] + seq(l.maxAttempts, _ => l.window + 1)
  }

  lemma BurstFailures(l: Limits, key: string)
    requires Reasonable(l) && l.maxAttempts >= 1
    ensures Disciplined(l, key, 0, Burst(l, key))
    ensures Watch(l, key, 0, Burst(l, key)).failures == BurstTimes(l)
  {
    var m, w := l.maxAttempts, l.window;
    var second := BurstStart(l, key);
    AttemptOnce(l, key, 0, second, w + 1);
    var third := second + [Allow(key, w + 1), Failure(key, w + 1)];
    AttemptsCount(l, key, 0, third, w + 1, m);
  }

  lemma BurstStart(l: Limits, key: string) returns (ops: seq<Op>)
    requires Reasonable(l) && l.maxAttempts >= 1
    ensures ops == [Allow(key, 0), Failure(key, 0)] + Attempts(key, l.window, l.maxAttempts - 1)
    ensures Disciplined(l, key, 0, ops)
    ensures var v := Watch(l, key, 0, ops);
            && v.record == Some(Record(l.maxAttempts, 0, None)) && v.clock <= l.window
            && v.failures == [0] + seq(l.maxAttempts - 1, _ => l.window)
  {
    var first := [Allow(key, 0), Failure(key, 0)];
    AttemptOnce(l, key, 0, [], 0);
    assert [] + first == first;
    AttemptsCount(l, key, 0, first, l.window, l.maxAttempts - 1);
    ops := first + Attempts(key, l.window, l.maxAttempts - 1);
  }

  lemma {:induction false} TailCount(log: seq<int>, from: int, to: int, lo: nat)
    requires lo <= |log| && forall i | 0 <= i < |log| :: from <= log[i] < to <==> i >= lo
    ensures |Within(log, from, to)| == |log| - lo
    decreases |log|
  {
    if lo == |log| {
      assert Within(log, from, to) == {};
    } else {
      var n := |log| - 1;
      TailCount(log[..n], from, to, lo);
      assert Within(log, from, to) == Within(log[..n], from, to) + {n};
    }
  }

  // ----- where blocks do grow -----

  function Pow2(k: nat): (p: int)
    ensures p >= 1
  {
    if k == 0 then 1 else 2 * Pow2(k - 1)
  }

  /** Up to the 63rd bit a shift multiplies. */
  lemma {:induction false} ShiftIsProduct(d: nat, k: nat)
    requires d * Pow2(k) < INT64_LIMIT
    ensures ShiftLeft(d, k) == d * Pow2(k)
  {
    if k > 0 {
      Halved(d, k);
      ShiftIsProduct(d, k - 1);
    }
  }

  lemma Halved(d: nat, k: nat)
    requires k > 0
    ensures d * Pow2(k) == 2 * (d * Pow2(k - 1)) && 0 <= d * Pow2(k - 1)
  {
  }

  lemma {:induction false} Pow2Monotone(d: nat, j: nat, k: nat)
    requires j <= k
    ensures d * Pow2(j) <= d * Pow2(k)
  {
    if j < k {
      Halved(d, k);
      Pow2Monotone(d, j, k - 1);
    }
  }

  /** The backoff doubles with each excess failure up to its maximum. A later one is shorter than an
      earlier one if and only if the shifted window has come back into range below it, which takes a
      product beyond 63 bits. */
  lemma BackoffGrowsUntilItWraps(l: Limits, j: nat, k: nat)
    requires Reasonable(l) && j <= k
    ensures l.window * Pow2(k) < INT64_LIMIT ==>
              Backoff(l, k) == if l.window * Pow2(k) > l.maxBackoff then l.maxBackoff else l.window * Pow2(k)
    ensures Backoff(l, k) < Backoff(l, j) <==> 0 < ShiftLeft(l.window, k) < Backoff(l, j)
    ensures Backoff(l, k) < Backoff(l, j) ==> l.window * Pow2(k) >= INT64_LIMIT
  {
    Pow2Monotone(l.window, j, k);
    Pow2Monotone(l.window, 0, j);
    if l.window * Pow2(k) < INT64_LIMIT {
      ShiftIsProduct(l.window, j);
      ShiftIsProduct(l.window, k);
    }
  }

  /** It does happen: an instant more than 2^62 is shifted out, and four instants are left. */
  lemma WrapShortensBlock()
    ensures var l := Limits(5, INT64_LIMIT / 2 + 1, INT64_LIMIT / 2 + 1);
            Reasonable(l) && Backoff(l, 2) == 4 < Backoff(l, 1) == Backoff(l, 0) == l.window
  {
    var d := INT64_LIMIT / 2 + 1;
    assert ShiftLeft(d, 1) == Double(ShiftLeft(d, 0)) == 2 * d - INT64_MODULUS;
    assert ShiftLeft(d, 2) == Double(ShiftLeft(d, 1)) == 4;
  }

  // ----- attempts permitted together -----

  function Repeat(op: Op, n: nat): seq<Op> {
    seq(n, _ => op)
  }

  lemma RepeatMore(op: Op, n: nat)
    ensures Repeat(op, n + 1) == Repeat(op, n) + [op]
  {
  }

  /** Checks alone are all let through and leave no trace. */
  lemma {:induction false} AllPermitted(l: Limits, key: string, now: int, n: nat)
    ensures Watch(l, key, now, Repeat(Allow(key, now), n)) == View(None, n > 0, [], now)
  {
    if n > 0 {
      AllPermitted(l, key, now, n - 1);
      RepeatMore(Allow(key, now), n - 1);
      WatchSnoc(l, key, now, Repeat(Allow(key, now), n - 1), Allow(key, now));
    }
  }

  function Repeated(now: int, n: nat): seq<int> {
    seq(n, _ => now)
  }

  /** The record after `n` failures at one time. */
  function TogetherRecord(l: Limits, now: int, n: nat): Option<Record> {
    if n == 0 then None
    else Some(Record(n, now, if n <= l.maxAttempts then None else Some(now + Backoff(l, n - l.maxAttempts - 1))))
  }

  lemma OneMoreTogether(l: Limits, now: int, n: nat)
    requires Reasonable(l)
    ensures Some(AfterFailure(l, TogetherRecord(l, now, n), now)) == TogetherRecord(l, now, n + 1)
  {
  }

  lemma {:induction false} FailuresTogether(l: Limits, key: string, now: int, checks: nat, n: nat)
    requires Reasonable(l)
    ensures var v := Watch(l, key, now, Repeat(Allow(key, now), checks) + Repeat(Failure(key, now), n));
            v.record == TogetherRecord(l, now, n) && v.failures == Repeated(now, n)
  {
    var before := Repeat(Allow(key, now), checks);
    if n == 0 {
      AllPermitted(l, key, now, checks);
      assert before + Repeat(Failure(key, now), 0) == before;
    } else {
      FailuresTogether(l, key, now, checks, n - 1);
      RepeatMore(Failure(key, now), n - 1);
      var ops := before + Repeat(Failure(key, now), n - 1);
      OneMoreFailure(l, key, now, ops, n - 1);
      assert before + Repeat(Failure(key, now), n) == ops + [Failure(key, now)];
    }
  }

  lemma OneMoreFailure(l: Limits, key: string, now: int, ops: seq<Op>, n: nat)
    requires Reasonable(l)
    requires var v := Watch(l, key, now, ops);
             v.record == TogetherRecord(l, now, n) && v.failures == Repeated(now, n)
    ensures var v := Watch(l, key, now, ops + [Failure(key, now)]);
            v.record == TogetherRecord(l, now, n + 1) && v.failures == Repeated(now, n + 1)
  {
    WatchSnoc(l, key, now, ops, Failure(key, now));
    OneMoreTogether(l, now, n);
    assert Repeated(now, n) + [now] == Repeated(now, n + 1);
  }

  /** When attempts are all checked before any of them fails, each check lets its attempt through and
      any backoff is reached: `k` failures beyond the first blocking one give `Backoff(l, k)`. */
  lemma AnyBackoffIsReached(l: Limits, key: string, now: int, k: nat)
    requires Reasonable(l)
    ensures var n := l.maxAttempts + 1 + k;
            && (forall i | 0 < i <= n :: Watch(l, key, now, Repeat(Allow(key, now), i)).permitted)
            && var v := Watch(l, key, now, Repeat(Allow(key, now), n) + Repeat(Failure(key, now), n));
               && |v.failures| == n
               && v.record.Some? && v.record.value.blockedUntil == Some(now + Backoff(l, k))
  {
    var n := l.maxAttempts + 1 + k;
    forall i | 0 < i <= n ensures Watch(l, key, now, Repeat(Allow(key, now), i)).permitted {
      AllPermitted(l, key, now, i);
    }
    FailuresTogether(l, key, now, n, n);
  }

  // ----- what is let through -----

  /** The clock does not go back. Attempts may come in any pattern, and may succeed. */
  predicate Monotone(key: string, start: int, ops: seq<Op>, l: Limits) {
    if ops == [] then true
    else
      var earlier, op := ops[..|ops| - 1], ops[|ops| - 1];
      && Monotone(key, start, earlier, l)
      && (op.key == key && !op.Success? ==> op.now >= Watch(l, key, start, earlier).clock)
  }

  ghost predicate BlockIsRecent(l: Limits, v: View) {
    v.record.Some? && v.record.value.blockedUntil.Some? ==>
      v.failures != [] && v.record.value.blockedUntil.value <= v.failures[|v.failures| - 1] + l.maxBackoff
  }

  lemma {:induction false} BlocksAreRecent(l: Limits, key: string, start: int, ops: seq<Op>)
    requires Reasonable(l) && Monotone(key, start, ops, l)
    ensures BlockIsRecent(l, Watch(l, key, start, ops))
    ensures var v := Watch(l, key, start, ops); v.failures != [] ==> v.failures[|v.failures| - 1] <= v.clock
  {
    if ops != [] {
      BlocksAreRecent(l, key, start, ops[..|ops| - 1]);
    }
  }

  /** Whether the next attempt on the key, at time `t`, is let through. */
  predicate LetThrough(l: Limits, key: string, start: int, ops: seq<Op>, t: int) {
    Watch(l, key, start, ops + [Allow(key, t)]).permitted
  }

  /** No block outlasts maxBackoff: whatever happened, an attempt that long after the key's last failure
      is let through, and so is one on a key that never failed. */
  lemma EveryBlockEnds(l: Limits, key: string, start: int, ops: seq<Op>, t: int)
    requires Reasonable(l) && Monotone(key, start, ops, l)
    ensures var failures := Watch(l, key, start, ops).failures;
            (failures == [] || t >= failures[|failures| - 1] + l.maxBackoff) ==> LetThrough(l, key, start, ops, t)
  {
    BlocksAreRecent(l, key, start, ops);
    WatchSnoc(l, key, start, ops, Allow(key, t));
  }

  /** A success ends any block at once. */
  lemma SuccessEndsBlock(l: Limits, key: string, start: int, ops: seq<Op>, t: int)
    ensures LetThrough(l, key, start, ops + [Success(key)], t)
  {
    WatchSnoc(l, key, start, ops, Success(key));
    WatchSnoc(l, key, start, ops + [Success(key)], Allow(key, t));
  }

  /** The block of `AnyBackoffIsReached` lasts exactly as long as its backoff. */
  lemma BlockLastsItsBackoff(l: Limits, key: string, now: int, k: nat, t: int)
    requires Reasonable(l) && t >= now
    ensures var n := l.maxAttempts + 1 + k;
            LetThrough(l, key, now, Repeat(Allow(key, now), n) + Repeat(Failure(key, now), n), t)
            <==> t >= now + Backoff(l, k)
  {
    var n := l.maxAttempts + 1 + k;
    FailuresTogether(l, key, now, n, n);
    WatchSnoc(l, key, now, Repeat(Allow(key, now), n) + Repeat(Failure(key, now), n), Allow(key, t));
  }

  /** Up to maxAttempts failures block nothing. */
  lemma FewFailuresBlockNothing(l: Limits, key: string, now: int, checks: nat, n: nat, t: int)
    requires Reasonable(l) && n <= l.maxAttempts
    ensures LetThrough(l, key, now, Repeat(Allow(key, now), checks) + Repeat(Failure(key, now), n), t)
  {
    FailuresTogether(l, key, now, checks, n);
    WatchSnoc(l, key, now, Repeat(Allow(key, now), checks) + Repeat(Failure(key, now), n), Allow(key, t));
  }

  /** In a disciplined run an attempt is refused only while its record counts more than maxAttempts
      failures, and less than two windows after the last of them. */
  lemma RefusalIsDeserved(l: Limits, key: string, start: int, ops: seq<Op>, t: int)
    requires Reasonable(l) && Disciplined(l, key, start, ops)
    ensures !LetThrough(l, key, start, ops, t) ==>
              var v := Watch(l, key, start, ops);
              && v.record.Some? && v.record.value.failures > l.maxAttempts
              && v.failures != [] && t < v.failures[|v.failures| - 1] + 2 * l.window
  {
    DisciplineKeepsInvariant(l, key, start, ops);
    WatchSnoc(l, key, start, ops, Allow(key, t));
  }
}

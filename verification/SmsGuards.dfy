/**
 * The two cost guards of the SMS channel. Clocks are milliseconds and never run backwards; destinations are the opaque
 * keys their digests stand for.
 */
module SmsGuards {
  import opened Wrappers

  // ── Times within a window ───────────────────────────────────────

  /** `times.filter((t) => now - t < windowMs)`. */
  function Recent(times: seq<int>, now: int, windowMs: int): (r: seq<int>)
    ensures |r| <= |times|
  {
    if times == [] then []
    else
      var front := Recent(times[..|times| - 1], now, windowMs);
      var t := times[|times| - 1];
      if now - t < windowMs then front + [t] else front
  }

  lemma RecentSnoc(times: seq<int>, t: int, now: int, windowMs: int)
    ensures Recent(times + [t], now, windowMs) == Recent(times, now, windowMs) + (if now - t < windowMs then [t] else [])
  {
    assert (times + [t])[..|times|] == times;
  }

  predicate Sorted(times: seq<int>) {
    forall i, j :: 0 <= i < j < |times| ==> times[i] <= times[j]
  }

  /** Filtering for an earlier moment first changes nothing: what has left the window does not come back. */
  lemma {:induction false} RecentTwice(times: seq<int>, before: int, now: int, windowMs: int)
    requires before <= now
    ensures Recent(Recent(times, before, windowMs), now, windowMs) == Recent(times, now, windowMs)
  {
    if times != [] {
      var front, t := times[..|times| - 1], times[|times| - 1];
      RecentTwice(front, before, now, windowMs);
      if before - t < windowMs {
        RecentSnoc(Recent(front, before, windowMs), t, now, windowMs);
      }
    }
  }

  /** In a sorted list, everything from a time still in the window on is in the window. */
  lemma {:induction false} RecentSuffix(times: seq<int>, now: int, windowMs: int, i: nat)
    requires Sorted(times) && i < |times| && now - times[i] < windowMs
    ensures |Recent(times, now, windowMs)| >= |times| - i
  {
    var last := |times| - 1;
    assert now - times[last] < windowMs;
    if i < last {
      RecentSuffix(times[..last], now, windowMs, i);
    }
  }

  lemma {:induction false} NoneRecent(times: seq<int>, now: int, windowMs: int)
    requires forall i :: 0 <= i < |times| ==> now - times[i] >= windowMs
    ensures Recent(times, now, windowMs) == []
  {
    if times != [] {
      NoneRecent(times[..|times| - 1], now, windowMs);
    }
  }

  // ── PerNumberLimiter ────────────────────────────────────────────

  type Key = int

  datatype Hit = Hit(key: Key, time: int)

  /** The accepted times of one number, over the whole history. */
  function TimesOf(history: seq<Hit>, key: Key): (r: seq<int>)
    ensures |r| <= |history|
  {
    if history == [] then []
    else
      var front := TimesOf(history[..|history| - 1], key);
      var hit := history[|history| - 1];
      if hit.key == key then front + [hit.time] else front
  }

  lemma TimesSnoc(history: seq<Hit>, hit: Hit, key: Key)
    ensures TimesOf(history + [hit], key) == TimesOf(history, key) + (if hit.key == key then [hit.time] else [])
  {
    assert (history + [hit])[..|history|] == history;
  }

  /** More than `max` accepted times in a row always span a whole window. */
  predicate NoBurst(times: seq<int>, max: nat, windowMs: int) {
    forall i :: 0 <= i && i + max < |times| ==> times[i + max] - times[i] >= windowMs
  }

  lemma AcceptedKeepsNoBurst(times: seq<int>, now: int, max: nat, windowMs: int)
    requires Sorted(times) && NoBurst(times, max, windowMs) && |Recent(times, now, windowMs)| < max
    requires forall i :: 0 <= i < |times| ==> times[i] <= now
    ensures Sorted(times + [now]) && NoBurst(times + [now], max, windowMs)
  {
    var all := times + [now];
    forall i | 0 <= i && i + max < |all| ensures all[i + max] - all[i] >= windowMs {
      if i + max == |times| && now - times[i] < windowMs {
        RecentSuffix(times, now, windowMs, i);
      }
    }
  }

  /** How many times fall into the window that starts at `start`. */
  function CountIn(times: seq<int>, start: int, windowMs: int): (n: nat)
    ensures n <= |times|
  {
    if times == [] then 0
    else CountIn(times[..|times| - 1], start, windowMs) + if start <= times[|times| - 1] < start + windowMs then 1 else 0
  }

  lemma {:induction false} CountAfter(times: seq<int>, start: int, windowMs: int, i: nat)
    requires i <= |times| && forall k :: 0 <= k < i ==> times[k] < start
    ensures CountIn(times, start, windowMs) <= |times| - i
  {
    if times != [] {
      if i == |times| {
        CountAfter(times[..|times| - 1], start, windowMs, i - 1);
      } else {
        CountAfter(times[..|times| - 1], start, windowMs, i);
      }
    }
  }

  /** No window of the configured length holds more than `max` accepted messages, wherever it starts. */
  lemma {:induction false} WindowHoldsAtMostMax(times: seq<int>, start: int, max: nat, windowMs: int)
    requires Sorted(times) && NoBurst(times, max, windowMs)
    ensures CountIn(times, start, windowMs) <= max
  {
    if times != [] {
      var last := |times| - 1;
      if start <= times[last] < start + windowMs {
        if last >= max {
          assert times[last - max + max] - times[last - max] >= windowMs;
          CountAfter(times, start, windowMs, last - max + 1);
        }
      } else {
        WindowHoldsAtMostMax(times[..last], start, max, windowMs);
      }
    }
  }

  /** From `since` on, the two lists have the same recent times. */
  ghost predicate SameFrom(stored: seq<int>, times: seq<int>, since: int, windowMs: int) {
    forall now :: now >= since ==> Recent(stored, now, windowMs) == Recent(times, now, windowMs)
  }

  /** Storing only the recent times, with or without the new one, is as good as storing all. */
  lemma StoringRecent(stored: seq<int>, times: seq<int>, since: int, now: int, windowMs: int)
    requires SameFrom(stored, times, since, windowMs) && since <= now
    ensures SameFrom(Recent(stored, now, windowMs), times, now, windowMs)
    ensures SameFrom(Recent(stored, now, windowMs) + [now], times + [now], now, windowMs)
  {
    var recent := Recent(stored, now, windowMs);
    forall t | t >= now
      ensures Recent(recent, t, windowMs) == Recent(times, t, windowMs)
      ensures Recent(recent + [now], t, windowMs) == Recent(times + [now], t, windowMs)
    {
      RecentTwice(stored, now, t, windowMs);
      RecentSnoc(recent, now, t, windowMs);
      RecentSnoc(times, now, t, windowMs);
    }
  }

  /** A number all of whose times have left the window need not be stored. */
  lemma ForgettingExpired(stored: seq<int>, times: seq<int>, now: int, windowMs: int)
    requires SameFrom(stored, times, now, windowMs) && forall i :: 0 <= i < |stored| ==> now - stored[i] >= windowMs
    ensures SameFrom([], times, now, windowMs)
  {
    forall t | t >= now ensures Recent(times, t, windowMs) == [] {
      NoneRecent(stored, t, windowMs);
    }
  }

  function TakesWithin(history: seq<Hit>, key: Key, now: int, windowMs: int): set<nat> {
    set i: nat | i < |history| && history[i].key == key && now - history[i].time < windowMs
  }

  lemma TakesSnoc(history: seq<Hit>, hit: Hit, key: Key, now: int, windowMs: int)
    ensures |history| !in TakesWithin(history, key, now, windowMs)
    ensures TakesWithin(history + [hit], key, now, windowMs)
         == TakesWithin(history, key, now, windowMs) + (if hit.key == key && now - hit.time < windowMs then {|history|} else {})
  {
  }

  lemma {:induction false} TakesCounted(history: seq<Hit>, key: Key, now: int, windowMs: int)
    ensures |Recent(TimesOf(history, key), now, windowMs)| == |TakesWithin(history, key, now, windowMs)|
  {
    hide Recent, TimesOf, TakesWithin;
    if history == [] {
      NoTakes(key, now, windowMs);
    } else {
      var front, hit := history[..|history| - 1], history[|history| - 1];
      assert history == front + [hit];
      TakesCounted(front, key, now, windowMs);
      TimesSnoc(front, hit, key);
      assert TimesOf(front, key) + [] == TimesOf(front, key);
      RecentSnoc(TimesOf(front, key), hit.time, now, windowMs);
      TakesSnoc(front, hit, key, now, windowMs);
    }
  }

  lemma NoTakes(key: Key, now: int, windowMs: int)
    ensures Recent(TimesOf([], key), now, windowMs) == [] && TakesWithin([], key, now, windowMs) == {}
  {
  }

  /** What a take is decided by: how many accepted takes of that very number lie within the window before it. */
  lemma RecentTakes(history: seq<Hit>, key: Key, now: int, windowMs: int)
    ensures |Recent(TimesOf(history, key), now, windowMs)|
         == |set i: nat | i < |history| && history[i].key == key && now - history[i].time < windowMs|
  {
    TakesCounted(history, key, now, windowMs);
  }

  const PRUNE_ABOVE: nat := 50_000

  class PerNumberLimiter {
    const max: nat
    const windowMs: int
    var hits: map<Key, seq<int>>
    /** Every accepted take, and the latest reading of the clock. */
    ghost var history: seq<Hit>
    ghost var latest: int

    /** The constructor throws for any other limits. */
    constructor (max: nat, windowMs: int, now: int)
      requires max >= 1 && windowMs >= 1000
      ensures Valid() && this.max == max && this.windowMs == windowMs && history == [] && latest == now
    {
      this.max, this.windowMs := max, windowMs;
      hits, history, latest := map[], [], now;
    }

    function Stored(key: Key): seq<int>
      reads this
    {
      if key in hits then hits[key] else []
    }

    /** What is stored of a number tells as much as its whole history; and that history never bursts. */
    ghost predicate KeyValid(key: Key)
      reads this
    {
      && SameFrom(Stored(key), TimesOf(history, key), latest, windowMs)
      && Sorted(TimesOf(history, key)) && NoBurst(TimesOf(history, key), max, windowMs)
      && forall i :: 0 <= i < |TimesOf(history, key)| ==> TimesOf(history, key)[i] <= latest
    }

    ghost predicate Valid()
      reads this
    {
      forall key :: KeyValid(key)
    }

    /**
     * `take`: refused exactly when `max` takes of this number were accepted within the window up to now. What was
     * filtered or pruned along the way never shows.
     */
    method Take(key: Key, now: int) returns (ok: bool)
      requires Valid() && now >= latest
      modifies this
      ensures Valid() && latest == now
      ensures ok <==> |Recent(TimesOf(old(history), key), now, windowMs)| < max
      ensures history == if ok then old(history) + [Hit(key, now)] else old(history)
    {
      assert KeyValid(key);
      assert Recent(Stored(key), now, windowMs) == Recent(TimesOf(history, key), now, windowMs);
      StoringRecent(Stored(key), TimesOf(history, key), latest, now, windowMs);
      var recent := Recent(Stored(key), now, windowMs);
      if |recent| >= max {
        hide Recent, TimesOf, NoBurst, Sorted, SameFrom;
        Store(key, recent, now, history);
        return false;
      }
      AcceptedTimes(history, key, now, max, windowMs);
      OtherTimes(history, key, now);
      hide Recent, TimesOf, NoBurst, Sorted, SameFrom;
      Store(key, recent + [now], now, history + [Hit(key, now)]);
      if |hits| > PRUNE_ABOVE {
        Prune(now);
      }
      return true;
    }

    /** `this.hits.set(key, recent)`, the take being part of the history if it was accepted. */
    method Store(key: Key, recent: seq<int>, now: int, ghost after: seq<Hit>)
      requires Valid() && now >= latest
      requires forall other :: other != key ==> TimesOf(after, other) == TimesOf(history, other)
      requires SameFrom(recent, TimesOf(after, key), now, windowMs)
      requires Sorted(TimesOf(after, key)) && NoBurst(TimesOf(after, key), max, windowMs)
      requires forall i :: 0 <= i < |TimesOf(after, key)| ==> TimesOf(after, key)[i] <= now
      modifies this
      ensures Valid() && latest == now && history == after && hits == old(hits)[key := recent]
    {
      hide Recent, TimesOf, NoBurst, Sorted;
      LaterStillSame(now);
      hide SameFrom;
      hits, history, latest := hits[key := recent], after, now;
      forall k ensures KeyValid(k) {
        assert old(KeyValid(k));
        if k != key {
          assert Stored(k) == old(Stored(k)) && TimesOf(history, k) == TimesOf(old(history), k);
        }
      }
    }

    lemma LaterStillSame(now: int)
      requires Valid() && now >= latest
      ensures forall key :: SameFrom(Stored(key), TimesOf(history, key), now, windowMs)
      ensures forall key, i :: 0 <= i < |TimesOf(history, key)| ==> TimesOf(history, key)[i] <= now
    {
      hide Recent, TimesOf, NoBurst, Sorted;
      forall key
        ensures SameFrom(Stored(key), TimesOf(history, key), now, windowMs)
        ensures forall i :: 0 <= i < |TimesOf(history, key)| ==> TimesOf(history, key)[i] <= now
      {
        assert KeyValid(key);
      }
    }

    /** Drop the numbers none of whose times is in the window any more. */
    method Prune(now: int)
      requires Valid() && latest == now
      modifies this`hits
      ensures Valid()
    {
      hide Recent, TimesOf, NoBurst, Sorted, SameFrom;
      forall key | key in hits && Expired(hits[key], now) ensures SameFrom([], TimesOf(history, key), now, windowMs) {
        assert KeyValid(key);
        ForgettingExpired(hits[key], TimesOf(history, key), now, windowMs);
      }
      ghost var stored := hits;
      assert forall key :: KeyValid(key);
      hits := map key | key in hits && !Expired(hits[key], now) :: hits[key];
      forall key ensures KeyValid(key) {
        assert old(KeyValid(key));
      }
    }

    predicate Expired(times: seq<int>, now: int) {
      forall i :: 0 <= i < |times| ==> now - times[i] >= windowMs
    }
  }

  lemma AcceptedTimes(history: seq<Hit>, key: Key, now: int, max: nat, windowMs: int)
    requires Sorted(TimesOf(history, key)) && NoBurst(TimesOf(history, key), max, windowMs)
    requires forall i :: 0 <= i < |TimesOf(history, key)| ==> TimesOf(history, key)[i] <= now
    requires |Recent(TimesOf(history, key), now, windowMs)| < max
    ensures var times := TimesOf(history + [Hit(key, now)], key);
            && times == TimesOf(history, key) + [now] && Sorted(times) && NoBurst(times, max, windowMs)
            && forall i :: 0 <= i < |times| ==> times[i] <= now
  {
    TimesSnoc(history, Hit(key, now), key);
    AcceptedKeepsNoBurst(TimesOf(history, key), now, max, windowMs);
  }

  lemma OtherTimes(history: seq<Hit>, key: Key, now: int)
    ensures forall other :: other != key ==> TimesOf(history + [Hit(key, now)], other) == TimesOf(history, other)
  {
    forall other | other != key ensures TimesOf(history + [Hit(key, now)], other) == TimesOf(history, other) {
      TimesSnoc(history, Hit(key, now), other);
    }
  }

  // ── DailyCostCap ────────────────────────────────────────────────

  const KIGALI_OFFSET_MS: int := 7_200_000
  const DAY_MS: int := 86_400_000

  /** The Kigali calendar day of a moment, as its number. */
  function KigaliDay(now: int): int {
    (now + KIGALI_OFFSET_MS) / DAY_MS
  }

  /** Kigali is two hours ahead of UTC: a day begins at 22:00 UTC of the day before, and lasts 24 hours. */
  lemma DayTurns(now: int, day: int)
    ensures KigaliDay(now) == day <==> 86_400_000 * day - 7_200_000 <= now < 86_400_000 * (day + 1) - 7_200_000
  {
  }

  lemma DaysFollow(earlier: int, later: int)
    requires earlier <= later
    ensures KigaliDay(earlier) <= KigaliDay(later)
  {
  }

  /** How many of the recorded messages fall on `day`. */
  function CountOn(days: seq<int>, day: int): (n: nat)
    ensures n <= |days|
  {
    if days == [] then 0 else CountOn(days[..|days| - 1], day) + if days[|days| - 1] == day then 1 else 0
  }

  lemma {:induction false} CountMeans(days: seq<int>, day: int)
    ensures CountOn(days, day) == |set i: nat | i < |days| && days[i] == day|
  {
    if days != [] {
      var last := |days| - 1;
      CountMeans(days[..last], day);
      var before, all := set i: nat | i < last && days[..last][i] == day, set i: nat | i < |days| && days[i] == day;
      assert all == if days[last] == day then before + {last} else before;
    }
  }

  lemma CountSnoc(days: seq<int>, d: int, day: int)
    ensures CountOn(days + [d], day) == CountOn(days, day) + if d == day then 1 else 0
  {
    assert (days + [d])[..|days|] == days;
  }

  lemma {:induction false} NoneOn(days: seq<int>, day: int)
    requires forall i :: 0 <= i < |days| ==> days[i] != day
    ensures CountOn(days, day) == 0
  {
    if days != [] {
      NoneOn(days[..|days| - 1], day);
    }
  }

  class DailyCostCap {
    const limit: nat
    /** The lines of the state file, or None when the count is held in memory. */
    var file: Option<seq<int>>
    var day: Option<int>
    var count: nat
    /** The day of every recorded message, and the latest reading of the clock. */
    ghost var recorded: seq<int>
    ghost var latest: int

    /** The constructor throws for any other limit; a state file may already hold lines up to today. */
    constructor (limit: nat, file: Option<seq<int>>, now: int)
      requires limit >= 1 && (file.Some? ==> forall d :: d in file.value ==> d <= KigaliDay(now))
      ensures Valid() && this.limit == limit && latest == now && recorded == if file.Some? then file.value else []
    {
      this.limit, this.file := limit, file;
      day, count, latest := None, 0, now;
      recorded := if file.Some? then file.value else [];
    }

    ghost predicate Valid()
      reads this
    {
      && (forall d :: d in recorded ==> d <= KigaliDay(latest))
      && (file.Some? ==> file.value == recorded)
      && (file.None? && day.None? ==> recorded == [])
      && (file.None? && day.Some? ==>
            day.value <= KigaliDay(latest) && count == CountOn(recorded, day.value) && forall d :: d in recorded ==> d <= day.value)
    }

    /** `used`: the messages recorded today, whichever way they are kept. */
    method Used(now: int) returns (n: nat)
      requires Valid() && now >= latest
      modifies this`day, this`count, this`latest
      ensures Valid() && latest == now && n == CountOn(recorded, KigaliDay(now))
    {
      DaysFollow(latest, now);
      var today := KigaliDay(now);
      latest := now;
      hide KigaliDay, CountOn;
      if file.None? {
        if day != Some(today) {
          assert forall i :: 0 <= i < |recorded| ==> recorded[i] in recorded;
          NoneOn(recorded, today);
          day, count := Some(today), 0;
        }
        return count;
      }
      n := 0;
      assert CountOn(file.value[..0], today) == 0 by { NoneOn(file.value[..0], today); }
      for i := 0 to |file.value|
        invariant Valid() && latest == now && n == CountOn(file.value[..i], today)
      {
        CountSnoc(file.value[..i], file.value[i], today);
        assert file.value[..i + 1] == file.value[..i] + [file.value[i]];
        if file.value[i] == today {
          n := n + 1;
        }
      }
      assert file.value[..|file.value|] == file.value;
    }

    method Allows(now: int) returns (ok: bool)
      requires Valid() && now >= latest
      modifies this`day, this`count, this`latest
      ensures Valid() && latest == now && (ok <==> CountOn(recorded, KigaliDay(now)) < limit)
    {
      var n := Used(now);
      ok := n < limit;
    }

    /** `record`; with `written` false, appending the line to the state file throws. */
    method Record(now: int, written: bool) returns (ok: bool)
      requires Valid() && now >= latest
      modifies this
      ensures Valid() && latest == now && file.Some? == old(file.Some?)
      ensures ok <==> file.None? || written
      ensures recorded == if ok then old(recorded) + [KigaliDay(now)] else old(recorded)
    {
      if file.None? {
        RecordInMemory(now);
        return true;
      }
      DaysFollow(latest, now);
      hide KigaliDay, CountOn;
      latest := now;
      if !written {
        return false;
      }
      var today := KigaliDay(now);
      file, recorded := Some(file.value + [today]), recorded + [today];
      return true;
    }

    /** The count of the day, which starts anew with the first message of a day. */
    method RecordInMemory(now: int)
      requires Valid() && now >= latest && file.None?
      modifies this
      ensures Valid() && latest == now && file.None? && recorded == old(recorded) + [KigaliDay(now)]
    {
      DaysFollow(latest, now);
      var today := KigaliDay(now);
      CountSnoc(recorded, today, today);
      hide KigaliDay, CountOn;
      latest := now;
      if day != Some(today) {
        NotYet(today);
        day, count := Some(today), 0;
      }
      count := count + 1;
      recorded := recorded + [today];
    }

    lemma NotYet(today: int)
      requires forall d :: d in recorded ==> d <= today
      requires day.None? ==> recorded == []
      requires day.Some? ==> day.value < today && forall d :: d in recorded ==> d <= day.value
      ensures CountOn(recorded, today) == 0
    {
      hide KigaliDay, CountOn;
      assert forall i :: 0 <= i < |recorded| ==> recorded[i] in recorded;
      NoneOn(recorded, today);
    }
  }
}

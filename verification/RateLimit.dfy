/** The refresh limiter of internal/item/model.go. Times are nanoseconds since the Unix epoch. */
module RateLimit {
  import opened Protocol

  const PER_ITEM_INTERVAL: nat := 33_333_333
  const GLOBAL_INTERVAL: nat := 8_333_333

  /** Go's zero time, year 1, which the limiter reads as "nothing granted yet". */
  const ZERO_TIME: int := -62_135_596_800_000_000_000

  datatype Limits = Limits(last: int, perKey: map<ItemKey, int>)

  const UNUSED := Limits(ZERO_TIME, map[])

  function Later(a: int, b: int): int {
    if b > a then b else a
  }

  /** The limits after a request at `now`, and the delay it is told; 0 is a grant. */
  function Reserve(l: Limits, key: ItemKey, now: int): (Limits, int) {
    var e := if l.last != ZERO_TIME then Later(now, l.last + GLOBAL_INTERVAL) else now;
    var earliest := if key in l.perKey then Later(e, l.perKey[key] + PER_ITEM_INTERVAL) else e;
    if earliest > now then (l, earliest - now) else (Limits(now, l.perKey[key := now]), 0)
  }

  class Limiter {
    var last: int
    var perKey: map<ItemKey, int>

    function Now(): Limits
      reads this
    {
      Limits(last, perKey)
    }

    constructor ()
      ensures Now() == UNUSED
    {
      last, perKey := ZERO_TIME, map[];
    }

    method Ask(key: ItemKey, now: int) returns (wait: int)
      modifies this
      ensures (Now(), wait) == Reserve(old(Now()), key, now)
    {
      var earliest := now;
      if last != ZERO_TIME {
        var next := last + GLOBAL_INTERVAL;
        if next > earliest {
          earliest := next;
        }
      }
      if key in perKey {
        var next := perKey[key] + PER_ITEM_INTERVAL;
        if next > earliest {
          earliest := next;
        }
      }
      if earliest > now {
        return earliest - now;
      }
      last := now;
      perKey := perKey[key := now];
      wait := 0;
    }

    method Forget(key: ItemKey)
      modifies this`perKey
      ensures Now() == old(Now()).(perKey := old(perKey) - {key})
    {
      perKey := perKey - {key};
    }
  }

  datatype Event = Ask(key: ItemKey, now: int) | Forget(key: ItemKey)

  function After(l: Limits, e: Event): Limits {
    match e
    case Ask(key, now) => Reserve(l, key, now).0
    case Forget(key) => l.(perKey := l.perKey - {key})
  }

  function Final(events: seq<Event>): Limits {
    if events == [] then UNUSED else After(Final(events[..|events| - 1]), events[|events| - 1])
  }

  predicate Granted(l: Limits, e: Event) {
    e.Ask? && Reserve(l, e.key, e.now).1 == 0
  }

  /** The clock readings of all grants, in order. */
  function Grants(events: seq<Event>): seq<int> {
    if events == [] then []
    else
      var front, e := events[..|events| - 1], events[|events| - 1];
      Grants(front) + if Granted(Final(front), e) then [e.now] else []
  }

  /** The grants to one key since it was last forgotten. */
  function GrantsTo(events: seq<Event>, key: ItemKey): seq<int> {
    if events == [] then []
    else
      var front, e := events[..|events| - 1], events[|events| - 1];
      if e == Forget(key) then []
      else GrantsTo(front, key) + if Granted(Final(front), e) && e.key == key then [e.now] else []
  }

  predicate Spaced(times: seq<int>, interval: nat) {
    forall i, j :: 0 <= i < j < |times| ==> times[i] + interval <= times[j]
  }

  predicate NeverZero(events: seq<Event>) {
    forall i :: 0 <= i < |events| ==> events[i].Ask? ==> events[i].now != ZERO_TIME
  }

  /** No grant read at the zero time is followed at once by another grant within the interval. */
  predicate ZeroGrantsRespected(times: seq<int>) {
    forall i :: 0 <= i < |times| - 1 && times[i] == ZERO_TIME ==> times[i + 1] >= ZERO_TIME + GLOBAL_INTERVAL
  }

  lemma {:induction false} LastIsRecorded(events: seq<Event>)
    ensures Grants(events) == [] ==> Final(events).last == ZERO_TIME
    ensures Grants(events) != [] ==> Final(events).last == Grants(events)[|Grants(events)| - 1]
    ensures NeverZero(events) ==> ZERO_TIME !in Grants(events)
  {
    if events == [] {
    } else {
      LastIsRecorded(events[..|events| - 1]);
    }
  }

  /** The global interval between grants holds for any clock readings, going backwards or not, exactly
      when no zero-time grant is followed too soon: the only readings the limiter cannot remember. */
  lemma {:induction false} SpacedExactly(events: seq<Event>)
    ensures Spaced(Grants(events), GLOBAL_INTERVAL) <==> ZeroGrantsRespected(Grants(events))
  {
    if events == [] {
    } else {
      var front, e := events[..|events| - 1], events[|events| - 1];
      SpacedExactly(front);
      LastIsRecorded(front);
      if Granted(Final(front), e) {
        SpacedSnoc(Grants(front), e.now);
        assert Grants(events) == Grants(front) + [e.now];
      } else {
        assert Grants(events) == Grants(front) + [] == Grants(front);
      }
    }
  }

  lemma SpacedSnoc(times: seq<int>, next: int)
    requires Spaced(times, GLOBAL_INTERVAL) <==> ZeroGrantsRespected(times)
    requires times != [] && times[|times| - 1] != ZERO_TIME ==> next >= times[|times| - 1] + GLOBAL_INTERVAL
    ensures Spaced(times + [next], GLOBAL_INTERVAL) <==> ZeroGrantsRespected(times + [next])
  {
    var all, n := times + [next], |times|;
    assert forall i :: 0 <= i < n ==> all[i] == times[i];
    if ZeroGrantsRespected(all) && n > 0 {
      assert ZeroGrantsRespected(times);
      assert all[n - 1] == ZERO_TIME ==> all[n - 1 + 1] >= ZERO_TIME + GLOBAL_INTERVAL;
    }
  }

  lemma GlobalSpacing(events: seq<Event>)
    requires NeverZero(events)
    ensures Spaced(Grants(events), GLOBAL_INTERVAL)
  {
    LastIsRecorded(events);
    SpacedExactly(events);
  }

  lemma {:induction false} PerItemSpacing(events: seq<Event>, key: ItemKey)
    ensures Spaced(GrantsTo(events, key), PER_ITEM_INTERVAL)
    ensures GrantsTo(events, key) != [] ==>
              && key in Final(events).perKey
              && Final(events).perKey[key] == GrantsTo(events, key)[|GrantsTo(events, key)| - 1]
    ensures forall i :: 0 <= i < |GrantsTo(events, key)| ==> GrantsTo(events, key)[i] <= Final(events).perKey[key]
  {
    if events == [] {
    } else {
      PerItemSpacing(events[..|events| - 1], key);
    }
  }

  function CountIn(times: seq<int>, start: int, width: nat): nat {
    if times == [] then 0
    else
      var t := times[|times| - 1];
      CountIn(times[..|times| - 1], start, width) + if start <= t < start + width then 1 else 0
  }

  lemma {:induction false} CountBounded(times: seq<int>, start: int, width: nat, interval: nat, latest: int)
    requires Spaced(times, interval)
    requires forall i :: 0 <= i < |times| && times[i] < start + width ==> times[i] <= latest
    ensures CountIn(times, start, width) > 0 ==> (CountIn(times, start, width) - 1) * interval <= latest - start
  {
    if times == [] {
    } else {
      var front, t := times[..|times| - 1], times[|times| - 1];
      if start <= t < start + width {
        CountBounded(front, start, width, interval, t - interval);
        var n: int := CountIn(front, start, width);
        assert (n - 1) * interval + interval == n * interval;
      } else {
        CountBounded(front, start, width, interval, latest);
      }
    }
  }

  /** For any clock readings, even going backwards: within any window of `width` nanoseconds the n
      grants satisfy (n - 1) * interval < width; so at most 31 in a second for one item between
      forgets, and at most 121 over all items unless a zero-time grant was followed too soon. */
  lemma GrantsAreBounded(events: seq<Event>, key: ItemKey, start: int, width: nat)
    requires width > 0
    ensures NeverZero(events) || ZeroGrantsRespected(Grants(events)) ==>
              && (CountIn(Grants(events), start, width) - 1) * GLOBAL_INTERVAL < width
              && (width == 1_000_000_000 ==> CountIn(Grants(events), start, width) <= 121)
    ensures (CountIn(GrantsTo(events, key), start, width) - 1) * PER_ITEM_INTERVAL < width
    ensures width == 1_000_000_000 ==> CountIn(GrantsTo(events, key), start, width) <= 31
  {
    if NeverZero(events) {
      GlobalSpacing(events);
    }
    SpacedExactly(events);
    if Spaced(Grants(events), GLOBAL_INTERVAL) {
      CountBounded(Grants(events), start, width, GLOBAL_INTERVAL, start + width - 1);
    }
    PerItemSpacing(events, key);
    CountBounded(GrantsTo(events, key), start, width, PER_ITEM_INTERVAL, start + width - 1);
  }

  /** A refusal names the least delay that succeeds, provided nothing else is granted meanwhile. */
  lemma WaitIsExact(l: Limits, key: ItemKey, now: int, delay: nat)
    requires Reserve(l, key, now).1 > 0
    ensures Reserve(l, key, now).0 == l
    ensures Reserve(l, key, now + delay).1 == 0 <==> delay >= Reserve(l, key, now).1
  {
  }

  /** A request is granted exactly when both intervals have passed; a last grant recorded at the zero
      time is the one that does not count. */
  lemma GrantedExactly(l: Limits, key: ItemKey, now: int)
    ensures Reserve(l, key, now).1 == 0 <==>
            && (l.last == ZERO_TIME || now >= l.last + GLOBAL_INTERVAL)
            && (key in l.perKey ==> now >= l.perKey[key] + PER_ITEM_INTERVAL)
  {
  }

  /** Forgetting a key lifts its own interval and nothing else. */
  lemma ForgottenAsksFreely(events: seq<Event>, key: ItemKey, other: ItemKey, now: int)
    ensures var l, after := Final(events), Final(events + [Forget(key)]);
            && (Reserve(after, key, now).1 == 0 <==> l.last == ZERO_TIME || now >= l.last + GLOBAL_INTERVAL)
            && (other != key ==> Reserve(after, other, now).1 == Reserve(l, other, now).1)
  {
    assert (events + [Forget(key)])[..|events|] == events;
  }

  /** The condition can fail: a grant read at the zero time limits nobody else. */
  lemma ZeroTimeGrantLimitsNobody(first: ItemKey, second: ItemKey)
    requires first != second
    ensures !Spaced(Grants([Ask(first, ZERO_TIME), Ask(second, ZERO_TIME)]), GLOBAL_INTERVAL)
  {
    var events := [Ask(first, ZERO_TIME), Ask(second, ZERO_TIME)];
    assert events[..1] == [Ask(first, ZERO_TIME)];
    assert events[..1][..0] == [];
    assert Grants(events[..1]) == [ZERO_TIME];
    assert Grants(events) == [ZERO_TIME, ZERO_TIME];
    var times := Grants(events);
    assert times[0] + GLOBAL_INTERVAL > times[1];
  }
}

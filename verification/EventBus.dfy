/**
 The event bus: sequence numbers, the history ring and the queries on it.
 Subscribers and their channels are not modelled.
 */
module EventBuses {
  import opened Wrappers

  datatype Event<+T> = Event(number: nat, kind: string, data: T)

  // ----- The ring -----

  function Push<T>(buffer: seq<Event<T>>, capacity: nat, e: Event<T>): seq<Event<T>> {
    (if |buffer| >= capacity && buffer != [] then buffer[1..] else buffer) + [e]
  }

  /** The last `n` elements, or all when there are fewer. */
  function LastOf<X>(s: seq<X>, n: nat): seq<X> {
    s[|s| - Min(|s|, n)..]
  }

  /** The ring after every event of `log` was pushed in turn. */
  function Ring<T>(log: seq<Event<T>>, capacity: nat): seq<Event<T>> {
    if log == [] then [] else Push(Ring(log[..|log| - 1], capacity), capacity, log[|log| - 1])
  }

  /** The ring holds exactly the last events published, and one even at capacity zero. */
  lemma {:induction false} RingIsTail<T>(log: seq<Event<T>>, capacity: nat)
    ensures Ring(log, capacity) == LastOf(log, Max(1, capacity))
  {
    if log != [] {
      var front := log[..|log| - 1];
      RingIsTail(front, capacity);
      var cap := Max(1, capacity);
      assert log == front + [log[|log| - 1]];
      var kept := LastOf(front, cap);
      if |front| >= cap {
        assert kept[1..] == front[|front| - cap + 1..];
      }
    }
  }

  /** What `publish` hands out: numbers from 1, one after another. */
  predicate Numbered<T>(log: seq<Event<T>>) {
    forall i :: 0 <= i < |log| ==> log[i].number == i + 1
  }

  // ----- Queries -----

  function From<T>(buffer: seq<Event<T>>, from: nat): seq<Event<T>> {
    if buffer == [] then []
    else (if buffer[0].number >= from then [buffer[0]] else []) + From(buffer[1..], from)
  }

  function Gap<T>(buffer: seq<Event<T>>, from: nat): nat {
    var oldest := if buffer == [] then 0 else buffer[0].number;
    Max(0, oldest - from)
  }

  /** Events from `from` on, and how many of those have aged out. */
  function EventsFrom<T>(buffer: seq<Event<T>>, from: nat): (seq<Event<T>>, nat) {
    (From(buffer, from), Gap(buffer, from))
  }

  lemma {:induction false} FromIsSuffix<T>(buffer: seq<Event<T>>, first: nat, from: nat)
    requires forall i :: 0 <= i < |buffer| ==> buffer[i].number == first + i
    ensures From(buffer, from) == buffer[Min(|buffer|, Max(0, from - first))..]
  {
    if buffer != [] {
      var rest := buffer[1..];
      FromIsSuffix(rest, first + 1, from);
      if buffer[0].number >= from {
        assert [buffer[0]] + rest == buffer;
      }
    }
  }

  /** How many of these events are numbered `from` or later. */
  ghost function CountFrom<T>(events: seq<Event<T>>, from: nat): nat {
    if events == [] then 0
    else (if events[0].number >= from then 1 else 0) + CountFrom(events[1..], from)
  }

  lemma {:induction false} CountFromNumbered<T>(events: seq<Event<T>>, first: nat, from: nat)
    requires forall i :: 0 <= i < |events| ==> events[i].number == first + i
    ensures CountFrom(events, from) == Max(0, Min(|events|, first + |events| - from))
  {
    if events != [] {
      CountFromNumbered(events[1..], first + 1, from);
    }
  }

  /** How many of `n` published events have left the ring. */
  function Lost(n: nat, capacity: nat): nat {
    n - Min(n, Max(1, capacity))
  }

  /** Where in the log the answer to a query begins: at `from`, or at the oldest event retained. */
  function Start(n: nat, capacity: nat, from: nat): (k: nat)
    ensures Lost(n, capacity) <= k <= n
  {
    Max(Lost(n, capacity), Min(n, Max(0, from - 1)))
  }

  lemma RingIsLogFrom<T>(log: seq<Event<T>>, capacity: nat)
    ensures Ring(log, capacity) == log[Lost(|log|, capacity)..]
  {
    hide Ring;
    RingIsTail(log, capacity);
  }

  /** A query returns exactly the retained events numbered `from` or later. */
  lemma QueryReturnsRetained<T>(log: seq<Event<T>>, capacity: nat, from: nat)
    requires Numbered(log)
    ensures From(Ring(log, capacity), from) == log[Start(|log|, capacity, from)..]
  {
    hide Ring, From;
    RingIsLogFrom(log, capacity);
    var lost := Lost(|log|, capacity);
    var ring := log[lost..];
    assert forall i :: 0 <= i < |ring| ==> ring[i] == log[lost + i];
    FromIsSuffix(ring, lost + 1, from);
    var k := Start(|log|, capacity, from) - lost;
    assert ring[k..] == log[lost + k..];
  }

  /**
   After any publishes, for every `from` between 1 and the next number, the gap and the returned events add up
   to all that were published since; later than that both are empty.
   */
  lemma GapAccountsForEverything<T>(log: seq<Event<T>>, capacity: nat, from: nat)
    requires Numbered(log)
    ensures var (events, gap) := EventsFrom(Ring(log, capacity), from);
            var next := |log| + 1;
            && (1 <= from <= next ==> gap + |events| == next - from)
            && (from > next ==> gap == 0 && events == [])
  {
    hide Ring, From;
    RingIsLogFrom(log, capacity);
    QueryReturnsRetained(log, capacity, from);
    var lost := Lost(|log|, capacity);
    assert log != [] ==> log[lost..][0] == log[lost];
  }

  /** The events published as `from` or later that the ring no longer holds. */
  ghost function Aged<T>(log: seq<Event<T>>, capacity: nat, from: nat): nat {
    CountFrom(log[..Lost(|log|, capacity)], from)
  }

  /** The gap is the number of events aged out, except that asking from 0 counts one event that never was. */
  lemma GapIsExactFromOne<T>(log: seq<Event<T>>, capacity: nat, from: nat)
    requires Numbered(log)
    ensures Gap(Ring(log, capacity), from) == Aged(log, capacity, from) <==> from >= 1 || log == []
    ensures from == 0 && log != [] ==> Gap(Ring(log, capacity), from) == Aged(log, capacity, from) + 1
  {
    hide Ring;
    RingIsLogFrom(log, capacity);
    var lost := Lost(|log|, capacity);
    assert log != [] ==> log[lost..][0] == log[lost];
    CountFromNumbered(log[..lost], 1, from);
  }

  // ----- Filtered history -----

  /** A filter is a prefix of the event kind; the empty one matches everything. */
  predicate Matches<T>(e: Event<T>, filter: string) {
    filter <= e.kind
  }

  predicate MatchesAny<T>(e: Event<T>, filters: seq<string>) {
    exists i :: 0 <= i < |filters| && Matches(e, filters[i])
  }

  function Matching<T>(buffer: seq<Event<T>>, filters: seq<string>): seq<Event<T>> {
    if buffer == [] then []
    else Matching(buffer[..|buffer| - 1], filters)
         + (if MatchesAny(buffer[|buffer| - 1], filters) then [buffer[|buffer| - 1]] else [])
  }

  /** Walk back from the newest event, taking up to `count` that match, and give them oldest first. */
  function TakeBack<T>(buffer: seq<Event<T>>, count: nat, filters: seq<string>): seq<Event<T>> {
    if buffer == [] || count == 0 then [] else
    var (front, e) := (buffer[..|buffer| - 1], buffer[|buffer| - 1]);
    if MatchesAny(e, filters) then TakeBack(front, count - 1, filters) + [e] else TakeBack(front, count, filters)
  }

  function RecentFiltered<T>(buffer: seq<Event<T>>, count: nat, filters: seq<string>): seq<Event<T>> {
    if filters == [] then LastOf(buffer, count) else TakeBack(buffer, count, filters)
  }

  /** A filtered history query gives the last `count` of the matching events, in order. */
  lemma {:induction false} TakeBackIsLastMatching<T>(buffer: seq<Event<T>>, count: nat, filters: seq<string>)
    ensures TakeBack(buffer, count, filters) == LastOf(Matching(buffer, filters), count)
  {
    if buffer != [] && count > 0 {
      var front, e := buffer[..|buffer| - 1], buffer[|buffer| - 1];
      if MatchesAny(e, filters) {
        TakeBackIsLastMatching(front, count - 1, filters);
        var m := Matching(front, filters);
        assert LastOf(m + [e], count) == LastOf(m, count - 1) + [e];
      } else {
        TakeBackIsLastMatching(front, count, filters);
        assert Matching(buffer, filters) == Matching(front, filters);
      }
    }
  }

  // ----- The bus -----

  class EventBus<T> {
    const capacity: nat
    var buffer: seq<Event<T>>
    var next: nat
    /** Everything ever published. */
    ghost var log: seq<Event<T>>

    ghost predicate Valid()
      reads this
    {
      Numbered(log) && next == |log| + 1 && buffer == Ring(log, capacity)
    }

    constructor (capacity: nat)
      ensures Valid() && log == [] && this.capacity == capacity
    {
      this.capacity := capacity;
      buffer, next, log := [], 1, [];
    }

    /** Publish an event; returns its number, one more than the last. */
    method Publish(kind: string, data: T) returns (number: nat)
      requires Valid()
      modifies this
      ensures Valid() && log == old(log) + [Event(number, kind, data)]
      ensures number == |old(log)| + 1
    {
      number := next;
      next := next + 1;
      var e := Event(number, kind, data);
      if |buffer| >= capacity && buffer != [] {
        buffer := buffer[1..];
      }
      buffer := buffer + [e];
      log := log + [e];
      assert log[..|log| - 1] == old(log) && log[|log| - 1] == e;
      assert Ring(log, capacity) == Push(old(buffer), capacity, e);
    }

    /** Events from a number on, and the count of those lost; exact for every `from` but 0. */
    method EventsFromSeq(from: nat) returns (events: seq<Event<T>>, gap: nat)
      requires Valid()
      ensures events == log[Start(|log|, capacity, from)..]
      ensures 1 <= from <= next ==> gap + |events| == next - from
      ensures from >= 1 ==> gap == Aged(log, capacity, from)
    {
      hide Ring, From, Aged, Gap, Start, Numbered;
      QueryReturnsRetained(log, capacity, from);
      GapAccountsForEverything(log, capacity, from);
      GapIsExactFromOne(log, capacity, from);
      events, gap := From(buffer, from), Gap(buffer, from);
    }

    /** The most recent events matching any filter. */
    method HistoryFiltered(count: nat, filters: seq<string>) returns (events: seq<Event<T>>)
      requires Valid()
      ensures filters != [] ==> events == LastOf(Matching(LastOf(log, Max(1, capacity)), filters), count)
      ensures filters == [] ==> events == LastOf(LastOf(log, Max(1, capacity)), count)
    {
      RingIsTail(log, capacity);
      TakeBackIsLastMatching(buffer, count, filters);
      events := RecentFiltered(buffer, count, filters);
    }
  }
}

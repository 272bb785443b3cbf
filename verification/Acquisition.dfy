/** Downloading a funding history page by page, and joining it with the last completed candle. */
module Acquisition {
  import opened Prelude

  datatype Event = Event(time: int, rate: real)

  datatype Candle = Candle(closed: int, price: real)

  // A page shorter than this ends the download.
  const FULL_PAGE := 500

  ghost predicate InOrder(events: seq<Event>) {
    forall i, j | 0 <= i < j < |events| :: events[i].time < events[j].time
  }

  // How many events come before t.
  function Before(events: seq<Event>, t: int): (n: nat)
    ensures n <= |events|
  {
    if events == [] || events[|events| - 1].time < t then |events| else Before(events[..|events| - 1], t)
  }

  lemma {:induction false} BeforeSplits(events: seq<Event>, t: int)
    requires InOrder(events)
    ensures forall i | 0 <= i < |events| :: i < Before(events, t) <==> events[i].time < t
  {
    if events != [] && events[|events| - 1].time >= t {
      var rest := events[..|events| - 1];
      BeforeSplits(rest, t);
      assert forall i | 0 <= i < |rest| :: rest[i] == events[i];
    }
  }

  // The history asked for: the events in range that are already known.
  function Wanted(events: seq<Event>, start: int, end: int, asOf: int): seq<Event> {
    var lo, hi := Before(events, start), Before(events, MinInt(end, asOf) + 1);
    if lo <= hi then events[lo..hi] else []
  }

  lemma WantedMembers(events: seq<Event>, start: int, end: int, asOf: int, i: nat)
    requires InOrder(events) && i < |events|
    ensures events[i] in Wanted(events, start, end, asOf) <==> start <= events[i].time <= end && events[i].time <= asOf
  {
    var lo, hi := Before(events, start), Before(events, MinInt(end, asOf) + 1);
    BeforeSplits(events, start);
    BeforeSplits(events, MinInt(end, asOf) + 1);
    if lo <= i < hi {
      assert Wanted(events, start, end, asOf)[i - lo] == events[i];
    }
    if events[i] in Wanted(events, start, end, asOf) {
      var j :| 0 <= j < |Wanted(events, start, end, asOf)| && Wanted(events, start, end, asOf)[j] == events[i];
      assert events[lo + j] == events[i];
    }
  }

  // The server: the first events from the cursor on, at most `cap` of them.
  function Page(events: seq<Event>, cursor: int, end: int, cap: nat): seq<Event> {
    var lo, hi := Before(events, cursor), Before(events, end + 1);
    if hi <= lo then [] else if hi - lo <= cap then events[lo..hi] else events[lo..lo + cap]
  }

  // How many of the wanted events a server with this page size yields.
  function Reached(wanted: nat, cap: nat): nat {
    if cap >= FULL_PAGE || wanted <= cap then wanted else cap
  }

  // Keeps the rows of a page that are already known.
  method Known(page: seq<Event>, start: int, end: int, asOf: int) returns (batch: seq<Event>)
    requires InOrder(page) && forall x | x in page :: start <= x.time <= end
    ensures batch == page[..Before(page, asOf + 1)]
  {
    batch := [];
    BeforeSplits(page, asOf + 1);
    for i := 0 to |page|
      invariant batch == page[..MinInt(i, Before(page, asOf + 1))]
    {
      assert page[i] in page;
      if start <= page[i].time <= end && page[i].time <= asOf {
        batch := batch + [page[i]];
      }
    }
  }

  // How many rows one page adds when lo of the history are behind the cursor and hi are known.
  function Added(lo: nat, hi: nat, cap: nat): nat {
    if hi <= lo then 0 else MinInt(cap, hi - lo)
  }

  lemma BeforeAt(events: seq<Event>, t: int, i: nat)
    requires InOrder(events) && i < |events|
    ensures i < Before(events, t) <==> events[i].time < t
  {
    BeforeSplits(events, t);
  }

  // The position is known by its two neighbours.
  lemma BeforeIs(events: seq<Event>, t: int, n: nat)
    requires InOrder(events) && n <= |events|
    requires (n > 0 ==> events[n - 1].time < t) && (n < |events| ==> events[n].time >= t)
    ensures Before(events, t) == n
  {
    if n > 0 {
      BeforeAt(events, t, n - 1);
    }
    if n < |events| {
      BeforeAt(events, t, n);
    }
  }

  lemma BeforeMonotone(events: seq<Event>, s: int, t: int)
    requires InOrder(events) && s <= t
    ensures Before(events, s) <= Before(events, t)
  {
    hide Before;
    if Before(events, t) < Before(events, s) {
      BeforeAt(events, s, Before(events, t));
      BeforeAt(events, t, Before(events, t));
    }
  }

  lemma BeforeNext(events: seq<Event>, k: nat)
    requires InOrder(events) && k < |events|
    ensures Before(events, events[k].time + 1) == k + 1
  {
    BeforeIs(events, events[k].time + 1, k + 1);
  }

  lemma PageShape(events: seq<Event>, cursor: int, end: int, cap: nat)
    ensures var lo, p := Before(events, cursor), Added(Before(events, cursor), Before(events, end + 1), cap);
            lo + p <= |events| && Page(events, cursor, end, cap) == events[lo..lo + p]
  {
  }

  lemma SliceInOrder(events: seq<Event>, lo: nat, hi: nat)
    requires InOrder(events) && lo <= hi <= |events|
    ensures InOrder(events[lo..hi])
  {
  }

  // A page lies within the range asked for.
  lemma PageInRange(events: seq<Event>, cursor: int, end: int, cap: nat)
    requires InOrder(events) && cursor <= end
    ensures InOrder(Page(events, cursor, end, cap))
    ensures forall x | x in Page(events, cursor, end, cap) :: cursor <= x.time <= end
  {
    hide Before, Page, InOrder;
    var lo, m := Before(events, cursor), Before(events, end + 1);
    var p, page := Added(lo, m, cap), Page(events, cursor, end, cap);
    PageShape(events, cursor, end, cap);
    SliceInOrder(events, lo, lo + p);
    forall x | x in page
      ensures cursor <= x.time <= end
    {
      var i :| 0 <= i < p && page[i] == x;
      BeforeAt(events, cursor, lo + i);
      BeforeAt(events, end + 1, lo + i);
    }
  }

  // The known part of a page is the next stretch of the history.
  lemma PageIsSlice(events: seq<Event>, cursor: int, end: int, asOf: int, cap: nat)
    requires InOrder(events) && cursor <= end
    ensures var lo, hi := Before(events, cursor), Before(events, MinInt(end, asOf) + 1);
            var page, n := Page(events, cursor, end, cap), Added(lo, hi, cap);
            && InOrder(page) && (forall x | x in page :: cursor <= x.time <= end)
            && lo + n <= |events| && n <= |page| && Before(page, asOf + 1) == n && page[..n] == events[lo..lo + n]
  {
    hide Before, Page, InOrder;
    var lo, hi, m := Before(events, cursor), Before(events, MinInt(end, asOf) + 1), Before(events, end + 1);
    var p, n := Added(lo, m, cap), Added(lo, hi, cap);
    BeforeMonotone(events, MinInt(end, asOf) + 1, end + 1);
    PageShape(events, cursor, end, cap);
    PageInRange(events, cursor, end, cap);
    var page := Page(events, cursor, end, cap);
    if n > 0 {
      BeforeAt(events, MinInt(end, asOf) + 1, lo + n - 1);
    }
    if n < p {
      BeforeAt(events, MinInt(end, asOf) + 1, lo + n);
      BeforeAt(events, end + 1, lo + n);
    }
    BeforeIs(page, asOf + 1, n);
    assert page[..n] == events[lo..lo + n];
  }

  function WantedCount(lo: nat, hi: nat): nat {
    if hi <= lo then 0 else hi - lo
  }

  lemma PrefixOfWanted(events: seq<Event>, start: int, end: int, asOf: int, k: nat)
    requires k <= WantedCount(Before(events, start), Before(events, MinInt(end, asOf) + 1))
    ensures var lo, wanted := Before(events, start), Wanted(events, start, end, asOf);
            k <= |wanted| && |wanted| == WantedCount(lo, Before(events, MinInt(end, asOf) + 1))
            && lo + k <= |events| && wanted[..k] == events[lo..lo + k]
  {
  }

  // One page, filtered: the next known stretch of the history, and where it ends.
  method NextBatch(events: seq<Event>, start: int, cursor: int, end: int, asOf: int, cap: nat)
    returns (batch: seq<Event>)
    requires InOrder(events) && start <= cursor <= end
    ensures var lo, hi := Before(events, cursor), Before(events, MinInt(end, asOf) + 1);
            var n := Added(lo, hi, cap);
            lo + n <= |events| && batch == events[lo..lo + n]
    ensures batch != [] ==>
              var last := batch[|batch| - 1].time;
              cursor <= last <= end && Before(events, last + 1) == Before(events, cursor) + |batch|
  {
    hide Page, InOrder, Before;
    PageIsSlice(events, cursor, end, asOf, cap);
    var page := Page(events, cursor, end, cap);
    batch := Known(page, start, end, asOf);
    if batch != [] {
      assert page[|batch| - 1] in page && page[|batch| - 1] == batch[|batch| - 1];
      BeforeNext(events, Before(events, cursor) + |batch| - 1);
    }
  }

  // The rows returned are a prefix of the wanted history: all of it when the server's pages are
  // at least as long as the length the code takes for full, else one page.
  method Funding(events: seq<Event>, start: int, end: int, asOf: int, cap: nat) returns (rows: seq<Event>)
    requires InOrder(events)
    ensures var wanted := Wanted(events, start, end, asOf);
            Reached(|wanted|, cap) <= |wanted| && rows == wanted[..Reached(|wanted|, cap)]
  {
    hide Page, InOrder, Before, Wanted;
    ghost var lo, hi := Before(events, start), Before(events, MinInt(end, asOf) + 1);
    ghost var at := lo;
    PrefixOfWanted(events, start, end, asOf, Reached(WantedCount(lo, hi), cap));
    rows := [];
    var cursor := start;
    while cursor <= end
      invariant start <= cursor && lo <= at <= |events| && Before(events, cursor) == at
      invariant rows == events[lo..at] && (at == lo || (at <= hi && cap >= FULL_PAGE))
      decreases end - cursor
    {
      var batch := NextBatch(events, start, cursor, end, asOf, cap);
      if batch == [] {
        return;
      }
      var last := batch[|batch| - 1].time;
      rows := rows + batch;
      at := at + |batch|;
      if last < cursor || |batch| < FULL_PAGE {
        return;
      }
      cursor := last + 1;
    }
    BeforeMonotone(events, MinInt(end, asOf) + 1, cursor);
  }

  // Nothing is missing exactly when pages are long enough or one page holds it all.
  lemma {:induction false} CompleteExactly(wanted: seq<Event>, cap: nat)
    ensures Reached(|wanted|, cap) <= |wanted|
    ensures wanted[..Reached(|wanted|, cap)] == wanted <==> cap >= FULL_PAGE || |wanted| <= cap
  {
    if cap < FULL_PAGE && cap < |wanted| {
      assert |wanted[..cap]| == cap;
    }
  }

  // ---- the join ----

  ghost predicate CandlesInOrder(candles: seq<Candle>) {
    forall i, j | 0 <= i < j < |candles| :: candles[i].closed < candles[j].closed
  }

  // The last candle closed at or before t.
  ghost predicate LastClosed(candles: seq<Candle>, t: int, i: int) {
    && 0 <= i < |candles| && candles[i].closed <= t
    && forall j | 0 <= j < |candles| && candles[j].closed <= t :: j <= i
  }

  method BisectRight(candles: seq<Candle>, t: int) returns (n: nat)
    requires CandlesInOrder(candles)
    ensures n <= |candles| && forall i | 0 <= i < |candles| :: i < n <==> candles[i].closed <= t
  {
    var lo, hi := 0, |candles|;
    while lo < hi
      invariant 0 <= lo <= hi <= |candles|
      invariant forall i | 0 <= i < lo :: candles[i].closed <= t
      invariant forall i | hi <= i < |candles| :: candles[i].closed > t
    {
      var mid := (lo + hi) / 2;
      if t < candles[mid].closed {
        hi := mid;
      } else {
        lo := mid + 1;
      }
    }
    n := lo;
  }

  datatype Joined = Joined(event: Event, price: real, closed: int)

  // Each event with the price of the last candle completed by then; refused when some event has
  // no such candle.
  method NormalizeFunding(rows: seq<Event>, candles: seq<Candle>) returns (r: Option<seq<Joined>>)
    requires CandlesInOrder(candles)
    ensures r.None? <==> exists k :: 0 <= k < |rows| && NoneClosed(candles, rows[k].time)
    ensures r.Some? ==> |r.value| == |rows| && forall k | 0 <= k < |rows| :: JoinedTo(candles, rows[k], r.value[k])
  {
    var out: seq<Joined> := [];
    for k := 0 to |rows|
      invariant |out| == k
      invariant forall j | 0 <= j < k :: JoinedTo(candles, rows[j], out[j]) && !NoneClosed(candles, rows[j].time)
    {
      var n := BisectRight(candles, rows[k].time);
      if n == 0 {
        assert NoneClosed(candles, rows[k].time);
        return None;
      }
      assert LastClosed(candles, rows[k].time, n - 1);
      out := out + [Joined(rows[k], candles[n - 1].price, candles[n - 1].closed)];
    }
    r := Some(out);
  }

  ghost predicate NoneClosed(candles: seq<Candle>, t: int) {
    forall i | 0 <= i < |candles| :: candles[i].closed > t
  }

  ghost predicate JoinedTo(candles: seq<Candle>, event: Event, j: Joined) {
    && j.event == event
    && exists i :: LastClosed(candles, event.time, i) && j.price == candles[i].price && j.closed == candles[i].closed
  }

  // The event with price and time of a candle closed by then, none of those closed by then being later.
  lemma {:induction false} JoinedSays(candles: seq<Candle>, event: Event, j: Joined)
    requires CandlesInOrder(candles)
    ensures JoinedTo(candles, event, j) <==>
              && j.event == event && j.closed <= event.time && Candle(j.closed, j.price) in candles
              && forall c | c in candles && c.closed <= event.time :: c.closed <= j.closed
    ensures NoneClosed(candles, event.time) <==> forall c | c in candles :: c.closed > event.time
  {
    if JoinedTo(candles, event, j) {
      var i :| LastClosed(candles, event.time, i) && j.price == candles[i].price && j.closed == candles[i].closed;
      assert candles[i] == Candle(j.closed, j.price);
    }
    if j.event == event && j.closed <= event.time && Candle(j.closed, j.price) in candles {
      var i :| 0 <= i < |candles| && candles[i] == Candle(j.closed, j.price);
      if forall c | c in candles && c.closed <= event.time :: c.closed <= j.closed {
        assert LastClosed(candles, event.time, i);
      }
    }
  }

  // Candles that close after an event do not change its price.
  lemma JoinIsCausal(candles: seq<Candle>, later: seq<Candle>, event: Event, j: Joined)
    requires CandlesInOrder(candles + later) && forall c | c in later :: c.closed > event.time
    ensures JoinedTo(candles + later, event, j) <==> JoinedTo(candles, event, j)
  {
    var all := candles + later;
    forall i
      ensures LastClosed(all, event.time, i) <==> LastClosed(candles, event.time, i)
      ensures LastClosed(candles, event.time, i) ==> all[i] == candles[i]
    {
      LastClosedAmong(candles, later, event.time, i);
    }
  }

  lemma LastClosedAmong(candles: seq<Candle>, later: seq<Candle>, t: int, i: int)
    requires forall c | c in later :: c.closed > t
    ensures LastClosed(candles + later, t, i) <==> LastClosed(candles, t, i)
    ensures LastClosed(candles, t, i) ==> (candles + later)[i] == candles[i]
  {
    var all := candles + later;
    assert forall j | |candles| <= j < |all| :: all[j] == later[j - |candles|] && all[j].closed > t;
    assert forall j | 0 <= j < |candles| :: all[j] == candles[j];
  }
}

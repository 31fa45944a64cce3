/** The message rotation: a persisted index into the message list that
    advances on a random schedule. On first load the schedule is replayed from a
    fixed anchor up to now (`inizializzaStato`); afterwards every refresh
    advances at most one step (`verificaCambioScritta`). The clock and the
    random delays are inputs: a delay is an integer number of milliseconds
    between SECONDI_MIN and SECONDI_MAX seconds. */
module Rotation {
  import Colors

  /** SECONDI_MIN and SECONDI_MAX: 12 and 24 hours, in seconds. */
  const MinDelaySeconds := 60 * 60 * 12
  const MaxDelaySeconds := 60 * 60 * 24
  const MinDelayMs := MinDelaySeconds * 1000
  const MaxDelayMs := MaxDelaySeconds * 1000

  /** DATA_INIZIO: 2025-12-19T18:00:00 local time, taken in the Italian winter
      time zone (UTC+1), as milliseconds since the epoch. */
  const Anchor := 1766163600000

  /** The three storage keys. */
  const IndexKey := "scrittaIndice"
  const LastChangeKey := "ultimoCambio"
  const NextChangeKey := "prossimoCambio"

  /** `{ indice, ultimoCambio, prossimoCambio }`. */
  datatype State = State(index: int, lastChange: int, nextChange: int)

  /** The list used when `scritte.json` cannot be fetched or decoded. */
  const FallbackMessages := ["Prima scritta", "Seconda scritta", "Terza scritta"]

  predicate ValidDelay(d: int) { MinDelayMs <= d <= MaxDelayMs }

  predicate ValidDelays(ds: seq<int>) { forall i :: 0 <= i < |ds| ==> ValidDelay(ds[i]) }

  // ---------------------------------------------------------------------------
  // The catch-up replay of inizializzaStato
  // ---------------------------------------------------------------------------

  /** The first scheduled state: index 0, changed at the anchor, the next change
      one delay later. */
  function Start(delays: seq<int>): State
    requires |delays| > 0
  {
    State(0, Anchor, Anchor + delays[0])
  }

  /** The replay loop from state `s` on: while the next change is not in the
      future and the last message is not reached, advance, the new next change
      lying one fresh delay (`delays[index]`) after the previous one. */
  function Replay(count: int, now: int, delays: seq<int>, s: State): State
    requires 0 <= s.index && count <= |delays|
    decreases count - s.index
  {
    if now >= s.nextChange && s.index < count - 1 then
      Replay(count, now, delays, State(s.index + 1, s.nextChange, s.nextChange + delays[s.index + 1]))
    else s
  }

  /** The state the first load computes for `count` messages at time `now`. */
  function CatchUpState(count: int, now: int, delays: seq<int>): State
    requires 0 < |delays| && count <= |delays|
  {
    Replay(count, now, delays, Start(delays))
  }

  /** The catch-up loop itself. */
  method CatchUp(count: int, now: int, delays: seq<int>) returns (s: State)
    requires 0 < |delays| && count <= |delays| && ValidDelays(delays)
    ensures s == CatchUpState(count, now, delays)
    ensures now < s.nextChange || s.index >= count - 1
    ensures 0 <= s.index && (count >= 1 ==> s.index <= count - 1)
  {
    var index := 0;
    var lastChange := Anchor;
    var nextChange := Anchor + delays[0];
    while now >= nextChange && index < count - 1
      invariant 0 <= index && (count >= 1 ==> index <= count - 1)
      invariant Replay(count, now, delays, State(index, lastChange, nextChange)) == CatchUpState(count, now, delays)
      decreases count - index
    {
      index := index + 1;
      lastChange := nextChange;
      nextChange := lastChange + delays[index];
    }
    s := State(index, lastChange, nextChange);
  }

  function Sum(ds: seq<int>): int {
    if ds == [] then 0 else Sum(ds[..|ds| - 1]) + ds[|ds| - 1]
  }

  /** `s` is the state after `s.index` steps of the schedule drawn from `delays`. */
  predicate OnSchedule(delays: seq<int>, s: State) {
    0 <= s.index < |delays|
    && s.lastChange == Anchor + Sum(delays[..s.index])
    && s.nextChange == s.lastChange + delays[s.index]
  }

  /** What the replay keeps and where it stops: it stays on the schedule, never
      goes back, stops only when the next change is in the future or the last
      message is reached, and every change it replays lies in the past. */
  lemma {:induction false} ReplayKeepsSchedule(count: int, now: int, delays: seq<int>, s: State)
    requires count <= |delays| && OnSchedule(delays, s)
    ensures OnSchedule(delays, Replay(count, now, delays, s))
    ensures Replay(count, now, delays, s).index >= s.index
    ensures Replay(count, now, delays, s).index > s.index ==>
              Replay(count, now, delays, s).lastChange <= now && Replay(count, now, delays, s).index <= count - 1
    ensures now < Replay(count, now, delays, s).nextChange || Replay(count, now, delays, s).index >= count - 1
    decreases count - s.index
  {
    if now >= s.nextChange && s.index < count - 1 {
      var t := State(s.index + 1, s.nextChange, s.nextChange + delays[s.index + 1]);
      assert delays[..t.index] == delays[..s.index] + [delays[s.index]];
      assert delays[..t.index][..s.index] == delays[..s.index];
      ReplayKeepsSchedule(count, now, delays, t);
    }
  }

  /** Each of the first `n` delays is at least the minimum and at most the maximum. */
  lemma {:induction false} SumBounds(ds: seq<int>)
    requires ValidDelays(ds)
    ensures |ds| * MinDelayMs <= Sum(ds) <= |ds| * MaxDelayMs
  {
    if ds != [] {
      SumBounds(ds[..|ds| - 1]);
    }
  }

  /** The properties of the first-load state: the index is in range, the loop
      stopped for one of its two reasons, the gap to the next change is one
      delay, the last change lies at least `index` minimum delays after the
      anchor and (after at least one step) not after now, so the index is
      bounded by the elapsed time over the minimum delay; and unless the last
      message was reached, the next change, at most `index + 1` maximum delays
      after the anchor, is still in the future. */
  lemma CatchUpBounds(count: int, now: int, delays: seq<int>)
    requires 0 < |delays| && count <= |delays| && ValidDelays(delays)
    ensures var s := CatchUpState(count, now, delays);
      && 0 <= s.index && (count >= 1 ==> s.index <= count - 1)
      && (now < s.nextChange || s.index >= count - 1)
      && MinDelayMs <= s.nextChange - s.lastChange <= MaxDelayMs
      && s.lastChange >= Anchor + s.index * MinDelayMs
      && (s.index == 0 ==> s.lastChange == Anchor)
      && (s.index >= 1 ==> s.lastChange <= now && s.index <= (now - Anchor) / MinDelayMs)
      && (s.index < count - 1 ==> now - Anchor < (s.index + 1) * MaxDelayMs)
  {
    var s := CatchUpState(count, now, delays);
    assert delays[..0] == [];
    ReplayKeepsSchedule(count, now, delays, Start(delays));
    SumBounds(delays[..s.index]);
    SumBounds(delays[..s.index + 1]);
    assert delays[..s.index + 1] == delays[..s.index] + [delays[s.index]];
    assert delays[..s.index + 1][..s.index] == delays[..s.index];
    if s.index >= 1 {
      DivBound(s.index, now - Anchor, MinDelayMs);
    }
  }

  lemma DivBound(i: int, x: int, m: int)
    requires m > 0 && i * m <= x
    ensures i <= x / m
  {
    assert x == m * (x / m) + x % m;
    assert i * m < (x / m + 1) * m;
    MulLess(i, x / m + 1, m);
  }

  lemma MulLess(a: int, b: int, m: int)
    requires m > 0 && a * m < b * m
    ensures a < b
  {
    assert (b - a) * m == b * m - a * m;
  }

  /** A refresh that runs while the list is still empty replays nothing: it
      yields index 0 at the anchor, which `InitializeState` then stores. From
      then on the stored triple is loaded instead of replayed, so however long
      after the anchor the page was opened, a later refresh shows index 0 or 1. */
  lemma EmptyListLocksIn(now: int, later: int, count: int, delays: seq<int>, delay: int)
    requires 0 < |delays| && ValidDelay(delay)
    ensures CatchUpState(0, now, delays) == Start(delays)
    ensures Advance(0, Start(delays), now, delay) == Start(delays)
    ensures Advance(count, Start(delays), later, delay).index <= 1
  {
  }

  /** With 5 messages, 12 to 24 hour delays and now 50 hours after the anchor,
      the first load lands on an index reachable by 2 to 4 steps. */
  lemma ScenarioFiftyHours(delays: seq<int>)
    requires |delays| >= 5 && ValidDelays(delays)
    ensures 2 <= CatchUpState(5, Anchor + 50 * 3600000, delays).index <= 4
  {
    CatchUpBounds(5, Anchor + 50 * 3600000, delays);
  }

  /** With the same draws, a later first load never lands on an earlier index. */
  lemma {:induction false} ReplayMonotone(count: int, now1: int, now2: int, delays: seq<int>, s: State)
    requires now1 <= now2 && 0 <= s.index && count <= |delays|
    ensures Replay(count, now1, delays, s).index <= Replay(count, now2, delays, s).index
    decreases count - s.index
  {
    if now1 >= s.nextChange && s.index < count - 1 {
      ReplayMonotone(count, now1, now2, delays, State(s.index + 1, s.nextChange, s.nextChange + delays[s.index + 1]));
    } else {
      ReplayNeverBack(count, now2, delays, s);
    }
  }

  lemma {:induction false} ReplayNeverBack(count: int, now: int, delays: seq<int>, s: State)
    requires 0 <= s.index && count <= |delays|
    ensures Replay(count, now, delays, s).index >= s.index
    decreases count - s.index
  {
    if now >= s.nextChange && s.index < count - 1 {
      ReplayNeverBack(count, now, delays, State(s.index + 1, s.nextChange, s.nextChange + delays[s.index + 1]));
    }
  }

  lemma CatchUpMonotone(count: int, now1: int, now2: int, delays: seq<int>)
    requires now1 <= now2 && 0 < |delays| && count <= |delays|
    ensures CatchUpState(count, now1, delays).index <= CatchUpState(count, now2, delays).index
  {
    ReplayMonotone(count, now1, now2, delays, Start(delays));
  }

  // ---------------------------------------------------------------------------
  // The single step of verificaCambioScritta
  // ---------------------------------------------------------------------------

  /** One check: when the next change is due and the last message is not
      reached, the index moves up by exactly one, the change is dated now and
      the next one is one fresh delay later; otherwise the state is returned
      unchanged. Repeated checks advance at most one step each. */
  function Advance(count: int, st: State, now: int, delay: int): (r: State)
    requires ValidDelay(delay)
    ensures now >= st.nextChange && st.index < count - 1 ==>
              r.index == st.index + 1 && r.lastChange == now
              && now + MinDelayMs <= r.nextChange <= now + MaxDelayMs
    ensures !(now >= st.nextChange && st.index < count - 1) ==> r == st
    ensures st.index <= r.index <= st.index + 1
    ensures st.index <= count - 1 ==> r.index <= count - 1
  {
    if now >= st.nextChange && st.index < count - 1 then State(st.index + 1, now, now + delay) else st
  }

  /** The rotation invariants: the index names a message, the last change is
      not in the future and the next change is one valid delay after it. */
  predicate Consistent(count: int, s: State, now: int) {
    0 <= s.index < count && s.lastChange <= now && ValidDelay(s.nextChange - s.lastChange)
  }

  /** A check at a later time keeps the invariants; in particular the index
      never passes the last message and the next change stays after the last. */
  lemma AdvanceKeepsConsistent(count: int, st: State, before: int, now: int, delay: int)
    requires ValidDelay(delay) && Consistent(count, st, before) && before <= now
    ensures Consistent(count, Advance(count, st, now, delay), now)
    ensures Advance(count, st, now, delay).nextChange > Advance(count, st, now, delay).lastChange
  {
  }

  /** The first load establishes the invariants once now is past the anchor. */
  lemma CatchUpConsistent(count: int, now: int, delays: seq<int>)
    requires 0 < |delays| && count <= |delays| && ValidDelays(delays)
    requires count >= 1 && now >= Anchor
    ensures Consistent(count, CatchUpState(count, now, delays), now)
  {
    CatchUpBounds(count, now, delays);
  }

  // ---------------------------------------------------------------------------
  // Storage
  // ---------------------------------------------------------------------------

  predicate HasState(m: map<string, int>) {
    IndexKey in m && LastChangeKey in m && NextChangeKey in m
  }

  /** The three `setItem` calls, in source order. */
  function Persist(m: map<string, int>, s: State): map<string, int> {
    m[IndexKey := s.index][LastChangeKey := s.lastChange][NextChangeKey := s.nextChange]
  }

  /** The three `getItem` calls of a later load. */
  function Load(m: map<string, int>): State
    requires HasState(m)
  {
    State(m[IndexKey], m[LastChangeKey], m[NextChangeKey])
  }

  /** Storing a state and loading it back gives the same triple, and no other
      key is touched. */
  lemma PersistLoad(m: map<string, int>, s: State)
    ensures HasState(Persist(m, s)) && Load(Persist(m, s)) == s
    ensures forall k :: k != IndexKey && k != LastChangeKey && k != NextChangeKey ==>
              (k in Persist(m, s) <==> k in m) && (k in m ==> Persist(m, s)[k] == m[k])
  {
  }

  // ---------------------------------------------------------------------------
  // The elapsed-time readout of aggiornaInterfaccia
  // ---------------------------------------------------------------------------

  datatype Elapsed = Elapsed(hours: int, minutes: int, seconds: int)

  /** `a / m` truncated toward zero. */
  function TruncDiv(a: int, m: int): int
    requires m > 0
  {
    if a >= 0 then a / m else -((-a) / m)
  }

  /** JavaScript `%`: what is left of `a` after taking away the quotient
      truncated toward zero, so the remainder takes the sign of the dividend. */
  function JsRem(a: int, m: int): (r: int)
    requires m > 0
    ensures a >= 0 ==> 0 <= r < m
    ensures a < 0 ==> -m < r <= 0
    ensures a == TruncDiv(a, m) * m + r
  {
    if a >= 0 then a % m else -((-a) % m)
  }

  /** `Math.floor(d / 3600000)`, `Math.floor((d % 3600000) / 60000)` and
      `Math.floor((d % 60000) / 1000)`. For a non-negative difference these
      are the whole hours, minutes and seconds it contains. */
  function Split(diff: int): (e: Elapsed)
    ensures diff >= 0 ==> 0 <= e.hours && 0 <= e.minutes < 60 && 0 <= e.seconds < 60
    ensures diff >= 0 ==> e.hours * 3600 + e.minutes * 60 + e.seconds == diff / 1000
    ensures diff >= 0 ==> e.hours * 3600000 + e.minutes * 60000 + e.seconds * 1000 <= diff
                            < e.hours * 3600000 + e.minutes * 60000 + e.seconds * 1000 + 1000
  {
    SplitParts(diff);
    Elapsed(diff / 3600000, JsRem(diff, 3600000) / 60000, JsRem(diff, 60000) / 1000)
  }

  /** The arithmetic behind `Split`'s contract, kept apart because a function
      body cannot hold its case split and intermediate assertions. */
  lemma SplitParts(diff: int)
    ensures diff >= 0 ==>
      var h, m, s := diff / 3600000, JsRem(diff, 3600000) / 60000, JsRem(diff, 60000) / 1000;
      0 <= h && 0 <= m < 60 && 0 <= s < 60 && h * 3600 + m * 60 + s == diff / 1000
  {
    if diff >= 0 {
      var secs := diff / 1000;
      assert diff == secs * 1000 + diff % 1000;
      var h := diff / 3600000;
      var r := diff % 3600000;
      assert diff == h * 3600000 + r;
      assert r / 60000 < 60;
      var r2 := diff % 60000;
      assert r == (r / 60000) * 60000 + r2 by {
        assert diff == (diff / 60000) * 60000 + r2;
        assert diff / 60000 == h * 60 + r / 60000;
      }
      assert secs == h * 3600 + (r / 60000) * 60 + r2 / 1000;
    }
  }

  /** Just after a clock step backwards the readout turns negative: a
      difference of less than a second below zero shows as -1h -1m -1s. */
  lemma SplitJustBelowZero(diff: int)
    requires -1000 < diff < 0
    ensures Split(diff) == Elapsed(-1, -1, -1)
  {
  }

  /** The text shown for an index: `SCRITTE[indice] || ''`, the message at
      that index or, out of range, the empty text. */
  function Displayed(messages: seq<string>, index: int): (t: string)
    ensures 0 <= index < |messages| ==> t == messages[index]
    ensures !(0 <= index < |messages|) ==> t == ""
  {
    if 0 <= index < |messages| then messages[index] else ""
  }

  // ---------------------------------------------------------------------------
  // The page state: storage plus the loaded message list
  // ---------------------------------------------------------------------------

  class MessageRotation {
    /** localStorage, with the timestamps as integer milliseconds. */
    var storage: map<string, int>
    /** SCRITTE: empty until `LoadMessages` runs. */
    var messages: seq<string>

    /** Storage is written only by the two operations below, always all three
        keys at once. */
    ghost predicate Valid()
      reads this
    {
      IndexKey in storage ==> HasState(storage)
    }

    constructor (messages: seq<string>, storage: map<string, int>)
      requires IndexKey in storage ==> HasState(storage)
      ensures Valid() && this.messages == messages && this.storage == storage
    {
      this.messages := messages;
      this.storage := storage;
    }

    /** `caricaScritte` once its fetch settles: the fetched list, or the three
        fallback messages when the fetch or the decoding failed. Storage is not
        touched; the refresh it triggers is a separate `Refresh` call. */
    method LoadMessages(fetched: seq<string>, ok: bool)
      requires Valid()
      modifies this
      ensures Valid() && storage == old(storage)
      ensures messages == if ok then fetched else FallbackMessages
    {
      messages := if ok then fetched else FallbackMessages;
    }

    /** `inizializzaStato`: with no stored index, the catch-up replay runs and
        its result is stored; otherwise the stored triple is returned as it is. */
    method InitializeState(now: int, delays: seq<int>) returns (s: State)
      requires Valid() && 0 < |delays| && |messages| <= |delays| && ValidDelays(delays)
      modifies this
      ensures Valid() && messages == old(messages)
      ensures IndexKey in old(storage) ==> s == Load(old(storage)) && storage == old(storage)
      ensures IndexKey !in old(storage) ==>
                s == CatchUpState(|messages|, now, delays) && storage == Persist(old(storage), s)
    {
      if IndexKey !in storage {
        s := CatchUp(|messages|, now, delays);
        storage := storage[IndexKey := s.index];
        storage := storage[LastChangeKey := s.lastChange];
        storage := storage[NextChangeKey := s.nextChange];
      } else {
        s := Load(storage);
      }
    }

    /** `verificaCambioScritta`: stores the three fields exactly when it advances. */
    method CheckAdvance(st: State, now: int, delay: int) returns (r: State)
      requires Valid() && ValidDelay(delay)
      modifies this
      ensures Valid() && messages == old(messages)
      ensures r == Advance(|messages|, st, now, delay)
      ensures storage == if now >= st.nextChange && st.index < |messages| - 1
                         then Persist(old(storage), r) else old(storage)
    {
      if now >= st.nextChange && st.index < |messages| - 1 {
        var next := now + delay;
        storage := storage[IndexKey := st.index + 1];
        storage := storage[LastChangeKey := now];
        storage := storage[NextChangeKey := next];
        r := State(st.index + 1, now, next);
      } else {
        r := st;
      }
    }

    /** The non-DOM part of `aggiornaInterfaccia`: load or replay, one check,
        then the text shown and the time since the last change. */
    method Refresh(now: int, delays: seq<int>, delay: int) returns (s: State, text: string, elapsed: Elapsed)
      requires Valid() && 0 < |delays| && |messages| <= |delays| && ValidDelays(delays) && ValidDelay(delay)
      modifies this
      ensures Valid() && messages == old(messages)
      ensures var loaded := if IndexKey in old(storage) then Load(old(storage))
                            else CatchUpState(|messages|, now, delays);
              s == Advance(|messages|, loaded, now, delay)
      ensures text == Displayed(messages, s.index) && elapsed == Split(now - s.lastChange)
      ensures IndexKey !in old(storage) && |messages| >= 1 && now >= Anchor ==>
                Consistent(|messages|, s, now) && text == messages[s.index] && elapsed.hours >= 0
      ensures HasState(storage) && Load(storage) == s
      ensures storage == Persist(old(storage), s)
      ensures |messages| == 0 && IndexKey !in old(storage) ==> s == Start(delays)
    {
      var loaded := InitializeState(now, delays);
      if IndexKey !in old(storage) && |messages| >= 1 && now >= Anchor {
        CatchUpConsistent(|messages|, now, delays);
        AdvanceKeepsConsistent(|messages|, loaded, now, now, delay);
      }
      PersistLoad(old(storage), loaded);
      ghost var mid := storage;
      s := CheckAdvance(loaded, now, delay);
      PersistLoad(mid, s);
      text := Displayed(messages, s.index);
      elapsed := Split(now - s.lastChange);
    }
  }
}

/** The tracker that turns sent packets and their responses into round-trip and loss samples. Every call of `Sent`
    gets a number; a pending entry and a sample remember the call they stem from, so that the fate of each call can be
    stated. Ties between equally old entries are broken arbitrarily, as by a hash map's iteration order. */
module Metrics {
  import opened Options
  import opened PacketCounter

  datatype Entry = Entry(call: nat, time: Instant)

  datatype Sample = Sample(call: nat, sentTime: Instant, rtt: Option<nat>)

  datatype Tracker = Tracker(
    maxPending: nat,
    pending: map<nat, Entry>,
    samples: seq<Sample>,
    overwritten: seq<nat>,  // the calls whose entry was replaced without a sample
    calls: nat)

  function NewTracker(maxPending: nat): Tracker {
    Tracker(maxPending, map[], [], [], 0)
  }

  // ---- One call ----

  ghost predicate IsOldest(pending: map<nat, Entry>, c: nat) {
    c in pending && forall d :: d in pending ==> pending[c].time <= pending[d].time
  }

  /** Moves a pending entry to the samples. */
  function Sampled(t: Tracker, c: nat, rtt: Option<nat>): Tracker
    requires c in t.pending
  {
    t.(pending := t.pending - {c}, samples := t.samples + [Sample(t.pending[c].call, t.pending[c].time, rtt)])
  }

  /** One turn of the eviction loop. */
  ghost predicate EvictStep(t: Tracker, t': Tracker) {
    && |t.pending| >= t.maxPending && t.pending != map[]
    && (exists c :: IsOldest(t.pending, c) && t' == Sampled(t, c, None))
  }

  /** The eviction loop, as the list of states it passes through. */
  ghost predicate EvictRun(run: seq<Tracker>) {
    && |run| > 0
    && (forall i :: 0 <= i < |run| - 1 ==> EvictStep(run[i], run[i + 1]))
    && (var last := run[|run| - 1]; |last.pending| < last.maxPending || last.pending == map[])
  }

  /** Entering a packet; an entry under the same counter is replaced. */
  function Enter(t: Tracker, counter: nat, time: Instant): Tracker {
    t.(pending := t.pending[counter := Entry(t.calls, time)],
       overwritten := if counter in t.pending then t.overwritten + [t.pending[counter].call] else t.overwritten,
       calls := t.calls + 1)
  }

  ghost predicate SentStep(t: Tracker, counter: nat, time: Instant, t': Tracker) {
    exists run: seq<Tracker> :: EvictRun(run) && run[0] == t && t' == Enter(run[|run| - 1], counter, time)
  }

  function Received(t: Tracker, counter: nat, now: Instant): Tracker {
    if counter in t.pending then
      var sent := t.pending[counter].time;
      Sampled(t, counter, Some(if now < sent then 0 else now - sent))
    else t
  }

  // ---- Conservation ----

  /** All three places together hold as many entries as there were calls. */
  ghost predicate Counted(t: Tracker) {
    t.calls == |t.samples| + |t.pending| + |t.overwritten|
  }

  /** Entries stem from calls already made, and no place holds two entries of the same call. */
  ghost predicate OncePerPlace(t: Tracker) {
    && (forall s <- t.samples :: s.call < t.calls)
    && (forall n <- t.overwritten :: n < t.calls)
    && (forall c :: c in t.pending ==> t.pending[c].call < t.calls)
    && (forall i, j :: 0 <= i < j < |t.samples| ==> t.samples[i].call != t.samples[j].call)
    && (forall i, j :: 0 <= i < j < |t.overwritten| ==> t.overwritten[i] != t.overwritten[j])
    && (forall c, d :: c in t.pending && d in t.pending && c != d ==> t.pending[c].call != t.pending[d].call)
  }

  /** No call has entries in two places. */
  ghost predicate OnePlaceOnly(t: Tracker) {
    && (forall s, c :: s in t.samples && c in t.pending ==> s.call != t.pending[c].call)
    && (forall s, n :: s in t.samples && n in t.overwritten ==> s.call != n)
    && (forall c, n :: c in t.pending && n in t.overwritten ==> t.pending[c].call != n)
  }

  /** Every call so far has exactly one fate: sampled, still pending, or overwritten. */
  ghost predicate Conserved(t: Tracker) {
    Counted(t) && OncePerPlace(t) && OnePlaceOnly(t)
  }

  lemma {:induction false} SampleKeepsCounted(t: Tracker, c: nat, rtt: Option<nat>)
    requires Counted(t) && c in t.pending
    ensures Counted(Sampled(t, c, rtt))
  {
    assert (t.pending - {c}).Keys == t.pending.Keys - {c};
  }

  lemma {:induction false} SampleKeepsOncePerPlace(t: Tracker, c: nat, rtt: Option<nat>)
    requires OncePerPlace(t) && OnePlaceOnly(t) && c in t.pending
    ensures OncePerPlace(Sampled(t, c, rtt))
  {
    assert forall i :: 0 <= i < |t.samples| ==> t.samples[i] in t.samples;
  }

  lemma {:induction false} SampleKeepsOnePlaceOnly(t: Tracker, c: nat, rtt: Option<nat>)
    requires OncePerPlace(t) && OnePlaceOnly(t) && c in t.pending
    ensures OnePlaceOnly(Sampled(t, c, rtt))
  {
  }

  lemma {:induction false} SampleKeepsConserved(t: Tracker, c: nat, rtt: Option<nat>)
    requires Conserved(t) && c in t.pending
    ensures Conserved(Sampled(t, c, rtt))
  {
    SampleKeepsCounted(t, c, rtt);
    SampleKeepsOncePerPlace(t, c, rtt);
    SampleKeepsOnePlaceOnly(t, c, rtt);
  }

  /** Eviction only removes pending entries. */
  lemma {:induction false} EvictRunShrinks(run: seq<Tracker>, i: nat, j: nat)
    requires EvictRun(run) && i <= j < |run|
    ensures run[j].maxPending == run[i].maxPending && run[j].overwritten == run[i].overwritten
    ensures run[j].calls == run[i].calls
    ensures forall c :: c in run[j].pending ==> c in run[i].pending && run[j].pending[c] == run[i].pending[c]
    decreases j
  {
    if i == j {
    } else {
      EvictRunShrinks(run, i, j - 1);
      assert EvictStep(run[j - 1], run[j]);
    }
  }

  lemma {:induction false} EvictRunKeepsConserved(run: seq<Tracker>, i: nat)
    requires EvictRun(run) && i < |run| && Conserved(run[0])
    ensures Conserved(run[i])
  {
    if i == 0 {
    } else {
      EvictRunKeepsConserved(run, i - 1);
      assert EvictStep(run[i - 1], run[i]);
      var c :| IsOldest(run[i - 1].pending, c) && run[i] == Sampled(run[i - 1], c, None);
      SampleKeepsConserved(run[i - 1], c, None);
    }
  }

  lemma EnterKeepsCounted(t: Tracker, counter: nat, time: Instant)
    requires Counted(t)
    ensures Counted(Enter(t, counter, time))
  {
    assert Enter(t, counter, time).pending.Keys == t.pending.Keys + {counter};
    if counter in t.pending {
      assert t.pending.Keys + {counter} == t.pending.Keys;
    }
  }

  lemma EnterKeepsOncePerPlace(t: Tracker, counter: nat, time: Instant)
    requires OncePerPlace(t) && OnePlaceOnly(t)
    ensures OncePerPlace(Enter(t, counter, time))
  {
    var t' := Enter(t, counter, time);
    if counter in t.pending {
      assert t.pending[counter].call !in t.overwritten;
    }
    assert t'.samples == t.samples;
  }

  lemma EnterKeepsOnePlaceOnly(t: Tracker, counter: nat, time: Instant)
    requires OncePerPlace(t) && OnePlaceOnly(t)
    ensures OnePlaceOnly(Enter(t, counter, time))
  {
    var t' := Enter(t, counter, time);
    forall n | n in t'.overwritten
      ensures n in t.overwritten || (counter in t.pending && n == t.pending[counter].call) {}
    forall c | c in t'.pending
      ensures (c == counter && t'.pending[c].call == t.calls) || (c != counter && c in t.pending) {}
  }

  lemma SentKeepsConserved(t: Tracker, counter: nat, time: Instant, t': Tracker)
    requires Conserved(t) && SentStep(t, counter, time, t')
    ensures Conserved(t') && t'.calls == t.calls + 1 && t'.maxPending == t.maxPending
  {
    var run: seq<Tracker> :| EvictRun(run) && run[0] == t && t' == Enter(run[|run| - 1], counter, time);
    var last := run[|run| - 1];
    EvictRunShrinks(run, 0, |run| - 1);
    EvictRunKeepsConserved(run, |run| - 1);
    EnterKeepsCounted(last, counter, time);
    EnterKeepsOncePerPlace(last, counter, time);
    EnterKeepsOnePlaceOnly(last, counter, time);
  }

  lemma ReceivedKeepsConserved(t: Tracker, counter: nat, now: Instant)
    requires Conserved(t)
    ensures Conserved(Received(t, counter, now)) && Received(t, counter, now).calls == t.calls
  {
    if counter in t.pending {
      var e := t.pending[counter];
      SampleKeepsConserved(t, counter, Some(if now < e.time then 0 else now - e.time));
    }
  }

  // ---- Runs driven by the protocol's 6-bit counter ----

  /** A call that concerns the tracker, or one that does not. */
  datatype Op = SendAt(time: Instant) | Answer(counter: nat, now: Instant) | Unrelated

  /** One call, with the counter that the n-th packet carries. */
  ghost predicate DrivenStep(t: Tracker, op: Op, t': Tracker) {
    match op
    case SendAt(time) => SentStep(t, t.calls % COUNTER_RANGE, time, t')
    case Answer(counter, now) => t' == Received(t, counter, now)
    case Unrelated => t' == t
  }

  ghost predicate DrivenRun(maxPending: nat, ops: seq<Op>, states: seq<Tracker>) {
    && |states| == |ops| + 1 && states[0] == NewTracker(maxPending)
    && forall i :: 0 <= i < |ops| ==> DrivenStep(states[i], ops[i], states[i + 1])
  }

  /** Every pending entry sits under its call's counter and is one of the last 64 calls. */
  ghost predicate RecentOnly(t: Tracker) {
    forall c :: c in t.pending ==>
                  c == t.pending[c].call % COUNTER_RANGE && t.calls - COUNTER_RANGE <= t.pending[c].call < t.calls
  }

  lemma EnterKeepsRecent(t: Tracker, time: Instant)
    requires RecentOnly(t)
    ensures RecentOnly(Enter(t, t.calls % COUNTER_RANGE, time))
    ensures var t' := Enter(t, t.calls % COUNTER_RANGE, time);
            t'.overwritten == t.overwritten || t'.overwritten == t.overwritten + [t.calls - COUNTER_RANGE]
  {
    var counter := t.calls % COUNTER_RANGE;
    var t' := Enter(t, counter, time);
    forall c | c in t'.pending
      ensures c == t'.pending[c].call % COUNTER_RANGE && t'.calls - COUNTER_RANGE <= t'.pending[c].call < t'.calls
    {
      if c != counter {
        SameSlot(t.pending[c].call, t.calls);
      }
    }
    if counter in t.pending {
      SameSlot(t.pending[counter].call, t.calls);
    }
  }

  lemma SentKeepsRecent(t: Tracker, time: Instant, t': Tracker)
    requires RecentOnly(t) && SentStep(t, t.calls % COUNTER_RANGE, time, t')
    ensures RecentOnly(t')
    ensures t'.overwritten == t.overwritten || t'.overwritten == t.overwritten + [t.calls - COUNTER_RANGE]
  {
    var counter := t.calls % COUNTER_RANGE;
    var run: seq<Tracker> :| EvictRun(run) && run[0] == t && t' == Enter(run[|run| - 1], counter, time);
    var last := run[|run| - 1];
    EvictRunShrinks(run, 0, |run| - 1);
    EnterKeepsRecent(last, time);
  }

  lemma DrivenStepKeepsRecent(t: Tracker, op: Op, t': Tracker)
    requires Conserved(t) && RecentOnly(t) && DrivenStep(t, op, t')
    ensures Conserved(t') && RecentOnly(t') && t'.maxPending == t.maxPending
    ensures t'.calls == t.calls + (if op.SendAt? then 1 else 0)
    ensures t'.overwritten == t.overwritten ||
            (op.SendAt? && t'.overwritten == t.overwritten + [t.calls - COUNTER_RANGE])
  {
    match op
    case Answer(counter, now) =>
      ReceivedKeepsConserved(t, counter, now);
    case SendAt(time) =>
      SentKeepsRecent(t, time, t');
      SentKeepsConserved(t, t.calls % COUNTER_RANGE, time, t');
    case Unrelated =>
  }

  /** Sample conservation under counter wrap: along every driven run the number of `Sent` calls equals samples plus
      pending plus overwritten entries, each call counted in one place only; every pending entry is one of the last
      64 calls. */
  lemma {:induction false} DrivenRunConserves(maxPending: nat, ops: seq<Op>, states: seq<Tracker>, i: nat)
    requires DrivenRun(maxPending, ops, states) && i < |states|
    ensures Conserved(states[i]) && RecentOnly(states[i]) && states[i].maxPending == maxPending
  {
    if i == 0 {
    } else {
      DrivenRunConserves(maxPending, ops, states, i - 1);
      DrivenStepKeepsRecent(states[i - 1], ops[i - 1], states[i]);
    }
  }

  /** Pending times grow strictly with the call number and lie before `time`. */
  ghost predicate TimesIncrease(t: Tracker, time: Instant) {
    && (forall c :: c in t.pending ==> t.pending[c].time < time)
    && (forall c, d :: c in t.pending && d in t.pending && t.pending[c].call < t.pending[d].call
                       ==> t.pending[c].time < t.pending[d].time)
  }

  ghost predicate SendTimesIncrease(ops: seq<Op>) {
    forall i, j :: 0 <= i < j < |ops| && ops[i].SendAt? && ops[j].SendAt? ==> ops[i].time < ops[j].time
  }

  lemma SentKeepsTimes(t: Tracker, counter: nat, time: Instant, t': Tracker, later: Instant)
    requires Conserved(t) && TimesIncrease(t, time) && SentStep(t, counter, time, t') && time < later
    ensures TimesIncrease(t', later)
  {
    var run: seq<Tracker> :| EvictRun(run) && run[0] == t && t' == Enter(run[|run| - 1], counter, time);
    EvictRunShrinks(run, 0, |run| - 1);
  }

  lemma {:induction false} DrivenStepKeepsTimes(t: Tracker, op: Op, t': Tracker, later: Instant)
    requires Conserved(t) && DrivenStep(t, op, t')
    requires op.SendAt? ==> TimesIncrease(t, op.time) && op.time < later
    requires !op.SendAt? ==> TimesIncrease(t, later)
    ensures TimesIncrease(t', later)
  {
    match op
    case SendAt(time) => SentKeepsTimes(t, t.calls % COUNTER_RANGE, time, t', later);
    case Answer(_, _) =>
    case Unrelated =>
  }

  lemma {:induction false} TimesIncreaseAlongRun(maxPending: nat, ops: seq<Op>, states: seq<Tracker>, i: nat, j: nat)
    requires DrivenRun(maxPending, ops, states) && SendTimesIncrease(ops)
    requires i <= j < |ops| && ops[j].SendAt?
    ensures TimesIncrease(states[i], ops[j].time)
    decreases i
  {
    if i == 0 {
    } else {
      DrivenRunConserves(maxPending, ops, states, i - 1);
      assert DrivenStep(states[i - 1], ops[i - 1], states[i]);
      assert ops[i - 1].SendAt? ==> ops[i - 1].time < ops[j].time;
      TimesIncreaseAlongRun(maxPending, ops, states, i - 1, if ops[i - 1].SendAt? then i - 1 else j);
      DrivenStepKeepsTimes(states[i - 1], ops[i - 1], states[i], ops[j].time);
    }
  }

  lemma OverwritesIff(t: Tracker, time: Instant, t': Tracker)
    requires RecentOnly(t) && TimesIncrease(t, time)
    requires DrivenStep(t, SendAt(time), t')
    ensures t'.overwritten != t.overwritten <==>
            (exists c :: c in t.pending && t.pending[c].call == t.calls - COUNTER_RANGE) && |t.pending| < t.maxPending
  {
    var counter := t.calls % COUNTER_RANGE;
    forall c | c in t.pending
      ensures t.pending[c].call == t.calls - COUNTER_RANGE <==> c == counter
    {
      SameSlot(t.pending[c].call, t.calls);
    }
    if |t.pending| < t.maxPending {
      NoEviction(t, counter, time, t');
    } else {
      var run: seq<Tracker> :| EvictRun(run) && run[0] == t && t' == Enter(run[|run| - 1], counter, time);
      EvictRunShrinks(run, 0, |run| - 1);
      if t.maxPending > 0 {
        assert |run| > 1;
        FirstEviction(run);
        EvictsOldest(t, run[1], counter);
        EvictRunShrinks(run, 1, |run| - 1);
      }
      assert counter !in run[|run| - 1].pending;
    }
  }

  lemma FirstEviction(run: seq<Tracker>)
    requires EvictRun(run) && |run| > 1
    ensures EvictStep(run[0], run[1])
  {
  }

  lemma NoEviction(t: Tracker, counter: nat, time: Instant, t': Tracker)
    requires SentStep(t, counter, time, t') && |t.pending| < t.maxPending
    ensures t' == Enter(t, counter, time)
  {
    var run: seq<Tracker> :| EvictRun(run) && run[0] == t && t' == Enter(run[|run| - 1], counter, time);
    if |run| > 1 {
      FirstEviction(run);
    }
  }

  lemma OldestIsSlot(t: Tracker, counter: nat, c: nat)
    requires RecentOnly(t) && counter in t.pending && t.pending[counter].call == t.calls - COUNTER_RANGE
    requires forall d, e :: d in t.pending && e in t.pending && t.pending[d].call < t.pending[e].call
                            ==> t.pending[d].time < t.pending[e].time
    requires IsOldest(t.pending, c)
    ensures c == counter
  {
    assert t.pending[c].call >= t.pending[counter].call;
  }

  /** With a full table, the packet sent 64 calls earlier is the oldest one and is evicted, not overwritten. */
  lemma EvictsOldest(t: Tracker, t': Tracker, counter: nat)
    requires RecentOnly(t) && (counter in t.pending ==> t.pending[counter].call == t.calls - COUNTER_RANGE)
    requires forall d, e :: d in t.pending && e in t.pending && t.pending[d].call < t.pending[e].call
                            ==> t.pending[d].time < t.pending[e].time
    requires EvictStep(t, t')
    ensures counter !in t'.pending
  {
    var c :| IsOldest(t.pending, c) && t' == Sampled(t, c, None);
    if counter in t.pending {
      OldestIsSlot(t, counter, c);
    }
  }

  // ---- Any send times: what may happen ----

  /** Some outcome of the send, among those that a tie between equally old entries allows, overwrites an entry. */
  ghost predicate MayOverwrite(t: Tracker, time: Instant) {
    exists t' :: SentStep(t, t.calls % COUNTER_RANGE, time, t') && t'.overwritten != t.overwritten
  }

  /** The packet sent 64 sends earlier is pending, and there is room or another entry is as old as any. */
  ghost predicate SlotMayStay(t: Tracker) {
    var slot := t.calls % COUNTER_RANGE;
    slot in t.pending && (|t.pending| < t.maxPending || exists c :: c != slot && IsOldest(t.pending, c))
  }

  /** Every outcome of the send overwrites an entry. */
  ghost predicate MustOverwrite(t: Tracker, time: Instant) {
    forall t' :: SentStep(t, t.calls % COUNTER_RANGE, time, t') ==> t'.overwritten != t.overwritten
  }

  /** The packet sent 64 sends earlier is pending, and there is room or some entry is older. */
  ghost predicate SlotMustStay(t: Tracker) {
    var slot := t.calls % COUNTER_RANGE;
    slot in t.pending && (|t.pending| < t.maxPending || !IsOldest(t.pending, slot))
  }

  /** No more entries than allowed; a table that allows none still holds the last packet. */
  predicate Bounded(t: Tracker) {
    |t.pending| <= if t.maxPending == 0 then 1 else t.maxPending
  }

  lemma SurvivorMayStay(t: Tracker, run: seq<Tracker>)
    requires EvictRun(run) && run[0] == t && t.calls % COUNTER_RANGE in run[|run| - 1].pending
    ensures SlotMayStay(t)
  {
    EvictRunShrinks(run, 0, |run| - 1);
    if |t.pending| >= t.maxPending {
      assert |run| > 1;
      FirstEviction(run);
      var c :| IsOldest(t.pending, c) && run[1] == Sampled(t, c, None);
      EvictRunShrinks(run, 1, |run| - 1);
      assert c != t.calls % COUNTER_RANGE;
    }
  }

  lemma OverwriteNeedsSlot(t: Tracker, time: Instant)
    requires MayOverwrite(t, time)
    ensures SlotMayStay(t)
  {
    var slot := t.calls % COUNTER_RANGE;
    var t' :| SentStep(t, slot, time, t') && t'.overwritten != t.overwritten;
    var run: seq<Tracker> :| EvictRun(run) && run[0] == t && t' == Enter(run[|run| - 1], slot, time);
    EvictRunShrinks(run, 0, |run| - 1);
    SurvivorMayStay(t, run);
  }

  lemma SmallerWithout(pending: map<nat, Entry>, c: nat)
    requires c in pending
    ensures |pending - {c}| == |pending| - 1
  {
    assert (pending - {c}).Keys == pending.Keys - {c};
  }

  lemma TwoEntries(pending: map<nat, Entry>, c: nat, d: nat)
    requires c in pending && d in pending && c != d
    ensures |pending| >= 2
  {
    SmallerWithout(pending, c);
    SmallerWithout(pending - {c}, d);
  }

  lemma SlotMayStayOverwrites(t: Tracker, time: Instant)
    requires SlotMayStay(t) && Bounded(t)
    ensures MayOverwrite(t, time)
  {
    var slot := t.calls % COUNTER_RANGE;
    var run := [t];
    if |t.pending| >= t.maxPending {
      var c :| c != slot && IsOldest(t.pending, c);
      TwoEntries(t.pending, c, slot);
      SmallerWithout(t.pending, c);
      var t1 := Sampled(t, c, None);
      assert EvictStep(t, t1);
      run := [t, t1];
    }
    assert EvictRun(run);
    var t' := Enter(run[|run| - 1], slot, time);
    assert SentStep(t, slot, time, t');
    assert t'.overwritten == t.overwritten + [t.pending[slot].call];
  }

  lemma EnterKeepsBounded(t: Tracker, counter: nat, time: Instant)
    requires |t.pending| < t.maxPending || t.pending == map[]
    ensures Bounded(Enter(t, counter, time))
  {
    var pending := Enter(t, counter, time).pending;
    assert pending.Keys == t.pending.Keys + {counter};
  }

  lemma {:induction false} DrivenRunBounded(maxPending: nat, ops: seq<Op>, states: seq<Tracker>, i: nat)
    requires DrivenRun(maxPending, ops, states) && i < |states|
    ensures Bounded(states[i])
  {
    if i == 0 {
    } else {
      DrivenRunBounded(maxPending, ops, states, i - 1);
      var t, t' := states[i - 1], states[i];
      assert DrivenStep(t, ops[i - 1], t');
      match ops[i - 1]
      case SendAt(time) =>
        var counter := t.calls % COUNTER_RANGE;
        var run: seq<Tracker> :| EvictRun(run) && run[0] == t && t' == Enter(run[|run| - 1], counter, time);
        EnterKeepsBounded(run[|run| - 1], counter, time);
      case Answer(counter, _) =>
        if counter in t.pending {
          SmallerWithout(t.pending, counter);
        }
      case Unrelated =>
    }
  }

  /** For any send times, equal and decreasing ones included, and any maxPending: a send may overwrite an entry if
      and only if the packet sent exactly 64 sends earlier is still pending and there is room, or another entry is
      as old as any. */
  lemma {:induction false} MayOverwriteIff(maxPending: nat, ops: seq<Op>, states: seq<Tracker>, i: nat, time: Instant)
    requires DrivenRun(maxPending, ops, states) && i < |states|
    ensures MayOverwrite(states[i], time) <==> SlotMayStay(states[i])
    ensures var t := states[i]; var slot := t.calls % COUNTER_RANGE;
            slot in t.pending ==> t.pending[slot].call == t.calls - COUNTER_RANGE
  {
    var t := states[i];
    DrivenRunConserves(maxPending, ops, states, i);
    DrivenRunBounded(maxPending, ops, states, i);
    if t.calls % COUNTER_RANGE in t.pending {
      SameSlot(t.pending[t.calls % COUNTER_RANGE].call, t.calls);
    }
    if MayOverwrite(t, time) {
      OverwriteNeedsSlot(t, time);
    }
    if SlotMayStay(t) {
      SlotMayStayOverwrites(t, time);
    }
  }

  lemma {:induction false} OneEviction(t: Tracker, run: seq<Tracker>) returns (c: nat)
    requires EvictRun(run) && run[0] == t && |t.pending| == t.maxPending >= 1
    ensures IsOldest(t.pending, c) && |run| == 2 && run[1] == Sampled(t, c, None)
  {
    assert |run| > 1;
    FirstEviction(run);
    c :| IsOldest(t.pending, c) && run[1] == Sampled(t, c, None);
    SmallerWithout(t.pending, c);
    assert |run| > 2 ==> EvictStep(run[1], run[2]);
  }

  lemma {:induction false} SlotMustStayOverwrites(t: Tracker, time: Instant, t': Tracker)
    requires SlotMustStay(t) && Bounded(t) && SentStep(t, t.calls % COUNTER_RANGE, time, t')
    ensures t'.overwritten != t.overwritten
  {
    var slot := t.calls % COUNTER_RANGE;
    if |t.pending| < t.maxPending {
      NoEviction(t, slot, time, t');
    } else {
      var d :| d in t.pending && t.pending[d].time < t.pending[slot].time;
      TwoEntries(t.pending, d, slot);
      var run: seq<Tracker> :| EvictRun(run) && run[0] == t && t' == Enter(run[|run| - 1], slot, time);
      var c := OneEviction(t, run);
      assert slot in run[1].pending && run[1].overwritten == t.overwritten;
    }
  }

  /** An eviction loop that drops the slot's entry, or finds none, leads to a send that overwrites nothing. */
  lemma {:induction false} OutcomeWithout(t: Tracker, time: Instant, run: seq<Tracker>) returns (t': Tracker)
    requires EvictRun(run) && run[0] == t && t.calls % COUNTER_RANGE !in run[|run| - 1].pending
    ensures SentStep(t, t.calls % COUNTER_RANGE, time, t') && t'.overwritten == t.overwritten
  {
    EvictRunShrinks(run, 0, |run| - 1);
    t' := Enter(run[|run| - 1], t.calls % COUNTER_RANGE, time);
  }

  lemma {:induction false} EvictCons(t: Tracker, rest: seq<Tracker>)
    requires EvictRun(rest) && EvictStep(t, rest[0])
    ensures EvictRun([t] + rest)
  {
    var run := [t] + rest;
    forall i | 0 <= i < |run| - 1 ensures EvictStep(run[i], run[i + 1]) {
      if i > 0 {
        assert run[i] == rest[i - 1] && run[i + 1] == rest[i];
      }
    }
  }

  lemma {:induction false} SlotEvictedFirst(t: Tracker) returns (run: seq<Tracker>)
    requires |t.pending| >= t.maxPending && IsOldest(t.pending, t.calls % COUNTER_RANGE)
    ensures EvictRun(run) && run[0] == t && t.calls % COUNTER_RANGE !in run[|run| - 1].pending
  {
    var t1 := Sampled(t, t.calls % COUNTER_RANGE, None);
    var rest := EvictionEnds(t1);
    EvictRunShrinks(rest, 0, |rest| - 1);
    assert EvictStep(t, t1);
    EvictCons(t, rest);
    run := [t] + rest;
  }

  lemma {:induction false} SlotMayGo(t: Tracker, time: Instant) returns (t': Tracker)
    requires !SlotMustStay(t)
    ensures SentStep(t, t.calls % COUNTER_RANGE, time, t') && t'.overwritten == t.overwritten
  {
    var run;
    if t.calls % COUNTER_RANGE in t.pending {
      run := SlotEvictedFirst(t);
    } else {
      run := EvictionEnds(t);
      EvictRunShrinks(run, 0, |run| - 1);
    }
    t' := OutcomeWithout(t, time, run);
  }

  /** The same for certain: every outcome overwrites an entry iff that packet is pending and there is room, or it is
      not the oldest. */
  lemma {:induction false} MustOverwriteIff(maxPending: nat, ops: seq<Op>, states: seq<Tracker>, i: nat, time: Instant)
    requires DrivenRun(maxPending, ops, states) && i < |states|
    ensures MustOverwrite(states[i], time) <==> SlotMustStay(states[i])
  {
    var t := states[i];
    DrivenRunBounded(maxPending, ops, states, i);
    if SlotMustStay(t) {
      forall t' | SentStep(t, t.calls % COUNTER_RANGE, time, t') ensures t'.overwritten != t.overwritten {
        SlotMustStayOverwrites(t, time, t');
      }
    } else {
      var t' := SlotMayGo(t, time);
    }
  }

  /** When a send vanishes without a sample, along every driven run. With increasing send times ties are out, and a send
      overwrites an entry if and only if the packet sent exactly 64 sends earlier is still pending while fewer than
      maxPending entries are: then the eviction guard lets it stay, and its slot is reused. */
  lemma {:induction false} OverwritesAlongRun(maxPending: nat, ops: seq<Op>, states: seq<Tracker>, i: nat)
    requires DrivenRun(maxPending, ops, states)
    requires i < |ops| && ops[i].SendAt?
    ensures var t := states[i];
            && (SlotMustStay(t) ==> states[i + 1].overwritten != t.overwritten)
            && (states[i + 1].overwritten != t.overwritten ==> SlotMayStay(t))
    ensures SendTimesIncrease(ops) ==>
              var t := states[i];
              (states[i + 1].overwritten != t.overwritten <==>
               (exists c :: c in t.pending && t.pending[c].call == t.calls - COUNTER_RANGE) && |t.pending| < maxPending)
  {
    DrivenRunConserves(maxPending, ops, states, i);
    MayOverwriteIff(maxPending, ops, states, i, ops[i].time);
    MustOverwriteIff(maxPending, ops, states, i, ops[i].time);
    assert DrivenStep(states[i], ops[i], states[i + 1]);
    if SendTimesIncrease(ops) {
      TimesIncreaseAlongRun(maxPending, ops, states, i, i);
      OverwritesIff(states[i], ops[i].time, states[i + 1]);
    }
  }

  // ---- Every schedule can be run ----

  lemma {:induction false} OldestExists(pending: map<nat, Entry>) returns (c: nat)
    requires pending != map[]
    ensures IsOldest(pending, c)
    decreases |pending|
  {
    var a :| a in pending;
    var rest := pending - {a};
    SmallerWithout(pending, a);
    if rest == map[] {
      c := a;
      forall d | d in pending ensures d == a {
        assert d == a || d in rest;
      }
    } else {
      var b := OldestExists(rest);
      c := if pending[b].time < pending[a].time then b else a;
      forall d | d in pending ensures pending[c].time <= pending[d].time {
        assert d == a || d in rest;
      }
    }
  }

  lemma {:induction false} EvictionEnds(t: Tracker) returns (run: seq<Tracker>)
    ensures EvictRun(run) && run[0] == t
    decreases |t.pending|
  {
    if |t.pending| < t.maxPending || t.pending == map[] {
      run := [t];
    } else {
      var c := OldestExists(t.pending);
      SmallerWithout(t.pending, c);
      var rest := EvictionEnds(Sampled(t, c, None));
      assert EvictStep(t, rest[0]);
      EvictCons(t, rest);
      run := [t] + rest;
    }
  }

  lemma {:induction false} EveryScheduleRuns(maxPending: nat, ops: seq<Op>) returns (states: seq<Tracker>)
    ensures DrivenRun(maxPending, ops, states)
  {
    if |ops| == 0 {
      states := [NewTracker(maxPending)];
    } else {
      var n := |ops| - 1;
      var before := EveryScheduleRuns(maxPending, ops[..n]);
      var t, t' := before[n], before[n];
      match ops[n] {
        case SendAt(time) =>
          var run := EvictionEnds(t);
          t' := Enter(run[|run| - 1], t.calls % COUNTER_RANGE, time);
        case Answer(counter, now) =>
          t' := Received(t, counter, now);
        case Unrelated =>
      }
      states := before + [t'];
      forall i | 0 <= i < |ops| ensures DrivenStep(states[i], ops[i], states[i + 1]) {
        if i < n {
          assert DrivenStep(before[i], ops[..n][i], before[i + 1]);
        }
      }
    }
  }

  /** The n-th step of the run below: packet 0 is never answered, every later packet at once. */
  function LoneLossOps(n: nat): seq<Op> {
    if n == 0 then [SendAt(0)] else LoneLossOps(n - 1) + [SendAt(n), Answer(n % COUNTER_RANGE, n)]
  }

  ghost predicate OnlyFirstPending(t: Tracker, n: nat) {
    && t.calls == n && t.pending == map[0 := Entry(0, 0)] && t.overwritten == []
    && forall s <- t.samples :: s.rtt.Some? && s.call != 0
  }

  /** One answered send while packet 0 is pending. */
  lemma AnsweredSend(t: Tracker, n: nat, t1: Tracker, t2: Tracker)
    requires OnlyFirstPending(t, n) && t.maxPending >= 2 && 0 < n < COUNTER_RANGE
    requires DrivenStep(t, SendAt(n), t1) && DrivenStep(t1, Answer(n % COUNTER_RANGE, n), t2)
    ensures OnlyFirstPending(t2, n + 1) && t2.maxPending == t.maxPending
  {
    assert |t.pending| == 1;
    NoEviction(t, n, n, t1);
    assert t2 == Sampled(t1, n, Some(0));
    assert t2.pending == map[0 := Entry(0, 0)];
  }

  lemma {:induction false} LoneLossLength(n: nat)
    ensures |LoneLossOps(n)| == 2 * n + 1
    decreases n
  {
    if n == 0 {
    } else {
      LoneLossLength(n - 1);
    }
  }

  lemma LoneLossEnd(n: nat)
    requires n > 0
    ensures |LoneLossOps(n)| == 2 * n + 1
    ensures LoneLossOps(n)[2 * n - 1] == SendAt(n) && LoneLossOps(n)[2 * n] == Answer(n % COUNTER_RANGE, n)
    ensures LoneLossOps(n - 1) <= LoneLossOps(n)
  {
    LoneLossLength(n - 1);
  }

  lemma {:induction false} LoneLossStays(maxPending: nat, ops: seq<Op>, states: seq<Tracker>, n: nat)
    requires maxPending >= 2 && n < COUNTER_RANGE && DrivenRun(maxPending, ops, states)
    requires LoneLossOps(n) <= ops
    ensures |LoneLossOps(n)| == 2 * n + 1 <= |ops|
    ensures OnlyFirstPending(states[2 * n + 1], n + 1) && states[2 * n + 1].maxPending == maxPending
  {
    LoneLossLength(n);
    if n == 0 {
      assert ops[0] == SendAt(0);
      assert DrivenStep(states[0], ops[0], states[1]);
      NoEviction(states[0], 0, 0, states[1]);
    } else {
      LoneLossEnd(n);
      LoneLossStays(maxPending, ops, states, n - 1);
      LoneLossTurn(maxPending, ops, states, n);
    }
  }

  /** One answered send of the run. */
  lemma LoneLossTurn(maxPending: nat, ops: seq<Op>, states: seq<Tracker>, n: nat)
    requires maxPending >= 2 && 0 < n < COUNTER_RANGE && DrivenRun(maxPending, ops, states)
    requires 2 * n < |ops| && ops[2 * n - 1] == SendAt(n) && ops[2 * n] == Answer(n % COUNTER_RANGE, n)
    requires OnlyFirstPending(states[2 * n - 1], n) && states[2 * n - 1].maxPending == maxPending
    ensures OnlyFirstPending(states[2 * n + 1], n + 1) && states[2 * n + 1].maxPending == maxPending
  {
    assert DrivenStep(states[2 * n - 1], ops[2 * n - 1], states[2 * n]);
    assert DrivenStep(states[2 * n], ops[2 * n], states[2 * n + 1]);
    AnsweredSend(states[2 * n - 1], n, states[2 * n], states[2 * n + 1]);
  }

  /** Packet 0 is overwritten, and every sample is the answer to another packet. */
  ghost predicate FirstNeverReported(t: Tracker) {
    t.overwritten == [0] && forall s <- t.samples :: s.call != 0 && s.rtt.Some?
  }

  /** The schedule with `last` answered packets, and one more send. */
  function LoneLossSchedule(last: nat): seq<Op> {
    LoneLossOps(last) + [SendAt(last + 1)]
  }

  lemma {:induction false} LoneLossEndsUnreported(maxPending: nat, last: nat, states: seq<Tracker>)
    requires maxPending >= 2 && last + 1 == COUNTER_RANGE
    requires DrivenRun(maxPending, LoneLossSchedule(last), states)
    ensures FirstNeverReported(states[|states| - 1])
  {
    var ops, n := LoneLossSchedule(last), 2 * last + 1;
    LoneLossStays(maxPending, ops, states, last);
    assert ops[n] == SendAt(last + 1) && |ops| == n + 1;
    assert DrivenStep(states[n], ops[n], states[n + 1]);
    LastSend(states[n], states[n + 1]);
  }

  lemma LastSend(t: Tracker, t': Tracker)
    requires OnlyFirstPending(t, 64) && t.maxPending >= 2 && SentStep(t, 0, 64, t')
    ensures FirstNeverReported(t') && 0 in t'.pending && t'.pending[0] == Entry(64, 64)
  {
    assert |t.pending| == 1;
    NoEviction(t, 0, 64, t');
  }

  /** A lone lost packet is never reported: with any maxPending of at least 2, the schedule in which packet 0 stays
      unanswered and the next 63 are answered at once has a run, and at the end of every such run the 65th send has
      overwritten the entry of packet 0 without a sample for it. */
  lemma {:induction false} LoneLossVanishes(maxPending: nat, last: nat)
    requires maxPending >= 2 && last + 1 == COUNTER_RANGE
    ensures exists states :: DrivenRun(maxPending, LoneLossSchedule(last), states) &&
                             FirstNeverReported(states[|states| - 1])
    ensures forall states :: DrivenRun(maxPending, LoneLossSchedule(last), states) ==>
                             FirstNeverReported(states[|states| - 1])
  {
    forall states | DrivenRun(maxPending, LoneLossSchedule(last), states)
      ensures FirstNeverReported(states[|states| - 1])
    {
      LoneLossEndsUnreported(maxPending, last, states);
    }
    var states := EveryScheduleRuns(maxPending, LoneLossSchedule(last));
    assert FirstNeverReported(states[|states| - 1]);
  }

  // ---- Whose round-trip time it is ----

  /** An answer to call n carries n's counter. */
  predicate Answers(op: Op, n: nat) {
    op.Answer? && op.counter == n % COUNTER_RANGE
  }

  /** Along every driven run, the answer to call n takes a sample iff something is pending under n's counter, and that
      sample is n's own if and only if fewer than 64 packets were sent after n. Otherwise a later call is credited. */
  lemma {:induction false} SampleIsOwnIff(maxPending: nat, ops: seq<Op>, states: seq<Tracker>, i: nat, n: nat)
    requires DrivenRun(maxPending, ops, states) && i < |ops|
    requires Answers(ops[i], n) && n < states[i].calls
    ensures var t, t' := states[i], states[i + 1]; var slot := n % COUNTER_RANGE;
            if slot !in t.pending then t' == t
            else
              && |t'.samples| == |t.samples| + 1 && t'.samples[..|t.samples|] == t.samples
              && var sample := t'.samples[|t.samples|];
                 && sample.sentTime == t.pending[slot].time
                 && sample.rtt == Some(if ops[i].now < sample.sentTime then 0 else ops[i].now - sample.sentTime)
                 && (sample.call == n <==> n >= t.calls - COUNTER_RANGE) && sample.call >= n
  {
    var t, slot := states[i], n % COUNTER_RANGE;
    DrivenRunConserves(maxPending, ops, states, i);
    assert DrivenStep(t, ops[i], states[i + 1]);
    if slot in t.pending {
      SameSlotSameCall(n, t.pending[slot].call, t.calls);
    }
  }

  /** Two calls with the same counter, one of them among the last 64. */
  lemma SameSlotSameCall(n: nat, m: nat, calls: nat)
    requires n < calls && calls - COUNTER_RANGE <= m < calls && n % COUNTER_RANGE == m % COUNTER_RANGE
    ensures (m == n <==> n >= calls - COUNTER_RANGE) && m >= n
  {
  }

  /** Whatever the tracker says about a call, it says with the given time. */
  ghost predicate Timed(t: Tracker, call: nat, time: Instant) {
    && (forall c :: c in t.pending && t.pending[c].call == call ==> t.pending[c].time == time)
    && (forall s <- t.samples :: s.call == call ==> s.sentTime == time)
  }

  lemma SampledStaysTimed(t: Tracker, c: nat, rtt: Option<nat>, call: nat, time: Instant)
    requires Timed(t, call, time) && c in t.pending
    ensures Timed(Sampled(t, c, rtt), call, time)
  {
  }

  lemma {:induction false} EvictRunStaysTimed(run: seq<Tracker>, i: nat, call: nat, time: Instant)
    requires EvictRun(run) && i < |run| && Timed(run[0], call, time)
    ensures Timed(run[i], call, time)
  {
    if i == 0 {
    } else {
      EvictRunStaysTimed(run, i - 1, call, time);
      assert EvictStep(run[i - 1], run[i]);
      var c :| IsOldest(run[i - 1].pending, c) && run[i] == Sampled(run[i - 1], c, None);
      SampledStaysTimed(run[i - 1], c, None, call, time);
    }
  }

  lemma StepStaysTimed(t: Tracker, op: Op, t': Tracker, call: nat, time: Instant)
    requires DrivenStep(t, op, t') && call < t.calls && Timed(t, call, time)
    ensures Timed(t', call, time)
  {
    match op
    case SendAt(later) =>
      var slot := t.calls % COUNTER_RANGE;
      var run: seq<Tracker> :| EvictRun(run) && run[0] == t && t' == Enter(run[|run| - 1], slot, later);
      EvictRunStaysTimed(run, |run| - 1, call, time);
      EvictRunShrinks(run, 0, |run| - 1);
    case Answer(counter, now) =>
      if counter in t.pending {
        var sent := t.pending[counter].time;
        SampledStaysTimed(t, counter, Some(if now < sent then 0 else now - sent), call, time);
      }
    case Unrelated =>
  }

  /** A call that is yet to come is nowhere in the tracker, so any time will do for it. */
  lemma UnsentIsTimed(t: Tracker, time: Instant)
    requires Conserved(t)
    ensures Timed(t, t.calls, time)
  {
  }

  lemma SentIsTimed(t: Tracker, time: Instant, t': Tracker)
    requires Conserved(t) && DrivenStep(t, SendAt(time), t')
    ensures Timed(t', t.calls, time)
  {
    var slot := t.calls % COUNTER_RANGE;
    var run: seq<Tracker> :| EvictRun(run) && run[0] == t && t' == Enter(run[|run| - 1], slot, time);
    UnsentIsTimed(t, time);
    EvictRunStaysTimed(run, |run| - 1, t.calls, time);
  }

  lemma SentCounts(t: Tracker, time: Instant, t': Tracker)
    requires Conserved(t) && RecentOnly(t) && DrivenStep(t, SendAt(time), t')
    ensures t.calls < t'.calls && Timed(t', t.calls, time)
  {
    DrivenStepKeepsRecent(t, SendAt(time), t');
    SentIsTimed(t, time, t');
  }

  lemma LaterCounts(t: Tracker, op: Op, t': Tracker, call: nat, time: Instant)
    requires Conserved(t) && RecentOnly(t) && DrivenStep(t, op, t')
    requires call < t.calls && Timed(t, call, time)
    ensures call < t'.calls && Timed(t', call, time)
  {
    DrivenStepKeepsRecent(t, op, t');
    StepStaysTimed(t, op, t', call, time);
  }

  lemma {:induction false} StepAt(maxPending: nat, ops: seq<Op>, states: seq<Tracker>, i: nat)
    requires DrivenRun(maxPending, ops, states) && i < |ops|
    ensures i + 1 < |states| && DrivenStep(states[i], ops[i], states[i + 1])
    ensures Conserved(states[i]) && RecentOnly(states[i])
  {
    DrivenRunConserves(maxPending, ops, states, i);
  }

  ghost predicate KnowsTime(t: Tracker, call: nat, time: Instant) {
    call < t.calls && Timed(t, call, time)
  }

  lemma {:induction false} TimeStaysOneStep(maxPending: nat, ops: seq<Op>, states: seq<Tracker>, i: nat, call: nat,
                                            time: Instant)
    requires DrivenRun(maxPending, ops, states) && i < |ops| && KnowsTime(states[i], call, time)
    ensures i + 1 < |states| && KnowsTime(states[i + 1], call, time)
  {
    StepAt(maxPending, ops, states, i);
    LaterCounts(states[i], ops[i], states[i + 1], call, time);
  }

  lemma {:induction false} TimeStaysKnown(maxPending: nat, ops: seq<Op>, states: seq<Tracker>, i: nat, j: nat,
                                          call: nat, time: Instant)
    requires DrivenRun(maxPending, ops, states) && i <= j < |states| && KnowsTime(states[i], call, time)
    ensures KnowsTime(states[j], call, time)
    decreases j
  {
    if i == j {
    } else {
      TimeStaysKnown(maxPending, ops, states, i, j - 1, call, time);
      TimeStaysOneStep(maxPending, ops, states, j - 1, call, time);
    }
  }

  /** Along every driven run, what the tracker says about a call carries the time at which that call was made. */
  lemma {:induction false} TimesAreSendTimes(maxPending: nat, ops: seq<Op>, states: seq<Tracker>, k: nat, i: nat)
    requires DrivenRun(maxPending, ops, states) && k < i < |states| && ops[k].SendAt?
    ensures KnowsTime(states[i], states[k].calls, ops[k].time)
  {
    StepAt(maxPending, ops, states, k);
    SentCounts(states[k], ops[k].time, states[k + 1]);
    TimeStaysKnown(maxPending, ops, states, k + 1, i, states[k].calls, ops[k].time);
  }

  /** So an answer in time, while its packet is pending, gives the true sample: the time of sending and the time
      since. */
  lemma {:induction false} OwnSampleIsTrue(maxPending: nat, ops: seq<Op>, states: seq<Tracker>, k: nat, i: nat)
    requires DrivenRun(maxPending, ops, states) && k < i < |ops| && ops[k].SendAt?
    requires Answers(ops[i], states[k].calls) && states[i].calls <= states[k].calls + COUNTER_RANGE
    requires states[k].calls % COUNTER_RANGE in states[i].pending
    ensures var sent, now := ops[k].time, ops[i].now;
            states[i + 1].samples == states[i].samples +
                                     [Sample(states[k].calls, sent, Some(if now < sent then 0 else now - sent))]
  {
    TimesAreSendTimes(maxPending, ops, states, k, i);
    SampleIsOwnIff(maxPending, ops, states, i, states[k].calls);
    TimesAreSendTimes(maxPending, ops, states, k, i + 1);
    var t, t' := states[i], states[i + 1];
    assert t'.samples == t'.samples[..|t.samples|] + [t'.samples[|t.samples|]];
    assert t'.samples[|t.samples|] in t'.samples;
  }

  /** The answer to packet 0 comes after the 65th send. */
  function LateAnswerSchedule(last: nat): seq<Op> {
    LoneLossSchedule(last) + [Answer(0, last + 2)]
  }

  predicate LastSampleIs(t: Tracker, sample: Sample) {
    |t.samples| > 0 && t.samples[|t.samples| - 1] == sample
  }

  lemma {:induction false} LateAnswerEnds(maxPending: nat, last: nat, states: seq<Tracker>)
    requires maxPending >= 2 && last + 1 == COUNTER_RANGE
    requires DrivenRun(maxPending, LateAnswerSchedule(last), states)
    ensures LastSampleIs(states[|states| - 1], Sample(last + 1, last + 1, Some(1)))
  {
    var ops, n := LateAnswerSchedule(last), 2 * last + 1;
    LoneLossStays(maxPending, ops, states, last);
    assert ops[n] == SendAt(last + 1) && ops[n + 1] == Answer(0, last + 2) && |ops| == n + 2;
    assert DrivenStep(states[n], ops[n], states[n + 1]);
    LastSend(states[n], states[n + 1]);
    assert DrivenStep(states[n + 1], ops[n + 1], states[n + 2]);
  }

  /** A late answer is taken for the answer to a newer packet: there is such a run, and in every one the answer to
      packet 0 is reported as the round-trip time of packet 64. */
  lemma {:induction false} LateAnswerIsMistaken(maxPending: nat, last: nat)
    requires maxPending >= 2 && last + 1 == COUNTER_RANGE
    ensures exists states: seq<Tracker> :: DrivenRun(maxPending, LateAnswerSchedule(last), states)
    ensures forall states: seq<Tracker> :: DrivenRun(maxPending, LateAnswerSchedule(last), states) ==>
              LastSampleIs(states[|states| - 1], Sample(last + 1, last + 1, Some(1)))
  {
    var states := EveryScheduleRuns(maxPending, LateAnswerSchedule(last));
    forall states: seq<Tracker> | DrivenRun(maxPending, LateAnswerSchedule(last), states)
      ensures LastSampleIs(states[|states| - 1], Sample(last + 1, last + 1, Some(1)))
    {
      LateAnswerEnds(maxPending, last, states);
    }
  }

  // ---- The object ----

  class MetricsTracker {
    const maxPending: nat
    var pendingSentTimes: map<nat, Entry>
    var emitted: seq<Sample>  // what the sample callback was given
    var overwritten: seq<nat>
    var calls: nat

    ghost function State(): Tracker
      reads this
    {
      Tracker(maxPending, pendingSentTimes, emitted, overwritten, calls)
    }

    constructor (maxPending: nat)
      ensures State() == NewTracker(maxPending)
    {
      this.maxPending := maxPending;
      pendingSentTimes, emitted, overwritten, calls := map[], [], [], 0;
    }

    method Oldest() returns (oldest: Option<nat>)
      ensures oldest.None? ==> pendingSentTimes == map[]
      ensures oldest.Some? ==> IsOldest(pendingSentTimes, oldest.value)
    {
      oldest := None;
      var todo := pendingSentTimes.Keys;
      while todo != {}
        invariant todo <= pendingSentTimes.Keys
        invariant oldest.None? ==> todo == pendingSentTimes.Keys
        invariant oldest.Some? ==> oldest.value in pendingSentTimes
                                   && forall c :: c in pendingSentTimes && c !in todo ==>
                                        pendingSentTimes[oldest.value].time <= pendingSentTimes[c].time
        decreases |todo|
      {
        var c :| c in todo;
        if oldest.None? || pendingSentTimes[c].time < pendingSentTimes[oldest.value].time {
          oldest := Some(c);
        }
        todo := todo - {c};
      }
    }

    method EmitSample(rtt: Option<nat>, e: Entry)
      modifies this`emitted
      ensures emitted == old(emitted) + [Sample(e.call, e.time, rtt)]
    {
      emitted := emitted + [Sample(e.call, e.time, rtt)];
    }

    method Sent(counter: nat, time: Instant)
      requires Conserved(State())
      modifies this
      ensures SentStep(old(State()), counter, time, State())
      ensures Conserved(State())
    {
      ghost var run := [State()];
      while |pendingSentTimes| >= maxPending
        invariant |run| > 0 && run[0] == old(State()) && run[|run| - 1] == State()
        invariant forall i :: 0 <= i < |run| - 1 ==> EvictStep(run[i], run[i + 1])
        decreases |pendingSentTimes|
      {
        var oldest := Oldest();
        if oldest.None? {
          break;
        }
        var c := oldest.value;
        var e := pendingSentTimes[c];
        ghost var before := State();
        assert (pendingSentTimes - {c}).Keys == pendingSentTimes.Keys - {c};
        pendingSentTimes := pendingSentTimes - {c};
        EmitSample(None, e);
        assert State() == Sampled(before, c, None) && EvictStep(before, State());
        run := run + [State()];
      }
      assert EvictRun(run);
      if counter in pendingSentTimes {
        overwritten := overwritten + [pendingSentTimes[counter].call];
      }
      pendingSentTimes := pendingSentTimes[counter := Entry(calls, time)];
      calls := calls + 1;
      assert State() == Enter(run[|run| - 1], counter, time);
      SentKeepsConserved(old(State()), counter, time, State());
    }

    method ReceivedAt(counter: nat, now: Instant)
      requires Conserved(State())
      modifies this
      ensures State() == Received(old(State()), counter, now)
      ensures Conserved(State())
    {
      ReceivedKeepsConserved(State(), counter, now);
      if counter in pendingSentTimes {
        var e := pendingSentTimes[counter];
        pendingSentTimes := pendingSentTimes - {counter};
        EmitSample(Some(if now < e.time then 0 else now - e.time), e);
      }
    }
  }
}

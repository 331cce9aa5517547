/** The mock responder's 128-bit loss history: a one for each received command, a zero for each skipped counter.
    Socket reads and the simulated losses are inputs. */
module LossHistory {
  import opened Options
  import opened PacketCounter
  import opened Words

  const WINDOW: nat := 100
  const WIDTH: nat := 128

  /** The plain form of the history: newest entry first, true for received. */
  type Entries = seq<bool>

  predicate At(hist: Entries, k: nat) {
    k < |hist| && hist[k]
  }

  /** A received counter that is `diff` ahead of the last one. */
  function Record(hist: Entries, diff: nat): Entries {
    if diff == 0 then hist else [true] + seq(diff - 1, _ => false) + hist
  }

  /** The skipped entries among the first n; positions before any history count as skipped. */
  function Skipped(hist: Entries, n: nat): nat {
    if n == 0 then 0 else Skipped(hist, n - 1) + (if At(hist, n - 1) then 0 else 1)
  }

  /** The low 100 bits of the word are the 100 newest entries, and the word fits its width. */
  ghost predicate Refines(word: nat, hist: Entries) {
    && (forall k: nat :: k < WINDOW ==> (Bit(word, k) <==> At(hist, k)))
    && (forall k: nat :: k >= WIDTH ==> !Bit(word, k))
  }

  // ---- The word operations ----

  function Shifted(word: nat, diff: nat): nat {
    Low(ShiftLeft(word, diff), WIDTH)
  }

  function Push(word: nat, diff: nat): nat
    requires diff > 0
  {
    Or(AndNot(Shifted(word, diff), MaskOf(diff)), 1)
  }

  /** (1 << n) - 1 */
  function MaskOf(n: nat): nat {
    MaskBit(n, 0);
    ShiftLeft(1, n) - 1
  }

  lemma {:induction false} PushBit(word: nat, diff: nat, k: nat)
    requires diff > 0
    ensures Bit(Push(word, diff), k) <==> k == 0 || (k >= diff && k < WIDTH && Bit(word, k - diff))
  {
    var s := Shifted(word, diff);
    var m := MaskOf(diff);
    BitwiseBit((x, y) => x || y, AndNot(s, m), 1, k);
    BitwiseBit((x, y) => x && !y, s, m, k);
    MaskBit(diff, k);
    OneBit(k);
    LowBit(ShiftLeft(word, diff), WIDTH, k);
    ShiftLeftBit(word, diff, k);
  }

  lemma PushRefines(word: nat, hist: Entries, diff: nat)
    requires Refines(word, hist) && 0 < diff
    ensures Refines(Push(word, diff), Record(hist, diff))
  {
    forall k: nat ensures k < WINDOW ==> (Bit(Push(word, diff), k) <==> At(Record(hist, diff), k))
                  ensures k >= WIDTH ==> !Bit(Push(word, diff), k)
    {
      PushBit(word, diff, k);
      if k < WINDOW && k >= diff {
        assert At(Record(hist, diff), k) == At(hist, k - diff);
      }
    }
  }

  lemma {:induction false} MaskedBit(word: nat, k: nat)
    ensures Bit(And(word, MaskOf(WINDOW)), k) <==> k < WINDOW && Bit(word, k)
  {
    BitwiseBit((x, y) => x && y, word, MaskOf(WINDOW), k);
    MaskBit(WINDOW, k);
  }

  lemma MaskRefines(word: nat, hist: Entries)
    requires Refines(word, hist)
    ensures Refines(And(word, MaskOf(WINDOW)), hist)
  {
    forall k: nat ensures Bit(And(word, MaskOf(WINDOW)), k) <==> k < WINDOW && Bit(word, k) {
      MaskedBit(word, k);
    }
  }

  /** Set bits among the lowest n. */
  function OnesBelow(w: nat, n: nat): nat {
    if n == 0 then 0 else OnesBelow(w, n - 1) + Digit(Bit(w, n - 1))
  }

  lemma {:induction false} OnesBelowFromLow(w: nat, n: nat)
    requires n > 0
    ensures OnesBelow(w, n) == w % 2 + OnesBelow(w / 2, n - 1)
  {
    if n == 1 {
    } else {
      OnesBelowFromLow(w, n - 1);
    }
  }

  lemma {:induction false} CountOnesBelow(w: nat, n: nat)
    requires forall k: nat :: k >= n ==> !Bit(w, k)
    ensures CountOnes(w) == OnesBelow(w, n)
    decreases n
  {
    if n == 0 {
      if w != 0 {
        var i := NonzeroHasBit(w);
      }
    } else {
      forall k: nat | k >= n - 1 ensures !Bit(w / 2, k) {
        assert !Bit(w, k + 1);
      }
      CountOnesBelow(w / 2, n - 1);
      OnesBelowFromLow(w, n);
    }
  }

  lemma {:induction false} OnesPlusSkipped(w: nat, hist: Entries, n: nat)
    requires forall k: nat :: k < n ==> (Bit(w, k) <==> At(hist, k))
    ensures OnesBelow(w, n) + Skipped(hist, n) == n
  {
    if n == 0 {
    } else {
      OnesPlusSkipped(w, hist, n - 1);
    }
  }

  /** 100 minus the ones of the masked word is the number of skipped entries in the window. */
  lemma {:induction false} MissingIsSkipped(word: nat, hist: Entries)
    requires Refines(word, hist)
    ensures CountOnes(And(word, MaskOf(WINDOW))) + Skipped(hist, WINDOW) == WINDOW
  {
    var masked := And(word, MaskOf(WINDOW));
    forall k: nat ensures Bit(masked, k) <==> k < WINDOW && Bit(word, k) {
      MaskedBit(word, k);
    }
    CountOnesBelow(masked, WINDOW);
    OnesPlusSkipped(masked, hist, WINDOW);
  }

  // ---- The responder ----

  /** One datagram from the active connection, and whether its command or its response is suppressed. */
  datatype Command = Command(header: byte, dropCommand: bool, dropResponse: bool)

  function Diff(last: nat, header: byte): nat {
    (header % COUNTER_RANGE - last) % COUNTER_RANGE
  }

  /** What the plain list records over a run of commands, starting after counter `last`. */
  function Recorded(cs: seq<Command>): (r: (nat, Entries))
    ensures r.0 < COUNTER_RANGE
  {
    if |cs| == 0 then (0, [])
    else
      var (last, hist) := Recorded(cs[..|cs| - 1]);
      var c := cs[|cs| - 1];
      if c.dropCommand then (last, hist)
      else (c.header % COUNTER_RANGE, Record(hist, Diff(last, c.header)))
  }

  lemma {:induction false} RecordedSnoc(cs: seq<Command>, c: Command)
    ensures Recorded(cs + [c]) ==
            if c.dropCommand then Recorded(cs)
            else (c.header % COUNTER_RANGE, Record(Recorded(cs).1, Diff(Recorded(cs).0, c.header)))
  {
    assert (cs + [c])[..|cs|] == cs;
  }

  function Masked(word: nat): nat {
    And(word, MaskOf(WINDOW))
  }

  lemma {:induction false} MaskedAnswer(word: nat, hist: Entries)
    requires Refines(word, hist)
    ensures Refines(Masked(word), hist) && CountOnes(Masked(word)) + Skipped(hist, WINDOW) == WINDOW
  {
    MaskRefines(word, hist);
    MissingIsSkipped(word, hist);
  }

  /** The skipped entries among the last 100. */
  function Zeros(hist: Entries): set<nat> {
    set k: nat | k < 100 && !At(hist, k)
  }

  lemma {:induction false} SkippedBelow(hist: Entries, n: nat)
    ensures Skipped(hist, n) == |set k: nat | k < n && !At(hist, k)|
  {
    var zeros := set k: nat | k < n && !At(hist, k);
    if n == 0 {
      assert zeros == {};
    } else {
      SkippedBelow(hist, n - 1);
      var fewer := set k: nat | k < n - 1 && !At(hist, k);
      assert zeros == if At(hist, n - 1) then fewer else fewer + {n - 1};
    }
  }

  /** The answer to the last of some commands: how many entries among the last 100 are skipped ones; none if the command
      or the response is suppressed. */
  function ReportAfter(cs: seq<Command>): Option<nat>
    requires |cs| > 0
  {
    var c := cs[|cs| - 1];
    if c.dropCommand || c.dropResponse then None else Some(Skipped(Recorded(cs).1, WINDOW))
  }

  // ---- What the recorded list says about the packets really sent ----

  /** The commands of a sender that numbers its packets 0, 1, 2, ... modulo 64 and of whose packets exactly the listed
      ones arrive. */
  function Arriving(arrivals: seq<nat>): (r: seq<Command>)
    ensures |r| == |arrivals|
  {
    seq(|arrivals|, i requires 0 <= i < |arrivals| => Command(arrivals[i] % COUNTER_RANGE, false, false))
  }

  /** In the order of sending; a packet may arrive repeatedly. */
  predicate InOrder(arrivals: seq<nat>) {
    forall i, j :: 0 <= i < j < |arrivals| ==> arrivals[i] <= arrivals[j]
  }

  function Previous(arrivals: seq<nat>, i: nat): nat
    requires i <= |arrivals|
  {
    if i == 0 then 0 else arrivals[i - 1]
  }

  /** Fewer than 64 numbers lie between consecutive arrivals. */
  predicate SmallGaps(arrivals: seq<nat>) {
    forall i :: 0 <= i < |arrivals| ==> arrivals[i] - Previous(arrivals, i) < COUNTER_RANGE
  }

  /** Which of the packets 1 to the last arrived one arrived, newest first. */
  function Truth(arrivals: seq<nat>): (r: Entries) {
    var last := Previous(arrivals, |arrivals|);
    seq(last, k requires 0 <= k < last => last - k in arrivals)
  }

  lemma GapModulo(a: nat, b: nat)
    requires a <= b
    ensures var d := Diff(a % COUNTER_RANGE, b % COUNTER_RANGE);
            d <= b - a && (d == b - a <==> b - a < COUNTER_RANGE)
  {
    assert (b % COUNTER_RANGE - a % COUNTER_RANGE) % COUNTER_RANGE == (b - a) % COUNTER_RANGE;
  }

  lemma ArrivingSnoc(before: seq<nat>, arrival: nat)
    ensures Arriving(before + [arrival]) == Arriving(before) + [Command(arrival % COUNTER_RANGE, false, false)]
  {
  }

  lemma HeaderModulo(n: nat)
    ensures n % COUNTER_RANGE % COUNTER_RANGE == n % COUNTER_RANGE
  {
  }

  lemma RecordedStep(before: seq<nat>, arrival: nat)
    ensures var (last, hist) := Recorded(Arriving(before));
            var c := arrival % COUNTER_RANGE;
            Recorded(Arriving(before + [arrival])) == (c, Record(hist, Diff(last, c)))
  {
    var c := Command(arrival % COUNTER_RANGE, false, false);
    ArrivingSnoc(before, arrival);
    HeaderModulo(arrival);
    RecordedSnoc(Arriving(before), c);
  }

  lemma SmallGapsStep(arrivals: seq<nat>)
    requires |arrivals| > 0
    ensures var n := |arrivals| - 1;
            && Previous(arrivals[..n], n) == Previous(arrivals, n)
            && (SmallGaps(arrivals) <==>
                SmallGaps(arrivals[..n]) && arrivals[n] - Previous(arrivals, n) < COUNTER_RANGE)
  {
    var n := |arrivals| - 1;
    assert forall i :: 0 <= i < n ==> Previous(arrivals[..n], i) == Previous(arrivals, i);
  }

  /** What the recorded list is worth: as long as the last number at most, and the truth if the gaps are small. */
  ghost predicate Describes(hist: Entries, arrivals: seq<nat>) {
    && |hist| <= Previous(arrivals, |arrivals|)
    && (|hist| == Previous(arrivals, |arrivals|) <==> SmallGaps(arrivals))
    && (SmallGaps(arrivals) ==> hist == Truth(arrivals))
  }

  lemma DescribesStep(hist: Entries, arrivals: seq<nat>)
    requires |arrivals| > 0 && InOrder(arrivals)
    requires var n := |arrivals| - 1; Describes(hist, arrivals[..n])
    ensures var n := |arrivals| - 1;
            var d := Diff(Previous(arrivals, n) % COUNTER_RANGE, arrivals[n] % COUNTER_RANGE);
            Describes(Record(hist, d), arrivals)
  {
    var n := |arrivals| - 1;
    var p, q := Previous(arrivals, n), arrivals[n];
    SmallGapsStep(arrivals);
    GapModulo(p, q);
    var d := Diff(p % COUNTER_RANGE, q % COUNTER_RANGE);
    assert |Record(hist, d)| == |hist| + d;
    if SmallGaps(arrivals) {
      TruthExtends(arrivals);
    }
  }

  lemma {:induction false} RecordedDescribes(arrivals: seq<nat>)
    requires InOrder(arrivals)
    ensures Recorded(Arriving(arrivals)).0 == Previous(arrivals, |arrivals|) % COUNTER_RANGE
    ensures Describes(Recorded(Arriving(arrivals)).1, arrivals)
    decreases |arrivals|
  {
    if |arrivals| == 0 {
    } else {
      var n := |arrivals| - 1;
      var before := arrivals[..n];
      RecordedDescribes(before);
      assert Previous(before, n) == Previous(arrivals, n);
      DescribesStep(Recorded(Arriving(before)).1, arrivals);
      RecordedStep(before, arrivals[n]);
      assert arrivals == before + [arrivals[n]];
    }
  }

  lemma TruthExtends(arrivals: seq<nat>)
    requires |arrivals| > 0 && InOrder(arrivals)
    ensures var n := |arrivals| - 1;
            Truth(arrivals) == Record(Truth(arrivals[..n]), arrivals[n] - Previous(arrivals, n))
  {
    var n := |arrivals| - 1;
    var p, q := Previous(arrivals, n), arrivals[n];
    var left, right := Truth(arrivals), Record(Truth(arrivals[..n]), q - p);
    forall k | 0 <= k < q ensures left[k] == right[k] {
      var number := q - k;
      assert number in arrivals <==> number in arrivals[..n] || number == q;
      if p < number < q {
        assert forall i :: 0 <= i < n ==> arrivals[i] <= p;
      }
    }
  }

  /** The recorded history is the truth about packets 1 to the last arrived one if and only if fewer than 64 counters
      separate consecutive arrivals; otherwise it is too short. */
  lemma HistoryIsTrueIff(arrivals: seq<nat>)
    requires InOrder(arrivals)
    ensures Recorded(Arriving(arrivals)).1 == Truth(arrivals) <==> SmallGaps(arrivals)
  {
    RecordedDescribes(arrivals);
  }

  /** The lost ones among the n packets up to the last arrived one; numbers below 1 count as lost. */
  function LostNumbers(arrivals: seq<nat>, n: nat): set<int> {
    var last := Previous(arrivals, |arrivals|);
    set p: int | last - n < p <= last && (p < 1 || p !in arrivals)
  }

  lemma {:induction false} SkippedAreLost(arrivals: seq<nat>, n: nat)
    ensures Skipped(Truth(arrivals), n) == |LostNumbers(arrivals, n)|
  {
    if n == 0 {
      assert LostNumbers(arrivals, 0) == {};
    } else {
      SkippedAreLost(arrivals, n - 1);
      var p := Previous(arrivals, |arrivals|) - (n - 1);
      assert At(Truth(arrivals), n - 1) <==> p >= 1 && p in arrivals;
      if p >= 1 && p in arrivals {
        assert LostNumbers(arrivals, n) == LostNumbers(arrivals, n - 1);
      } else {
        assert LostNumbers(arrivals, n) == LostNumbers(arrivals, n - 1) + {p};
      }
    }
  }

  /** With small gaps the number that the responder reports is the number of packets really lost among the last 100. */
  lemma {:induction false} ReportIsTrueLosses(word: nat, arrivals: seq<nat>)
    requires InOrder(arrivals) && SmallGaps(arrivals)
    requires Refines(word, Recorded(Arriving(arrivals)).1)
    ensures WINDOW - CountOnes(Masked(word)) == |LostNumbers(arrivals, WINDOW)|
  {
    HistoryIsTrueIff(arrivals);
    MaskedAnswer(word, Truth(arrivals));
    SkippedAreLost(arrivals, WINDOW);
  }

  /** The header of each command carries the number of its packet modulo 64. */
  predicate Carry(cs: seq<Command>, numbers: seq<nat>) {
    |numbers| == |cs| && forall i :: 0 <= i < |cs| ==> cs[i].header % 64 == numbers[i] % 64
  }

  /** The numbers of the packets whose commands are not suppressed. */
  function Arrived(cs: seq<Command>, numbers: seq<nat>): seq<nat>
    requires |numbers| == |cs|
  {
    if |cs| == 0 then []
    else
      var n := |cs| - 1;
      Arrived(cs[..n], numbers[..n]) + if cs[n].dropCommand then [] else [numbers[n]]
  }

  predicate Trackable(arrivals: seq<nat>) {
    InOrder(arrivals) && SmallGaps(arrivals)
  }

  lemma {:induction false} ArrivedSnoc(cs: seq<Command>, numbers: seq<nat>, c: Command, n: nat)
    requires |numbers| == |cs|
    ensures Arrived(cs + [c], numbers + [n]) == Arrived(cs, numbers) + if c.dropCommand then [] else [n]
  {
    assert (cs + [c])[..|cs|] == cs && (numbers + [n])[..|cs|] == numbers;
  }

  /** One more command, if its packet's number is n. */
  lemma {:induction false} OneMoreRecorded(cs: seq<Command>, arrivals: seq<nat>, c: Command, n: nat)
    requires Recorded(cs) == Recorded(Arriving(arrivals)) && c.header % 64 == n % 64
    ensures Recorded(cs + [c]) == Recorded(Arriving(arrivals + if c.dropCommand then [] else [n]))
  {
    RecordedSnoc(cs, c);
    if c.dropCommand {
      assert arrivals + [] == arrivals;
    } else {
      RecordedStep(arrivals, n);
      HeaderModulo(c.header as nat);
    }
  }

  /** Suppressed commands leave no trace in the record. */
  lemma {:induction false} RecordedIsArriving(cs: seq<Command>, numbers: seq<nat>)
    requires Carry(cs, numbers)
    ensures Recorded(cs) == Recorded(Arriving(Arrived(cs, numbers)))
  {
    if |cs| == 0 {
    } else {
      var n := |cs| - 1;
      RecordedIsArriving(cs[..n], numbers[..n]);
      OneMoreRecorded(cs[..n], Arrived(cs[..n], numbers[..n]), cs[n], numbers[n]);
      ArrivedSnoc(cs[..n], numbers[..n], cs[n], numbers[n]);
      assert cs == cs[..n] + [cs[n]] && numbers == numbers[..n] + [numbers[n]];
    }
  }

  /** What the answer to a command should be: nothing if it or its response is suppressed, else the number of packets
      lost among the last 100. */
  ghost predicate IsTrueReport(answer: Option<nat>, c: Command, arrivals: seq<nat>) {
    && (answer.Some? <==> !c.dropCommand && !c.dropResponse)
    && (answer.Some? ==> answer.value == |LostNumbers(arrivals, 100)|)
  }

  lemma {:induction false} AnswerIsTrueLosses(cs: seq<Command>, numbers: seq<nat>)
    requires |cs| > 0 && Carry(cs, numbers) && Trackable(Arrived(cs, numbers))
    ensures IsTrueReport(ReportAfter(cs), cs[|cs| - 1], Arrived(cs, numbers))
  {
    var arrivals := Arrived(cs, numbers);
    RecordedIsArriving(cs, numbers);
    HistoryIsTrueIff(arrivals);
    SkippedAreLost(arrivals, WINDOW);
  }

  lemma {:induction false} LostBeforeFirst(n: nat)
    requires n > 0
    ensures |LostNumbers([1], n)| == n - 1
  {
    if n == 1 {
      assert LostNumbers([1], 1) == {};
    } else {
      LostBeforeFirst(n - 1);
      assert LostNumbers([1], n) == LostNumbers([1], n - 1) + {2 - n};
    }
  }

  lemma {:induction false} OneArrived(c: Command, n: nat)
    requires !c.dropCommand
    ensures Arrived([c], [n]) == [n]
  {
    assert [c][..0] == [] && [n][..0] == [];
    assert Arrived([c][..0], [n][..0]) == [];
  }

  /** The very first packet, numbered 1, is answered with 99 although nothing is lost: the numbers before it count as
      lost. */
  lemma {:induction false} FirstAnswerIs99()
    ensures ReportAfter([Command(1, false, false)]) == Some(99)
  {
    var c := Command(1, false, false);
    OneArrived(c, 1);
    AnswerIsTrueLosses([c], [1]);
    LostBeforeFirst(100);
  }

  /** Packets that overtake each other: 2 and then 1 leave 65 entries, since 1 counts as 63 packets after 2. */
  lemma {:induction false} OvertakingCountsAsLosses()
    ensures |Recorded(Arriving([2, 1])).1| == 65 && |Truth([2, 1])| == 1
  {
    assert [] + [2] == [2] && [2] + [1] == [2, 1];
    RecordedStep([], 2);
    RecordedStep([2], 1);
    var hist := Recorded(Arriving([2])).1;
    assert |hist| == 2;
    assert |Record(hist, 63)| == 65;
  }

  /** A gap that is not small: packet 64 arrives after 63 losses and a whole turn of the counter, and nothing is
      recorded. */
  lemma WholeTurnIsNotSeen()
    ensures Recorded(Arriving([64])).1 == [] && |Truth([64])| == 64
  {
    assert [64][..0] == [];
    RecordedStep([], 64);
    assert [] + [64] == [64];
  }

  // ---- The object ----

  class MockResponder {
    var lastRxCounter: nat
    var packetLossHistory: nat

    ghost predicate After(cs: seq<Command>)
      reads this
    {
      lastRxCounter == Recorded(cs).0 && Refines(packetLossHistory, Recorded(cs).1)
    }

    constructor ()
      ensures After([])
    {
      lastRxCounter, packetLossHistory := 0, 0;
      forall k: nat ensures !Bit(0, k) { ZeroHasNoBits(k); }
    }

    /** Handles one command. The response reports exactly the skipped entries among the last 100; a suppressed
        response skips the mask, which does not affect later answers. */
    method Handle(c: Command, ghost before: seq<Command>) returns (missing: Option<nat>)
      requires After(before)
      modifies this
      ensures After(before + [c])
      ensures missing == ReportAfter(before + [c])
      ensures missing.Some? <==> !c.dropCommand && !c.dropResponse
      ensures missing.Some? ==> missing.value == |Zeros(Recorded(before + [c]).1)|
    {
      RecordedSnoc(before, c);
      SkippedBelow(Recorded(before + [c]).1, WINDOW);
      if c.dropCommand {
        return None;
      }
      var rxCounter := c.header % COUNTER_RANGE;
      var diff := (rxCounter - lastRxCounter) % COUNTER_RANGE;
      lastRxCounter := rxCounter;
      packetLossHistory := Recording(packetLossHistory, diff, Recorded(before).1);
      assert After(before + [c]);
      if c.dropResponse {
        return None;
      }
      var count;
      packetLossHistory, count := CountMissing(packetLossHistory, Recorded(before + [c]).1);
      missing := Some(count);
    }

    /** Cuts the history down to the window and counts the zeros in it. */
    static method CountMissing(history: nat, ghost hist: Entries) returns (history': nat, missing: nat)
      requires Refines(history, hist)
      ensures Refines(history', hist) && missing == Skipped(hist, WINDOW)
    {
      MaskedAnswer(history, hist);
      history' := Masked(history);
      missing := WINDOW - CountOnes(history');
    }

    /** Makes the word refine the list with the gap and the new packet recorded; a repeated counter changes nothing. */
    static method Recording(history: nat, diff: nat, ghost hist: Entries) returns (history': nat)
      requires Refines(history, hist)
      ensures Refines(history', Record(hist, diff))
    {
      history' := history;
      if diff > 0 {
        PushRefines(history, hist, diff);
        history' := Push(history, diff);
      }
    }

    /** Any sequence of commands with any pattern of suppressed commands and responses. `numbers` are the numbers of the
        packets that the commands came in: each answer is the number of packets really lost among the last 100, as long
        as those received so far came in order and with small gaps. */
    method Run(cs: seq<Command>, ghost numbers: seq<nat>) returns (answers: seq<Option<nat>>)
      requires After([]) && Carry(cs, numbers)
      modifies this
      ensures After(cs)
      ensures |answers| == |cs|
      ensures forall i :: 0 <= i < |cs| ==> (answers[i].Some? <==> !cs[i].dropCommand && !cs[i].dropResponse)
      ensures forall i :: 0 <= i < |cs| && answers[i].Some? && Trackable(Arrived(cs[..i + 1], numbers[..i + 1])) ==>
                answers[i].value == |LostNumbers(Arrived(cs[..i + 1], numbers[..i + 1]), 100)|
    {
      answers := [];
      for i := 0 to |cs|
        invariant After(cs[..i]) && |answers| == i
        invariant forall k :: 0 <= k < i ==> answers[k] == ReportAfter(cs[..k + 1])
      {
        var missing := Handle(cs[i], cs[..i]);
        assert cs[..i] + [cs[i]] == cs[..i + 1];
        answers := answers + [missing];
      }
      assert cs[..|cs|] == cs;
      forall i | 0 <= i < |cs| && Trackable(Arrived(cs[..i + 1], numbers[..i + 1]))
        ensures IsTrueReport(answers[i], cs[i], Arrived(cs[..i + 1], numbers[..i + 1]))
      {
        AnswerIsTrueLosses(cs[..i + 1], numbers[..i + 1]);
      }
    }
  }
}

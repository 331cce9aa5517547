/** The reader and the setter, as automata over classified lines. */
module WpaConfig {
  import opened Options
  import opened ConfigLines

  /** The enabled state of every network block that closes. */
  function ReadFrom(lines: seq<Line>, inside: bool, disabled: bool): seq<bool> {
    if |lines| == 0 then []
    else
      var kind, rest := lines[0].kind, lines[1..];
      if kind.Header? then ReadFrom(rest, true, false)
      else if inside && kind.Disabled? then ReadFrom(rest, true, true)
      else if inside && kind.Closing? then [!disabled] + ReadFrom(rest, false, disabled)
      else ReadFrom(rest, inside, disabled)
  }

  function ReadLines(lines: seq<Line>): seq<bool> {
    ReadFrom(lines, false, false)
  }

  // ---- What the states mean ----

  /** The line that opened the block around position i: the last header line before it, unless a closing line
      follows. */
  function OpenHeader(lines: seq<Line>, i: nat): (h: Option<nat>)
    requires i <= |lines|
    ensures h.Some? ==> h.value < i && lines[h.value].kind.Header?
  {
    if i == 0 then None
    else if lines[i - 1].kind.Header? then Some(i - 1)
    else if lines[i - 1].kind.Closing? then None
    else OpenHeader(lines, i - 1)
  }

  predicate NotDisabled(lines: seq<Line>, from: nat, to: nat)
    requires to <= |lines|
  {
    forall j :: from < j < to ==> !lines[j].kind.Disabled?
  }

  /** The state that line i contributes: if it closes a block, whether nothing in that block disables it. */
  function BlockState(lines: seq<Line>, i: nat): Option<bool>
    requires i < |lines|
  {
    var h := OpenHeader(lines, i);
    if lines[i].kind.Closing? && h.Some? then Some(NotDisabled(lines, h.value, i)) else None
  }

  function BlockStates(lines: seq<Line>, i: nat): seq<Option<bool>>
    requires i <= |lines|
  {
    seq(|lines| - i, k requires 0 <= k < |lines| - i => BlockState(lines, i + k))
  }

  /** What the reader knows at position i. */
  predicate ReaderAt(lines: seq<Line>, i: nat, inside: bool, disabled: bool)
    requires i <= |lines|
  {
    var h := OpenHeader(lines, i);
    (inside <==> h.Some?) && (inside ==> (disabled <==> !NotDisabled(lines, h.value, i)))
  }

  lemma {:induction false} ReaderStep(lines: seq<Line>, i: nat, inside: bool, disabled: bool)
    requires i < |lines| && ReaderAt(lines, i, inside, disabled)
    ensures var kind := lines[i].kind;
            ReaderAt(lines, i + 1, kind.Header? || (inside && !kind.Closing?),
                     !kind.Header? && (disabled || (inside && kind.Disabled?)))
  {
    var h := OpenHeader(lines, i);
    if inside && !lines[i].kind.Header? && !lines[i].kind.Closing? {
      assert NotDisabled(lines, h.value, i + 1) <==> NotDisabled(lines, h.value, i) && !lines[i].kind.Disabled?;
    }
  }

  lemma {:induction false} ReadsFrom(lines: seq<Line>, i: nat, inside: bool, disabled: bool)
    requires i <= |lines| && ReaderAt(lines, i, inside, disabled)
    ensures ReadFrom(lines[i..], inside, disabled) == Somes(BlockStates(lines, i))
    decreases |lines| - i
  {
    if i == |lines| {
    } else {
      var kind := lines[i].kind;
      ReaderStep(lines, i, inside, disabled);
      assert lines[i..][0] == lines[i] && lines[i..][1..] == lines[i + 1..];
      ReadsFrom(lines, i + 1, kind.Header? || (inside && !kind.Closing?),
                !kind.Header? && (disabled || (inside && kind.Disabled?)));
      assert BlockStates(lines, i) == [BlockState(lines, i)] + BlockStates(lines, i + 1);
      SomesCons(BlockState(lines, i), BlockStates(lines, i + 1));
    }
  }

  /** The states read are those of the blocks that close, in order; a block is enabled if and only if no line between
      its last header line and its closing line disables it. */
  lemma {:induction false} ReadsBlocks(lines: seq<Line>)
    ensures ReadLines(lines) == Somes(BlockStates(lines, 0))
  {
    ReadsFrom(lines, 0, false, false);
    assert lines[0..] == lines;
  }

  // ---- Editing ----

  /** The states say something about the block opened by the `headers`-th header line. */
  predicate Controls(states: seq<bool>, headers: nat) {
    0 < headers <= |states|
  }

  predicate Turns(states: seq<bool>, headers: nat, on: bool) {
    Controls(states, headers) && states[headers - 1] == on
  }

  predicate MentionsDisabled(line: Line) {
    line.kind.Disabled? || line.kind.DisabledOther?
  }

  /** The header lines seen, and whether a block is open, after one line. */
  function NextBlock(line: Line, headers: nat, inside: bool): (nat, bool) {
    (if line.kind.Header? then headers + 1 else headers, line.kind.Header? || (inside && !line.kind.Closing?))
  }

  /** What the setter emits for one line, after `headers` header lines. */
  function Emit(line: Line, states: seq<bool>, headers: nat, inside: bool, found: bool): seq<Line> {
    if inside && MentionsDisabled(line) then
      if Turns(states, headers, true) then [] else if Turns(states, headers, false) then [DISABLED_LINE] else [line]
    else if inside && line.kind.Closing? && Turns(states, headers, false) && !found then [DISABLED_LINE, line]
    else [line]
  }

  function SetFrom(lines: seq<Line>, states: seq<bool>, headers: nat, inside: bool, found: bool): seq<Line> {
    if |lines| == 0 then []
    else
      var line, rest := lines[0], lines[1..];
      Emit(line, states, headers, inside, found) +
      if line.kind.Header? then SetFrom(rest, states, headers + 1, true, false)
      else if inside && MentionsDisabled(line) then SetFrom(rest, states, headers, true, true)
      else if inside && line.kind.Closing? then SetFrom(rest, states, headers, false, found)
      else SetFrom(rest, states, headers, inside, found)
  }

  function SetLines(lines: seq<Line>, states: seq<bool>): seq<Line> {
    SetFrom(lines, states, 0, false, false)
  }

  // ---- Reading what was set ----

  /** For every block that closes, the index the setter uses for it: the header lines seen so far, less one. */
  function IndicesFrom(lines: seq<Line>, headers: nat, inside: bool): seq<int> {
    if |lines| == 0 then []
    else
      var kind, rest := lines[0].kind, lines[1..];
      if kind.Header? then IndicesFrom(rest, headers + 1, true)
      else if inside && kind.Closing? then [headers - 1] + IndicesFrom(rest, headers, false)
      else IndicesFrom(rest, headers, inside)
  }

  /** When the k-th block closes, exactly k + 1 header lines have been seen. */
  predicate Aligned(lines: seq<Line>) {
    CountsFrom(IndicesFrom(lines, 0, false), 0)
  }

  predicate CountsFrom(indices: seq<int>, start: int) {
    forall k :: 0 <= k < |indices| ==> indices[k] == start + k
  }

  /** No header line inside an open block. */
  predicate NoHeaderInside(lines: seq<Line>, inside: bool) {
    |lines| > 0 ==>
      if lines[0].kind.Header? then !inside && NoHeaderInside(lines[1..], true)
      else NoHeaderInside(lines[1..], inside && !lines[0].kind.Closing?)
  }

  lemma {:induction false} IndicesCount(lines: seq<Line>, headers: nat, inside: bool, closed: nat)
    requires NoHeaderInside(lines, inside)
    requires headers == closed + (if inside then 1 else 0)
    ensures CountsFrom(IndicesFrom(lines, headers, inside), closed)
  {
    if |lines| == 0 {
    } else {
      var kind, rest := lines[0].kind, lines[1..];
      if kind.Header? {
        IndicesCount(rest, headers + 1, true, closed);
      } else if inside && kind.Closing? {
        IndicesCount(rest, headers, false, closed + 1);
      } else {
        IndicesCount(rest, headers, inside, closed);
      }
    }
  }

  lemma {:induction false} WellFormedIsAligned(lines: seq<Line>)
    requires NoHeaderInside(lines, false)
    ensures Aligned(lines)
  {
    IndicesCount(lines, 0, false, 0);
  }

  /** The states after setting: the given state where the index is covered, the original one elsewhere. */
  ghost predicate IsPatched(now: seq<bool>, was: seq<bool>, states: seq<bool>, indices: seq<int>) {
    && |now| == |was| == |indices|
    && forall k :: 0 <= k < |now| ==> now[k] == if 0 <= indices[k] < |states| then states[indices[k]] else was[k]
  }

  /** How the reader's flag on the rewritten lines relates to its flag on the original ones. */
  predicate FlagsMatch(states: seq<bool>, headers: nat, found: bool, disabled: bool, disabled': bool) {
    if Turns(states, headers, true) then !disabled'
    else if Turns(states, headers, false) then found ==> disabled'
    else disabled' == disabled
  }

  lemma {:induction false} ReadOne(line: Line, tail: seq<Line>, inside: bool, d: bool)
    ensures ReadFrom([line] + tail, inside, d) ==
            if line.kind.Header? then ReadFrom(tail, true, false)
            else if inside && line.kind.Disabled? then ReadFrom(tail, true, true)
            else if inside && line.kind.Closing? then [!d] + ReadFrom(tail, false, d)
            else ReadFrom(tail, inside, d)
  {
    assert ([line] + tail)[1..] == tail;
  }

  /** The reader over what the setter emits for a mention of the flag. */
  lemma ReadMention(line: Line, states: seq<bool>, headers: nat, found: bool, tail: seq<Line>, d: bool, d': bool)
    returns (e': bool)
    requires MentionsDisabled(line) && FlagsMatch(states, headers, found, d, d')
    ensures ReadFrom(Emit(line, states, headers, true, found) + tail, true, d') == ReadFrom(tail, true, e')
    ensures FlagsMatch(states, headers, true, d || line.kind.Disabled?, e')
  {
    var out := Emit(line, states, headers, true, found);
    if Turns(states, headers, true) {
      assert out + tail == tail;
      e' := d';
    } else {
      ReadOne(out[0], tail, true, d');
      e' := d' || out[0].kind.Disabled?;
    }
  }

  /** The reader over what the setter emits for the end of a block. */
  lemma ReadClosing(line: Line, states: seq<bool>, headers: nat, found: bool, tail: seq<Line>, d: bool, d': bool)
    returns (e': bool)
    requires line.kind.Closing? && FlagsMatch(states, headers, found, d, d')
    ensures ReadFrom(Emit(line, states, headers, true, found) + tail, true, d') == [!e'] + ReadFrom(tail, false, e')
    ensures e' == if Controls(states, headers) then !states[headers - 1] else d
  {
    var out := Emit(line, states, headers, true, found);
    if Turns(states, headers, false) && !found {
      assert out + tail == [DISABLED_LINE] + ([line] + tail);
      ReadOne(DISABLED_LINE, [line] + tail, true, d');
      e' := true;
    } else {
      e' := d';
    }
    ReadOne(line, tail, true, e');
  }

  lemma PatchedCons(now: seq<bool>, was: seq<bool>, states: seq<bool>, indices: seq<int>, e: bool, d: bool, i: int)
    requires IsPatched(now, was, states, indices)
    requires e == if 0 <= i < |states| then states[i] else d
    ensures IsPatched([e] + now, [d] + was, states, [i] + indices)
  {
  }

  /** The setter's result on some lines, read back, against the lines themselves. */
  ghost predicate ReadsPatched(lines: seq<Line>, states: seq<bool>, headers: nat, inside: bool, found: bool, d: bool,
                               d': bool) {
    IsPatched(ReadFrom(SetFrom(lines, states, headers, inside, found), inside, d'), ReadFrom(lines, inside, d), states,
              IndicesFrom(lines, headers, inside))
  }

  lemma {:induction false} ReadHeaderStep(line: Line, rest: seq<Line>, states: seq<bool>, headers: nat, inside: bool,
                                          found: bool, d: bool, d': bool)
    requires line.kind.Header? && ReadsPatched(rest, states, headers + 1, true, false, false, false)
    ensures ReadsPatched([line] + rest, states, headers, inside, found, d, d')
  {
    assert ([line] + rest)[1..] == rest;
    ReadOne(line, SetFrom(rest, states, headers + 1, true, false), inside, d');
  }

  lemma {:induction false} ReadMentionStep(line: Line, rest: seq<Line>, states: seq<bool>, headers: nat, found: bool,
                                           d: bool, d': bool) returns (e': bool)
    requires MentionsDisabled(line) && FlagsMatch(states, headers, found, d, d')
    ensures FlagsMatch(states, headers, true, d || line.kind.Disabled?, e')
    ensures ReadsPatched(rest, states, headers, true, true, d || line.kind.Disabled?, e') ==>
              ReadsPatched([line] + rest, states, headers, true, found, d, d')
  {
    assert ([line] + rest)[1..] == rest;
    e' := ReadMention(line, states, headers, found, SetFrom(rest, states, headers, true, true), d, d');
  }

  lemma {:induction false} ReadClosingStep(line: Line, rest: seq<Line>, states: seq<bool>, headers: nat, found: bool,
                                           d: bool, d': bool) returns (e': bool)
    requires line.kind.Closing? && FlagsMatch(states, headers, found, d, d') && headers > 0
    ensures ReadsPatched(rest, states, headers, false, found, d, e') ==>
              ReadsPatched([line] + rest, states, headers, true, found, d, d')
  {
    assert ([line] + rest)[1..] == rest;
    e' := ReadClosing(line, states, headers, found, SetFrom(rest, states, headers, false, found), d, d');
    if ReadsPatched(rest, states, headers, false, found, d, e') {
      PatchedCons(ReadFrom(SetFrom(rest, states, headers, false, found), false, e'), ReadFrom(rest, false, d), states,
                  IndicesFrom(rest, headers, false), !e', !d, headers - 1);
    }
  }

  lemma {:induction false} ReadOtherStep(line: Line, rest: seq<Line>, states: seq<bool>, headers: nat, inside: bool,
                                         found: bool, d: bool, d': bool)
    requires !line.kind.Header? && (inside ==> !MentionsDisabled(line) && !line.kind.Closing?)
    requires ReadsPatched(rest, states, headers, inside, found, d, d')
    ensures ReadsPatched([line] + rest, states, headers, inside, found, d, d')
  {
    assert ([line] + rest)[1..] == rest;
    ReadOne(line, SetFrom(rest, states, headers, inside, found), inside, d');
  }

  lemma {:induction false} ReadAfterSetFrom(lines: seq<Line>, states: seq<bool>, headers: nat, inside: bool,
                                            found: bool, d: bool, d': bool)
    requires inside ==> headers > 0 && FlagsMatch(states, headers, found, d, d')
    ensures ReadsPatched(lines, states, headers, inside, found, d, d')
  {
    if |lines| == 0 {
    } else {
      var line, rest := lines[0], lines[1..];
      assert lines == [line] + rest;
      if line.kind.Header? {
        ReadAfterSetFrom(rest, states, headers + 1, true, false, false, false);
        ReadHeaderStep(line, rest, states, headers, inside, found, d, d');
      } else if inside && MentionsDisabled(line) {
        var e' := ReadMentionStep(line, rest, states, headers, found, d, d');
        ReadAfterSetFrom(rest, states, headers, true, true, d || line.kind.Disabled?, e');
      } else if inside && line.kind.Closing? {
        var e' := ReadClosingStep(line, rest, states, headers, found, d, d');
        ReadAfterSetFrom(rest, states, headers, false, found, d, e');
      } else {
        ReadAfterSetFrom(rest, states, headers, inside, found, d, d');
        ReadOtherStep(line, rest, states, headers, inside, found, d, d');
      }
    }
  }

  /** What editing promises: reading afterwards gives the given states, and the original ones beyond them. */
  ghost predicate SetIsRead(lines: seq<Line>, states: seq<bool>) {
    var was, now := ReadLines(lines), ReadLines(SetLines(lines, states));
    && |now| == |was|
    && forall k :: 0 <= k < |now| ==> now[k] == if k < |states| then states[k] else was[k]
  }

  lemma {:induction false} IndicesNonnegative(lines: seq<Line>, headers: nat, inside: bool)
    requires inside ==> headers > 0
    ensures forall i <- IndicesFrom(lines, headers, inside) :: i >= 0
  {
    if |lines| == 0 {
    } else {
      var kind, rest := lines[0].kind, lines[1..];
      if kind.Header? {
        IndicesNonnegative(rest, headers + 1, true);
      } else if inside && kind.Closing? {
        IndicesNonnegative(rest, headers, false);
      } else {
        IndicesNonnegative(rest, headers, inside);
      }
    }
  }

  /** A choice of states that a misnumbered block reads back wrongly. */
  lemma MisnumberedBlock(lines: seq<Line>, k: nat) returns (states: seq<bool>)
    requires var indices := IndicesFrom(lines, 0, false); k < |indices| && indices[k] != k
    ensures !SetIsRead(lines, states)
  {
    var indices := IndicesFrom(lines, 0, false);
    IndicesNonnegative(lines, 0, false);
    assert indices[k] in indices;
    states := seq(k + indices[k] + 1, i => i == k);
    ReadAfterSetFrom(lines, states, 0, false, false, false, false);
    var now := ReadLines(SetLines(lines, states));
    assert !now[k] && states[k];
  }

  /** Config edit meets config read: reading after setting gives the states that were set, for every choice of
      states, if and only if the file is aligned. */
  lemma SetIsReadIffAligned(lines: seq<Line>)
    ensures (forall states: seq<bool> :: SetIsRead(lines, states)) <==> Aligned(lines)
  {
    if Aligned(lines) {
      forall states: seq<bool> ensures SetIsRead(lines, states) {
        ReadAfterSetFrom(lines, states, 0, false, false, false, false);
      }
    } else {
      var indices := IndicesFrom(lines, 0, false);
      var k :| 0 <= k < |indices| && indices[k] != k;
      var states := MisnumberedBlock(lines, k);
    }
  }

  /** A file that is not: its only network is enabled by the edit and still reads as disabled. */
  lemma HeaderInsideMisnumbers(header: Line, closing: Line)
    requires header.kind.Header? && closing.kind.Closing?
    ensures ReadLines(SetLines([header, header, closing], [true, false])) == [false]
  {
    var lines := [header, header, closing];
    assert lines[1..] == [header, closing] && lines[1..][1..] == [closing] && lines[1..][1..][1..] == [];
    assert IndicesFrom([closing], 2, true) == [1];
    assert IndicesFrom(lines[1..], 1, true) == [1];
    assert IndicesFrom(lines, 0, false) == [1];
    ReadAfterSetFrom(lines, [true, false], 0, false, false, false, false);
  }

  // ---- Idempotent and conservative ----

  lemma SetOne(line: Line, tail: seq<Line>, states: seq<bool>, headers: nat, inside: bool, found: bool)
    ensures SetFrom([line] + tail, states, headers, inside, found) ==
            Emit(line, states, headers, inside, found) +
            if line.kind.Header? then SetFrom(tail, states, headers + 1, true, false)
            else if inside && MentionsDisabled(line) then SetFrom(tail, states, headers, true, true)
            else if inside && line.kind.Closing? then SetFrom(tail, states, headers, false, found)
            else SetFrom(tail, states, headers, inside, found)
  {
    assert ([line] + tail)[1..] == tail;
  }

  /** A second pass over what the first one emitted for a mention of the flag. */
  lemma SetMentionAgain(line: Line, states: seq<bool>, headers: nat, found: bool, found': bool, tail: seq<Line>)
    returns (next: bool)
    requires MentionsDisabled(line)
    requires Turns(states, headers, false) ==> found' == found
    ensures var out := Emit(line, states, headers, true, found);
            SetFrom(out + tail, states, headers, true, found') == out + SetFrom(tail, states, headers, true, next)
    ensures Turns(states, headers, false) ==> next
  {
    var out := Emit(line, states, headers, true, found);
    if Turns(states, headers, true) {
      assert out == [] && out + tail == tail;
      next := found';
      EmptyPrefix(SetFrom(tail, states, headers, true, next));
    } else {
      var first := out[0];
      assert out == [first] && MentionsDisabled(first);
      SetOne(first, tail, states, headers, true, found');
      next := true;
    }
  }

  lemma EmptyPrefix(s: seq<Line>)
    ensures [] + s == s
  {
  }

  /** A second pass over what the first one emitted for the end of a block. */
  lemma SetClosingAgain(line: Line, states: seq<bool>, headers: nat, found: bool, found': bool, tail: seq<Line>)
    returns (next: bool)
    requires line.kind.Closing?
    requires Turns(states, headers, false) ==> found' == found
    ensures var out := Emit(line, states, headers, true, found);
            SetFrom(out + tail, states, headers, true, found') == out + SetFrom(tail, states, headers, false, next)
  {
    if Turns(states, headers, false) && !found {
      next := true;
      SetDisabledClosing(line, states, headers, tail);
    } else {
      next := found';
      SetOne(line, tail, states, headers, true, found');
    }
  }

  /** A second pass over a flag the first one added at the end of a block. */
  lemma {:induction false} SetDisabledClosing(line: Line, states: seq<bool>, headers: nat, tail: seq<Line>)
    requires line.kind.Closing? && Turns(states, headers, false)
    ensures SetFrom([DISABLED_LINE, line] + tail, states, headers, true, false)
         == [DISABLED_LINE, line] + SetFrom(tail, states, headers, false, true)
  {
    var more := SetFrom(tail, states, headers, false, true);
    SetOne(line, tail, states, headers, true, true);
    assert SetFrom([line] + tail, states, headers, true, true) == [line] + more;
    SetOne(DISABLED_LINE, [line] + tail, states, headers, true, false);
    assert [DISABLED_LINE, line] + tail == [DISABLED_LINE] + ([line] + tail);
    assert [DISABLED_LINE] + ([line] + more) == [DISABLED_LINE, line] + more;
  }

  lemma {:induction false} SetAgain(lines: seq<Line>, states: seq<bool>, headers: nat, inside: bool,
                                    found: bool, found': bool)
    requires inside ==> headers > 0 && (Turns(states, headers, false) ==> found' == found)
    ensures var once := SetFrom(lines, states, headers, inside, found);
            SetFrom(once, states, headers, inside, found') == once
  {
    if |lines| == 0 {
    } else {
      var line, rest := lines[0], lines[1..];
      if line.kind.Header? {
        SetOne(line, SetFrom(rest, states, headers + 1, true, false), states, headers, inside, found');
        SetAgain(rest, states, headers + 1, true, false, false);
      } else if inside && MentionsDisabled(line) {
        var tail := SetFrom(rest, states, headers, true, true);
        var next := SetMentionAgain(line, states, headers, found, found', tail);
        SetAgain(rest, states, headers, true, true, next);
      } else if inside && line.kind.Closing? {
        var tail := SetFrom(rest, states, headers, false, found);
        var next := SetClosingAgain(line, states, headers, found, found', tail);
        SetAgain(rest, states, headers, false, found, next);
      } else {
        SetOne(line, SetFrom(rest, states, headers, inside, found), states, headers, inside, found');
        SetAgain(rest, states, headers, inside, found, found');
      }
    }
  }

  /** Setting the same states twice is setting them once, for every file. */
  lemma SetIsIdempotent(lines: seq<Line>, states: seq<bool>)
    ensures SetLines(SetLines(lines, states), states) == SetLines(lines, states)
  {
    SetAgain(lines, states, 0, false, false, false);
  }

  /** The lines an edit must not touch: all but the mentions of the flag inside controlled blocks. */
  function Untouchable(lines: seq<Line>, states: seq<bool>, headers: nat, inside: bool): seq<Line> {
    if |lines| == 0 then []
    else
      var line, rest := lines[0], lines[1..];
      if line.kind.Header? then [line] + Untouchable(rest, states, headers + 1, true)
      else if inside && MentionsDisabled(line) then
        (if Controls(states, headers) then [] else [line]) + Untouchable(rest, states, headers, true)
      else [line] + Untouchable(rest, states, headers, inside && !line.kind.Closing?)
  }

  lemma {:induction false} UntouchableOne(line: Line, tail: seq<Line>, states: seq<bool>, headers: nat, inside: bool)
    ensures Untouchable([line] + tail, states, headers, inside) ==
            if line.kind.Header? then [line] + Untouchable(tail, states, headers + 1, true)
            else if inside && MentionsDisabled(line) then
              (if Controls(states, headers) then [] else [line]) + Untouchable(tail, states, headers, true)
            else [line] + Untouchable(tail, states, headers, inside && !line.kind.Closing?)
  {
    assert ([line] + tail)[1..] == tail;
  }

  lemma {:induction false} UntouchableMention(line: Line, tail: seq<Line>, states: seq<bool>, headers: nat, found: bool)
    requires MentionsDisabled(line) && headers > 0
    ensures Untouchable(Emit(line, states, headers, true, found) + tail, states, headers, true)
         == (if Controls(states, headers) then [] else [line]) + Untouchable(tail, states, headers, true)
  {
    var out := Emit(line, states, headers, true, found);
    if Turns(states, headers, true) {
      assert out + tail == tail;
    } else {
      UntouchableOne(out[0], tail, states, headers, true);
    }
  }

  lemma {:induction false} UntouchableClosing(line: Line, tail: seq<Line>, states: seq<bool>, headers: nat, found: bool)
    requires line.kind.Closing? && headers > 0
    ensures Untouchable(Emit(line, states, headers, true, found) + tail, states, headers, true)
         == [line] + Untouchable(tail, states, headers, false)
  {
    UntouchableOne(line, tail, states, headers, true);
    if Turns(states, headers, false) && !found {
      assert Emit(line, states, headers, true, found) + tail == [DISABLED_LINE] + ([line] + tail);
      UntouchableOne(DISABLED_LINE, [line] + tail, states, headers, true);
    }
  }

  lemma {:induction false} SetKeepsUntouchable(lines: seq<Line>, states: seq<bool>, headers: nat, inside: bool,
                                               found: bool)
    requires inside ==> headers > 0
    ensures Untouchable(SetFrom(lines, states, headers, inside, found), states, headers, inside)
         == Untouchable(lines, states, headers, inside)
  {
    if |lines| == 0 {
    } else {
      var line, rest := lines[0], lines[1..];
      if line.kind.Header? {
        UntouchableOne(line, SetFrom(rest, states, headers + 1, true, false), states, headers, inside);
        SetKeepsUntouchable(rest, states, headers + 1, true, false);
      } else if inside && MentionsDisabled(line) {
        UntouchableMention(line, SetFrom(rest, states, headers, true, true), states, headers, found);
        SetKeepsUntouchable(rest, states, headers, true, true);
      } else if inside && line.kind.Closing? {
        UntouchableClosing(line, SetFrom(rest, states, headers, false, found), states, headers, found);
        SetKeepsUntouchable(rest, states, headers, false, found);
      } else {
        UntouchableOne(line, SetFrom(rest, states, headers, inside, found), states, headers, inside);
        SetKeepsUntouchable(rest, states, headers, inside, found);
      }
    }
  }

  /** An edit is conservative: every line other than a mention of the flag inside a controlled block survives, in order,
      and nothing but such mentions is added. */
  lemma {:induction false} SetIsConservative(lines: seq<Line>, states: seq<bool>)
    ensures Untouchable(SetLines(lines, states), states, 0, false) == Untouchable(lines, states, 0, false)
  {
    SetKeepsUntouchable(lines, states, 0, false, false);
  }

  // ---- Back to text ----

  ghost predicate WellClassified(lines: seq<Line>) {
    forall i :: 0 <= i < |lines| ==> lines[i].kind == KindOf(lines[i].text)
  }

  lemma EmitIsWellClassified(line: Line, states: seq<bool>, headers: nat, inside: bool, found: bool)
    requires line.kind == KindOf(line.text)
    ensures WellClassified(Emit(line, states, headers, inside, found))
  {
    var out := Emit(line, states, headers, inside, found);
    forall i | 0 <= i < |out| ensures out[i].kind == KindOf(out[i].text) {
      if out[i] != line {
        DisabledKind(out[i]);
      }
    }
  }

  lemma {:induction false} SetIsWellClassified(lines: seq<Line>, states: seq<bool>, headers: nat, inside: bool,
                                               found: bool)
    requires WellClassified(lines)
    ensures WellClassified(SetFrom(lines, states, headers, inside, found))
  {
    if |lines| == 0 {
    } else {
      var line, rest := lines[0], lines[1..];
      EmitIsWellClassified(line, states, headers, inside, found);
      assert WellClassified(rest);
      if line.kind.Header? {
        SetIsWellClassified(rest, states, headers + 1, true, false);
      } else if inside && MentionsDisabled(line) {
        SetIsWellClassified(rest, states, headers, true, true);
      } else if inside && line.kind.Closing? {
        SetIsWellClassified(rest, states, headers, false, found);
      } else {
        SetIsWellClassified(rest, states, headers, inside, found);
      }
    }
  }

  function ReadStates(texts: seq<string>): seq<bool> {
    ReadLines(Classify(texts))
  }

  function SetStates(texts: seq<string>, states: seq<bool>): seq<string> {
    Texts(SetLines(Classify(texts), states))
  }

  /** Reading the rewritten text back in classifies its lines as the setter meant them. */
  lemma {:induction false} SetTextClassifies(texts: seq<string>, states: seq<bool>)
    ensures Classify(SetStates(texts, states)) == SetLines(Classify(texts), states)
  {
    ClassifyIsWellClassified(texts);
    SetIsWellClassified(Classify(texts), states, 0, false, false);
    ClassifyTexts(SetLines(Classify(texts), states));
  }

  lemma {:induction false} ClassifyIsWellClassified(texts: seq<string>)
    ensures WellClassified(Classify(texts))
  {
    if |texts| == 0 {
    } else {
      ClassifyIsWellClassified(texts[1..]);
    }
  }

  lemma {:induction false} ClassifyTexts(lines: seq<Line>)
    requires WellClassified(lines)
    ensures Classify(Texts(lines)) == lines
  {
    if |lines| == 0 {
    } else {
      assert WellClassified(lines[1..]);
      ClassifyTexts(lines[1..]);
    }
  }

  // ---- The file ----

  /** The file, and how often the network daemon was told to read it again. */
  class ConfigFile {
    var lines: seq<Option<string>>
    var reloads: nat

    constructor (lines: seq<Option<string>>)
      ensures this.lines == lines && reloads == 0
    {
      this.lines, reloads := lines, 0;
    }
  }

  /** Reading stops at the first line that is not valid text. */
  function Readable(lines: seq<Option<string>>): seq<string> {
    if |lines| == 0 || lines[0].None? then [] else [lines[0].value] + Readable(lines[1..])
  }

  function Written(texts: seq<string>): seq<Option<string>> {
    seq(|texts|, i requires 0 <= i < |texts| => Some(texts[i]))
  }

  lemma {:induction false} ReadableWritten(texts: seq<string>)
    ensures Readable(Written(texts)) == texts
  {
    if |texts| == 0 {
    } else {
      ReadableWritten(texts[1..]);
      assert Written(texts)[1..] == Written(texts[1..]);
    }
  }

  // ---- What an edit does to the lines that are never read ----

  /** The lines that are valid text. */
  function AllTexts(lines: seq<Option<string>>): seq<string> {
    if |lines| == 0 then [] else (if lines[0].Some? then [lines[0].value] else []) + AllTexts(lines[1..])
  }

  /** The lines from the first one on that is not valid text. */
  function Unread(lines: seq<Option<string>>): seq<Option<string>> {
    if |lines| == 0 || lines[0].None? then lines else Unread(lines[1..])
  }

  predicate EveryLineReads(lines: seq<Option<string>>) {
    forall i :: 0 <= i < |lines| ==> lines[i].Some?
  }

  lemma {:induction false} ReadAndUnread(lines: seq<Option<string>>)
    ensures AllTexts(lines) == Readable(lines) + AllTexts(Unread(lines))
  {
    if |lines| == 0 || lines[0].None? {
      assert Readable(lines) + AllTexts(lines) == AllTexts(lines);
    } else {
      ReadAndUnread(lines[1..]);
    }
  }

  /** The same after some lines. */
  function BlockAfter(lines: seq<Line>, headers: nat, inside: bool): (nat, bool) {
    if |lines| == 0 then (headers, inside)
    else var (headers', inside') := NextBlock(lines[0], headers, inside); BlockAfter(lines[1..], headers', inside')
  }

  /** Whether an edit must keep the line. */
  predicate Keeps(line: Line, states: seq<bool>, headers: nat, inside: bool) {
    inside && MentionsDisabled(line) ==> !Controls(states, headers)
  }

  lemma {:induction false} UntouchableStep(line: Line, tail: seq<Line>, states: seq<bool>, headers: nat, inside: bool)
    ensures Untouchable([line] + tail, states, headers, inside) ==
            (if Keeps(line, states, headers, inside) then [line] else []) +
            Untouchable(tail, states, NextBlock(line, headers, inside).0, NextBlock(line, headers, inside).1)
  {
    UntouchableOne(line, tail, states, headers, inside);
  }

  lemma {:induction false} UntouchableConcat(a: seq<Line>, b: seq<Line>, states: seq<bool>, headers: nat, inside: bool)
    ensures Untouchable(a + b, states, headers, inside) ==
            Untouchable(a, states, headers, inside) +
            Untouchable(b, states, BlockAfter(a, headers, inside).0, BlockAfter(a, headers, inside).1)
  {
    if |a| == 0 {
      assert a + b == b;
    } else {
      var line, rest := a[0], a[1..];
      var (headers', inside') := NextBlock(line, headers, inside);
      UntouchableConcat(rest, b, states, headers', inside');
      assert a == [line] + rest && a + b == [line] + (rest + b);
      UntouchableStep(line, rest + b, states, headers, inside);
      UntouchableStep(line, rest, states, headers, inside);
      var kept := if Keeps(line, states, headers, inside) then [line] else [];
      var (headers'', inside'') := BlockAfter(rest, headers', inside');
      assert BlockAfter(a, headers, inside) == (headers'', inside'');
      Regroup(kept, Untouchable(rest, states, headers', inside'), Untouchable(b, states, headers'', inside''));
    }
  }

  lemma Regroup(a: seq<Line>, b: seq<Line>, c: seq<Line>)
    ensures a + (b + c) == (a + b) + c
  {
  }

  /** Nothing but mentions of the flag inside one controlled block. */
  predicate OnlyControlledFlags(lines: seq<Line>, states: seq<bool>, headers: nat, inside: bool) {
    |lines| > 0 ==> inside && Controls(states, headers) && forall i :: 0 <= i < |lines| ==> MentionsDisabled(lines[i])
  }

  lemma {:induction false} NothingUntouchableIff(lines: seq<Line>, states: seq<bool>, headers: nat, inside: bool)
    ensures Untouchable(lines, states, headers, inside) == [] <==> OnlyControlledFlags(lines, states, headers, inside)
  {
    if |lines| == 0 {
    } else {
      var line, rest := lines[0], lines[1..];
      assert forall i :: 0 < i < |lines| ==> lines[i] == rest[i - 1];
      if inside && MentionsDisabled(line) {
        NothingUntouchableIff(rest, states, headers, true);
        if OnlyControlledFlags(lines, states, headers, inside) {
          assert OnlyControlledFlags(rest, states, headers, true);
        }
      }
    }
  }

  /** The text lines of a file that an edit must not touch. */
  function UntouchableTexts(lines: seq<Option<string>>, states: seq<bool>): seq<Line> {
    Untouchable(Classify(AllTexts(lines)), states, 0, false)
  }

  /** No text line that an edit must not touch follows a line that is not valid text. */
  predicate OnlyFlagsUnread(lines: seq<Option<string>>, states: seq<bool>) {
    var (headers, inside) := BlockAfter(Classify(Readable(lines)), 0, false);
    OnlyControlledFlags(Classify(AllTexts(Unread(lines))), states, headers, inside)
  }

  function Edited(lines: seq<Option<string>>, states: seq<bool>): seq<Option<string>> {
    Written(SetStates(Readable(lines), states))
  }

  lemma {:induction false} WrittenReads(texts: seq<string>)
    ensures AllTexts(Written(texts)) == texts && EveryLineReads(Written(texts))
  {
    if |texts| == 0 {
    } else {
      WrittenReads(texts[1..]);
      assert Written(texts)[1..] == Written(texts[1..]);
    }
  }

  lemma {:induction false} EditedUntouchable(lines: seq<Option<string>>, states: seq<bool>)
    ensures UntouchableTexts(Edited(lines, states), states) == Untouchable(Classify(Readable(lines)), states, 0, false)
  {
    WrittenReads(SetStates(Readable(lines), states));
    SetTextClassifies(Readable(lines), states);
    SetIsConservative(Classify(Readable(lines)), states);
  }

  /** For whole files: the text lines that an edit must not touch survive, in order, if and only if none of them follows
      a line that is not valid text. */
  lemma {:induction false} EditIsConservativeIff(lines: seq<Option<string>>, states: seq<bool>)
    ensures UntouchableTexts(Edited(lines, states), states) == UntouchableTexts(lines, states)
            <==> OnlyFlagsUnread(lines, states)
  {
    var read, unread := Classify(Readable(lines)), Classify(AllTexts(Unread(lines)));
    var (headers, inside) := BlockAfter(read, 0, false);
    EditedUntouchable(lines, states);
    ReadAndUnread(lines);
    ClassifyConcat(Readable(lines), AllTexts(Unread(lines)));
    UntouchableConcat(read, unread, states, 0, false);
    NothingUntouchableIff(unread, states, headers, inside);
    PrefixIsWhole(Untouchable(read, states, 0, false), Untouchable(unread, states, headers, inside));
  }

  lemma PrefixIsWhole(a: seq<Line>, b: seq<Line>)
    ensures a == a + b <==> b == []
  {
    assert |a + b| == |a| + |b|;
    if b == [] {
      assert a + b == a;
    }
  }

  lemma {:induction false} ClassifyConcat(a: seq<string>, b: seq<string>)
    ensures Classify(a + b) == Classify(a) + Classify(b)
  {
    if |a| == 0 {
      assert a + b == b;
    } else {
      assert (a + b)[1..] == a[1..] + b;
      ClassifyConcat(a[1..], b);
    }
  }

  /** All lines that an edit must not touch, those that are not valid text among them. */
  function UntouchableLines(lines: seq<Option<string>>, states: seq<bool>, headers: nat, inside: bool)
    : seq<Option<string>>
  {
    if |lines| == 0 then []
    else if lines[0].None? then [None] + UntouchableLines(lines[1..], states, headers, inside)
    else
      var line := LineOf(lines[0].value);
      var (headers', inside') := NextBlock(line, headers, inside);
      (if Keeps(line, states, headers, inside) then [lines[0]] else []) +
      UntouchableLines(lines[1..], states, headers', inside')
  }

  function LineOf(text: string): Line {
    Line(text, KindOf(text))
  }

  lemma {:induction false} UntouchableLinesOfText(lines: seq<Option<string>>, states: seq<bool>, headers: nat,
                                                  inside: bool)
    requires EveryLineReads(lines)
    ensures UntouchableLines(lines, states, headers, inside)
         == Written(Texts(Untouchable(Classify(AllTexts(lines)), states, headers, inside)))
  {
    if |lines| == 0 {
    } else {
      var line, rest := LineOf(lines[0].value), Classify(AllTexts(lines[1..]));
      var (headers', inside') := NextBlock(line, headers, inside);
      UntouchableLinesOfText(lines[1..], states, headers', inside');
      assert AllTexts(lines) == [line.text] + AllTexts(lines[1..]);
      assert Classify(AllTexts(lines)) == [line] + rest by {
        assert AllTexts(lines)[1..] == AllTexts(lines[1..]);
      }
      UntouchableStep(line, rest, states, headers, inside);
      var kept := Untouchable(rest, states, headers', inside');
      if Keeps(line, states, headers, inside) {
        WrittenCons(line, kept);
      } else {
        assert [] + kept == kept;
      }
    }
  }

  lemma {:induction false} WrittenCons(line: Line, rest: seq<Line>)
    ensures Written(Texts([line] + rest)) == [Some(line.text)] + Written(Texts(rest))
  {
    assert ([line] + rest)[1..] == rest;
  }

  lemma {:induction false} InvalidLinesAreUntouchable(lines: seq<Option<string>>, states: seq<bool>, headers: nat,
                                                      inside: bool)
    ensures EveryLineReads(UntouchableLines(lines, states, headers, inside)) <==> EveryLineReads(lines)
  {
    if |lines| == 0 {
    } else {
      var (headers', inside') := if lines[0].None? then (headers, inside)
                                 else NextBlock(LineOf(lines[0].value), headers, inside);
      InvalidLinesAreUntouchable(lines[1..], states, headers', inside');
      var rest := UntouchableLines(lines[1..], states, headers', inside');
      EveryLineReadsCons(lines);
      if UntouchableLines(lines, states, headers, inside) == [lines[0]] + rest {
        EveryLineReadsCons([lines[0]] + rest);
      } else {
        assert [] + rest == rest;
      }
    }
  }

  lemma EveryLineReadsCons(lines: seq<Option<string>>)
    requires |lines| > 0
    ensures EveryLineReads(lines) <==> lines[0].Some? && EveryLineReads(lines[1..])
  {
    assert forall i :: 0 < i < |lines| ==> lines[i] == lines[1..][i - 1];
  }

  lemma {:induction false} EverythingIsRead(lines: seq<Option<string>>)
    requires EveryLineReads(lines)
    ensures Readable(lines) == AllTexts(lines)
  {
    if |lines| == 0 {
    } else {
      EverythingIsRead(lines[1..]);
    }
  }

  /** Counting the lines that are not valid text as well: no line that an edit must not touch is lost if and only if
      every line is valid text. */
  lemma {:induction false} EditLosesNothingIff(lines: seq<Option<string>>, states: seq<bool>)
    ensures UntouchableLines(Edited(lines, states), states, 0, false) == UntouchableLines(lines, states, 0, false)
            <==> EveryLineReads(lines)
  {
    WrittenReads(SetStates(Readable(lines), states));
    InvalidLinesAreUntouchable(Edited(lines, states), states, 0, false);
    InvalidLinesAreUntouchable(lines, states, 0, false);
    if EveryLineReads(lines) {
      EverythingIsRead(lines);
      EditedUntouchable(lines, states);
      UntouchableLinesOfText(lines, states, 0, false);
      UntouchableLinesOfText(Edited(lines, states), states, 0, false);
    }
  }

  /** A file whose first line is not valid text is erased by every edit, whatever its text lines are. */
  lemma {:induction false} InvalidFirstLineErases(text: string, states: seq<bool>)
    ensures Edited([None, Some(text)], states) == []
    ensures UntouchableTexts([None, Some(text)], states) == [LineOf(text)]
  {
    var lines: seq<Option<string>> := [None, Some(text)];
    assert Readable(lines) == [];
    assert lines[1..] == [Some(text)] && lines[1..][1..] == [];
    assert AllTexts(lines[1..]) == [text] && AllTexts(lines) == [text];
    assert [text][1..] == [];
    assert Classify([text]) == [Line(text, KindOf(text))];
    UntouchableOne(Line(text, KindOf(text)), [], states, 0, false);
    assert [Line(text, KindOf(text))] + [] == [Line(text, KindOf(text))];
  }

  lemma {:induction false} ClassifyRest(texts: seq<string>)
    requires |texts| > 0
    ensures |Classify(texts)| > 0 && Classify(texts)[0] == Line(texts[0], KindOf(texts[0]))
    ensures Classify(texts)[1..] == Classify(texts[1..])
  {
  }

  method ReadEnabledStates(file: ConfigFile) returns (states: seq<bool>)
    ensures states == ReadStates(Readable(file.lines))
  {
    states := [];
    var rest := file.lines;
    var insideNetwork, isDisabled := false, false;
    while |rest| > 0 && rest[0].Some?
      invariant states + ReadFrom(Classify(Readable(rest)), insideNetwork, isDisabled)
             == ReadStates(Readable(file.lines))
      decreases |rest|
    {
      var line := rest[0].value;
      ClassifyRest(Readable(rest));
      KindTests(line);
      var trimmed := Trim(line);
      var collapsed := WithoutSpaces(trimmed);
      if "network={" <= collapsed {
        insideNetwork, isDisabled := true, false;
      } else if insideNetwork {
        if "disabled=1" <= collapsed {
          isDisabled := true;
        } else if trimmed == "}" {
          states := states + [!isDisabled];
          insideNetwork := false;
        }
      }
      rest := rest[1..];
    }
  }

  lemma {:induction false} TextsConcat(a: seq<Line>, b: seq<Line>)
    ensures Texts(a + b) == Texts(a) + Texts(b)
  {
    if |a| == 0 {
      assert a + b == b;
    } else {
      assert (a + b)[1..] == a[1..] + b;
      TextsConcat(a[1..], b);
    }
  }

  /** The setter's state after one line. */
  function Advance(line: Line, headers: nat, inside: bool, found: bool): (nat, bool, bool) {
    var (headers', inside') := NextBlock(line, headers, inside);
    (headers', inside', !line.kind.Header? && (found || (inside && MentionsDisabled(line))))
  }

  lemma {:induction false} ClassifyAt(texts: seq<string>, i: nat)
    requires i < |texts|
    ensures |Classify(texts)| == |texts| && Classify(texts)[i] == Line(texts[i], KindOf(texts[i]))
  {
    if |texts| == 1 {
    } else {
      ClassifyAt(texts[1..], if i > 0 then i - 1 else 0);
    }
  }

  lemma {:induction false} ClassifyLength(texts: seq<string>)
    ensures |Classify(texts)| == |texts|
  {
    if |texts| == 0 {
    } else {
      ClassifyLength(texts[1..]);
    }
  }

  /** What the setter still has to write from position i on. */
  function Remaining(lines: seq<Line>, i: nat, states: seq<bool>, state: (nat, bool, bool)): seq<string>
    requires i <= |lines|
  {
    Texts(SetFrom(lines[i..], states, state.0, state.1, state.2))
  }

  lemma SetStep(lines: seq<Line>, i: nat, states: seq<bool>, state: (nat, bool, bool))
    requires i < |lines|
    ensures Remaining(lines, i, states, state) ==
            Texts(Emit(lines[i], states, state.0, state.1, state.2)) +
            Remaining(lines, i + 1, states, Advance(lines[i], state.0, state.1, state.2))
  {
    var (headers', inside', found') := Advance(lines[i], state.0, state.1, state.2);
    assert lines[i..][1..] == lines[i + 1..];
    TextsConcat(Emit(lines[i], states, state.0, state.1, state.2),
                SetFrom(lines[i + 1..], states, headers', inside', found'));
  }

  lemma RemainingEnds(lines: seq<Line>, states: seq<bool>, state: (nat, bool, bool))
    ensures Remaining(lines, 0, states, (0, false, false)) == Texts(SetLines(lines, states))
    ensures Remaining(lines, |lines|, states, state) == []
  {
    assert lines[0..] == lines;
  }

  lemma Pushed(done: seq<string>, pushed: seq<string>, rest: seq<string>)
    ensures (done + pushed) + rest == done + (pushed + rest)
  {
  }

  /** The body of the setter's loop: what it pushes for one line, and its new state. */
  method RewriteLine(text: string, ghost line: Line, states: seq<bool>, networkIdx: int, insideNetwork: bool,
                     foundDisabledField: bool)
    returns (pushed: seq<string>, networkIdx': int, insideNetwork': bool, foundDisabledField': bool)
    requires line == Line(text, KindOf(text))
    requires networkIdx >= -1 && (insideNetwork ==> networkIdx >= 0)
    ensures networkIdx' >= -1 && (insideNetwork' ==> networkIdx' >= 0)
    ensures pushed == Texts(Emit(line, states, networkIdx + 1, insideNetwork, foundDisabledField))
    ensures (networkIdx' + 1, insideNetwork', foundDisabledField')
         == Advance(line, networkIdx + 1, insideNetwork, foundDisabledField)
  {
    KindTests(text);
    networkIdx', insideNetwork', foundDisabledField' := networkIdx, insideNetwork, foundDisabledField;
    var trimmed := Trim(text);
    var collapsed := WithoutSpaces(trimmed);
    if "network={" <= collapsed {
      insideNetwork', foundDisabledField' := true, false;
      networkIdx' := networkIdx + 1;
      pushed := [text];
    } else if insideNetwork && "disabled=" <= collapsed {
      foundDisabledField' := true;
      pushed := if networkIdx >= |states| then [text] else if states[networkIdx] then [] else [DISABLED_TEXT];
    } else if insideNetwork && trimmed == "}" {
      insideNetwork' := false;
      pushed := [];
      if networkIdx < |states| && !states[networkIdx] && !foundDisabledField {
        pushed := pushed + [DISABLED_TEXT];
      }
      pushed := pushed + [text];
      TextsConcat([DISABLED_LINE], [line]);
      assert [DISABLED_LINE] + [line] == [DISABLED_LINE, line];
    } else {
      pushed := [text];
    }
  }

  /** The loop of the setter, over the lines read. */
  method RewriteLines(texts: seq<string>, states: seq<bool>) returns (newLines: seq<string>)
    ensures newLines == SetStates(texts, states)
  {
    newLines := [];
    var networkIdx: int := -1;
    var insideNetwork, foundDisabledField := false, false;
    ghost var lines := Classify(texts);
    ghost var state, written := (0, false, false), Texts(SetLines(lines, states));
    ClassifyLength(texts);
    RemainingEnds(lines, states, state);
    assert [] + Remaining(lines, 0, states, state) == Remaining(lines, 0, states, state);
    for i := 0 to |texts|
      invariant networkIdx >= -1 && (insideNetwork ==> networkIdx >= 0)
      invariant state == (networkIdx + 1, insideNetwork, foundDisabledField)
      invariant newLines + Remaining(lines, i, states, state) == written
    {
      ClassifyAt(texts, i);
      SetStep(lines, i, states, state);
      var pushed;
      pushed, networkIdx, insideNetwork, foundDisabledField :=
        RewriteLine(texts[i], lines[i], states, networkIdx, insideNetwork, foundDisabledField);
      state := Advance(lines[i], state.0, state.1, state.2);
      Pushed(newLines, pushed, Remaining(lines, i + 1, states, state));
      newLines := newLines + pushed;
    }
    RemainingEnds(lines, states, state);
    assert newLines + [] == newLines;
  }

  /** Collects the lines up to the first one that is not valid text. */
  method CollectLines(source: seq<Option<string>>) returns (lines: seq<string>)
    ensures lines == Readable(source)
  {
    lines := [];
    var rest := source;
    while |rest| > 0 && rest[0].Some?
      invariant lines + Readable(rest) == Readable(source)
      decreases |rest|
    {
      lines := lines + [rest[0].value];
      rest := rest[1..];
    }
  }

  method SetEnabledStates(file: ConfigFile, states: seq<bool>, writable: bool)
    modifies file
    ensures file.lines == if writable then Edited(old(file.lines), states) else old(file.lines)
    ensures file.reloads == old(file.reloads) + 1
    ensures writable ==>
              (UntouchableTexts(file.lines, states) == UntouchableTexts(old(file.lines), states)
               <==> OnlyFlagsUnread(old(file.lines), states))
    ensures writable ==>
              (UntouchableLines(file.lines, states, 0, false) == UntouchableLines(old(file.lines), states, 0, false)
               <==> EveryLineReads(old(file.lines)))
  {
    EditIsConservativeIff(file.lines, states);
    EditLosesNothingIff(file.lines, states);
    var lines := CollectLines(file.lines);
    var newLines := RewriteLines(lines, states);
    if writable {
      file.lines := Written(newLines);
    }
    file.reloads := file.reloads + 1;
  }

  /** The jumper positions, or just the first network if no jumper is set. */
  function Chosen(jumpers: seq<bool>): (r: seq<bool>)
    requires |jumpers| > 0
    ensures |r| == |jumpers|
    ensures forall k :: 0 <= k < |jumpers| ==>
              (r[k] <==> jumpers[k] || (k == 0 && forall j :: 0 <= j < |jumpers| ==> !jumpers[j]))
  {
    if true in jumpers then jumpers else [true] + jumpers[1..]
  }

  /** The states read are not the chosen ones; so a file with more or fewer networks than jumpers always differs. */
  predicate Differs(lines: seq<Option<string>>, jumpers: seq<bool>)
    requires |jumpers| > 0
  {
    ReadStates(Readable(lines)) != Chosen(jumpers)
  }

  function Updated(lines: seq<Option<string>>, jumpers: seq<bool>): seq<Option<string>>
    requires |jumpers| > 0
  {
    if Differs(lines, jumpers) then Edited(lines, Chosen(jumpers)) else lines
  }

  lemma {:induction false} EditedReads(lines: seq<Option<string>>, states: seq<bool>)
    ensures ReadStates(Readable(Edited(lines, states))) == ReadLines(SetLines(Classify(Readable(lines)), states))
  {
    ReadableWritten(SetStates(Readable(lines), states));
    SetTextClassifies(Readable(lines), states);
  }

  /** A second edit with the same states never changes the file any more. */
  lemma {:induction false} EditIsIdempotent(lines: seq<Option<string>>, states: seq<bool>)
    ensures Edited(Edited(lines, states), states) == Edited(lines, states)
  {
    ReadableWritten(SetStates(Readable(lines), states));
    SetTextClassifies(Readable(lines), states);
    SetIsIdempotent(Classify(Readable(lines)), states);
  }

  /** Further updates with the same jumpers never change the file. They leave an aligned file alone, and the daemon
      with it, if and only if it has as many networks as there are jumpers; otherwise every one of them writes it
      again. */
  lemma {:induction false} UpdateSettlesIff(lines: seq<Option<string>>, jumpers: seq<bool>)
    requires |jumpers| > 0
    ensures Updated(Updated(lines, jumpers), jumpers) == Updated(lines, jumpers)
    ensures Aligned(Classify(Readable(lines))) ==>
              (!Differs(Updated(lines, jumpers), jumpers) <==> |ReadStates(Readable(lines))| == |jumpers|)
  {
    var states, was := Chosen(jumpers), ReadStates(Readable(lines));
    EditIsIdempotent(lines, states);
    if Aligned(Classify(Readable(lines))) && Differs(lines, jumpers) {
      EditedReads(lines, states);
      SetIsReadIffAligned(Classify(Readable(lines)));
      assert SetIsRead(Classify(Readable(lines)), states);
      var now := ReadLines(SetLines(Classify(Readable(lines)), states));
      if |was| == |jumpers| {
        assert now == states;
      }
    }
  }

  /** Afterwards a network that the jumpers cover is enabled if and only if its jumper is set, or it is the first
      one and no jumper is set; the others read as before. An unaligned file, or one that cannot be written, is
      excepted. File and daemon are left alone if and only if the file already reads like that, with exactly as many
      networks. */
  method UpdateWpaConfig(file: ConfigFile, jumpers: seq<bool>, writable: bool)
    requires |jumpers| > 0
    modifies file
    ensures var was, now := ReadStates(Readable(old(file.lines))), ReadStates(Readable(file.lines));
            writable && Aligned(Classify(Readable(old(file.lines)))) ==>
              && |now| == |was|
              && forall k :: 0 <= k < |now| ==>
                   (now[k] <==>
                    if k < |jumpers| then jumpers[k] || (k == 0 && forall j :: 0 <= j < |jumpers| ==> !jumpers[j])
                    else was[k])
    ensures var was := ReadStates(Readable(old(file.lines)));
            file.reloads == old(file.reloads) <==>
            && |was| == |jumpers|
            && forall k :: 0 <= k < |jumpers| ==>
                 (was[k] <==> jumpers[k] || (k == 0 && forall j :: 0 <= j < |jumpers| ==> !jumpers[j]))
    ensures file.reloads != old(file.reloads) ==> file.reloads == old(file.reloads) + 1
    ensures file.reloads == old(file.reloads) ==> file.lines == old(file.lines)
    ensures file.lines == if writable then Updated(old(file.lines), jumpers) else old(file.lines)
  {
    var jumperState := jumpers;
    if true !in jumperState {
      jumperState := jumperState[0 := true];
    }
    assert jumperState == Chosen(jumpers);
    var confState := ReadEnabledStates(file);
    if jumperState != confState {
      ghost var texts := Readable(file.lines);
      EditedReads(file.lines, jumperState);
      SetEnabledStates(file, jumperState, writable);
      SetIsReadIffAligned(Classify(texts));
      assert Aligned(Classify(texts)) ==> SetIsRead(Classify(texts), jumperState);
    }
  }
}

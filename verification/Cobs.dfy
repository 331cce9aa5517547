/** Consistent Overhead Byte Stuffing (Cheshire and Baker, IEEE/ACM Transactions on Networking 7(2), 1999). */
module Cobs {
  import opened Options

  /** Leading nonzero bytes, at most `cap` of them. */
  function NonzeroRun(data: seq<byte>, cap: nat): (k: nat)
    ensures k <= cap && k <= |data|
    ensures forall i :: 0 <= i < k ==> data[i] != 0
    ensures k < cap && k < |data| ==> data[k] == 0
  {
    if cap == 0 || |data| == 0 || data[0] == 0 then 0 else 1 + NonzeroRun(data[1..], cap - 1)
  }

  function Encode(data: seq<byte>): seq<byte>
    decreases |data|
  {
    var k := NonzeroRun(data, 254);
    if k == 254 then [255] + data[..254] + Encode(data[254..])
    else if k == |data| then [k + 1] + data
    else [k + 1] + data[..k] + Encode(data[k + 1..])
  }

  /** None for a zero byte or a group longer than the rest of the frame. */
  function Decode(frame: seq<byte>): Option<seq<byte>>
    decreases |frame|
  {
    if |frame| == 0 || frame[0] == 0 || frame[0] > |frame| then None
    else
      var c := frame[0];
      var group, rest := frame[1..c], frame[c..];
      if 0 in group then None
      else if |rest| == 0 then Some(group)
      else
        match Decode(rest)
        case None => None
        case Some(tail) => Some(group + (if c < 255 then [0] else []) + tail)
  }

  lemma {:induction false} EncodeNonempty(data: seq<byte>)
    ensures |Encode(data)| > 0
  {
  }

  /** How a frame that starts with a group decodes. */
  lemma {:induction false} DecodeGroup(c: byte, group: seq<byte>, rest: seq<byte>)
    requires c == |group| + 1 && 0 !in group
    ensures |rest| == 0 ==> Decode([c] + group + rest) == Some(group)
    ensures |rest| > 0 && Decode(rest).Some? ==>
              Decode([c] + group + rest) == Some(group + (if c < 255 then [0] else []) + Decode(rest).value)
  {
    var frame := [c] + group + rest;
    assert frame[1..c] == group && frame[c..] == rest;
  }

  /** The three shapes of an encoding: a last group, a full group, or a group that stands for a zero. */
  lemma EncodeShape(data: seq<byte>) returns (group: seq<byte>, tail: seq<byte>, last: bool)
    ensures 0 !in group && |group| <= 254
    ensures last ==> |group| < 254 && data == group && Encode(data) == [|group| + 1] + group
    ensures !last ==> data == group + (if |group| < 254 then [0] else []) + tail && |tail| < |data|
                      && |Encode(tail)| > 0 && Encode(data) == [|group| + 1] + group + Encode(tail)
  {
    var k := NonzeroRun(data, 254);
    if k < 254 && k == |data| {
      group, tail, last := data, [], true;
    } else {
      group, tail, last := data[..k], if k == 254 then data[k..] else data[k + 1..], false;
      if k == 254 {
        assert group + [] + tail == data;
      } else {
        assert group + [0] + tail == data;
      }
      EncodeNonempty(tail);
    }
  }

  lemma {:induction false} RoundTrip(data: seq<byte>)
    ensures Decode(Encode(data)) == Some(data)
    decreases |data|
  {
    var group, tail, last := EncodeShape(data);
    if last {
      DecodeGroup(|group| + 1, group, []);
      assert [|group| + 1] + group + [] == [|group| + 1] + group;
    } else {
      RoundTrip(tail);
      DecodeGroup(|group| + 1, group, Encode(tail));
    }
  }

  lemma {:induction false} EncodeHasNoZero(data: seq<byte>)
    ensures 0 !in Encode(data)
    decreases |data|
  {
    var k := NonzeroRun(data, 254);
    if k == 254 {
      EncodeHasNoZero(data[254..]);
    } else if k == |data| {
    } else {
      EncodeHasNoZero(data[k + 1..]);
    }
  }

  lemma {:induction false} EncodeLength(data: seq<byte>)
    requires |data| < 254
    ensures |Encode(data)| == |data| + 1
    decreases |data|
  {
    var k := NonzeroRun(data, 254);
    assert k <= |data| < 254;
    if k < |data| {
      EncodeLength(data[k + 1..]);
      assert Encode(data) == [k + 1] + data[..k] + Encode(data[k + 1..]);
    } else {
      assert Encode(data) == [k + 1] + data;
    }
  }

  lemma {:induction false} DecodeLength(frame: seq<byte>)
    requires |frame| < 255 && Decode(frame).Some?
    ensures |Decode(frame).value| == |frame| - 1
    decreases |frame|
  {
    if |frame[frame[0]..]| == 0 {
    } else {
      DecodeLength(frame[frame[0]..]);
    }
  }

  lemma {:induction false} RunOfGroup(group: seq<byte>, tail: seq<byte>)
    requires 0 !in group && |group| < 254
    ensures NonzeroRun(group, 254) == |group| && NonzeroRun(group + [0] + tail, 254) == |group|
  {
    var data := group + [0] + tail;
    var k := NonzeroRun(data, 254);
    assert data[|group|] == 0;
    assert forall i :: 0 <= i < |group| ==> data[i] == group[i] && group[i] in group;
  }

  lemma {:induction false} EncodeGroup(group: seq<byte>, tail: seq<byte>)
    requires 0 !in group && |group| < 254
    ensures Encode(group) == [|group| + 1] + group
    ensures Encode(group + [0] + tail) == [|group| + 1] + group + Encode(tail)
  {
    RunOfGroup(group, tail);
    var data := group + [0] + tail;
    assert data[..|group|] == group && data[|group| + 1..] == tail;
  }

  /** A short frame decodes in one way only: it is the encoding of what it decodes to. */
  lemma {:induction false} DecodeIsInverse(frame: seq<byte>)
    requires |frame| < 255 && Decode(frame).Some?
    ensures Encode(Decode(frame).value) == frame
    decreases |frame|
  {
    var c := frame[0];
    var group, rest := frame[1..c], frame[c..];
    assert [c] + group + rest == frame;
    if |rest| == 0 {
      EncodeGroup(group, []);
    } else {
      DecodeIsInverse(rest);
      EncodeGroup(group, Decode(rest).value);
    }
  }
}

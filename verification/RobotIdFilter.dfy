/** The 32-bit white- and blacklist that transceivers apply to announced robot ids. */
module IdFilter {
  import opened Options
  import opened Words

  datatype RobotIdFilter = RobotIdFilter(whitelist: Option<nat>, blacklist: Option<nat>)

  const NO_FILTER := RobotIdFilter(None, None)

  /** Whether robot `id` may connect. */
  predicate Accepts(f: RobotIdFilter, id: byte) {
    if id > 31 then false
    else
      var bit := ShiftLeft(1, id);
      && (f.whitelist.Some? ==> And(f.whitelist.value, bit) != 0)
      && (f.blacklist.Some? ==> And(f.blacklist.value, bit) == 0)
  }

  /** The mask of a list of ids: a 32-bit word whose bits are exactly the listed ids below 32. */
  ghost predicate IsMaskOf(bits: nat, ids: seq<byte>) {
    forall i: nat :: Bit(bits, i) <==> i < 32 && i in ids
  }

  method MaskOf(ids: seq<byte>) returns (bits: nat)
    ensures IsMaskOf(bits, ids)
  {
    bits := 0;
    forall i: nat ensures !Bit(bits, i) { ZeroHasNoBits(i); }
    for k := 0 to |ids|
      invariant IsMaskOf(bits, ids[..k])
    {
      assert ids[..k + 1] == ids[..k] + [ids[k]];
      if ids[k] < 32 {
        forall i: nat ensures Bit(Or(bits, ShiftLeft(1, ids[k])), i) <==> Bit(bits, i) || i == ids[k] {
          SetBit(bits, ids[k], i);
        }
        bits := Or(bits, ShiftLeft(1, ids[k]));
      }
    }
    assert ids[..|ids|] == ids;
  }

  method WithWhitelist(f: RobotIdFilter, ids: seq<byte>) returns (r: RobotIdFilter)
    ensures r.blacklist == f.blacklist
    ensures forall id: byte :: Accepts(r, id) <==> id in ids && Accepts(f.(whitelist := None), id)
  {
    var bits := MaskOf(ids);
    forall id: byte ensures And(bits, ShiftLeft(1, id)) != 0 <==> id < 32 && id in ids { TestBit(bits, id); }
    r := f.(whitelist := Some(bits));
  }

  method WithBlacklist(f: RobotIdFilter, ids: seq<byte>) returns (r: RobotIdFilter)
    ensures r.whitelist == f.whitelist
    ensures forall id: byte :: Accepts(r, id) <==> id !in ids && Accepts(f.(blacklist := None), id)
  {
    var bits := MaskOf(ids);
    forall id: byte ensures And(bits, ShiftLeft(1, id)) != 0 <==> id < 32 && id in ids { TestBit(bits, id); }
    r := f.(blacklist := Some(bits));
  }
}

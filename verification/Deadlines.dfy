/** Deadline tables. A table is described by the list of what was seen, whichever transceiver it belongs to: the first
    announcement enters an address, every packet moves its deadline, and an expiry removes what is overdue. */
module Deadlines {
  import opened Options

  datatype Sighting<K> =
    | Announced(who: K, at: Instant)
    | Heard(who: K, at: Instant)
    | Expiry(now: Instant)
    | Nothing

  /** The entries whose deadline is not before `now`. */
  function NotBefore<K>(table: map<K, Instant>, now: Instant): map<K, Instant> {
    map a | a in table && table[a] >= now :: table[a]
  }

  function See<K>(table: map<K, Instant>, s: Sighting<K>, timeout: nat): map<K, Instant> {
    match s
    case Announced(a, at) => if a in table then table else table[a := at + timeout]
    case Heard(a, at) => if a in table then table[a := at + timeout] else table
    case Expiry(now) => NotBefore(table, now)
    case Nothing => table
  }

  function SeeAll<K>(table: map<K, Instant>, ss: seq<Sighting<K>>, timeout: nat): map<K, Instant> {
    if |ss| == 0 then table else See(SeeAll(table, ss[..|ss| - 1], timeout), ss[|ss| - 1], timeout)
  }

  lemma {:induction false} SeeAllSnoc<K>(table: map<K, Instant>, ss: seq<Sighting<K>>, s: Sighting<K>, timeout: nat)
    ensures SeeAll(table, ss + [s], timeout) == See(SeeAll(table, ss, timeout), s, timeout)
  {
    assert (ss + [s])[..|ss|] == ss;
  }

  lemma {:induction false} SeeAllConcat<K>(table: map<K, Instant>, a: seq<Sighting<K>>, b: seq<Sighting<K>>,
                                           timeout: nat)
    ensures SeeAll(table, a + b, timeout) == SeeAll(SeeAll(table, a, timeout), b, timeout)
    decreases |b|
  {
    if |b| == 0 {
      assert a + b == a;
    } else {
      var n := |b| - 1;
      SeeAllConcat(table, a, b[..n], timeout);
      assert a + b == (a + b[..n]) + [b[n]];
      SeeAllSnoc(table, a + b[..n], b[n], timeout);
    }
  }

  lemma {:induction false} ExpiryFirst<K>(table: map<K, Instant>, now: Instant, ss: seq<Sighting<K>>, timeout: nat)
    ensures SeeAll(table, [Expiry(now)] + ss, timeout) == SeeAll(NotBefore(table, now), ss, timeout)
  {
    SeeAllConcat(table, [Expiry(now)], ss, timeout);
    SeeAllSnoc(table, [], Expiry(now), timeout);
  }

  // ---- What the entries mean ----

  predicate HearsFrom<K(==)>(s: Sighting<K>, a: K) {
    s.Heard? && s.who == a
  }

  predicate Introduces<K(==)>(s: Sighting<K>, a: K) {
    s.Announced? && s.who == a
  }

  /** The k-th sighting is the last sign of address `a`: a packet from it while it is known, or the announcement that
      entered it. No packet follows, and no expiry after which it would be overdue. */
  ghost predicate LastSign<K>(ss: seq<Sighting<K>>, k: nat, a: K, timeout: nat) {
    && k < |ss|
    && (if a in SeeAll(map[], ss[..k], timeout) then HearsFrom(ss[k], a) else Introduces(ss[k], a))
    && (forall j :: k < j < |ss| ==> !HearsFrom(ss[j], a))
    && (forall j :: k < j < |ss| && ss[j].Expiry? ==> ss[j].now <= ss[k].at + timeout)
  }

  lemma {:induction false} LastSignStays<K>(ss: seq<Sighting<K>>, s: Sighting<K>, k: nat, a: K, timeout: nat)
    requires LastSign(ss, k, a, timeout)
    requires !HearsFrom(s, a) && (s.Expiry? ==> s.now <= ss[k].at + timeout)
    ensures LastSign(ss + [s], k, a, timeout) && (ss + [s])[k] == ss[k]
  {
    var more := ss + [s];
    assert more[..k] == ss[..k];
    forall j | k < j < |more|
      ensures !HearsFrom(more[j], a) && (more[j].Expiry? ==> more[j].now <= ss[k].at + timeout)
    {
      assert j < |ss| ==> more[j] == ss[j];
    }
  }

  lemma {:induction false} LastSignNow<K>(ss: seq<Sighting<K>>, s: Sighting<K>, a: K, timeout: nat)
    requires if a in SeeAll(map[], ss, timeout) then HearsFrom(s, a) else Introduces(s, a)
    ensures LastSign(ss + [s], |ss|, a, timeout) && (ss + [s])[|ss|] == s
  {
    assert (ss + [s])[..|ss|] == ss;
  }

  /** Every entry has a last sign. */
  lemma {:induction false} EntryHasLastSign<K>(ss: seq<Sighting<K>>, a: K, timeout: nat) returns (k: nat)
    requires a in SeeAll(map[], ss, timeout)
    ensures LastSign(ss, k, a, timeout) && SeeAll(map[], ss, timeout)[a] == ss[k].at + timeout
    decreases |ss|
  {
    var n := |ss| - 1;
    var before, s := ss[..n], ss[n];
    assert ss == before + [s];
    if HearsFrom(s, a) || a !in SeeAll(map[], before, timeout) {
      k := n;
      LastSignNow(before, s, a, timeout);
    } else {
      k := EntryHasLastSign(before, a, timeout);
      LastSignStays(before, s, k, a, timeout);
    }
  }

  /** From its last sign on, an address is in the table. */
  lemma {:induction false} LastSignHasEntry<K>(ss: seq<Sighting<K>>, k: nat, n: nat, a: K, timeout: nat)
    requires LastSign(ss, k, a, timeout) && k < n <= |ss|
    ensures a in SeeAll(map[], ss[..n], timeout) && SeeAll(map[], ss[..n], timeout)[a] == ss[k].at + timeout
    decreases n
  {
    assert ss[..n][..n - 1] == ss[..n - 1];
    if n == k + 1 {
    } else {
      LastSignHasEntry(ss, k, n - 1, a, timeout);
    }
  }

  /** An address is in the table if and only if it has a last sign, and its deadline is the timeout after that. */
  lemma {:induction false} KnownIffLastSign<K>(ss: seq<Sighting<K>>, a: K, timeout: nat)
    ensures a in SeeAll(map[], ss, timeout) <==> exists k :: 0 <= k < |ss| && LastSign(ss, k, a, timeout)
    ensures forall k :: 0 <= k < |ss| && LastSign(ss, k, a, timeout) ==>
              a in SeeAll(map[], ss, timeout) && SeeAll(map[], ss, timeout)[a] == ss[k].at + timeout
  {
    assert ss[..|ss|] == ss;
    if a in SeeAll(map[], ss, timeout) {
      var k := EntryHasLastSign(ss, a, timeout);
    }
    forall k | 0 <= k < |ss| && LastSign(ss, k, a, timeout)
      ensures a in SeeAll(map[], ss, timeout) && SeeAll(map[], ss, timeout)[a] == ss[k].at + timeout
    {
      LastSignHasEntry(ss, k, |ss|, a, timeout);
    }
  }

  /** An expiry removes an address if and only if its last announcement or packet lies more than the timeout before. */
  lemma {:induction false} ExpiryRemovesIff<K>(ss: seq<Sighting<K>>, k: nat, a: K, now: Instant, timeout: nat)
    requires LastSign(ss, k, a, timeout)
    ensures a in SeeAll(map[], ss, timeout)
    ensures a !in SeeAll(map[], ss + [Expiry(now)], timeout) <==> ss[k].at + timeout < now
  {
    KnownIffLastSign(ss, a, timeout);
    SeeAllSnoc(map[], ss, Expiry(now), timeout);
  }

  // ---- One burst ----

  /** The i-th of some reads, none of which is an expiry, is the last one from `a`. */
  predicate LastHeard<K(==)>(ss: seq<Sighting<K>>, i: nat, a: K) {
    i < |ss| && HearsFrom(ss[i], a) && forall j :: i < j < |ss| ==> !HearsFrom(ss[j], a)
  }

  predicate Silent<K(==)>(ss: seq<Sighting<K>>, a: K) {
    forall i :: 0 <= i < |ss| ==> !HearsFrom(ss[i], a)
  }

  /** A burst of packets moves the deadline of every known address to its last packet, and touches nothing else. */
  lemma {:induction false} PacketsMoveDeadlines<K>(table: map<K, Instant>, ss: seq<Sighting<K>>, timeout: nat, a: K)
    requires forall s <- ss :: s.Heard? || s.Nothing?
    ensures a in SeeAll(table, ss, timeout) <==> a in table
    ensures a in table && Silent(ss, a) ==> SeeAll(table, ss, timeout)[a] == table[a]
    ensures forall i: nat :: a in table && LastHeard(ss, i, a) ==>
              SeeAll(table, ss, timeout)[a] == ss[i].at + timeout
    decreases |ss|
  {
    if |ss| == 0 {
    } else {
      var n := |ss| - 1;
      assert ss[n] in ss;
      PacketsMoveDeadlines(table, ss[..n], timeout, a);
      if a in table {
        assert Silent(ss, a) ==> Silent(ss[..n], a) && !HearsFrom(ss[n], a);
        forall i: nat | LastHeard(ss, i, a) ensures SeeAll(table, ss, timeout)[a] == ss[i].at + timeout {
          assert i < n ==> LastHeard(ss[..n], i, a);
        }
      }
    }
  }

  predicate FirstAnnounced<K(==)>(ss: seq<Sighting<K>>, i: nat, a: K) {
    i < |ss| && Introduces(ss[i], a) && forall j :: 0 <= j < i ==> !Introduces(ss[j], a)
  }

  predicate Unannounced<K(==)>(ss: seq<Sighting<K>>, a: K) {
    forall i :: 0 <= i < |ss| ==> !Introduces(ss[i], a)
  }

  /** A burst of announcements enters every announced address, and touches none that is there. */
  lemma {:induction false} AnnouncementsEnter<K>(table: map<K, Instant>, ss: seq<Sighting<K>>, timeout: nat, a: K)
    requires forall s <- ss :: s.Announced? || s.Nothing?
    ensures a in SeeAll(table, ss, timeout) <==> a in table || !Unannounced(ss, a)
    ensures a in table ==> SeeAll(table, ss, timeout)[a] == table[a]
    decreases |ss|
  {
    if |ss| == 0 {
    } else {
      var n := |ss| - 1;
      assert ss[n] in ss;
      AnnouncementsEnter(table, ss[..n], timeout, a);
      assert Unannounced(ss, a) <==> Unannounced(ss[..n], a) && !Introduces(ss[n], a);
    }
  }

  /** Of several announcements of a new address the first one counts. */
  lemma {:induction false} FirstAnnouncementCounts<K>(table: map<K, Instant>, ss: seq<Sighting<K>>, timeout: nat, a: K,
                                                      i: nat)
    requires forall s <- ss :: s.Announced? || s.Nothing?
    requires a !in table && FirstAnnounced(ss, i, a)
    ensures a in SeeAll(table, ss, timeout) && SeeAll(table, ss, timeout)[a] == ss[i].at + timeout
    decreases |ss|
  {
    var n := |ss| - 1;
    assert ss[n] in ss;
    if i < n {
      assert FirstAnnounced(ss[..n], i, a);
      FirstAnnouncementCounts(table, ss[..n], timeout, a, i);
    } else {
      AnnouncementsEnter(table, ss[..n], timeout, a);
      assert Unannounced(ss[..n], a);
    }
  }
}

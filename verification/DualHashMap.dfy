/** A map whose values can be found by two independent keys, kept as two hash maps. */
module DualMap {
  import opened Options

  /** All entries whose second key is not k2. */
  function WithoutSec<K1, K2(==), V>(m: map<K1, (K2, V)>, k2: K2): map<K1, (K2, V)> {
    map k1 | k1 in m && m[k1].0 != k2 :: m[k1]
  }

  /** Insertion: every entry that shares either key with the new one gives way to it. */
  function Inserted<K1, K2(==), V>(m: map<K1, (K2, V)>, k1: K1, k2: K2, v: V): map<K1, (K2, V)> {
    WithoutSec(m - {k1}, k2)[k1 := (k2, v)]
  }

  /** No two entries share a second key. */
  ghost predicate Injective<K1, K2, V>(m: map<K1, (K2, V)>) {
    forall i, j :: i in m && j in m && m[i].0 == m[j].0 ==> i == j
  }

  /** The second keys of a primary map. */
  ghost function SecKeysOf<K1(!new), K2, V>(m: map<K1, (K2, V)>): set<K2> {
    set k1 | k1 in m :: m[k1].0
  }

  /** The entries of a primary map. */
  ghost function TriplesOf<K1(!new), K2(!new), V(!new)>(m: map<K1, (K2, V)>): (r: set<(K1, K2, V)>)
    ensures forall t :: t in r <==> t.0 in m && m[t.0] == (t.1, t.2)
  {
    set k1 | k1 in m :: (k1, m[k1].0, m[k1].1)
  }

  lemma InsertedTriples<K1(!new), K2(!new), V(!new)>(m: map<K1, (K2, V)>, k1: K1, k2: K2, v: V)
    ensures TriplesOf(Inserted(m, k1, k2, v))
         == (set t | t in TriplesOf(m) && t.0 != k1 && t.1 != k2) + {(k1, k2, v)}
  {
  }

  /** A retain loop that still has to visit the keys in `todo`: what is left of the original entries. */
  ghost predicate Retaining<K1(!new), K2, V>(was: map<K1, (K2, V)>, now: map<K1, (K2, V)>, todo: set<K1>,
                                             f: (K1, K2, V) -> (bool, V)) {
    && (forall k1 :: k1 in now ==> k1 in was)
    && (forall k1 :: k1 in todo && k1 in was ==> k1 in now && now[k1] == was[k1])
    && (forall k1 :: k1 in was && k1 !in todo ==> (k1 in now <==> f(k1, was[k1].0, was[k1].1).0))
    && (forall k1 :: k1 in now && k1 !in todo ==> now[k1] == (was[k1].0, f(k1, was[k1].0, was[k1].1).1))
  }

  /** The entries it has turned down. */
  ghost predicate Dropping<K1(!new), K2(!new), V(!new)>(was: map<K1, (K2, V)>, dropped: seq<(K1, K2, V)>, todo: set<K1>,
                                                        f: (K1, K2, V) -> (bool, V)) {
    && (forall t :: t in dropped <==> t.0 in was && t.0 !in todo && was[t.0] == (t.1, t.2) && !f(t.0, t.1, t.2).0)
    && (forall i, j :: 0 <= i < j < |dropped| ==> dropped[i].0 != dropped[j].0)
  }

  lemma RetainingStep<K1(!new), K2, V>(was: map<K1, (K2, V)>, now: map<K1, (K2, V)>, todo: set<K1>,
                                       f: (K1, K2, V) -> (bool, V), k1: K1)
    requires Retaining(was, now, todo, f) && k1 in todo && k1 in was
    ensures var (k2, v) := was[k1];
            now[k1] == (k2, v) &&
            Retaining(was, if f(k1, k2, v).0 then now[k1 := (k2, f(k1, k2, v).1)] else now - {k1}, todo - {k1}, f)
  {
  }

  lemma DroppingStep<K1(!new), K2(!new), V(!new)>(was: map<K1, (K2, V)>, dropped: seq<(K1, K2, V)>, todo: set<K1>,
                                                  f: (K1, K2, V) -> (bool, V), k1: K1)
    requires Dropping(was, dropped, todo, f) && k1 in todo && k1 in was
    ensures var (k2, v) := was[k1];
            Dropping(was, if f(k1, k2, v).0 then dropped else dropped + [(k1, k2, v)], todo - {k1}, f)
  {
    var (k2, v) := was[k1];
    if !f(k1, k2, v).0 {
      forall t ensures t in dropped + [(k1, k2, v)] <==> t in dropped || t == (k1, k2, v) {}
      forall i | 0 <= i < |dropped| ensures dropped[i].0 != k1 {
        assert dropped[i] in dropped;
      }
    }
  }

  class DualHashMap<K1(==, !new), K2(==, !new), V(!new)> {
    var secToPrim: map<K2, K1>
    var primToVal: map<K1, (K2, V)>

    /** The two maps are exact inverses on the keys. */
    ghost predicate Valid()
      reads this
    {
      && (forall k2 :: k2 in secToPrim ==> secToPrim[k2] in primToVal && primToVal[secToPrim[k2]].0 == k2)
      && (forall k1 :: k1 in primToVal ==> primToVal[k1].0 in secToPrim && secToPrim[primToVal[k1].0] == k1)
    }

    /** The abstract value: a set of entries. */
    ghost function Triples(): set<(K1, K2, V)>
      reads this
    {
      TriplesOf(primToVal)
    }

    /** Both keys identify an entry. */
    lemma UniqueKeys(a: (K1, K2, V), b: (K1, K2, V))
      requires Valid() && a in Triples() && b in Triples()
      requires a.0 == b.0 || a.1 == b.1
      ensures a == b
    {
      assert secToPrim[a.1] == a.0 && secToPrim[b.1] == b.0;
    }

    lemma IsInjective()
      requires Valid()
      ensures Injective(primToVal)
    {
      forall i, j | i in primToVal && j in primToVal && primToVal[i].0 == primToVal[j].0
        ensures i == j
      {
        assert secToPrim[primToVal[i].0] == i && secToPrim[primToVal[j].0] == j;
      }
    }

    lemma SecKeys()
      requires Valid()
      ensures secToPrim.Keys == SecKeysOf(primToVal)
    {
      forall k2 | k2 in secToPrim ensures k2 in SecKeysOf(primToVal) {
        assert primToVal[secToPrim[k2]].0 == k2;
      }
    }

    constructor ()
      ensures Valid() && primToVal == map[] && Triples() == {}
    {
      secToPrim, primToVal := map[], map[];
    }

    method RemovePrim(k1: K1) returns (removed: Option<(K2, V)>)
      requires Valid()
      modifies this
      ensures Valid()
      ensures primToVal == old(primToVal) - {k1}
      ensures removed == if k1 in old(primToVal) then Some(old(primToVal)[k1]) else None
      ensures Triples() == set t | t in old(Triples()) && t.0 != k1
    {
      removed := None;
      if k1 in primToVal {
        var entry := primToVal[k1];
        primToVal := primToVal - {k1};
        secToPrim := secToPrim - {entry.0};
        removed := Some(entry);
      }
    }

    method RemoveSec(k2: K2) returns (removed: Option<(K1, V)>)
      requires Valid()
      modifies this
      ensures Valid()
      ensures primToVal == WithoutSec(old(primToVal), k2)
      ensures removed.Some? ==> (removed.value.0, k2, removed.value.1) in old(Triples())
      ensures removed.None? ==> primToVal == old(primToVal) && forall k1 :: k1 in primToVal ==> primToVal[k1].0 != k2
      ensures Triples() == set t | t in old(Triples()) && t.1 != k2
    {
      removed := None;
      if k2 in secToPrim {
        var k1 := secToPrim[k2];
        secToPrim := secToPrim - {k2};
        if k1 in primToVal {
          var entry := primToVal[k1];
          primToVal := primToVal - {k1};
          removed := Some((k1, entry.1));
        }
      }
    }

    method Insert(k1: K1, k2: K2, value: V)
      requires Valid()
      modifies this
      ensures Valid()
      ensures primToVal == Inserted(old(primToVal), k1, k2, value)
      ensures Triples() == (set t | t in old(Triples()) && t.0 != k1 && t.1 != k2) + {(k1, k2, value)}
    {
      InsertedTriples(primToVal, k1, k2, value);
      var _ := RemovePrim(k1);
      var _ := RemoveSec(k2);
      assert k2 !in secToPrim;
      secToPrim := secToPrim[k2 := k1];
      primToVal := primToVal[k1 := (k2, value)];
    }

    method GetSec(k2: K2) returns (r: Option<(K1, V)>)
      requires Valid()
      ensures r.Some? ==> (r.value.0, k2, r.value.1) in Triples()
      ensures r.None? ==> forall k1 :: k1 in primToVal ==> primToVal[k1].0 != k2
    {
      if k2 in secToPrim && secToPrim[k2] in primToVal {
        r := Some((secToPrim[k2], primToVal[secToPrim[k2]].1));
      } else {
        r := None;
      }
    }

    /** Writing through the reference handed out by the mutable getters. */
    method SetValue(k1: K1, value: V)
      requires Valid() && k1 in primToVal
      modifies this`primToVal
      ensures Valid()
      ensures primToVal == old(primToVal)[k1 := (old(primToVal)[k1].0, value)]
    {
      primToVal := primToVal[k1 := (primToVal[k1].0, value)];
    }

    /** Visits every entry once, in some order. `f` may change the value and decides whether the entry stays;
        `dropped` lists the entries it turned down, in the order visited. */
    method Retain(f: (K1, K2, V) -> (bool, V)) returns (dropped: seq<(K1, K2, V)>)
      requires Valid()
      modifies this
      ensures Valid()
      ensures primToVal == map k1 | k1 in old(primToVal) && f(k1, old(primToVal)[k1].0, old(primToVal)[k1].1).0
                           :: (old(primToVal)[k1].0, f(k1, old(primToVal)[k1].0, old(primToVal)[k1].1).1)
      ensures forall t :: t in dropped <==> t in old(Triples()) && !f(t.0, t.1, t.2).0
      ensures forall i, j :: 0 <= i < j < |dropped| ==> dropped[i].0 != dropped[j].0
    {
      dropped := [];
      var todo := primToVal.Keys;
      ghost var was := primToVal;
      while todo != {}
        invariant Valid()
        invariant todo <= was.Keys && Retaining(was, primToVal, todo, f) && Dropping(was, dropped, todo, f)
        decreases |todo|
      {
        var k1 :| k1 in todo;
        var (k2, v) := primToVal[k1];
        RetainingStep(was, primToVal, todo, f, k1);
        DroppingStep(was, dropped, todo, f, k1);
        var keep := RetainOne(f, k1);
        if !keep {
          dropped := dropped + [(k1, k2, v)];
        }
        todo := todo - {k1};
      }
    }

    /** The body of the retain loop, for one entry. */
    method RetainOne(f: (K1, K2, V) -> (bool, V), k1: K1) returns (keep: bool)
      requires Valid() && k1 in primToVal
      modifies this
      ensures Valid()
      ensures var (k2, v) := old(primToVal)[k1];
              && keep == f(k1, k2, v).0
              && primToVal == if keep then old(primToVal)[k1 := (k2, f(k1, k2, v).1)] else old(primToVal) - {k1}
    {
      var (k2, v) := primToVal[k1];
      var (stays, v') := f(k1, k2, v);
      keep := stays;
      if keep {
        primToVal := primToVal[k1 := (k2, v')];
      } else {
        secToPrim := secToPrim - {k2};
        primToVal := primToVal - {k1};
      }
    }

    method Clear()
      modifies this
      ensures Valid() && Triples() == {}
    {
      secToPrim, primToVal := map[], map[];
    }

    /** The primary keys in the (arbitrary) iteration order of the hash map. */
    method Keys() returns (keys: seq<K1>)
      ensures forall k1 :: k1 in keys <==> k1 in primToVal
    {
      keys := [];
      var todo := primToVal.Keys;
      while todo != {}
        invariant todo <= primToVal.Keys
        invariant forall k1 :: k1 in keys <==> k1 in primToVal && k1 !in todo
        decreases |todo|
      {
        var k1 :| k1 in todo;
        keys := keys + [k1];
        todo := todo - {k1};
      }
    }
  }
}

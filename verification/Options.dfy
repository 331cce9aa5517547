/** Values shared by several modules. */
module Options {
  datatype Option<+T> = None | Some(value: T)

  type byte = b: int | 0 <= b < 256

  /** A point in time. */
  type Instant = int

  /** The values that are there, in order. */
  function Somes<T>(s: seq<Option<T>>): seq<T> {
    if |s| == 0 then []
    else
      var last := s[|s| - 1];
      Somes(s[..|s| - 1]) + if last.Some? then [last.value] else []
  }

  lemma {:induction false} SomesSnoc<T>(s: seq<Option<T>>, x: Option<T>)
    ensures Somes(s + [x]) == Somes(s) + if x.Some? then [x.value] else []
  {
    assert (s + [x])[..|s|] == s;
  }

  lemma {:induction false} SomesHas<T>(s: seq<Option<T>>, i: nat)
    requires i < |s| && s[i].Some?
    ensures s[i].value in Somes(s)
    decreases |s|
  {
    var n := |s| - 1;
    if i == n {
      assert Somes(s)[|Somes(s[..n])|] == s[i].value;
    } else {
      SomesHas(s[..n], i);
    }
  }

  /** Each value stems from its own position, the positions increase, and none that holds a value is left out. */
  ghost predicate Lists<T>(values: seq<T>, s: seq<Option<T>>, from: seq<nat>) {
    && |from| == |values|
    && (forall i :: 0 <= i < |from| ==> from[i] < |s| && s[from[i]] == Some(values[i]))
    && (forall i, j :: 0 <= i < j < |from| ==> from[i] < from[j])
    && (forall k: nat :: k < |s| && s[k].Some? ==> k in from)
  }

  lemma {:induction false} ListsNothingMore<T>(values: seq<T>, s: seq<Option<T>>, from: seq<nat>)
    requires Lists(values, s, from)
    ensures Lists(values, s + [None], from)
  {
    var more := s + [None];
    forall k: nat | k < |more| && more[k].Some? ensures k in from {
      assert s[k].Some?;
    }
  }

  lemma {:induction false} ListsOneMore<T>(values: seq<T>, s: seq<Option<T>>, from: seq<nat>, x: T)
    requires Lists(values, s, from)
    ensures Lists(values + [x], s + [Some(x)], from + [|s|])
  {
    var more, at := s + [Some(x)], from + [|s|];
    forall k: nat | k < |more| && more[k].Some? ensures k in at {
      if k < |s| {
        assert s[k].Some?;
      } else {
        assert at[|from|] == k;
      }
    }
  }

  lemma {:induction false} SomesLists<T>(s: seq<Option<T>>) returns (from: seq<nat>)
    ensures Lists(Somes(s), s, from)
    decreases |s|
  {
    if |s| == 0 {
      from := [];
    } else {
      var n := |s| - 1;
      var before := s[..n];
      from := SomesLists(before);
      assert s == before + [s[n]];
      if s[n].Some? {
        ListsOneMore(Somes(before), before, from, s[n].value);
        from := from + [n];
      } else {
        ListsNothingMore(Somes(before), before, from);
        assert Somes(s) == Somes(before) + [] == Somes(before);
      }
    }
  }

  lemma {:induction false} SomesCons<T>(x: Option<T>, s: seq<Option<T>>)
    ensures Somes([x] + s) == (if x.Some? then [x.value] else []) + Somes(s)
    decreases |s|
  {
    if |s| == 0 {
      assert [x] + s == [] + [x];
      SomesSnoc([], x);
    } else {
      var n := |s| - 1;
      SomesCons(x, s[..n]);
      SomesSnoc([x] + s[..n], s[n]);
      assert [x] + s == ([x] + s[..n]) + [s[n]];
    }
  }
}

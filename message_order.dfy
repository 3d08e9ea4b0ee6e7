/**
 * The order of listMessages (backend/src/store/store.ts:48-52): the stored
 * messages, sorted by `timestamp` with a comparator that subtracts the two
 * times. Array.prototype.sort is stable, so messages with equal timestamps
 * keep their insertion order; the result is therefore the stable insertion
 * sort defined below.
 */
module MessageOrder {
  import opened Types

  predicate SortedByTimestamp(s: seq<Message>) {
    forall i, j :: 0 <= i < j < |s| ==> s[i].timestamp <= s[j].timestamp
  }

  /** The messages of `s` whose timestamp is `t`, in the order of `s`. */
  function WithTimestamp(s: seq<Message>, t: int): seq<Message> {
    if s == [] then []
    else WithTimestamp(s[..|s| - 1], t) + (if s[|s| - 1].timestamp == t then [s[|s| - 1]] else [])
  }

  /** Puts `m` after every element of the sorted `s` whose timestamp is at most m's. */
  function InsertByTimestamp(s: seq<Message>, m: Message): seq<Message> {
    if s == [] then [m]
    else if s[|s| - 1].timestamp <= m.timestamp then s + [m]
    else InsertByTimestamp(s[..|s| - 1], m) + [s[|s| - 1]]
  }

  /** The stable sort by timestamp: insert the elements one by one, in order. */
  function SortByTimestamp(s: seq<Message>): seq<Message> {
    if s == [] then [] else InsertByTimestamp(SortByTimestamp(s[..|s| - 1]), s[|s| - 1])
  }

  lemma {:induction false} WithTimestampAppend(a: seq<Message>, b: seq<Message>, t: int)
    ensures WithTimestamp(a + b, t) == WithTimestamp(a, t) + WithTimestamp(b, t)
    decreases |b|
  {
    if b == [] {
      assert a + b == a;
    } else {
      var b' := b[..|b| - 1];
      assert (a + b)[..|a + b| - 1] == a + b';
      WithTimestampAppend(a, b', t);
    }
  }

  lemma {:induction false} InsertPermutes(s: seq<Message>, m: Message)
    ensures multiset(InsertByTimestamp(s, m)) == multiset(s) + multiset{m}
    decreases |s|
  {
    if s != [] && s[|s| - 1].timestamp > m.timestamp {
      var s' := s[..|s| - 1];
      assert s == s' + [s[|s| - 1]];
      InsertPermutes(s', m);
    }
  }

  lemma {:induction false} InsertKeepsSorted(s: seq<Message>, m: Message)
    requires SortedByTimestamp(s)
    ensures SortedByTimestamp(InsertByTimestamp(s, m))
    decreases |s|
  {
    if s != [] && s[|s| - 1].timestamp > m.timestamp {
      var s', last := s[..|s| - 1], s[|s| - 1];
      assert s == s' + [last];
      InsertKeepsSorted(s', m);
      var a := InsertByTimestamp(s', m);
      InsertPermutes(s', m);
      forall i | 0 <= i < |a| ensures a[i].timestamp <= last.timestamp {
        assert a[i] in multiset(a);
        assert a[i] in multiset(s') || a[i] == m;
      }
    }
  }

  /** Inserting `m` adds it behind every message of the same timestamp: insertion is stable. */
  lemma {:induction false} InsertIsStable(s: seq<Message>, m: Message, t: int)
    requires SortedByTimestamp(s)
    ensures WithTimestamp(InsertByTimestamp(s, m), t)
         == WithTimestamp(s, t) + (if m.timestamp == t then [m] else [])
    decreases |s|
  {
    if s == [] {
    } else if s[|s| - 1].timestamp <= m.timestamp {
      WithTimestampAppend(s, [m], t);
      assert [m][..0] == [];
    } else {
      var s', last := s[..|s| - 1], s[|s| - 1];
      InsertIsStable(s', m, t);
      WithTimestampAppend(InsertByTimestamp(s', m), [last], t);
      assert [last][..0] == [];
    }
  }

  /**
   * The sort returns a permutation of its input, sorted by timestamp, and
   * for every timestamp the messages carrying it appear in input order.
   */
  lemma {:induction false} SortCorrect(s: seq<Message>)
    ensures SortedByTimestamp(SortByTimestamp(s))
    ensures multiset(SortByTimestamp(s)) == multiset(s)
    ensures forall t :: WithTimestamp(SortByTimestamp(s), t) == WithTimestamp(s, t)
    decreases |s|
  {
    if s != [] {
      var s', last := s[..|s| - 1], s[|s| - 1];
      assert s == s' + [last];
      SortCorrect(s');
      InsertKeepsSorted(SortByTimestamp(s'), last);
      InsertPermutes(SortByTimestamp(s'), last);
      forall t ensures WithTimestamp(SortByTimestamp(s), t) == WithTimestamp(s, t) {
        InsertIsStable(SortByTimestamp(s'), last, t);
      }
    }
  }

  /**
   * Sortedness and per-timestamp order determine the result: any sorted
   * sequence with the same per-timestamp subsequences as `s` is SortByTimestamp(s).
   */
  lemma {:induction false} SortUnique(s: seq<Message>, r: seq<Message>)
    requires SortedByTimestamp(r)
    requires forall t :: WithTimestamp(r, t) == WithTimestamp(s, t)
    ensures r == SortByTimestamp(s)
  {
    SortCorrect(s);
    SortedSameFiltersEqual(r, SortByTimestamp(s));
  }

  lemma {:induction false} SortedSameFiltersEqual(a: seq<Message>, b: seq<Message>)
    requires SortedByTimestamp(a) && SortedByTimestamp(b)
    requires forall t :: WithTimestamp(a, t) == WithTimestamp(b, t)
    ensures a == b
    decreases |a| + |b|
  {
    if a == [] {
      NoFiltersEmpty(b);
    } else if b == [] {
      NoFiltersEmpty(a);
    } else {
      var a', x := a[..|a| - 1], a[|a| - 1];
      var b', y := b[..|b| - 1], b[|b| - 1];
      // the last elements carry the largest timestamp of each side, so they are equal
      if x.timestamp < y.timestamp {
        NoneAbove(a, y.timestamp);
        assert false;
      } else if y.timestamp < x.timestamp {
        NoneAbove(b, x.timestamp);
        assert false;
      }
      var ts := x.timestamp;
      var fa, fb := WithTimestamp(a', ts), WithTimestamp(b', ts);
      assert WithTimestamp(a, ts) == fa + [x];
      assert WithTimestamp(b, ts) == fb + [y];
      assert x == (fa + [x])[|fa|] && y == (fb + [y])[|fb|];
      assert |fa| == |fb|;
      assert x == y;
      forall t ensures WithTimestamp(a', t) == WithTimestamp(b', t) {
        if t == ts {
          assert fa == (fa + [x])[..|fa|];
          assert fb == (fb + [y])[..|fb|];
        } else {
          assert WithTimestamp(a, t) == WithTimestamp(a', t);
          assert WithTimestamp(b, t) == WithTimestamp(b', t);
        }
      }
      SortedSameFiltersEqual(a', b');
      assert a == a' + [x] && b == b' + [y];
    }
  }

  /** A sequence all of whose per-timestamp filters are empty is empty. */
  lemma NoFiltersEmpty(s: seq<Message>)
    requires forall t :: WithTimestamp(s, t) == []
    ensures s == []
  {
    if s != [] {
      var x := s[|s| - 1];
      assert WithTimestamp(s, x.timestamp) == WithTimestamp(s[..|s| - 1], x.timestamp) + [x];
    }
  }

  /** A sorted sequence whose last timestamp is below t has no message stamped t. */
  lemma {:induction false} NoneAbove(s: seq<Message>, t: int)
    requires SortedByTimestamp(s)
    requires s != [] && s[|s| - 1].timestamp < t
    ensures WithTimestamp(s, t) == []
    decreases |s|
  {
    if |s| > 1 {
      NoneAbove(s[..|s| - 1], t);
    }
  }

  /**
   * A stable sort by timestamp, computed by insertion into a growing sorted
   * prefix. By SortUnique every stable sort by timestamp gives this result,
   * whatever algorithm the engine's `Array.prototype.sort` uses.
   */
  method StableSortByTimestamp(s: seq<Message>) returns (r: seq<Message>)
    ensures r == SortByTimestamp(s)
    ensures SortedByTimestamp(r) && multiset(r) == multiset(s)
    ensures forall t :: WithTimestamp(r, t) == WithTimestamp(s, t)
  {
    r := [];
    var i := 0;
    while i < |s|
      invariant 0 <= i <= |s|
      invariant r == SortByTimestamp(s[..i])
    {
      assert s[..i + 1][..i] == s[..i];
      r := InsertByTimestamp(r, s[i]);
      i := i + 1;
    }
    assert s[..i] == s;
    SortCorrect(s);
  }
}

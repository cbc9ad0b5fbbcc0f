/** Which rows a limited, ordered selection takes, and where it stops. */
module Eviction {
  import opened Sets
  import opened Ordering
  import opened CacheTables

  /** The ordering column of the selected rows. */
  type Rank = map<string, int>

  /** Rows are ordered by the column, then by key. */
  predicate Older(rank: Rank, a: string, b: string)
    requires a in rank && b in rank
  {
    rank[a] < rank[b] || (rank[a] == rank[b] && Before(a, b))
  }

  lemma {:induction false} OlderTotal(rank: Rank, a: string, b: string)
    requires a in rank && b in rank
    ensures Older(rank, a, b) || a == b || Older(rank, b, a)
  {
    BeforeTotal(a, b);
  }

  lemma {:induction false} OlderIrreflexive(rank: Rank, a: string)
    requires a in rank
    ensures !Older(rank, a, a)
  {
    BeforeIrreflexive(a);
  }

  lemma {:induction false} OlderTransitive(rank: Rank, a: string, b: string, c: string)
    requires a in rank && b in rank && c in rank && Older(rank, a, b) && Older(rank, b, c)
    ensures Older(rank, a, c)
  {
    if rank[a] == rank[b] == rank[c] { BeforeTransitive(a, b, c); }
  }

  /** `keys` are the first rows of the order. */
  ghost predicate First(rank: Rank, keys: set<string>) {
    keys <= rank.Keys && forall a, b :: a in keys && b in rank.Keys - keys ==> Older(rank, a, b)
  }

  ghost predicate Newest(rank: Rank, keys: set<string>, key: string)
    requires keys <= rank.Keys
  {
    key in keys && forall a :: a in keys && a != key ==> Older(rank, a, key)
  }

  /** With a positive `need`, no fewer rows would have freed that many bytes. */
  ghost predicate Shortest(rank: Rank, access: map<string, Access>, need: int, keys: set<string>)
    requires keys <= rank.Keys <= access.Keys
  {
    forall key :: Newest(rank, keys, key) && need > 0 ==> Bytes(access, keys - {key}) < need
  }

  ghost predicate Enough(rank: Rank, access: map<string, Access>, need: int, keys: set<string>)
    requires keys <= rank.Keys <= access.Keys
  {
    keys == rank.Keys || (need > 0 && Bytes(access, keys) >= need)
  }

  /** The rows removed when `need` bytes are wanted and at most `limit` rows may go. */
  ghost predicate Selected(rank: Rank, access: map<string, Access>, need: int, limit: nat, keys: set<string>) {
    && rank.Keys <= access.Keys
    && First(rank, keys)
    && |keys| <= limit
    && Shortest(rank, access, need, keys)
    && (|keys| == limit || Enough(rank, access, need, keys))
  }

  // ----- the selection is unique -----

  lemma {:induction false} NewestExists(rank: Rank, keys: set<string>) returns (key: string)
    requires keys <= rank.Keys && keys != {}
    ensures Newest(rank, keys, key)
  {
    var k :| k in keys;
    if keys == {k} {
      key := k;
    } else {
      assert keys - {k} != {};
      var n := NewestExists(rank, keys - {k});
      OlderTotal(rank, k, n);
      if Older(rank, k, n) {
        key := n;
      } else {
        forall a | a in keys && a != k ensures Older(rank, a, k) {
          if a != n { OlderTransitive(rank, a, n, k); }
        }
        key := k;
      }
    }
  }

  lemma {:induction false} FirstNested(rank: Rank, a: set<string>, b: set<string>)
    requires First(rank, a) && First(rank, b) && |a| <= |b|
    ensures a <= b
  {
    if x :| x in a && x !in b {
      if y :| y in b && y !in a {
        OlderTransitive(rank, x, y, x);
        OlderIrreflexive(rank, x);
      } else {
        assert b <= a - {x};
        SubsetSize(b, a - {x});
      }
    }
  }

  lemma {:induction false} BytesMonotone(access: map<string, Access>, a: set<string>, b: set<string>)
    requires a <= b <= access.Keys
    ensures Bytes(access, a) <= Bytes(access, b)
  {
    BytesUnion(access, a, b - a);
    assert a + (b - a) == b;
  }

  /** A smaller selection leaves room to stop only where the larger one stops. */
  lemma {:induction false} SelectedNested(rank: Rank, access: map<string, Access>, need: int, limit: nat,
          a: set<string>, b: set<string>)
    requires Selected(rank, access, need, limit, a) && Selected(rank, access, need, limit, b) && |a| <= |b|
    ensures a == b
  {
    FirstNested(rank, a, b);
    if a != b {
      SubsetSize(b, rank.Keys);
      var newest := NewestExists(rank, b);
      if newest in a {
        assert exists x :: x in b && x !in a;
        var x :| x in b && x !in a;
        OlderTransitive(rank, x, newest, x);
        OlderIrreflexive(rank, x);
      } else {
        assert a <= b - {newest};
        SubsetSize(a, b - {newest});
        BytesMonotone(access, a, b - {newest});
      }
    }
  }

  /** The conditions determine the removed rows. */
  lemma {:induction false} SelectedUnique(rank: Rank, access: map<string, Access>, need: int, limit: nat,
          a: set<string>, b: set<string>)
    requires Selected(rank, access, need, limit, a) && Selected(rank, access, need, limit, b)
    ensures a == b
  {
    if |a| <= |b| {
      SelectedNested(rank, access, need, limit, a, b);
    } else {
      SelectedNested(rank, access, need, limit, b, a);
    }
  }

  // ----- batches -----

  lemma {:induction false} NothingSelected(rank: Rank, access: map<string, Access>, need: int)
    requires rank.Keys <= access.Keys
    ensures Selected(rank, access, need, 0, {})
  {
  }

  /** A later batch continues the selection where the earlier ones ran out of rows. */
  lemma {:induction false} SelectedContinues(rank: Rank, access: map<string, Access>, need: int,
                          m: nat, a: set<string>, n: nat, b: set<string>)
    requires Selected(rank, access, need, m, a) && (need > 0 ==> Bytes(access, a) < need)
    requires var left := if need > 0 then need - Bytes(access, a) else need;
      Selected(rank - a, access - a, left, n, b)
    ensures a !! b && Selected(rank, access, need, m + n, a + b)
    ensures Bytes(access, a + b) == Bytes(access, a) + Bytes(access - a, b) && |a + b| == |a| + |b|
  {
    var left := if need > 0 then need - Bytes(access, a) else need;
    assert (rank - a).Keys == rank.Keys - a;
    BytesUnion(access, a, b);
    BytesAgree(access, access - a, b);
    forall x, y | x in a + b && y in rank.Keys - (a + b) ensures Older(rank, x, y) {
      if x in b { assert Older(rank - a, x, y); }
    }
    forall key | Newest(rank, a + b, key) && need > 0 ensures Bytes(access, a + b - {key}) < need {
      NewestOfBatches(rank, access, need, a, b, key, left);
    }
    assert a == rank.Keys ==> b == {} && a + b == rank.Keys;
    assert b == (rank - a).Keys ==> a + b == rank.Keys;
  }

  lemma {:induction false} NewestOfBatches(rank: Rank, access: map<string, Access>, need: int, a: set<string>,
          b: set<string>,
                        key: string, left: int)
    requires rank.Keys <= access.Keys && a <= rank.Keys && b <= rank.Keys - a
    requires need > 0 && left == need - Bytes(access, a) && left > 0
    requires First(rank, a) && Shortest(rank, access, need, a)
    requires (rank - a).Keys == rank.Keys - a && Shortest(rank - a, access - a, left, b)
    requires Newest(rank, a + b, key)
    ensures Bytes(access, a + b - {key}) < need
  {
    if key in b {
      assert a + b - {key} == a + (b - {key});
      BytesUnion(access, a, b - {key});
      BytesAgree(access, access - a, b - {key});
      assert Newest(rank - a, b, key);
    } else {
      forall x | x in b ensures false {
        OlderTransitive(rank, x, key, x);
        OlderIrreflexive(rank, x);
      }
      assert a + b == a;
    }
  }

  /** A selection that stopped by itself is the selection under any larger limit. */
  lemma {:induction false} SelectedWidens(rank: Rank, access: map<string, Access>, need: int, limit: nat,
          keys: set<string>, wider: nat)
    requires Selected(rank, access, need, limit, keys) && limit <= wider && Enough(rank, access, need, keys)
    ensures Selected(rank, access, need, wider, keys)
  {
  }

  // ----- an ordered, limited query -----

  ghost predicate Rows(rank: Rank, limit: nat, rows: seq<string>) {
    && (forall i :: 0 <= i < |rows| ==> rows[i] in rank)
    && (forall i, j :: 0 <= i < j < |rows| ==> Older(rank, rows[i], rows[j]))
    && |rows| <= limit
    && (|rows| == limit || Elements(rows) == rank.Keys)
    && (forall i, b :: 0 <= i < |rows| && b in rank && b !in rows ==> Older(rank, rows[i], b))
  }

  method OldestOf(rank: Rank, keys: set<string>) returns (key: string)
    requires keys <= rank.Keys && keys != {}
    ensures key in keys && forall a :: a in keys && a != key ==> Older(rank, key, a)
  {
    var first :| first in keys;
    key := first;
    var todo := keys - {key};
    while todo != {}
      invariant todo <= keys && key in keys - todo
      invariant forall a :: a in keys - todo && a != key ==> Older(rank, key, a)
      decreases todo
    {
      var k :| k in todo;
      OlderTotal(rank, k, key);
      if Older(rank, k, key) {
        forall a | a in keys - todo && a != key ensures Older(rank, k, a) { OlderTransitive(rank, k, key, a); }
        key := k;
      }
      todo := todo - {k};
    }
  }

  method Query(rank: Rank, limit: nat) returns (rows: seq<string>)
    ensures Rows(rank, limit, rows)
  {
    rows := [];
    var rest := rank.Keys;
    while |rows| < limit && rest != {}
      invariant rest <= rank.Keys && |rows| <= limit
      invariant forall k :: k in rank <==> k in rows || k in rest
      invariant forall k :: k in rows ==> k !in rest
      invariant forall i, j :: 0 <= i < j < |rows| ==> Older(rank, rows[i], rows[j])
      invariant forall i, b :: 0 <= i < |rows| && b in rest ==> Older(rank, rows[i], b)
      decreases rest
    {
      var key := OldestOf(rank, rest);
      rows := rows + [key];
      rest := rest - {key};
    }
  }

  lemma {:induction false} RowAppended(rank: Rank, limit: nat, rows: seq<string>, n: nat)
    requires Rows(rank, limit, rows) && n < |rows|
    ensures rows[n] !in Elements(rows[..n]) && Elements(rows[..n + 1]) == Elements(rows[..n]) + {rows[n]}
    ensures Elements(rows[..n + 1]) <= rank.Keys
  {
    assert rows[..n + 1] == rows[..n] + [rows[n]];
    OlderIrreflexive(rank, rows[n]);
  }

  lemma {:induction false} PrefixIsFirst(rank: Rank, limit: nat, rows: seq<string>, n: nat)
    requires Rows(rank, limit, rows) && n <= |rows|
    ensures First(rank, Elements(rows[..n]))
  {
    var keys := Elements(rows[..n]);
    forall a, b | a in keys && b in rank.Keys - keys ensures Older(rank, a, b) {
      var i :| 0 <= i < n && a == rows[i];
      if b in rows {
        var j :| 0 <= j < |rows| && b == rows[j];
        assert forall k :: 0 <= k < n ==> rows[..n][k] in keys;
        assert n <= j;
      }
    }
  }

  lemma {:induction false} NewestIsLastRow(rank: Rank, limit: nat, rows: seq<string>, n: nat, key: string)
    requires Rows(rank, limit, rows) && 0 < n <= |rows| && key in Elements(rows[..n]) && Elements(rows[..n]) <= rank.Keys
    ensures Newest(rank, Elements(rows[..n]), key) ==> key == rows[n - 1]
  {
    if Newest(rank, Elements(rows[..n]), key) && key != rows[n - 1] {
      var i :| 0 <= i < n && key == rows[i];
      assert rows[..n][n - 1] in Elements(rows[..n]);
      OlderTransitive(rank, key, rows[n - 1], key);
      OlderIrreflexive(rank, key);
    }
  }

  // ----- the low-water mark -----

  function PercentageBytes(value: nat, percent: nat): nat {
    value / 100 * percent + value % 100 * percent / 100
  }

  /** The split calculation is the exact floor, and no intermediate value exceeds the capacity or a small constant. */
  lemma {:induction false} PercentageExact(value: nat, percent: nat)
    requires 1 <= percent < 100
    ensures PercentageBytes(value, percent) == value * percent / 100
    ensures value / 100 * percent <= value && value % 100 * percent < 9900 && PercentageBytes(value, percent) <= value
  {
    var q, r := value / 100, value % 100;
    assert value * percent == 100 * (q * percent) + r * percent by { assert value == 100 * q + r; }
    assert q * percent <= 100 * q;
    assert r * percent <= r * 100;
  }
}

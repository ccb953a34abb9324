/** Group-by over a table: the rows that share a key, and the distinct keys
    of a table in ascending order (the order in which a group-by with sorted
    keys emits its groups). The key selector and the key order are
    parameters, so one definition serves the per-day and the per-bank views. */
module Grouping {
  import opened Transactions

  /** `less` is a strict total order. */
  ghost predicate StrictTotalOrder<K(!new)>(less: (K, K) -> bool) {
    && (forall x :: !less(x, x))
    && (forall x, y, z :: less(x, y) && less(y, z) ==> less(x, z))
    && (forall x, y :: x != y ==> less(x, y) || less(y, x))
  }

  ghost predicate StrictlyAscending<K>(xs: seq<K>, less: (K, K) -> bool) {
    forall i, j :: 0 <= i < j < |xs| ==> less(xs[i], xs[j])
  }

  ghost predicate Distinct<K>(xs: seq<K>) {
    forall i, j :: 0 <= i < j < |xs| ==> xs[i] != xs[j]
  }

  /** Every key that occurs in the table. */
  function KeysOf<K(==)>(rows: seq<Transaction>, key: Transaction -> K): set<K> {
    set t | t in rows :: key(t)
  }

  /** The rows whose key is `k`, in table order. Every such row is kept with
      its multiplicity and no other row is. */
  function Group<K(==)>(rows: seq<Transaction>, key: Transaction -> K, k: K): (g: seq<Transaction>)
    ensures |g| <= |rows|
    ensures |g| > 0 <==> k in KeysOf(rows, key)
  {
    if rows == [] then []
    else
      assert KeysOf(rows, key) == KeysOf(rows[1..], key) + {key(rows[0])} by {
        assert rows == [rows[0]] + rows[1..];
      }
      (if key(rows[0]) == k then [rows[0]] else []) + Group(rows[1..], key, k)
  }

  /** A group keeps every row with key `k`, with its multiplicity, and no
      other row. */
  lemma {:induction false} GroupMembers<K>(rows: seq<Transaction>, key: Transaction -> K, k: K)
    ensures forall t :: multiset(Group(rows, key, k))[t] == if key(t) == k then multiset(rows)[t] else 0
    ensures forall t :: t in Group(rows, key, k) <==> t in rows && key(t) == k
  {
    if rows != [] {
      assert rows == [rows[0]] + rows[1..];
      GroupMembers(rows[1..], key, k);
    }
  }

  /** Adds `k` to an ascending key list unless it is already there. */
  function InsertKey<K(==,!new)>(xs: seq<K>, k: K, less: (K, K) -> bool): (r: seq<K>)
    requires StrictTotalOrder(less) && StrictlyAscending(xs, less)
    ensures StrictlyAscending(r, less)
    ensures forall x :: x in r <==> x in xs || x == k
  {
    if xs == [] then [k]
    else if xs[0] == k then xs
    else if less(k, xs[0]) then [k] + xs
    else
      assert StrictlyAscending(xs[1..], less);
      var rest := InsertKey(xs[1..], k, less);
      assert forall x :: x in rest ==> less(xs[0], x);
      [xs[0]] + rest
  }

  /** The distinct keys of a table, strictly ascending. */
  function SortedKeys<K(==,!new)>(rows: seq<Transaction>, key: Transaction -> K, less: (K, K) -> bool): (ks: seq<K>)
    requires StrictTotalOrder(less)
    ensures StrictlyAscending(ks, less)
    ensures forall x :: x in ks <==> x in KeysOf(rows, key)
  {
    if rows == [] then []
    else
      assert KeysOf(rows, key) == KeysOf(rows[1..], key) + {key(rows[0])} by {
        assert rows == [rows[0]] + rows[1..];
      }
      InsertKey(SortedKeys(rows[1..], key, less), key(rows[0]), less)
  }

  lemma AscendingIsDistinct<K(!new)>(xs: seq<K>, less: (K, K) -> bool)
    requires StrictTotalOrder(less) && StrictlyAscending(xs, less)
    ensures Distinct(xs)
  {
  }

  /** Sum of the group sizes over a list of keys. */
  function GroupSizes<K(==)>(rows: seq<Transaction>, key: Transaction -> K, ks: seq<K>): nat {
    if ks == [] then 0 else |Group(rows, key, ks[0])| + GroupSizes(rows, key, ks[1..])
  }

  /** Number of rows whose key is one of `ks`. */
  function CountKeysIn<K(==)>(rows: seq<Transaction>, key: Transaction -> K, ks: seq<K>): nat {
    if rows == [] then 0
    else (if key(rows[0]) in ks then 1 else 0) + CountKeysIn(rows[1..], key, ks)
  }

  lemma {:induction false} CountKeysInCons<K>(rows: seq<Transaction>, key: Transaction -> K, k: K, ks: seq<K>)
    requires k !in ks
    ensures CountKeysIn(rows, key, [k] + ks) == |Group(rows, key, k)| + CountKeysIn(rows, key, ks)
  {
    if rows != [] {
      CountKeysInCons(rows[1..], key, k, ks);
    }
  }

  lemma {:induction false} GroupSizesCountKeys<K>(rows: seq<Transaction>, key: Transaction -> K, ks: seq<K>)
    requires Distinct(ks)
    ensures GroupSizes(rows, key, ks) == CountKeysIn(rows, key, ks)
  {
    if ks == [] {
      CountNoKeys(rows, key);
    } else {
      assert ks == [ks[0]] + ks[1..];
      assert Distinct(ks[1..]);
      GroupSizesCountKeys(rows, key, ks[1..]);
      CountKeysInCons(rows, key, ks[0], ks[1..]);
    }
  }

  lemma {:induction false} CountNoKeys<K>(rows: seq<Transaction>, key: Transaction -> K)
    ensures CountKeysIn(rows, key, []) == 0
  {
    if rows != [] {
      CountNoKeys(rows[1..], key);
    }
  }

  lemma {:induction false} CountAllKeys<K>(rows: seq<Transaction>, key: Transaction -> K, ks: seq<K>)
    requires forall t :: t in rows ==> key(t) in ks
    ensures CountKeysIn(rows, key, ks) == |rows|
  {
    if rows != [] {
      assert rows[0] in rows;
      CountAllKeys(rows[1..], key, ks);
    }
  }

  /** The groups of distinct keys that cover every row of the table
      partition it: their sizes add up to the number of rows. */
  lemma GroupsPartition<K>(rows: seq<Transaction>, key: Transaction -> K, ks: seq<K>)
    requires Distinct(ks)
    requires forall t :: t in rows ==> key(t) in ks
    ensures GroupSizes(rows, key, ks) == |rows|
  {
    GroupSizesCountKeys(rows, key, ks);
    CountAllKeys(rows, key, ks);
  }

  /** Integer order, for day keys. */
  function IntLess(a: int, b: int): bool {
    a < b
  }

  lemma IntLessIsStrictTotal()
    ensures StrictTotalOrder(IntLess)
  {
  }

  /** Lexicographic order of strings by character code, for bank keys: a
      proper prefix comes first. */
  function StrLess(a: string, b: string): bool {
    if b == [] then false
    else if a == [] then true
    else if a[0] != b[0] then a[0] < b[0]
    else StrLess(a[1..], b[1..])
  }

  lemma {:induction false} StrLessIrreflexive(a: string)
    ensures !StrLess(a, a)
  {
    if a != [] {
      StrLessIrreflexive(a[1..]);
    }
  }

  lemma {:induction false} StrLessTransitive(a: string, b: string, c: string)
    requires StrLess(a, b) && StrLess(b, c)
    ensures StrLess(a, c)
  {
    if a != [] && a[0] == b[0] && b[0] == c[0] {
      StrLessTransitive(a[1..], b[1..], c[1..]);
    }
  }

  lemma {:induction false} StrLessConnected(a: string, b: string)
    requires a != b
    ensures StrLess(a, b) || StrLess(b, a)
  {
    if a != [] && b != [] && a[0] == b[0] {
      assert a == [a[0]] + a[1..] && b == [b[0]] + b[1..];
      StrLessConnected(a[1..], b[1..]);
    }
  }

  lemma StrLessIsStrictTotal()
    ensures StrictTotalOrder(StrLess)
  {
    forall a: string ensures !StrLess(a, a) {
      StrLessIrreflexive(a);
    }
    forall a: string, b: string, c: string | StrLess(a, b) && StrLess(b, c)
      ensures StrLess(a, c)
    {
      StrLessTransitive(a, b, c);
    }
    forall a: string, b: string | a != b
      ensures StrLess(a, b) || StrLess(b, a)
    {
      StrLessConnected(a, b);
    }
  }
}

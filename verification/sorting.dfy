/** SQL `ORDER BY` over one or more columns, as the database evaluates the
    report queries: NULL before any value (SQLite's rule), text by code
    point (SQLite's default BINARY collation), numbers numerically. */
module Sorting {

  /** One column value of an ordering key. */
  datatype Field = Null | Str(s: string) | Num(n: int)

  /** An `ORDER BY` key: its columns from most to least significant. */
  type Key = seq<Field>

  predicate StrLe(a: string, b: string) {
    if a == [] then true
    else if b == [] then false
    else if a[0] != b[0] then a[0] < b[0]
    else StrLe(a[1..], b[1..])
  }

  predicate FieldLe(a: Field, b: Field) {
    match (a, b)
    case (Null, _) => true
    case (_, Null) => false
    case (Num(x), Num(y)) => x <= y
    case (Num(_), Str(_)) => true
    case (Str(_), Num(_)) => false
    case (Str(x), Str(y)) => StrLe(x, y)
  }

  /** Lexicographic comparison of keys, column by column. */
  predicate KeyLe(a: Key, b: Key) {
    if a == [] then true
    else if b == [] then false
    else if a[0] != b[0] then FieldLe(a[0], b[0])
    else KeyLe(a[1..], b[1..])
  }

  lemma StrLeTotal(a: string, b: string)
    ensures StrLe(a, b) || StrLe(b, a)
  {
    if a != [] && b != [] && a[0] == b[0] {
      StrLeTotal(a[1..], b[1..]);
    }
  }

  lemma StrLeTrans(a: string, b: string, c: string)
    requires StrLe(a, b) && StrLe(b, c)
    ensures StrLe(a, c)
  {
    if a != [] && b != [] && c != [] && a[0] == b[0] && b[0] == c[0] {
      StrLeTrans(a[1..], b[1..], c[1..]);
    }
  }

  lemma FieldLeTotal(a: Field, b: Field)
    ensures FieldLe(a, b) || FieldLe(b, a)
  {
    if a.Str? && b.Str? {
      StrLeTotal(a.s, b.s);
    }
  }

  lemma FieldLeTrans(a: Field, b: Field, c: Field)
    requires FieldLe(a, b) && FieldLe(b, c)
    ensures FieldLe(a, c)
  {
    if a.Str? && b.Str? && c.Str? {
      StrLeTrans(a.s, b.s, c.s);
    }
  }

  lemma StrLeAntisym(a: string, b: string)
    requires StrLe(a, b) && StrLe(b, a)
    ensures a == b
  {
    if a != [] && b != [] {
      StrLeAntisym(a[1..], b[1..]);
      assert a == [a[0]] + a[1..] && b == [b[0]] + b[1..];
    }
  }

  lemma FieldLeAntisym(a: Field, b: Field)
    requires FieldLe(a, b) && FieldLe(b, a)
    ensures a == b
  {
    if a.Str? && b.Str? {
      StrLeAntisym(a.s, b.s);
    }
  }

  lemma KeyLeTotal(a: Key, b: Key)
    ensures KeyLe(a, b) || KeyLe(b, a)
  {
    if a != [] && b != [] {
      if a[0] != b[0] {
        FieldLeTotal(a[0], b[0]);
      } else {
        KeyLeTotal(a[1..], b[1..]);
      }
    }
  }

  lemma KeyLeTrans(a: Key, b: Key, c: Key)
    requires KeyLe(a, b) && KeyLe(b, c)
    ensures KeyLe(a, c)
  {
    if a != [] && b != [] && c != [] {
      if a[0] == b[0] && b[0] == c[0] {
        KeyLeTrans(a[1..], b[1..], c[1..]);
      } else if a[0] == b[0] {
        assert FieldLe(b[0], c[0]);
      } else if b[0] == c[0] {
        assert FieldLe(a[0], b[0]);
      } else {
        FieldLeTrans(a[0], b[0], c[0]);
        if a[0] == c[0] {
          FieldLeAntisym(a[0], b[0]);
        }
      }
    }
  }

  /** The rows appear in key order. */
  predicate SortedBy<T>(xs: seq<T>, key: T -> Key) {
    forall i, j | 0 <= i < j < |xs| :: KeyLe(key(xs[i]), key(xs[j]))
  }

  /** Places `x` before the first element it does not follow. */
  function Insert<T>(x: T, ys: seq<T>, key: T -> Key): seq<T> {
    if ys == [] then [x]
    else if KeyLe(key(x), key(ys[0])) then [x] + ys
    else [ys[0]] + Insert(x, ys[1..], key)
  }

  lemma {:induction false} InsertPerm<T>(x: T, ys: seq<T>, key: T -> Key)
    ensures multiset(Insert(x, ys, key)) == multiset(ys) + multiset{x}
    ensures |Insert(x, ys, key)| == |ys| + 1
  {
    if ys != [] && !KeyLe(key(x), key(ys[0])) {
      InsertPerm(x, ys[1..], key);
      assert ys == [ys[0]] + ys[1..];
    }
  }

  lemma {:induction false} InsertSorted<T>(x: T, ys: seq<T>, key: T -> Key)
    requires SortedBy(ys, key)
    ensures SortedBy(Insert(x, ys, key), key)
  {
    var r := Insert(x, ys, key);
    if ys == [] {
    } else if KeyLe(key(x), key(ys[0])) {
      forall i, j | 0 <= i < j < |r|
        ensures KeyLe(key(r[i]), key(r[j]))
      {
        if i == 0 && j > 1 {
          KeyLeTrans(key(x), key(ys[0]), key(ys[j - 1]));
        }
      }
    } else {
      var rest := Insert(x, ys[1..], key);
      InsertSorted(x, ys[1..], key);
      InsertPerm(x, ys[1..], key);
      KeyLeTotal(key(x), key(ys[0]));
      forall k | 0 <= k < |rest|
        ensures KeyLe(key(ys[0]), key(rest[k]))
      {
        assert rest[k] in multiset(rest);
        if rest[k] != x {
          assert rest[k] in multiset(ys[1..]);
          var m :| 0 <= m < |ys[1..]| && ys[1..][m] == rest[k];
          assert ys[m + 1] == rest[k];
        }
      }
      assert r == [ys[0]] + rest;
    }
  }

  /** Insertion sort: a stable `ORDER BY` of `xs` on `key`. */
  function SortBy<T(==)>(xs: seq<T>, key: T -> Key): (r: seq<T>)
    ensures SortedBy(r, key)
    ensures multiset(r) == multiset(xs)
    ensures |r| == |xs|
  {
    if xs == [] then []
    else
      var rest := SortBy(xs[1..], key);
      InsertSorted(xs[0], rest, key);
      InsertPerm(xs[0], rest, key);
      assert xs == [xs[0]] + xs[1..];
      Insert(xs[0], rest, key)
  }
}

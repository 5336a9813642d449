/**
 * The order in which the document store returns the results of a query, and
 * the "first n results" of a limited query.
 *
 * A query ordered on one field returns documents by that field's value,
 * `null` first, and breaks ties by document id; a descending query reverses
 * both. A query with a range filter and no explicit ordering is implicitly
 * ordered on the filtered field, and one with neither is ordered by id alone
 * (every key `None`).
 */
module QueryOrder {
  import opened Wrappers

  /** Lexicographic order on strings: the order of document ids. */
  predicate IdLe(a: string, b: string)
  {
    |a| == 0 || (|b| > 0 && (a[0] < b[0] || (a[0] == b[0] && IdLe(a[1..], b[1..]))))
  }

  lemma IdLeTotal(a: string, b: string)
    ensures IdLe(a, b) || IdLe(b, a)
  {
    if |a| > 0 && |b| > 0 && a[0] == b[0] {
      IdLeTotal(a[1..], b[1..]);
    }
  }

  lemma IdLeAntisymmetric(a: string, b: string)
    requires IdLe(a, b) && IdLe(b, a)
    ensures a == b
  {
    if |a| > 0 && |b| > 0 {
      IdLeAntisymmetric(a[1..], b[1..]);
      assert a == [a[0]] + a[1..];
      assert b == [b[0]] + b[1..];
    }
  }

  lemma IdLeTransitive(a: string, b: string, c: string)
    requires IdLe(a, b) && IdLe(b, c)
    ensures IdLe(a, c)
  {
    if |a| > 0 && |b| > 0 && |c| > 0 && a[0] == b[0] && b[0] == c[0] {
      IdLeTransitive(a[1..], b[1..], c[1..]);
    }
  }

  /** Strict store order of field values: `null` before every value. */
  predicate FieldLt(x: Option<int>, y: Option<int>) {
    match x
    case None => y.Some?
    case Some(a) => y.Some? && a < y.value
  }

  /** Store order of field values, not strict. */
  predicate FieldLe(x: Option<int>, y: Option<int>) {
    !FieldLt(y, x)
  }

  /** Ascending order of (field value, document id) pairs. */
  predicate KeyLe(x: Option<int>, a: string, y: Option<int>, b: string) {
    FieldLt(x, y) || (x == y && IdLe(a, b))
  }

  /** Document `a` is returned no later than document `b` by a query whose sort field values are `m`. */
  predicate Precedes(m: map<string, Option<int>>, a: string, b: string, desc: bool)
    requires a in m && b in m
  {
    if desc then KeyLe(m[b], b, m[a], a) else KeyLe(m[a], a, m[b], b)
  }

  lemma KeyLeTotal(x: Option<int>, a: string, y: Option<int>, b: string)
    ensures KeyLe(x, a, y, b) || KeyLe(y, b, x, a)
  {
    IdLeTotal(a, b);
  }

  lemma KeyLeAntisymmetric(x: Option<int>, a: string, y: Option<int>, b: string)
    requires KeyLe(x, a, y, b) && KeyLe(y, b, x, a)
    ensures x == y && a == b
  {
    IdLeAntisymmetric(a, b);
  }

  lemma KeyLeTransitive(x: Option<int>, a: string, y: Option<int>, b: string, z: Option<int>, c: string)
    requires KeyLe(x, a, y, b) && KeyLe(y, b, z, c)
    ensures KeyLe(x, a, z, c)
  {
    if x == y && y == z {
      IdLeTransitive(a, b, c);
    }
  }

  /** An ascending query returns its documents with non-decreasing field values. */
  lemma AscendingValues(m: map<string, Option<int>>, r: seq<string>)
    requires forall i :: 0 <= i < |r| ==> r[i] in m
    requires forall i, j :: 0 <= i < j < |r| ==> Precedes(m, r[i], r[j], false)
    ensures forall i, j :: 0 <= i < j < |r| ==> FieldLe(m[r[i]], m[r[j]])
  {
    forall i, j | 0 <= i < j < |r|
      ensures FieldLe(m[r[i]], m[r[j]])
    {
      assert Precedes(m, r[i], r[j], false);
    }
  }

  /** A descending query returns its documents with non-increasing field values. */
  lemma DescendingValues(m: map<string, Option<int>>, r: seq<string>)
    requires forall i :: 0 <= i < |r| ==> r[i] in m
    requires forall i, j :: 0 <= i < j < |r| ==> Precedes(m, r[i], r[j], true)
    ensures forall i, j :: 0 <= i < j < |r| ==> FieldLe(m[r[j]], m[r[i]])
  {
    forall i, j | 0 <= i < j < |r|
      ensures FieldLe(m[r[j]], m[r[i]])
    {
      assert Precedes(m, r[i], r[j], true);
    }
  }

  /** `x` is the first document of the query keyed by `m`. */
  predicate IsLeast(m: map<string, Option<int>>, x: string, desc: bool) {
    x in m && forall y :: y in m ==> Precedes(m, x, y, desc)
  }

  lemma RemoveOne(m: map<string, Option<int>>, x: string)
    requires x in m
    ensures |m - {x}| == |m| - 1
  {
    assert (m - {x}).Keys == m.Keys - {x};
  }

  lemma LeastExists(m: map<string, Option<int>>, desc: bool)
    requires |m| > 0
    ensures exists x :: IsLeast(m, x, desc)
    decreases |m|
  {
    var y :| y in m;
    KeyLeTotal(m[y], y, m[y], y);
    if |m| == 1 {
      RemoveOne(m, y);
      assert (m - {y}).Keys == m.Keys - {y} == {};
      assert m.Keys == {y};
      assert IsLeast(m, y, desc);
    } else {
      var rest := m - {y};
      RemoveOne(m, y);
      LeastExists(rest, desc);
      var z :| IsLeast(rest, z, desc);
      KeyLeTotal(m[y], y, m[z], z);
      if Precedes(m, y, z, desc) {
        forall w | w in m
          ensures Precedes(m, y, w, desc)
        {
          if w != y {
            assert Precedes(rest, z, w, desc);
            if desc {
              KeyLeTransitive(m[w], w, m[z], z, m[y], y);
            } else {
              KeyLeTransitive(m[y], y, m[z], z, m[w], w);
            }
          }
        }
        assert IsLeast(m, y, desc);
      } else {
        forall w | w in m
          ensures Precedes(m, z, w, desc)
        {
          if w != y {
            assert Precedes(rest, z, w, desc);
          }
        }
        assert IsLeast(m, z, desc);
      }
    }
  }

  lemma LeastUnique(m: map<string, Option<int>>, desc: bool)
    ensures forall x, y :: IsLeast(m, x, desc) && IsLeast(m, y, desc) ==> x == y
  {
    forall x, y | IsLeast(m, x, desc) && IsLeast(m, y, desc)
      ensures x == y
    {
      assert Precedes(m, x, y, desc) && Precedes(m, y, x, desc);
      if desc {
        KeyLeAntisymmetric(m[y], y, m[x], x);
      } else {
        KeyLeAntisymmetric(m[x], x, m[y], y);
      }
    }
  }

  /** The first document of a non-empty query. */
  function Least(m: map<string, Option<int>>, desc: bool): (x: string)
    requires |m| > 0
    ensures IsLeast(m, x, desc)
  {
    LeastExists(m, desc);
    LeastUnique(m, desc);
    var x :| IsLeast(m, x, desc);
    x
  }

  /** The results of a limited query (see `FirstN`). */
  predicate IsFirstN(m: map<string, Option<int>>, n: nat, desc: bool, r: seq<string>) {
    && |r| == (if n < |m| then n else |m|)
    && (forall i :: 0 <= i < |r| ==> r[i] in m)
    && (forall i, j :: 0 <= i < j < |r| ==> r[i] != r[j])
    && (forall i, j :: 0 <= i < j < |r| ==> r[i] in m && r[j] in m && Precedes(m, r[i], r[j], desc))
    && (forall i, y :: 0 <= i < |r| && y in m && y !in r ==> r[i] in m && Precedes(m, r[i], y, desc))
    && (|r| < n ==> forall y :: y in m ==> y in r)
  }

  /** Putting the first document in front of the limited query over the others gives the limited query. */
  lemma PrependLeast(m: map<string, Option<int>>, n: nat, desc: bool, x: string, rest: seq<string>)
    requires n > 0 && IsLeast(m, x, desc)
    requires IsFirstN(m - {x}, n - 1, desc, rest)
    ensures IsFirstN(m, n, desc, [x] + rest)
  {
    RemoveOne(m, x);
    var r := [x] + rest;
    PrependOrdered(m, desc, x, rest);
    PrependBeforeOthers(m, desc, x, rest);
    if |r| < n {
      forall y | y in m
        ensures y in r
      {
        if y != x {
          assert y in m - {x};
        }
      }
    }
  }

  lemma PrependOrdered(m: map<string, Option<int>>, desc: bool, x: string, rest: seq<string>)
    requires IsLeast(m, x, desc)
    requires forall i :: 0 <= i < |rest| ==> rest[i] in m - {x}
    requires forall i, j :: 0 <= i < j < |rest| ==> rest[i] in m - {x} && rest[j] in m - {x} && Precedes(m - {x}, rest[i], rest[j], desc)
    ensures var r := [x] + rest; forall i, j :: 0 <= i < j < |r| ==> r[i] in m && r[j] in m && Precedes(m, r[i], r[j], desc)
  {
    var r := [x] + rest;
    forall i, j | 0 <= i < j < |r|
      ensures r[i] in m && r[j] in m && Precedes(m, r[i], r[j], desc)
    {
      assert r[j] == rest[j - 1];
      if i > 0 {
        assert r[i] == rest[i - 1];
        assert Precedes(m - {x}, rest[i - 1], rest[j - 1], desc);
      }
    }
  }

  lemma PrependBeforeOthers(m: map<string, Option<int>>, desc: bool, x: string, rest: seq<string>)
    requires IsLeast(m, x, desc)
    requires forall i :: 0 <= i < |rest| ==> rest[i] in m - {x}
    requires forall i, y :: 0 <= i < |rest| && y in m - {x} && y !in rest ==> rest[i] in m - {x} && Precedes(m - {x}, rest[i], y, desc)
    ensures var r := [x] + rest; forall i, y :: 0 <= i < |r| && y in m && y !in r ==> r[i] in m && Precedes(m, r[i], y, desc)
  {
    var r := [x] + rest;
    forall i, y | 0 <= i < |r| && y in m && y !in r
      ensures r[i] in m && Precedes(m, r[i], y, desc)
    {
      assert y != x && y !in rest;
      if i > 0 {
        assert r[i] == rest[i - 1];
        assert Precedes(m - {x}, rest[i - 1], y, desc);
      }
    }
  }

  /**
   * The ids a query keyed by `m` returns under `.limit(n)`: as many as the
   * limit allows, each once, in query order, and none of the ids left out
   * comes before one that was returned.
   */
  function FirstN(m: map<string, Option<int>>, n: nat, desc: bool): (r: seq<string>)
    ensures |r| == if n < |m| then n else |m|
    ensures forall i :: 0 <= i < |r| ==> r[i] in m
    ensures forall i, j :: 0 <= i < j < |r| ==> r[i] != r[j]
    ensures forall i, j :: 0 <= i < j < |r| ==> Precedes(m, r[i], r[j], desc)
    ensures forall i, y :: 0 <= i < |r| && y in m && y !in r ==> Precedes(m, r[i], y, desc)
    ensures |r| < n ==> forall y :: y in m ==> y in r
    decreases n
  {
    if n == 0 || |m| == 0 then []
    else
      var x := Least(m, desc);
      var rest := FirstN(m - {x}, n - 1, desc);
      PrependLeast(m, n, desc, x, rest);
      [x] + rest
  }

  /** Each of `r` comes before every document of `m` not ahead of it in `r`. */
  predicate BeforeLater(m: map<string, Option<int>>, r: seq<string>, desc: bool) {
    forall i, y :: 0 <= i < |r| && y in m && y !in r[..i] ==> r[i] in m && Precedes(m, r[i], y, desc)
  }

  /**
   * Each result of a limited query comes before every document not returned
   * ahead of it, whether that document is returned later or left out.
   */
  lemma {:induction false} FirstNBeforeLater(m: map<string, Option<int>>, n: nat, desc: bool)
    ensures BeforeLater(m, FirstN(m, n, desc), desc)
    decreases n
  {
    if n == 0 || |m| == 0 {
      NoneBeforeLater(m, FirstN(m, n, desc), desc);
    } else {
      LeastExists(m, desc);
      var x :| IsLeast(m, x, desc);
      FirstNBeforeLater(m - {x}, n - 1, desc);
      FirstNStepBeforeLater(m, n, desc, x);
    }
  }

  lemma NoneBeforeLater(m: map<string, Option<int>>, r: seq<string>, desc: bool)
    requires |r| == 0
    ensures BeforeLater(m, r, desc)
  {
  }

  lemma FirstNStepBeforeLater(m: map<string, Option<int>>, n: nat, desc: bool, x: string)
    requires n > 0 && IsLeast(m, x, desc)
    requires BeforeLater(m - {x}, FirstN(m - {x}, n - 1, desc), desc)
    ensures BeforeLater(m, FirstN(m, n, desc), desc)
  {
    var rest := FirstN(m - {x}, n - 1, desc);
    PrependBeforeLater(m, desc, x, rest);
    FirstNUnfold(m, n, desc, x);
  }

  /** A limited query starts with the first document, followed by the limited query over the rest. */
  lemma FirstNUnfold(m: map<string, Option<int>>, n: nat, desc: bool, x: string)
    requires n > 0 && IsLeast(m, x, desc)
    ensures FirstN(m, n, desc) == [x] + FirstN(m - {x}, n - 1, desc)
  {
    LeastUnique(m, desc);
  }

  lemma PrependBeforeLater(m: map<string, Option<int>>, desc: bool, x: string, rest: seq<string>)
    requires IsLeast(m, x, desc)
    requires forall i :: 0 <= i < |rest| ==> rest[i] in m - {x}
    requires BeforeLater(m - {x}, rest, desc)
    ensures BeforeLater(m, [x] + rest, desc)
  {
    var r := [x] + rest;
    forall i, y | 0 <= i < |r| && y in m && y !in r[..i]
      ensures Precedes(m, r[i], y, desc)
    {
      if i > 0 {
        assert r[..i] == [x] + rest[..i - 1];
        assert r[i] == rest[i - 1];
        assert y in m - {x};
        assert Precedes(m - {x}, rest[i - 1], y, desc);
      }
    }
  }
}

/** The incremental row cache both list views keep: a dictionary from a row
    key to its row, in step with the append-only list of rows on screen. */
module Rows {

  import opened Seqs
  import Text

  /** `_setName`: a marked row shows '%' before its name, others a space. */
  function MarkedName(name: string, mark: bool): (text: string)
    ensures |text| == |name| + 1 && text[1..] == name
    ensures text[0] == (if mark then '%' else ' ')
  {
    (if mark then "%" else " ") + name
  }

  /** The displayed name determines both the name and the mark. */
  lemma MarkedNameInjective(a: string, m: bool, b: string, n: bool)
    requires MarkedName(a, m) == MarkedName(b, n)
    ensures a == b && m == n
  {
    assert a == MarkedName(a, m)[1..];
    assert m <==> MarkedName(a, m)[0] == '%';
  }

  /** `'%i ' % n`. */
  function NumberText(n: nat): (s: string)
    ensures |s| >= 2 && s[|s| - 1] == ' ' && Text.IsDigits(s[..|s| - 1])
  {
    var d := Text.NatToString(n);
    assert (d + " ")[..|d|] == d;
    d + " "
  }

  /** The number reads back from its text. */
  lemma NumberTextValue(n: nat)
    ensures var s := NumberText(n); Text.DigitsValue(s[..|s| - 1]) == n
  {
    var d := Text.NatToString(n);
    assert NumberText(n)[..|NumberText(n)| - 1] == d;
    Text.NatToStringValue(n);
  }

  /** The list body, as the keys of the rows it shows in order, and the
      key-to-row dictionary. */
  datatype Cache<R> = Cache(body: seq<nat>, rows: map<nat, R>)

  /** Every row in the dictionary is shown exactly once, and nothing else is. */
  ghost predicate CacheInv<R>(c: Cache<R>)
  {
    NoDup(c.body) && forall k :: k in c.rows <==> k in c.body
  }

  /** One iteration of a view's refresh loop: an existing row is updated in
      place, a new key gets a new row appended to the body. */
  function Step<I, R>(c: Cache<R>, item: I, keyOf: I -> nat, make: I -> R, update: (R, I) -> R): Cache<R>
  {
    var k := keyOf(item);
    if k in c.rows then Cache(c.body, c.rows[k := update(c.rows[k], item)])
    else Cache(c.body + [k], c.rows[k := make(item)])
  }

  /** The cache after the refresh loop has walked `items`. */
  function RefreshAll<I, R>(c: Cache<R>, items: seq<I>, keyOf: I -> nat, make: I -> R, update: (R, I) -> R): Cache<R>
  {
    if items == [] then c
    else Step(RefreshAll(c, items[..|items| - 1], keyOf, make, update), items[|items| - 1], keyOf, make, update)
  }

  /** Walking one more item is one more step. */
  lemma RefreshAllStep<I, R>(c: Cache<R>, items: seq<I>, keyOf: I -> nat, make: I -> R, update: (R, I) -> R, i: nat)
    requires i < |items|
    ensures RefreshAll(c, items[..i + 1], keyOf, make, update) ==
            Step(RefreshAll(c, items[..i], keyOf, make, update), items[i], keyOf, make, update)
  {
    assert items[..i + 1][..i] == items[..i];
  }

  predicate Listed<I>(items: seq<I>, keyOf: I -> nat, k: nat)
  {
    exists i :: 0 <= i < |items| && keyOf(items[i]) == k
  }

  /** No two items share a key. */
  ghost predicate DistinctKeys<I>(items: seq<I>, keyOf: I -> nat)
  {
    forall i, j :: 0 <= i < j < |items| ==> keyOf(items[i]) != keyOf(items[j])
  }

  /** A key listed by a prefix is listed by the whole list. */
  lemma ListedPrefix<I>(items: seq<I>, keyOf: I -> nat, n: nat, k: nat)
    requires n <= |items|
    requires Listed(items[..n], keyOf, k)
    ensures Listed(items, keyOf, k)
  {
    var i :| 0 <= i < n && keyOf(items[..n][i]) == k;
    assert items[i] == items[..n][i];
  }

  /** A key no item lists is not listed by any prefix either. */
  lemma UnlistedPrefix<I>(items: seq<I>, keyOf: I -> nat, n: nat, k: nat)
    requires n <= |items|
    requires !Listed(items, keyOf, k)
    ensures !Listed(items[..n], keyOf, k)
  {
    forall j | 0 <= j < n ensures keyOf(items[..n][j]) != k {
      assert items[..n][j] == items[j];
    }
  }

  /** With distinct keys, the last item's key is not listed before it. */
  lemma LastKeyFresh<I>(items: seq<I>, keyOf: I -> nat)
    requires items != [] && DistinctKeys(items, keyOf)
    ensures !Listed(items[..|items| - 1], keyOf, keyOf(items[|items| - 1]))
  {
    var n := |items| - 1;
    forall j | 0 <= j < n ensures keyOf(items[..n][j]) != keyOf(items[n]) {
      assert items[..n][j] == items[j];
    }
  }

  /** After a refresh the dictionary holds exactly the old keys and the
      listed ones. */
  lemma {:induction false} RefreshKeys<I, R>(c: Cache<R>, items: seq<I>, keyOf: I -> nat, make: I -> R, update: (R, I) -> R)
    ensures forall k :: k in RefreshAll(c, items, keyOf, make, update).rows <==> k in c.rows || Listed(items, keyOf, k)
  {
    if items != [] {
      var init := items[..|items| - 1];
      RefreshKeys(c, init, keyOf, make, update);
      forall k ensures Listed(items, keyOf, k) <==> Listed(init, keyOf, k) || keyOf(items[|items| - 1]) == k {
        if Listed(items, keyOf, k) {
          var i :| 0 <= i < |items| && keyOf(items[i]) == k;
          if i < |items| - 1 {
            assert init[i] == items[i];
          }
        }
        if Listed(init, keyOf, k) {
          var i :| 0 <= i < |init| && keyOf(init[i]) == k;
          assert items[i] == init[i];
        }
      }
    }
  }

  /** A refresh only appends to the body, and only keys that had no row. */
  lemma {:induction false} RefreshAppends<I, R>(c: Cache<R>, items: seq<I>, keyOf: I -> nat, make: I -> R, update: (R, I) -> R)
    ensures var r := RefreshAll(c, items, keyOf, make, update);
            |r.body| >= |c.body| && r.body[..|c.body|] == c.body
    ensures var r := RefreshAll(c, items, keyOf, make, update);
            forall j :: |c.body| <= j < |r.body| ==> r.body[j] !in c.rows && Listed(items, keyOf, r.body[j])
  {
    if items != [] {
      var init := items[..|items| - 1];
      RefreshAppends(c, init, keyOf, make, update);
      RefreshKeys(c, init, keyOf, make, update);
      var p := RefreshAll(c, init, keyOf, make, update);
      var r := RefreshAll(c, items, keyOf, make, update);
      assert r.body[..|p.body|] == p.body;
      forall j | |c.body| <= j < |r.body| ensures r.body[j] !in c.rows && Listed(items, keyOf, r.body[j]) {
        if j < |p.body| {
          assert r.body[j] == p.body[j];
          ListedPrefix(items, keyOf, |items| - 1, p.body[j]);
        } else {
          assert keyOf(items[|items| - 1]) == r.body[j];
        }
      }
    }
  }

  /** A refresh keeps every row shown exactly once. */
  lemma {:induction false} RefreshKeepsInv<I, R>(c: Cache<R>, items: seq<I>, keyOf: I -> nat, make: I -> R, update: (R, I) -> R)
    requires CacheInv(c)
    ensures CacheInv(RefreshAll(c, items, keyOf, make, update))
  {
    if items != [] {
      var init := items[..|items| - 1];
      RefreshKeepsInv(c, init, keyOf, make, update);
      var p := RefreshAll(c, init, keyOf, make, update);
      var k := keyOf(items[|items| - 1]);
      if k !in p.rows {
        var b := p.body + [k];
        forall i, j | 0 <= i < j < |b| ensures b[i] != b[j] {
          if j == |b| - 1 {
            assert b[i] in p.body;
          }
        }
      }
    }
  }

  /** Rows whose key is not listed are left alone. */
  lemma {:induction false} RefreshKeepsUnlisted<I, R>(c: Cache<R>, items: seq<I>, keyOf: I -> nat, make: I -> R, update: (R, I) -> R, k: nat)
    requires k in c.rows && !Listed(items, keyOf, k)
    ensures k in RefreshAll(c, items, keyOf, make, update).rows
    ensures RefreshAll(c, items, keyOf, make, update).rows[k] == c.rows[k]
  {
    if items != [] {
      var init := items[..|items| - 1];
      UnlistedPrefix(items, keyOf, |items| - 1, k);
      RefreshKeepsUnlisted(c, init, keyOf, make, update, k);
      assert keyOf(items[|items| - 1]) != k;
    }
  }

  /** With distinct keys, each listed item's row is its old row updated with
      the item, or a new row made from it. */
  lemma {:induction false} RefreshRowOf<I, R>(c: Cache<R>, items: seq<I>, keyOf: I -> nat, make: I -> R, update: (R, I) -> R, i: nat)
    requires DistinctKeys(items, keyOf)
    requires i < |items|
    ensures var k := keyOf(items[i]);
            var r := RefreshAll(c, items, keyOf, make, update);
            k in r.rows && r.rows[k] == (if k in c.rows then update(c.rows[k], items[i]) else make(items[i]))
  {
    var n := |items| - 1;
    var init := items[..n];
    var k := keyOf(items[i]);
    assert DistinctKeys(init, keyOf);
    if i < n {
      RefreshRowOf(c, init, keyOf, make, update, i);
      assert items[i] == init[i];
    } else {
      LastKeyFresh(items, keyOf);
      RefreshKeys(c, init, keyOf, make, update);
      if k in c.rows {
        RefreshKeepsUnlisted(c, init, keyOf, make, update, k);
      }
    }
  }

  /** Refilling an emptied cache shows the listed keys in list order. */
  lemma {:induction false} RebuildOrder<I, R>(items: seq<I>, keyOf: I -> nat, make: I -> R, update: (R, I) -> R)
    requires DistinctKeys(items, keyOf)
    ensures var r := RefreshAll(Cache([], map[]), items, keyOf, make, update);
            |r.body| == |items| && forall j :: 0 <= j < |items| ==> r.body[j] == keyOf(items[j])
  {
    if items != [] {
      var init := items[..|items| - 1];
      assert DistinctKeys(init, keyOf);
      RebuildOrder(init, keyOf, make, update);
      RefreshKeys(Cache([], map[]), init, keyOf, make, update);
      LastKeyFresh(items, keyOf);
    }
  }
}

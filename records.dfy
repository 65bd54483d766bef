/**
 * The rows of the nutrition table and the grouping by category that every
 * per-category statistic is computed over.
 */
module Records {
  import opened Text

  /**
   * One row of the table: "Food Name", "Category", "Calories per 100g" and
   * the five nutrient columns (grams per 100 g).
   */
  datatype Record = Record(
    name: string,
    category: string,
    calories: real,
    fat: real,
    protein: real,
    carbs: real,
    water: real,
    fiber: real)

  /** The table with every category label stripped of surrounding whitespace. */
  function Normalize(rows: seq<Record>): seq<Record> {
    seq(|rows|, i requires 0 <= i < |rows| => rows[i].(category := Trim(rows[i].category)))
  }

  /** Normalising an already normalised table changes nothing. */
  lemma NormalizeIdempotent(rows: seq<Record>)
    ensures Normalize(Normalize(rows)) == Normalize(rows)
  {
    var once := Normalize(rows);
    forall i | 0 <= i < |rows| ensures Normalize(once)[i] == once[i] {
      TrimIdempotent(rows[i].category);
    }
  }

  /**
   * Two rows whose labels differ only by whitespace padding end up with the
   * same category after normalisation, and so in the same group.
   */
  lemma PaddedLabelsShareCategory(rows: seq<Record>, i: nat, j: nat, p: string, q: string)
    requires i < |rows| && j < |rows|
    requires AllSpace(p) && AllSpace(q)
    requires rows[j].category == p + rows[i].category + q
    ensures Normalize(rows)[i].category == Normalize(rows)[j].category
  {
    TrimIgnoresPadding(p, rows[i].category, q);
  }

  predicate HasCategory(rows: seq<Record>, c: string) {
    exists i :: 0 <= i < |rows| && rows[i].category == c
  }

  /**
   * The rows of category `c`, in table order: every row of the group has
   * category `c` and comes from the table, and every row of the table with
   * category `c` is in the group.
   */
  function Group(rows: seq<Record>, c: string): (g: seq<Record>)
    ensures |g| <= |rows|
    ensures forall r :: r in g ==> r in rows && r.category == c
    ensures forall i :: 0 <= i < |rows| && rows[i].category == c ==> rows[i] in g
  {
    if rows == [] then []
    else if rows[0].category == c then [rows[0]] + Group(rows[1..], c)
    else Group(rows[1..], c)
  }

  /** A category that no row carries has an empty group. */
  lemma {:induction false} GroupOfAbsent(rows: seq<Record>, c: string)
    requires !HasCategory(rows, c)
    ensures Group(rows, c) == []
  {
    if rows != [] {
      GroupOfAbsent(rows[1..], c);
    }
  }

  /** Grouping commutes with concatenation: a group draws on nothing but its own rows. */
  lemma {:induction false} GroupOfAppend(a: seq<Record>, b: seq<Record>, c: string)
    ensures Group(a + b, c) == Group(a, c) + Group(b, c)
  {
    if a == [] {
      assert a + b == b;
    } else {
      assert (a + b)[1..] == a[1..] + b;
      GroupOfAppend(a[1..], b, c);
    }
  }

  lemma GroupNonEmpty(rows: seq<Record>, c: string)
    requires HasCategory(rows, c)
    ensures |Group(rows, c)| > 0
  {
    var i :| 0 <= i < |rows| && rows[i].category == c;
    assert rows[i] in Group(rows, c);
  }

  /** The "Calories per 100g" column of some rows. */
  function Calories(rows: seq<Record>): (xs: seq<real>)
    ensures |xs| == |rows|
  {
    seq(|rows|, i requires 0 <= i < |rows| => rows[i].calories)
  }

  /** Keys in strictly ascending code-point order, hence without repetition. */
  predicate StrictlyAscending(ks: seq<string>) {
    forall i, j :: 0 <= i < j < |ks| ==> StrLess(ks[i], ks[j])
  }

  /** Adds key `k` to a strictly ascending key list, keeping it strictly ascending. */
  function InsertKey(ks: seq<string>, k: string): (r: seq<string>)
    requires StrictlyAscending(ks)
    ensures StrictlyAscending(r)
    ensures forall x :: x in r <==> x in ks || x == k
  {
    if ks == [] then [k]
    else if k == ks[0] then ks
    else if StrLess(k, ks[0]) then
      forall j | 0 <= j < |ks| ensures StrLess(k, ks[j]) {
        if j > 0 {
          StrLessTransitive(k, ks[0], ks[j]);
        }
      }
      [k] + ks
    else
      StrLessTotal(k, ks[0]);
      var rest := InsertKey(ks[1..], k);
      assert forall x :: x in rest ==> StrLess(ks[0], x);
      [ks[0]] + rest
  }

  /**
   * The distinct categories of the table in ascending key order, the index
   * `groupby("Category")` produces.
   */
  function GroupKeys(rows: seq<Record>): (ks: seq<string>)
    ensures StrictlyAscending(ks)
    ensures forall c :: c in ks <==> HasCategory(rows, c)
  {
    if rows == [] then []
    else
      var ks := InsertKey(GroupKeys(rows[1..]), rows[0].category);
      assert forall c :: HasCategory(rows, c) <==> c == rows[0].category || HasCategory(rows[1..], c) by {
        forall c | HasCategory(rows, c) ensures c == rows[0].category || HasCategory(rows[1..], c) {
          var i :| 0 <= i < |rows| && rows[i].category == c;
          if i > 0 {
            assert rows[1..][i - 1].category == c;
          }
        }
        forall c | HasCategory(rows[1..], c) ensures HasCategory(rows, c) {
          var i :| 0 <= i < |rows[1..]| && rows[1..][i].category == c;
          assert rows[i + 1].category == c;
        }
      }
      ks
  }

  /** A strictly ascending list holds each key once. */
  lemma {:induction false} AscendingOccursOnce(ks: seq<string>, x: string)
    requires StrictlyAscending(ks)
    ensures multiset(ks)[x] <= 1
  {
    if ks != [] {
      assert ks == [ks[0]] + ks[1..];
      AscendingOccursOnce(ks[1..], x);
      if x == ks[0] {
        forall j | 0 <= j < |ks[1..]| ensures ks[1..][j] != x {
          assert StrLess(ks[0], ks[j + 1]);
          StrLessIrreflexive(x);
        }
        assert x !in ks[1..];
      }
    }
  }
}

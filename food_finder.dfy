/**
 * `Food.by_letter(letter)`: the stored rows whose name begins with `letter`
 * (`where("name LIKE ?", "#{letter}%")`), ordered by name (`order(:name)`).
 */
module FoodFinder {
  import opened Wrappers
  import opened Collation
  import opened Food

  /** The sort key; rows with a nil name never reach the sort. */
  function NameKey(r: Attributes): string {
    r.name.GetOr([])
  }

  /** `name LIKE 'letter%'`: a nil name never matches. */
  predicate Matches(r: Attributes, letter: string) {
    r.name.Some? && HasPrefix(r.name.value, letter)
  }

  /** The `where` clause: the matching rows, in table order. */
  function Where(letter: string, rows: seq<Attributes>): (w: seq<Attributes>)
    ensures |w| <= |rows|
    ensures forall k :: 0 <= k < |w| ==> Matches(w[k], letter)
  {
    if rows == [] then []
    else (if Matches(rows[0], letter) then [rows[0]] else []) + Where(letter, rows[1..])
  }

  /** `Where` keeps exactly the matching rows, each as often as it is stored. */
  lemma {:induction false} WhereSelects(letter: string, rows: seq<Attributes>)
    ensures forall r :: r in Where(letter, rows) <==> r in rows && Matches(r, letter)
    ensures forall r :: multiset(Where(letter, rows))[r] == if Matches(r, letter) then multiset(rows)[r] else 0
  {
    if rows != [] {
      assert rows == [rows[0]] + rows[1..];
      WhereSelects(letter, rows[1..]);
    }
  }

  predicate SortedByName(s: seq<Attributes>) {
    forall i, j :: 0 <= i < j < |s| ==> Le(NameKey(s[i]), NameKey(s[j]))
  }

  /** Places `x` before the first row that does not sort before it. */
  function Insert(x: Attributes, s: seq<Attributes>): (r: seq<Attributes>)
    requires SortedByName(s)
    ensures SortedByName(r)
    ensures multiset(r) == multiset(s) + multiset{x}
  {
    if s == [] then [x]
    else if Le(NameKey(x), NameKey(s[0])) then
      assert forall j :: 0 < j < |s| ==> Le(NameKey(s[0]), NameKey(s[j]));
      forall j | 0 < j < |s| ensures Le(NameKey(x), NameKey(s[j])) {
        LeTransitive(NameKey(x), NameKey(s[0]), NameKey(s[j]));
      }
      assert forall j :: 0 < j < |[x] + s| ==> ([x] + s)[j] == s[j - 1];
      [x] + s
    else
      LeTotal(NameKey(x), NameKey(s[0]));
      var t := Insert(x, s[1..]);
      assert s == [s[0]] + s[1..];
      forall j | 0 <= j < |t| ensures Le(NameKey(s[0]), NameKey(t[j])) {
        assert t[j] in multiset(t);
        if t[j] != x {
          assert t[j] in multiset(s[1..]);
          var k :| 0 <= k < |s[1..]| && s[1..][k] == t[j];
          assert s[k + 1] == t[j];
        }
      }
      assert forall j :: 0 < j < |[s[0]] + t| ==> ([s[0]] + t)[j] == t[j - 1];
      [s[0]] + t
  }

  /** The `order(:name)` clause, as an insertion sort that keeps table order among equal names. */
  function OrderByName(s: seq<Attributes>): (r: seq<Attributes>)
    ensures SortedByName(r)
    ensures multiset(r) == multiset(s)
  {
    if s == [] then []
    else
      assert s == [s[0]] + s[1..];
      Insert(s[0], OrderByName(s[1..]))
  }

  /** `Food.by_letter(letter)`: exactly the stored rows whose name starts with
      `letter`, each as often as it is stored, ascending by name. */
  function ByLetter(letter: string, rows: seq<Attributes>): (found: seq<Attributes>)
    ensures SortedByName(found)
    ensures multiset(found) == multiset(Where(letter, rows))
    ensures forall r :: r in found <==> r in rows && Matches(r, letter)
  {
    WhereSelects(letter, rows);
    var found := OrderByName(Where(letter, rows));
    assert forall r :: r in found <==> r in multiset(found);
    found
  }

  /** No two rows of `s` have the same name, and each name sorts strictly
      before the next. */
  predicate StrictlySortedByName(s: seq<Attributes>) {
    forall i, j :: 0 <= i < j < |s| ==> Le(NameKey(s[i]), NameKey(s[j])) && NameKey(s[i]) != NameKey(s[j])
  }

  /** An order by name is unique when the names are: a strictly sorted
      sequence is the only sorted arrangement of its rows. */
  lemma {:induction false} StrictOrderIsUnique(a: seq<Attributes>, b: seq<Attributes>)
    requires StrictlySortedByName(a) && SortedByName(b) && multiset(a) == multiset(b)
    ensures a == b
    decreases |a|
  {
    if a == [] {
      assert |b| == |multiset(b)| == 0;
    } else {
      HeadsAgree(a, b);
      TailsAgree(a, b);
      StrictOrderIsUnique(a[1..], b[1..]);
      assert a == [a[0]] + a[1..] && b == [b[0]] + b[1..];
    }
  }

  /** Dropping the common first row keeps both orders and equal contents. */
  lemma TailsAgree(a: seq<Attributes>, b: seq<Attributes>)
    requires StrictlySortedByName(a) && SortedByName(b) && multiset(a) == multiset(b)
    requires a != [] && b != [] && a[0] == b[0]
    ensures StrictlySortedByName(a[1..]) && SortedByName(b[1..]) && multiset(a[1..]) == multiset(b[1..])
  {
    MultisetTail(a);
    MultisetTail(b);
    SortedTail(b);
  }

  lemma MultisetTail(a: seq<Attributes>)
    requires a != []
    ensures multiset(a[1..]) == multiset(a) - multiset{a[0]}
  {
    assert a == [a[0]] + a[1..];
  }

  lemma SortedTail(b: seq<Attributes>)
    requires SortedByName(b) && b != []
    ensures SortedByName(b[1..])
  {
  }

  /** Both arrangements start with the row whose name sorts first. */
  lemma HeadsAgree(a: seq<Attributes>, b: seq<Attributes>)
    requires StrictlySortedByName(a) && SortedByName(b) && multiset(a) == multiset(b) && a != []
    ensures b != [] && a[0] == b[0]
  {
    assert a[0] in multiset(b);
    assert b[0] in multiset(a);
    var m :| 0 <= m < |b| && b[m] == a[0];
    var k :| 0 <= k < |a| && a[k] == b[0];
    if k != 0 {
      assert Le(NameKey(b[0]), NameKey(b[m]));
      LeAntisymmetric(NameKey(a[0]), NameKey(a[k]));
      assert false;
    }
  }

  /** Every row of `Where` is a row of the table, so it inherits distinct names. */
  lemma {:induction false} WhereKeepsNamesUnique(letter: string, rows: seq<Attributes>)
    requires NamesUnique(rows)
    ensures NamesUnique(Where(letter, rows))
  {
    if rows != [] {
      TailNamesUnique(rows);
      WhereKeepsNamesUnique(letter, rows[1..]);
      WhereSelects(letter, rows[1..]);
      if Matches(rows[0], letter) {
        var w := Where(letter, rows[1..]);
        forall r | r in w ensures r.name != rows[0].name {
          var k :| 0 <= k < |rows[1..]| && rows[1..][k] == r;
          assert rows[k + 1] == r;
        }
        ConsNamesUnique(rows[0], w);
      }
    }
  }

  lemma TailNamesUnique(rows: seq<Attributes>)
    requires NamesUnique(rows) && rows != []
    ensures NamesUnique(rows[1..])
  {
    var rest := rows[1..];
    forall i, j | 0 <= i < |rest| && 0 <= j < |rest| && rest[i].name == rest[j].name ensures i == j {
      assert rows[i + 1].name == rows[j + 1].name;
    }
  }

  lemma ConsNamesUnique(h: Attributes, w: seq<Attributes>)
    requires NamesUnique(w) && forall r :: r in w ==> r.name != h.name
    ensures NamesUnique([h] + w)
  {
    var s := [h] + w;
    forall i, j | 0 <= i < |s| && 0 <= j < |s| && s[i].name == s[j].name ensures i == j {
      if i > 0 && j > 0 {
        assert w[i - 1].name == w[j - 1].name;
      }
    }
  }

  /** A sorted sequence whose rows have distinct, present names is strictly sorted. */
  lemma DistinctNamesSortStrictly(s: seq<Attributes>)
    requires SortedByName(s) && NamesUnique(s)
    requires forall i :: 0 <= i < |s| ==> s[i].name.Some?
    ensures StrictlySortedByName(s)
  {
  }

  /** When stored names are distinct (as uniqueness validation keeps them),
      `by_letter` is determined: every arrangement of the matching rows that is
      ordered by name is the result. The choice of sort does not matter. */
  lemma ByLetterIsDetermined(letter: string, rows: seq<Attributes>, b: seq<Attributes>)
    requires NamesUnique(rows)
    requires SortedByName(b) && multiset(b) == multiset(Where(letter, rows))
    ensures b == ByLetter(letter, rows)
  {
    var found := ByLetter(letter, rows);
    WhereKeepsNamesUnique(letter, rows);
    PermutationKeepsNamesUnique(Where(letter, rows), found);
    assert forall i :: 0 <= i < |found| ==> found[i] in found;
    DistinctNamesSortStrictly(found);
    StrictOrderIsUnique(found, b);
  }

  /** Rearranging rows with distinct names keeps them distinct. */
  lemma PermutationKeepsNamesUnique(w: seq<Attributes>, found: seq<Attributes>)
    requires NamesUnique(w) && multiset(found) == multiset(w)
    ensures NamesUnique(found)
  {
    forall i, j | 0 <= i < |found| && 0 <= j < |found| && found[i].name == found[j].name
      ensures i == j
    {
      if i != j {
        assert found[i] in multiset(w) && found[j] in multiset(w);
        var ii :| 0 <= ii < |w| && w[ii] == found[i];
        var jj :| 0 <= jj < |w| && w[jj] == found[j];
        assert ii == jj;
        SameRowTwice(found, i, j);
        OnceInDistinct(w, found[i]);
        assert false;
      }
    }
  }

  /** A row stored at two positions is counted twice. */
  lemma SameRowTwice(s: seq<Attributes>, i: nat, j: nat)
    requires i < |s| && j < |s| && i != j && s[i] == s[j]
    ensures multiset(s)[s[i]] >= 2
  {
    var lo, hi := if i < j then i else j, if i < j then j else i;
    assert s == s[..lo] + [s[lo]] + s[lo + 1..hi] + [s[hi]] + s[hi + 1..];
  }

  /** In rows with distinct names, each row is counted once. */
  lemma {:induction false} OnceInDistinct(s: seq<Attributes>, x: Attributes)
    requires NamesUnique(s) && x in s
    ensures multiset(s)[x] == 1
  {
    var rest := s[1..];
    assert s == [s[0]] + rest;
    if s[0] == x {
      assert x !in rest;
    } else {
      TailNamesUnique(s);
      OnceInDistinct(rest, x);
    }
  }

  /** An empty prefix matches every row with a name. */
  lemma EmptyPrefixMatchesAllNamed(rows: seq<Attributes>)
    ensures forall r :: r in ByLetter([], rows) <==> r in rows && r.name.Some?
  {
    forall r: Attributes | r.name.Some? ensures Matches(r, []) {
      assert [] <= r.name.value;
    }
  }

  /** `by_letter("N")` over rows named "Nasi Uduk", "Kerak Telor" and
      "Nasi Semur", whatever their other attributes, is the "Nasi Semur" row
      then the "Nasi Uduk" row. */
  lemma ExampleByLetter(nasiUduk: Attributes, kerakTelor: Attributes, nasiSemur: Attributes)
    requires nasiUduk.name == Some("Nasi Uduk")
    requires kerakTelor.name == Some("Kerak Telor")
    requires nasiSemur.name == Some("Nasi Semur")
    ensures ByLetter("N", [nasiUduk, kerakTelor, nasiSemur]) == [nasiSemur, nasiUduk]
  {
    var rows := [nasiUduk, kerakTelor, nasiSemur];
    ExampleWhere(nasiUduk, kerakTelor, nasiSemur);
    ExampleOrder(nasiUduk, kerakTelor, nasiSemur);
    ByLetterIsDetermined("N", rows, [nasiSemur, nasiUduk]);
  }

  lemma ExampleWhere(nasiUduk: Attributes, kerakTelor: Attributes, nasiSemur: Attributes)
    requires nasiUduk.name == Some("Nasi Uduk")
    requires kerakTelor.name == Some("Kerak Telor")
    requires nasiSemur.name == Some("Nasi Semur")
    ensures Where("N", [nasiUduk, kerakTelor, nasiSemur]) == [nasiUduk, nasiSemur]
  {
    ExampleMatches(nasiUduk, kerakTelor, nasiSemur);
    WhereCons("N", nasiSemur, []);
    WhereCons("N", kerakTelor, [nasiSemur]);
    WhereCons("N", nasiUduk, [kerakTelor, nasiSemur]);
    assert [nasiUduk] + ([kerakTelor] + ([nasiSemur] + [])) == [nasiUduk, kerakTelor, nasiSemur];
  }

  lemma ExampleMatches(nasiUduk: Attributes, kerakTelor: Attributes, nasiSemur: Attributes)
    requires nasiUduk.name == Some("Nasi Uduk")
    requires kerakTelor.name == Some("Kerak Telor")
    requires nasiSemur.name == Some("Nasi Semur")
    ensures Matches(nasiUduk, "N") && !Matches(kerakTelor, "N") && Matches(nasiSemur, "N")
  {
    assert "Kerak Telor"[0] != "N"[0];
  }

  lemma ExampleOrder(nasiUduk: Attributes, kerakTelor: Attributes, nasiSemur: Attributes)
    requires nasiUduk.name == Some("Nasi Uduk")
    requires kerakTelor.name == Some("Kerak Telor")
    requires nasiSemur.name == Some("Nasi Semur")
    ensures SortedByName([nasiSemur, nasiUduk])
    ensures NamesUnique([nasiUduk, kerakTelor, nasiSemur])
  {
    FirstDifferenceDecides("Nasi Semur", "Nasi Uduk", 5);
    assert "Nasi Uduk"[0] != "Kerak Telor"[0] && "Nasi Semur"[0] != "Kerak Telor"[0];
    assert "Nasi Uduk"[5] != "Nasi Semur"[5];
  }

  /** `Where` looks at the first row, then at the rest. */
  lemma WhereCons(letter: string, r: Attributes, rows: seq<Attributes>)
    ensures Where(letter, [r] + rows) == (if Matches(r, letter) then [r] else []) + Where(letter, rows)
  {
    assert ([r] + rows)[1..] == rows;
  }
}

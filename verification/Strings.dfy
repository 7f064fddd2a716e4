/** Text helpers shared by the models: the order `Array.prototype.sort` uses on strings,
    and `Array.prototype.join`. */
module Strings {

  /** Lexicographic order, the default order of `sort` on strings. */
  predicate Leq(a: string, b: string) {
    if a == "" then true
    else if b == "" then false
    else a[0] < b[0] || (a[0] == b[0] && Leq(a[1..], b[1..]))
  }

  /** A text comes before the texts it begins, and else the first difference decides. */
  ghost predicate IsLexicographic(a: string, b: string) {
    a <= b || exists i: nat :: DiffersAt(a, b, i)
  }

  lemma {:induction false} LeqIsLexicographic(a: string, b: string)
    ensures Leq(a, b) <==> IsLexicographic(a, b)
  {
    if a != "" && b != "" && a[0] == b[0] {
      LeqIsLexicographic(a[1..], b[1..]);
      SameHead(a, b);
    } else if a != "" && b != "" {
      assert DiffersAt(a, b, 0) <==> a[0] < b[0];
      forall i: nat | i > 0 ensures !DiffersAt(a, b, i) {
        if i < |a| && i < |b| {
          assert a[..i][0] == a[0] && b[..i][0] == b[0];
        }
      }
    }
  }

  predicate DiffersAt(a: string, b: string, i: nat) {
    i < |a| && i < |b| && a[..i] == b[..i] && a[i] < b[i]
  }

  lemma SameHead(a: string, b: string)
    requires a != "" && b != "" && a[0] == b[0]
    ensures IsLexicographic(a, b) <==> IsLexicographic(a[1..], b[1..])
  {
    PrefixBehindHead(a, b);
    forall i: nat ensures DiffersAt(a[1..], b[1..], i) <==> DiffersAt(a, b, i + 1) {
      DiffersBehindHead(a, b, i);
    }
    hide DiffersAt;
    if i: nat :| DiffersAt(a[1..], b[1..], i) {
      assert DiffersAt(a, b, i + 1);
    }
    if i: nat :| DiffersAt(a, b, i) {
      NoDifferenceAtHead(a, b);
      assert DiffersAt(a[1..], b[1..], i - 1);
    }
  }

  lemma PrefixBehindHead(a: string, b: string)
    requires a != "" && b != "" && a[0] == b[0]
    ensures a <= b <==> a[1..] <= b[1..]
  {
    assert a == [a[0]] + a[1..] && b == [b[0]] + b[1..];
  }

  lemma NoDifferenceAtHead(a: string, b: string)
    requires a != "" && b != "" && a[0] == b[0]
    ensures !DiffersAt(a, b, 0)
  {
  }

  lemma DiffersBehindHead(a: string, b: string, i: nat)
    requires a != "" && b != "" && a[0] == b[0]
    ensures DiffersAt(a[1..], b[1..], i) <==> DiffersAt(a, b, i + 1)
  {
    if i < |a| - 1 && i < |b| - 1 {
      assert a[..i + 1] == [a[0]] + a[1..][..i] && b[..i + 1] == [b[0]] + b[1..][..i];
      assert a[1..][..i] == a[..i + 1][1..] && b[1..][..i] == b[..i + 1][1..];
    }
  }

  lemma {:induction false} LeqTotal(a: string, b: string)
    ensures Leq(a, b) || Leq(b, a)
  {
    if a != "" && b != "" && a[0] == b[0] {
      LeqTotal(a[1..], b[1..]);
    }
  }

  lemma {:induction false} LeqAntisymmetric(a: string, b: string)
    requires Leq(a, b) && Leq(b, a)
    ensures a == b
  {
    if a != "" && b != "" {
      LeqAntisymmetric(a[1..], b[1..]);
      assert a == [a[0]] + a[1..] && b == [b[0]] + b[1..];
    }
  }

  lemma {:induction false} LeqTransitive(a: string, b: string, c: string)
    requires Leq(a, b) && Leq(b, c)
    ensures Leq(a, c)
  {
    if a != "" && a[0] == b[0] && b[0] == c[0] {
      LeqTransitive(a[1..], b[1..], c[1..]);
    }
  }

  /** `[...items].sort()[0]` */
  function Least(items: seq<string>): (m: string)
    requires items != []
    ensures m in items
  {
    if |items| == 1 then items[0]
    else
      var rest := Least(items[1..]);
      if Leq(items[0], rest) then items[0] else rest
  }

  lemma {:induction false} LeastIsLeast(items: seq<string>, x: string)
    requires items != [] && x in items
    ensures Leq(Least(items), x)
  {
    LeqTotal(x, x);
    if |items| > 1 {
      var rest := Least(items[1..]);
      LeqTotal(items[0], rest);
      LeqTotal(items[0], items[0]);
      if x in items[1..] {
        LeastIsLeast(items[1..], x);
        if Leq(items[0], rest) {
          LeqTransitive(items[0], rest, x);
        }
      }
    }
  }

  /** The least element depends on the elements only, not on where they stand. */
  lemma LeastIsUnique(items: seq<string>, others: seq<string>)
    requires items != [] && others != []
    requires forall x :: x in items <==> x in others
    ensures Least(items) == Least(others)
  {
    LeastIsLeast(items, Least(others));
    LeastIsLeast(others, Least(items));
    LeqAntisymmetric(Least(items), Least(others));
  }

  /** `parts.join(separator)` */
  function Join(parts: seq<string>, separator: string): string {
    if |parts| == 0 then ""
    else if |parts| == 1 then parts[0]
    else parts[0] + separator + Join(parts[1..], separator)
  }

  /** `String(n)` */
  function Decimal(n: nat): string {
    if n < 10 then ["0123456789"[n]] else Decimal(n / 10) + ["0123456789"[n % 10]]
  }

  predicate IsDigits(field: string) {
    field != "" && forall i :: 0 <= i < |field| ==> '0' <= field[i] <= '9'
  }

  function DigitsValue(field: string): nat
    requires forall i :: 0 <= i < |field| ==> '0' <= field[i] <= '9'
  {
    if field == "" then 0
    else DigitsValue(field[..|field| - 1]) * 10 + (field[|field| - 1] - '0') as nat
  }

  lemma {:induction false} DecimalValue(n: nat)
    ensures IsDigits(Decimal(n)) && DigitsValue(Decimal(n)) == n
  {
    if n < 10 {
      LastDigit("", n);
    } else {
      DecimalValue(n / 10);
      LastDigit(Decimal(n / 10), n % 10);
    }
  }

  lemma LastDigit(init: string, d: nat)
    requires d < 10 && (init == "" || IsDigits(init))
    ensures var field := init + ["0123456789"[d]];
      IsDigits(field) && DigitsValue(field) == (if init == "" then 0 else DigitsValue(init)) * 10 + d
  {
    var field := init + ["0123456789"[d]];
    assert field[..|field| - 1] == init;
  }

  lemma DecimalInjective(m: nat, n: nat)
    requires Decimal(m) == Decimal(n)
    ensures m == n
  {
    DecimalValue(m);
    DecimalValue(n);
  }

  lemma ZeroIsDecimal()
    ensures Decimal(0) == "0"
  {
  }

  /** Digits without a leading zero are the decimal form of their value. */
  lemma {:induction false} DigitsAreDecimal(t: string)
    requires IsDigits(t) && (t[0] == '0' ==> t == "0")
    ensures Decimal(DigitsValue(t)) == t
    decreases |t|
  {
    var init, d := t[..|t| - 1], (t[|t| - 1] - '0') as nat;
    assert t == init + ["0123456789"[d]];
    if init == "" {
      assert t == ["0123456789"[d]];
    } else {
      DigitsAreDecimal(init);
      ZeroIsDecimal();
      assert DigitsValue(init) > 0;
      assert DigitsValue(t) / 10 == DigitsValue(init) && DigitsValue(t) % 10 == d;
    }
  }

  lemma AppendAssociates<T>(a: seq<T>, b: seq<T>, c: seq<T>)
    ensures (a + b) + c == a + (b + c)
  {
  }

  function Insert(x: string, sorted: seq<string>): seq<string> {
    if sorted == [] || Leq(x, sorted[0]) then [x] + sorted else [sorted[0]] + Insert(x, sorted[1..])
  }

  /** `[...items].sort()` */
  function Sort(items: seq<string>): seq<string> {
    if items == [] then [] else Insert(items[0], Sort(items[1..]))
  }

  lemma {:induction false} InsertKeeps(x: string, sorted: seq<string>)
    ensures multiset(Insert(x, sorted)) == multiset(sorted) + multiset{x}
  {
    if sorted != [] && !Leq(x, sorted[0]) {
      InsertKeeps(x, sorted[1..]);
      assert sorted == [sorted[0]] + sorted[1..];
    }
  }

  lemma {:induction false} SortKeeps(items: seq<string>)
    ensures multiset(Sort(items)) == multiset(items)
    ensures forall x :: x in Sort(items) <==> x in items
  {
    if items != [] {
      SortKeeps(items[1..]);
      InsertKeeps(items[0], Sort(items[1..]));
      assert items == [items[0]] + items[1..];
    }
    assert forall x :: x in Sort(items) <==> x in multiset(Sort(items));
    assert forall x :: x in items <==> x in multiset(items);
  }

  predicate IsSorted(items: seq<string>) {
    forall i, j :: 0 <= i < j < |items| ==> Leq(items[i], items[j])
  }

  lemma {:induction false} InsertSorts(x: string, sorted: seq<string>)
    requires IsSorted(sorted)
    ensures IsSorted(Insert(x, sorted))
  {
    if sorted != [] {
      var rest := sorted[1..];
      if Leq(x, sorted[0]) {
        forall i | 0 <= i < |sorted| ensures Leq(x, sorted[i]) {
          if i > 0 {
            LeqTransitive(x, sorted[0], sorted[i]);
          }
        }
      } else {
        LeqTotal(x, sorted[0]);
        InsertSorts(x, rest);
        InsertKeeps(x, rest);
        forall y | y in Insert(x, rest) ensures Leq(sorted[0], y) {
          assert y in multiset(Insert(x, rest));
          assert y == x || y in rest;
        }
      }
    }
  }

  lemma {:induction false} SortSorts(items: seq<string>)
    ensures IsSorted(Sort(items))
  {
    if items != [] {
      SortSorts(items[1..]);
      InsertSorts(items[0], Sort(items[1..]));
    }
  }

  lemma {:induction false} SortedIsUnique(a: seq<string>, b: seq<string>)
    requires IsSorted(a) && IsSorted(b) && multiset(a) == multiset(b)
    ensures a == b
  {
    hide Leq;
    assert |a| == |multiset(a)| == |multiset(b)| == |b|;
    if a != [] {
      assert a[0] in multiset(b) && b[0] in multiset(a);
      FirstIsLeast(a, b[0]);
      FirstIsLeast(b, a[0]);
      LeqAntisymmetric(a[0], b[0]);
      hide IsSorted;
      RestAgrees(a, b);
      SortedIsUnique(a[1..], b[1..]) by { TailIsSorted(a); TailIsSorted(b); }
    }
  }

  lemma TailIsSorted(a: seq<string>)
    requires IsSorted(a) && a != []
    ensures IsSorted(a[1..])
  {
    hide Leq;
  }

  lemma RestAgrees(a: seq<string>, b: seq<string>)
    requires a != [] && b != [] && a[0] == b[0] && multiset(a) == multiset(b)
    ensures multiset(a[1..]) == multiset(b[1..])
    ensures a[1..] == b[1..] ==> a == b
  {
    assert a == [a[0]] + a[1..] && b == [b[0]] + b[1..];
    assert multiset(a[1..]) == multiset(a) - multiset{a[0]};
    assert multiset(b[1..]) == multiset(b) - multiset{b[0]};
  }

  lemma FirstIsLeast(a: seq<string>, x: string)
    requires IsSorted(a) && x in a
    ensures Leq(a[0], x)
  {
    LeqTotal(x, x);
    hide Leq;
  }

  /** Sorting forgets the order the items came in. */
  lemma SortForgetsOrder(a: seq<string>, b: seq<string>)
    requires multiset(a) == multiset(b)
    ensures Sort(a) == Sort(b)
  {
    SortKeeps(a);
    SortKeeps(b);
    SortSorts(a);
    SortSorts(b);
    SortedIsUnique(Sort(a), Sort(b));
  }
}

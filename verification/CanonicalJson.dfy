/** `canonical` of scripts/ci-version-only-pr.ts: JSON text with the keys of every object sorted. */
module CanonicalJson {
  import opened Strings
  import LocaleBundles

  /** A parsed JSON value. A number is its printed form; a number too large to represent, such as 1e400, is
      an infinity. The entries of an object are in property order. */
  datatype Json =
    | Null
    | Bool(value: bool)
    | Num(printed: string)
    | Overflow(negative: bool)
    | Str(text: string)
    | Arr(items: seq<Json>)
    | Obj(entries: seq<Entry>)

  datatype Entry = Entry(key: string, value: Json)

  // ---------------------------------------------------------------- values as JSON.parse builds them

  predicate IsNumberChar(c: char) {
    '0' <= c <= '9' || c == '-' || c == '+' || c == '.' || c == 'e' || c == 'E'
  }

  predicate IsNumber(s: string) {
    s != "" && (s[0] == '-' || '0' <= s[0] <= '9') && forall i :: 0 <= i < |s| ==> IsNumberChar(s[i])
  }

  predicate AreDigits(t: string) {
    t != "" && forall i :: 0 <= i < |t| ==> t[i] in "0123456789"
  }

  /** Every text of the form a number is printed in is one. */
  lemma PrintedNumbersAreNumbers(negative: bool, whole: string, fraction: string, exponent: string, down: bool)
    requires AreDigits(whole) && (fraction == "" || AreDigits(fraction)) && (exponent == "" || AreDigits(exponent))
    ensures IsNumber(
      (if negative then "-" else "")
      + (whole
      + ((if fraction == "" then "" else "." + fraction)
      + (if exponent == "" then "" else (if down then "e-" else "e+") + exponent))))
  {
    var sign, point := if negative then "-" else "", if fraction == "" then "" else "." + fraction;
    var power := if exponent == "" then "" else (if down then "e-" else "e+") + exponent;
    DigitsAreNumberChars(whole);
    DigitsAreNumberChars(fraction);
    DigitsAreNumberChars(exponent);
    assert AllNumberChars(sign) && AllNumberChars(".") && AllNumberChars("e-") && AllNumberChars("e+");
    assert whole[0] in "0123456789" && AllNumberChars("");
    assert '0' <= whole[0] <= '9';
    hide AllNumberChars, AreDigits;
    BothNumberChars(".", fraction);
    BothNumberChars(if down then "e-" else "e+", exponent);
    BothNumberChars(point, power);
    BothNumberChars(whole, point + power);
    BothNumberChars(sign, whole + (point + power));
    NumberBegins(sign, whole, point + power);
  }

  lemma DigitsAreNumberChars(t: string)
    requires t == "" || AreDigits(t)
    ensures AllNumberChars(t)
  {
  }

  lemma BothNumberChars(a: string, b: string)
    requires AllNumberChars(a) && AllNumberChars(b)
    ensures AllNumberChars(a + b)
  {
    hide IsNumberChar;
  }

  lemma NumberBegins(sign: string, whole: string, rest: string)
    requires sign in ["", "-"] && whole != "" && '0' <= whole[0] <= '9' && AllNumberChars(sign + (whole + rest))
    ensures IsNumber(sign + (whole + rest))
  {
    hide IsNumberChar;
  }

  predicate AllNumberChars(t: string) {
    forall i :: 0 <= i < |t| ==> IsNumberChar(t[i])
  }

  predicate DistinctKeys(es: seq<Entry>) {
    forall i, j :: 0 <= i < j < |es| ==> es[i].key != es[j].key
  }

  /** Numbers are numbers and no object has a key twice, at every depth. */
  predicate IsValue(v: Json) {
    match v
    case Num(printed) => IsNumber(printed)
    case Arr(items) => forall i :: 0 <= i < |items| ==> IsValue(items[i])
    case Obj(es) => DistinctKeys(es) && forall i :: 0 <= i < |es| ==> IsValue(es[i].value)
    case _ => true
  }

  predicate HasKey(es: seq<Entry>, k: string) {
    exists i :: 0 <= i < |es| && es[i].key == k
  }

  function Get(es: seq<Entry>, k: string): (v: Json)
    requires HasKey(es, k)
    ensures exists i :: 0 <= i < |es| && es[i] == Entry(k, v)
  {
    if es[0].key == k then
      assert es[0] == Entry(k, es[0].value);
      es[0].value
    else
      var v := Get(es[1..], k);
      assert exists i :: 0 <= i < |es| && es[i] == Entry(k, v) by {
        var i :| 0 <= i < |es[1..]| && es[1..][i] == Entry(k, v);
        assert es[i + 1] == Entry(k, v);
      }
      v
  }

  lemma GetUnique(es: seq<Entry>, i: nat)
    requires DistinctKeys(es) && i < |es|
    ensures HasKey(es, es[i].key) && Get(es, es[i].key) == es[i].value
  {
    var v := Get(es, es[i].key);
    var j :| 0 <= j < |es| && es[j] == Entry(es[i].key, v);
  }

  /** Equal up to the order of keys, at every depth. */
  ghost predicate Same(a: Json, b: Json)
    decreases a
  {
    match a
    case Arr(items) =>
      b.Arr? && |items| == |b.items| && forall i :: 0 <= i < |items| ==> Same(items[i], b.items[i])
    case Obj(es) =>
      && b.Obj?
      && (forall k :: HasKey(es, k) <==> HasKey(b.entries, k))
      && (forall i, j :: 0 <= i < |es| && 0 <= j < |b.entries| && es[i].key == b.entries[j].key ==>
            Same(es[i].value, b.entries[j].value))
    case _ => a == b
  }

  // ---------------------------------------------------------------- the text of a value

  /** The elements of an array behind its opening bracket. */
  function ItemsText(items: seq<Json>): string
    decreases items
  {
    if items == [] then "]"
    else if |items| == 1 then Text(items[0]) + "]"
    else Text(items[0]) + ("," + ItemsText(items[1..]))
  }

  function MembersText(es: seq<Entry>): string
    decreases es
  {
    if es == [] then "}"
    else if |es| == 1 then LocaleBundles.TsString(es[0].key) + (":" + (Text(es[0].value) + "}"))
    else LocaleBundles.TsString(es[0].key) + (":" + (Text(es[0].value) + ("," + MembersText(es[1..]))))
  }

  /** `JSON.stringify` of a value, keys in property order. */
  function Text(v: Json): string
    decreases v
  {
    match v
    case Null => "null"
    case Bool(b) => if b then "true" else "false"
    case Num(printed) => printed
    case Overflow(_) => "null"
    case Str(text) => LocaleBundles.TsString(text)
    case Arr(items) => "[" + ItemsText(items)
    case Obj(es) => "{" + MembersText(es)
  }

  // ---------------------------------------------------------------- the text determines the value

  /** What may follow a value: nothing, or a character that cannot continue a number. */
  predicate Stops(r: string) {
    r == "" || !IsNumberChar(r[0])
  }

  /** The escape of a character: itself, a backslash and one letter, or `\\u00` and two digits. */
  lemma EscapeShape(c: char, r: string)
    ensures var e := LocaleBundles.EscapeChar(c); var t := e + r;
      && (|e| == 1 || |e| == 2 || |e| == 6)
      && (|e| == 1 ==> e == [c] && c != '\\' && c != '"' && t[0] == c)
      && (|e| > 1 ==> t[0] == '\\' && t[1] == e[1])
      && (|e| == 6 <==> |e| > 1 && e[1] == 'u')
      && (|e| == 6 ==> 0 <= c as int < 32)
      && (|e| == 6 ==> t[4] == LocaleBundles.HexDigit(c as int / 16) && t[5] == LocaleBundles.HexDigit(c as int % 16))
      && t[|e|..] == r
  {
  }

  lemma ShortEscape(c: char, d: char)
    requires |LocaleBundles.EscapeChar(c)| == 2 && |LocaleBundles.EscapeChar(d)| == 2
    requires LocaleBundles.EscapeChar(c)[1] == LocaleBundles.EscapeChar(d)[1]
    ensures c == d
  {
  }

  lemma EscapeCharPrefix(c: char, d: char, r: string, s: string)
    requires LocaleBundles.EscapeChar(c) + r == LocaleBundles.EscapeChar(d) + s
    ensures c == d && r == s
  {
    hide *;
    EscapeShape(c, r);
    EscapeShape(d, s);
    var e, f := LocaleBundles.EscapeChar(c), LocaleBundles.EscapeChar(d);
    if |e| == 2 && |f| == 2 {
      ShortEscape(c, d);
    }
    if |e| == 6 {
      HexDigits(c, d);
    }
  }

  lemma HexDigits(c: char, d: char)
    requires c as int < 32 && d as int < 32
    requires LocaleBundles.HexDigit(c as int / 16) == LocaleBundles.HexDigit(d as int / 16)
    requires LocaleBundles.HexDigit(c as int % 16) == LocaleBundles.HexDigit(d as int % 16)
    ensures c == d
  {
    HexDigitInjective(c as int / 16, d as int / 16);
    HexDigitInjective(c as int % 16, d as int % 16);
    assert c as int == d as int;
  }

  lemma HexDigitInjective(m: int, n: int)
    requires 0 <= m < 16 && 0 <= n < 16 && LocaleBundles.HexDigit(m) == LocaleBundles.HexDigit(n)
    ensures m == n
  {
  }

  lemma {:induction false} EscapePrefix(x: string, y: string, r: string, s: string)
    requires LocaleBundles.Escape(x) + ("\"" + r) == LocaleBundles.Escape(y) + ("\"" + s)
    ensures x == y && r == s
    decreases |x|
  {
    var p, q := "\"" + r, "\"" + s;
    if x == "" && y == "" {
      assert LocaleBundles.Escape(x) + p == p && LocaleBundles.Escape(y) + q == q;
      assert p[1..] == r && q[1..] == s;
    } else if x == "" || y == "" {
      assert "" + p == p && "" + q == q;
      QuoteIsNoEscape(if x == "" then y else x, if x == "" then q else p);
    } else {
      hide LocaleBundles.EscapeChar;
      AppendAssociates(LocaleBundles.EscapeChar(x[0]), LocaleBundles.Escape(x[1..]), p);
      AppendAssociates(LocaleBundles.EscapeChar(y[0]), LocaleBundles.Escape(y[1..]), q);
      EscapeCharPrefix(x[0], y[0], LocaleBundles.Escape(x[1..]) + p, LocaleBundles.Escape(y[1..]) + q);
      EscapePrefix(x[1..], y[1..], r, s);
      assert x == [x[0]] + x[1..] && y == [y[0]] + y[1..];
    }
  }

  lemma QuoteIsNoEscape(x: string, r: string)
    requires x != ""
    ensures (LocaleBundles.Escape(x) + r)[0] != '"'
  {
    EscapeShape(x[0], LocaleBundles.Escape(x[1..]) + r);
    AppendAssociates(LocaleBundles.EscapeChar(x[0]), LocaleBundles.Escape(x[1..]), r);
  }

  lemma StringPrefix(x: string, y: string, r: string, s: string)
    requires LocaleBundles.TsString(x) + r == LocaleBundles.TsString(y) + s
    ensures x == y && r == s
  {
    hide *;
    StringTail(x, r);
    StringTail(y, s);
    EscapePrefix(x, y, r, s);
  }

  lemma StringTail(x: string, r: string)
    ensures LocaleBundles.TsString(x) + r != ""
    ensures (LocaleBundles.TsString(x) + r)[1..] == LocaleBundles.Escape(x) + ("\"" + r)
  {
    hide LocaleBundles.Escape;
    var e := LocaleBundles.Escape(x);
    assert LocaleBundles.TsString(x) + r == "\"" + (e + ("\"" + r));
  }

  lemma ShorterDiffers(m: string, n: string, r: string, s: string)
    requires IsNumber(n) && Stops(r) && |m| < |n|
    ensures m + r != n + s
  {
    var left, right := m + r, n + s;
    assert right[|m|] == n[|m|];
    if r == "" {
      assert |left| < |right|;
    } else {
      assert left[|m|] == r[0];
    }
  }

  lemma NumberPrefix(m: string, n: string, r: string, s: string)
    requires IsNumber(m) && IsNumber(n) && Stops(r) && Stops(s) && m + r == n + s
    ensures m == n && r == s
  {
    if |m| < |n| {
      ShorterDiffers(m, n, r, s);
    } else if |n| < |m| {
      ShorterDiffers(n, m, s, r);
    }
    CutAt(m, r);
    CutAt(n, s);
  }

  lemma CutAt(m: string, r: string)
    ensures (m + r)[..|m|] == m && (m + r)[|m|..] == r
  {
  }

  /** Printed as `null`. */
  predicate IsNullText(v: Json) {
    v.Null? || v.Overflow?
  }

  /** What the text of a value keeps of it: overflowed numbers have become `null`. */
  function Faded(v: Json): Json
    decreases v
  {
    match v
    case Overflow(_) => Null
    case Arr(items) => Arr(FadedItems(items))
    case Obj(es) => Obj(FadedEntries(es))
    case _ => v
  }

  function FadedItems(items: seq<Json>): (r: seq<Json>)
    ensures |r| == |items|
    ensures forall i :: 0 <= i < |items| ==> r[i] == Faded(items[i])
    decreases items
  {
    seq(|items|, i requires 0 <= i < |items| => Faded(items[i]))
  }

  function FadedEntries(es: seq<Entry>): (r: seq<Entry>)
    ensures |r| == |es|
    ensures forall i :: 0 <= i < |es| ==> r[i] == Entry(es[i].key, Faded(es[i].value))
    decreases es
  {
    seq(|es|, i requires 0 <= i < |es| => Entry(es[i].key, Faded(es[i].value)))
  }

  lemma FadedHead(xs: seq<Json>)
    requires xs != []
    ensures FadedItems(xs) == [Faded(xs[0])] + FadedItems(xs[1..])
  {
    hide Faded;
  }

  lemma FadedFirst(es: seq<Entry>)
    requires es != []
    ensures FadedEntries(es) == [Entry(es[0].key, Faded(es[0].value))] + FadedEntries(es[1..])
  {
    hide Faded;
  }

  predicate IsHead(v: Json, c: char) {
    match v
    case Null => c == 'n'
    case Bool(b) => c == if b then 't' else 'f'
    case Num(_) => c == '-' || '0' <= c <= '9'
    case Overflow(_) => c == 'n'
    case Str(_) => c == '"'
    case Arr(_) => c == '['
    case Obj(_) => c == '{'
  }

  /** The first character of a value's text tells its kind, and is never a closing bracket. */
  lemma TextHead(v: Json, r: string)
    requires IsValue(v)
    ensures Text(v) + r != "" && IsHead(v, (Text(v) + r)[0])
  {
  }

  lemma OneHead(a: Json, b: Json, c: char)
    requires IsHead(a, c) && IsHead(b, c)
    ensures IsNullText(a) == IsNullText(b) && a.Bool? == b.Bool? && a.Num? == b.Num?
    ensures a.Str? == b.Str? && a.Arr? == b.Arr? && a.Obj? == b.Obj?
    ensures a.Bool? ==> a == b
  {
  }

  lemma PrefixOf(w: string, r: string)
    ensures (w + r)[|w|..] == r
  {
  }

  lemma {:induction false} TextPrefix(a: Json, b: Json, r: string, s: string)
    requires IsValue(a) && IsValue(b) && Stops(r) && Stops(s) && Text(a) + r == Text(b) + s
    ensures Faded(a) == Faded(b) && r == s
    decreases a, 1
  {
    TextHead(a, r);
    TextHead(b, s);
    OneHead(a, b, (Text(a) + r)[0]);
    hide ItemsText, MembersText, IsHead, LocaleBundles.TsString, IsNumber, IsNumberChar;
    if IsNullText(a) || a.Bool? {
      PrefixOf(Text(a), r);
      PrefixOf(Text(b), s);
    } else if a.Num? {
      hide Stops;
      NumberPrefix(a.printed, b.printed, r, s);
    } else if a.Str? {
      StringPrefix(a.text, b.text, r, s);
    } else {
      NestedPrefix(a, b, r, s);
    }
  }

  lemma {:induction false} NestedPrefix(a: Json, b: Json, r: string, s: string)
    requires IsValue(a) && IsValue(b) && Text(a) + r == Text(b) + s
    requires (a.Arr? && b.Arr?) || (a.Obj? && b.Obj?)
    ensures Faded(a) == Faded(b) && r == s
    decreases a, 0
  {
    if a.Arr? {
      AppendAssociates("[", ItemsText(a.items), r);
      AppendAssociates("[", ItemsText(b.items), s);
      PrefixOf("[", ItemsText(a.items) + r);
      PrefixOf("[", ItemsText(b.items) + s);
      hide Text, ItemsText;
      ItemsPrefix(a.items, b.items, r, s);
    } else {
      AppendAssociates("{", MembersText(a.entries), r);
      AppendAssociates("{", MembersText(b.entries), s);
      PrefixOf("{", MembersText(a.entries) + r);
      PrefixOf("{", MembersText(b.entries) + s);
      hide Text, MembersText;
      MembersPrefix(a.entries, b.entries, r, s);
    }
  }

  lemma {:induction false} ItemsPrefix(xs: seq<Json>, ys: seq<Json>, r: string, s: string)
    requires (forall x :: x in xs ==> IsValue(x)) && (forall y :: y in ys ==> IsValue(y))
    requires ItemsText(xs) + r == ItemsText(ys) + s
    ensures FadedItems(xs) == FadedItems(ys) && r == s
    decreases xs, 0
  {
    ItemsShape(xs, r);
    ItemsShape(ys, s);
    PrefixOf("]", r);
    PrefixOf("]", s);
    if xs != [] && ys != [] {
      hide Text, ItemsText, IsValue;
      TextPrefix(xs[0], ys[0], ItemsTail(xs, r), ItemsTail(ys, s));
      ItemsTailShape(xs, r);
      ItemsTailShape(ys, s);
      if |xs| > 1 {
        ItemsPrefix(xs[1..], ys[1..], r, s);
      }
      FadedHead(xs);
      FadedHead(ys);
    }
  }

  /** What follows the first element. */
  function ItemsTail(xs: seq<Json>, r: string): string
    requires xs != []
  {
    if |xs| == 1 then "]" + r else "," + (ItemsText(xs[1..]) + r)
  }

  lemma ItemsShape(xs: seq<Json>, r: string)
    requires forall x :: x in xs ==> IsValue(x)
    ensures xs == [] ==> ItemsText(xs) + r == "]" + r
    ensures xs != [] ==>
      && ItemsText(xs) + r == Text(xs[0]) + ItemsTail(xs, r)
      && (Text(xs[0]) + ItemsTail(xs, r))[0] != ']'
  {
    hide IsValue, Text;
    if |xs| == 1 {
      AppendAssociates(Text(xs[0]), "]", r);
    } else if xs != [] {
      AppendAssociates(Text(xs[0]), "," + ItemsText(xs[1..]), r);
      AppendAssociates(",", ItemsText(xs[1..]), r);
    }
    if xs != [] {
      TextHead(xs[0], ItemsTail(xs, r));
    }
  }

  lemma ItemsTailShape(xs: seq<Json>, r: string)
    requires xs != []
    ensures var t := ItemsTail(xs, r);
      && t != "" && Stops(t)
      && (|xs| == 1 ==> t[0] == ']' && t[1..] == r)
      && (|xs| > 1 ==> t[0] == ',' && t[1..] == ItemsText(xs[1..]) + r)
  {
  }

  lemma {:induction false} MembersPrefix(xs: seq<Entry>, ys: seq<Entry>, r: string, s: string)
    requires (forall i :: 0 <= i < |xs| ==> IsValue(xs[i].value)) && (forall i :: 0 <= i < |ys| ==> IsValue(ys[i].value))
    requires MembersText(xs) + r == MembersText(ys) + s
    ensures FadedEntries(xs) == FadedEntries(ys) && r == s
    decreases xs, 0
  {
    MembersShape(xs, r);
    MembersShape(ys, s);
    PrefixOf("}", r);
    PrefixOf("}", s);
    if xs != [] && ys != [] {
      hide Text, MembersText, IsValue, LocaleBundles.TsString;
      StringPrefix(xs[0].key, ys[0].key, ":" + (Text(xs[0].value) + MembersTail(xs, r)),
                   ":" + (Text(ys[0].value) + MembersTail(ys, s)));
      ColonPrefix(Text(xs[0].value) + MembersTail(xs, r), Text(ys[0].value) + MembersTail(ys, s));
      MembersTailShape(xs, r);
      MembersTailShape(ys, s);
      TextPrefix(xs[0].value, ys[0].value, MembersTail(xs, r), MembersTail(ys, s));
      if |xs| > 1 {
        MembersPrefix(xs[1..], ys[1..], r, s);
      }
      FadedFirst(xs);
      FadedFirst(ys);
    }
  }

  lemma ColonPrefix(r: string, s: string)
    requires ":" + r == ":" + s
    ensures r == s
  {
    assert (":" + r)[1..] == r && (":" + s)[1..] == s;
  }

  function MembersTail(xs: seq<Entry>, r: string): string
    requires xs != []
  {
    if |xs| == 1 then "}" + r else "," + (MembersText(xs[1..]) + r)
  }

  lemma MembersShape(xs: seq<Entry>, r: string)
    ensures xs == [] ==> MembersText(xs) + r == "}" + r
    ensures xs != [] ==>
      && MembersText(xs) + r == LocaleBundles.TsString(xs[0].key) + (":" + (Text(xs[0].value) + MembersTail(xs, r)))
      && (MembersText(xs) + r)[0] == '"'
  {
    if xs != [] {
      var key, value := LocaleBundles.TsString(xs[0].key), Text(xs[0].value);
      var rest := if |xs| == 1 then "}" else "," + MembersText(xs[1..]);
      assert key[0] == '"';
      assert rest + r == MembersTail(xs, r) by {
        if |xs| > 1 {
          AppendAssociates(",", MembersText(xs[1..]), r);
        }
      }
      hide Text, LocaleBundles.TsString;
      AppendAssociates(key, ":" + (value + rest), r);
      AppendAssociates(":", value + rest, r);
      AppendAssociates(value, rest, r);
    }
  }

  lemma MembersTailShape(xs: seq<Entry>, r: string)
    requires xs != []
    ensures var t := MembersTail(xs, r);
      && t != "" && Stops(t)
      && (|xs| == 1 ==> t[0] == '}' && t[1..] == r)
      && (|xs| > 1 ==> t[0] == ',' && t[1..] == MembersText(xs[1..]) + r)
  {
  }

  lemma {:induction false} TextKeepsFaded(v: Json)
    ensures Text(Faded(v)) == Text(v)
    decreases v
  {
    match v {
      case Arr(items) => ItemsTextKeepsFaded(items);
      case Obj(es) => MembersTextKeepsFaded(es);
      case _ =>
    }
  }

  lemma {:induction false} ItemsTextKeepsFaded(items: seq<Json>)
    ensures ItemsText(FadedItems(items)) == ItemsText(items)
    decreases items
  {
    if items != [] {
      hide Text, Faded;
      TextKeepsFaded(items[0]);
      if |items| > 1 {
        ItemsTextKeepsFaded(items[1..]);
        FadedHead(items);
        assert FadedItems(items)[1..] == FadedItems(items[1..]);
      }
    }
  }

  lemma {:induction false} MembersTextKeepsFaded(es: seq<Entry>)
    ensures MembersText(FadedEntries(es)) == MembersText(es)
    decreases es
  {
    if es != [] {
      hide Text, Faded, LocaleBundles.TsString;
      TextKeepsFaded(es[0].value);
      if |es| > 1 {
        MembersTextKeepsFaded(es[1..]);
        FadedFirst(es);
        assert FadedEntries(es)[1..] == FadedEntries(es[1..]);
      }
    }
  }

  /** JSON text is unambiguous but for overflowed numbers, which it cannot tell from `null`. */
  lemma TextInjective(a: Json, b: Json)
    requires IsValue(a) && IsValue(b)
    ensures Text(a) == Text(b) <==> Faded(a) == Faded(b)
  {
    hide Text, IsValue;
    assert Text(a) + "" == Text(a) && Text(b) + "" == Text(b);
    if Text(a) == Text(b) {
      TextPrefix(a, b, "", "");
    }
    TextKeepsFaded(a);
    TextKeepsFaded(b);
  }

  // ---------------------------------------------------------------- sorting the keys of an object

  /** `a.localeCompare(b)`, of which only this is known: a total preorder. Different strings may compare
      as equal, such as composed and decomposed forms of one character. */
  type Collation = (string, string) -> int

  ghost predicate IsCollation(c: Collation) {
    && (forall a, b :: c(a, b) < 0 <==> c(b, a) > 0)
    && (forall a, b, d :: c(a, b) <= 0 && c(b, d) <= 0 ==> c(a, d) <= 0)
  }

  /** An array index (0 to 4294967294) in canonical form: property order puts such keys first. */
  predicate IsIndex(k: string) {
    IsDigits(k) && (k[0] == '0' ==> k == "0") && DigitsValue(k) <= 4294967294
  }

  /** The order of two keys in an object rebuilt from sorted entries: indices first and by number,
      the others as `localeCompare` has them. */
  predicate Before(c: Collation, a: string, b: string) {
    if IsIndex(a) then !IsIndex(b) || DigitsValue(a) < DigitsValue(b) else !IsIndex(b) && c(a, b) < 0
  }

  predicate Tied(c: Collation, a: string, b: string) {
    a != b && !Before(c, a, b) && !Before(c, b, a)
  }

  /** Different indices are different numbers. */
  lemma IndicesDiffer(a: string, b: string)
    requires IsIndex(a) && IsIndex(b) && DigitsValue(a) == DigitsValue(b)
    ensures a == b
  {
    DigitsAreDecimal(a);
    DigitsAreDecimal(b);
  }

  lemma BeforeIsStrict(c: Collation, x: string, y: string, z: string)
    requires IsCollation(c)
    ensures !Before(c, x, x)
    ensures Before(c, x, y) ==> !Before(c, y, x)
    ensures Before(c, x, y) && Before(c, y, z) ==> Before(c, x, z)
  {
    hide IsDigits, DigitsValue;
  }

  /** Only keys that are no indices can tie, and a key ties with what its ties tie with. */
  lemma TiesAreCollation(c: Collation, x: string, y: string, z: string)
    requires IsCollation(c) && Tied(c, x, y)
    ensures !IsIndex(x) && !IsIndex(y) && c(x, y) == 0
    ensures Before(c, z, x) <==> Before(c, z, y)
  {
    if IsIndex(x) && IsIndex(y) && DigitsValue(x) == DigitsValue(y) {
      IndicesDiffer(x, y);
    }
    hide IsDigits, DigitsValue;
  }

  function Place(c: Collation, e: Entry, sorted: seq<Entry>): (r: seq<Entry>)
    ensures |r| == |sorted| + 1
  {
    if sorted == [] || !Before(c, sorted[0].key, e.key) then [e] + sorted
    else [sorted[0]] + Place(c, e, sorted[1..])
  }

  /** `Object.fromEntries(Object.entries(v).sort(...))`: a stable sort. */
  function Arrange(c: Collation, es: seq<Entry>): (r: seq<Entry>)
    ensures |r| == |es|
  {
    if es == [] then [] else Place(c, es[0], Arrange(c, es[1..]))
  }

  lemma {:induction false} PlaceKeeps(c: Collation, e: Entry, sorted: seq<Entry>)
    ensures forall x :: x in Place(c, e, sorted) <==> x == e || x in sorted
    ensures DistinctKeys(sorted) && !HasKey(sorted, e.key) ==> DistinctKeys(Place(c, e, sorted))
  {
    hide Before;
    if sorted != [] && Before(c, sorted[0].key, e.key) {
      PlaceKeeps(c, e, sorted[1..]);
      var rest := Place(c, e, sorted[1..]);
      assert forall x :: x in sorted <==> x == sorted[0] || x in sorted[1..];
      if DistinctKeys(sorted) && !HasKey(sorted, e.key) {
        assert !HasKey(sorted[1..], e.key) by {
          assert forall i :: 0 <= i < |sorted[1..]| ==> sorted[1..][i] == sorted[i + 1];
        }
        forall j | 0 <= j < |rest| ensures rest[j].key != sorted[0].key {
          assert rest[j] in rest;
        }
      }
    }
  }

  lemma {:induction false} ArrangeKeeps(c: Collation, es: seq<Entry>)
    ensures forall x :: x in Arrange(c, es) <==> x in es
    ensures DistinctKeys(es) ==> DistinctKeys(Arrange(c, es))
  {
    if es != [] {
      hide Place;
      ArrangeKeeps(c, es[1..]);
      var rest := Arrange(c, es[1..]);
      PlaceKeeps(c, es[0], rest);
      assert forall x :: x in es <==> x == es[0] || x in es[1..];
      if DistinctKeys(es) {
        forall i | 0 <= i < |rest| ensures rest[i].key != es[0].key {
          assert rest[i] in rest;
        }
        assert !HasKey(rest, es[0].key);
      }
    }
  }

  predicate StrictlySorted(c: Collation, es: seq<Entry>) {
    forall i, j :: 0 <= i < j < |es| ==> Before(c, es[i].key, es[j].key)
  }

  predicate Untied(c: Collation, es: seq<Entry>) {
    forall i, j :: 0 <= i < |es| && 0 <= j < |es| ==> !Tied(c, es[i].key, es[j].key)
  }

  lemma {:induction false} PlaceSorts(c: Collation, e: Entry, sorted: seq<Entry>)
    requires IsCollation(c) && StrictlySorted(c, sorted)
    requires forall x :: x in sorted ==> x.key != e.key && !Tied(c, x.key, e.key)
    ensures StrictlySorted(c, Place(c, e, sorted))
  {
    var placed := Place(c, e, sorted);
    if sorted == [] {
    } else if !Before(c, sorted[0].key, e.key) {
      forall j | 0 <= j < |sorted| ensures Before(c, e.key, sorted[j].key) {
        BeforeIsStrict(c, e.key, sorted[0].key, sorted[j].key);
        assert sorted[0] in sorted && sorted[j] in sorted;
      }
    } else {
      hide Before;
      PlaceSorts(c, e, sorted[1..]);
      PlaceKeeps(c, e, sorted[1..]);
      var rest := Place(c, e, sorted[1..]);
      forall j | 0 <= j < |rest| ensures Before(c, sorted[0].key, rest[j].key) {
        assert rest[j] in rest;
      }
    }
  }

  lemma {:induction false} ArrangeSorts(c: Collation, es: seq<Entry>)
    requires IsCollation(c) && DistinctKeys(es) && Untied(c, es)
    ensures StrictlySorted(c, Arrange(c, es))
  {
    if es != [] {
      hide Place, Tied;
      assert Untied(c, es[1..]) by {
        assert forall i :: 0 <= i < |es[1..]| ==> es[1..][i] == es[i + 1];
      }
      ArrangeSorts(c, es[1..]);
      ArrangeKeeps(c, es[1..]);
      PlaceSorts(c, es[0], Arrange(c, es[1..]));
    }
  }

  lemma {:induction false} SortedIsUnique(c: Collation, s: seq<Entry>, t: seq<Entry>)
    requires IsCollation(c) && StrictlySorted(c, s) && StrictlySorted(c, t)
    requires forall e :: e in s <==> e in t
    ensures s == t
  {
    FirstIsIn(t);
    if s != [] {
      assert s[0] in t && t != [] && t[0] in s;
      BeforeIsStrict(c, s[0].key, t[0].key, s[0].key);
      assert s[0] == t[0];
      forall e ensures e in s[1..] <==> e in t[1..] {
        TailOfSorted(c, s, e);
        TailOfSorted(c, t, e);
      }
      hide Before;
      SortedIsUnique(c, s[1..], t[1..]);
      assert s == [s[0]] + s[1..] && t == [t[0]] + t[1..];
    }
  }

  lemma FirstIsIn(t: seq<Entry>)
    ensures t != [] ==> t[0] in t
  {
  }

  lemma TailOfSorted(c: Collation, s: seq<Entry>, e: Entry)
    requires IsCollation(c) && StrictlySorted(c, s) && s != []
    ensures e in s[1..] <==> e in s && e != s[0]
  {
    hide Before;
    BeforeIsStrict(c, s[0].key, s[0].key, s[0].key);
    assert forall x :: x in s <==> x == s[0] || x in s[1..];
    if e in s[1..] {
      var i :| 0 <= i < |s[1..]| && s[1..][i] == e;
      assert Before(c, s[0].key, s[i + 1].key);
    }
  }

  /** Two tied entries keep the order in which they come. */
  lemma {:induction false} TiesStay(c: Collation, x: Entry, y: Entry, rest: seq<Entry>)
    requires IsCollation(c) && Tied(c, x.key, y.key)
    ensures Place(c, x, Place(c, y, rest)) != Place(c, y, Place(c, x, rest))
  {
    var xy, yx := Place(c, x, Place(c, y, rest)), Place(c, y, Place(c, x, rest));
    if rest == [] {
      assert xy[0] == x && yx[0] == y;
    } else {
      TiesAreCollation(c, x.key, y.key, rest[0].key);
      if !Before(c, rest[0].key, x.key) {
        assert xy[0] == x && yx[0] == y;
      } else {
        TiesStay(c, x, y, rest[1..]);
        assert Place(c, y, rest)[1..] == Place(c, y, rest[1..]);
        assert Place(c, x, rest)[1..] == Place(c, x, rest[1..]);
        assert xy[1..] == Place(c, x, Place(c, y, rest[1..]));
        assert yx[1..] == Place(c, y, Place(c, x, rest[1..]));
      }
    }
  }

  // ---------------------------------------------------------------- the canonical text

  /** The value the replacer of `canonical` builds: every object sorted, at every depth. */
  function Normalize(c: Collation, v: Json): Json
    decreases v
  {
    match v
    case Arr(items) => Arr(seq(|items|, i requires 0 <= i < |items| => Normalize(c, items[i])))
    case Obj(es) =>
      Obj(Arrange(c, seq(|es|, i requires 0 <= i < |es| => Entry(es[i].key, Normalize(c, es[i].value)))))
    case _ => v
  }

  function Canonical(c: Collation, v: Json): string {
    Text(Normalize(c, v))
  }

  /** The entries of an object with normalized values, before sorting. */
  function Prepared(c: Collation, es: seq<Entry>): (r: seq<Entry>)
    ensures |r| == |es|
  {
    seq(|es|, i requires 0 <= i < |es| => Entry(es[i].key, Normalize(c, es[i].value)))
  }

  lemma NormalizeObj(c: Collation, es: seq<Entry>)
    ensures Normalize(c, Obj(es)) == Obj(Arrange(c, Prepared(c, es)))
    ensures forall i :: 0 <= i < |es| ==> Prepared(c, es)[i] == Entry(es[i].key, Normalize(c, es[i].value))
    ensures DistinctKeys(es) ==> DistinctKeys(Prepared(c, es))
    ensures Untied(c, es) <==> Untied(c, Prepared(c, es))
  {
    hide Tied;
  }

  lemma {:induction false} NormalizeIsValue(c: Collation, v: Json)
    requires IsValue(v)
    ensures IsValue(Normalize(c, v))
    decreases v
  {
    match v {
      case Arr(items) =>
        forall i | 0 <= i < |items| { NormalizeIsValue(c, items[i]); }
      case Obj(es) =>
        forall i | 0 <= i < |es| { NormalizeIsValue(c, es[i].value); }
        NormalizeObj(c, es);
        hide Normalize, Arrange;
        ArrangeKeeps(c, Prepared(c, es));
        var sorted := Arrange(c, Prepared(c, es));
        forall i | 0 <= i < |sorted| ensures IsValue(sorted[i].value) {
          assert sorted[i] in Prepared(c, es);
        }
      case _ =>
    }
  }

  /** Each entry of an object is found again among its sorted, normalized entries. */
  lemma EntryIsArranged(c: Collation, es: seq<Entry>, i: nat) returns (j: nat)
    requires i < |es|
    ensures var sorted := Arrange(c, Prepared(c, es));
      j < |sorted| && sorted[j] == Entry(es[i].key, Normalize(c, es[i].value))
  {
    hide Arrange, Normalize;
    NormalizeObj(c, es);
    ArrangeKeeps(c, Prepared(c, es));
    var sorted := Arrange(c, Prepared(c, es));
    assert Prepared(c, es)[i] in sorted;
    j :| 0 <= j < |sorted| && sorted[j] == Prepared(c, es)[i];
  }

  lemma ArrangedIsEntry(c: Collation, es: seq<Entry>, j: nat) returns (i: nat)
    requires j < |es|
    ensures i < |es| && Arrange(c, Prepared(c, es))[j] == Entry(es[i].key, Normalize(c, es[i].value))
  {
    hide Arrange, Normalize;
    NormalizeObj(c, es);
    ArrangeKeeps(c, Prepared(c, es));
    var sorted := Arrange(c, Prepared(c, es));
    assert sorted[j] in Prepared(c, es);
    i :| 0 <= i < |es| && sorted[j] == Prepared(c, es)[i];
  }

  lemma ArrangedKeys(c: Collation, es: seq<Entry>, k: string)
    ensures HasKey(es, k) <==> HasKey(Arrange(c, Prepared(c, es)), k)
  {
    hide Arrange, Normalize;
    var sorted := Arrange(c, Prepared(c, es));
    if HasKey(es, k) {
      var i :| 0 <= i < |es| && es[i].key == k;
      var j := EntryIsArranged(c, es, i);
      assert sorted[j].key == k;
    }
    if HasKey(sorted, k) {
      var j :| 0 <= j < |sorted| && sorted[j].key == k;
      var i := ArrangedIsEntry(c, es, j);
      assert es[i].key == k;
    }
  }

  /** Two values with the same normal form are equal up to key order. */
  lemma {:induction false} NormalFormSound(c: Collation, a: Json, b: Json)
    requires IsValue(a) && IsValue(b) && Normalize(c, a) == Normalize(c, b)
    ensures Same(a, b)
    decreases a
  {
    match a {
      case Arr(items) =>
        forall i | 0 <= i < |items| ensures Same(items[i], b.items[i]) {
          assert Normalize(c, a).items[i] == Normalize(c, b).items[i];
          NormalFormSound(c, items[i], b.items[i]);
        }
      case Obj(es) => ObjectFormSound(c, a, b);
      case _ =>
    }
  }

  lemma {:induction false} ObjectFormSound(c: Collation, a: Json, b: Json)
    requires IsValue(a) && IsValue(b) && a.Obj? && Normalize(c, a) == Normalize(c, b)
    ensures Same(a, b)
    decreases a, 0
  {
    FormOfObject(c, a, b);
    var es, fs := a.entries, b.entries;
    hide *;
    forall k ensures HasKey(es, k) <==> HasKey(fs, k) {
      ArrangedKeys(c, es, k);
      ArrangedKeys(c, fs, k);
    }
    forall i, j | 0 <= i < |es| && 0 <= j < |fs| && es[i].key == fs[j].key ensures Same(es[i].value, fs[j].value) {
      SharedForm(c, es, fs, i, j);
      NormalFormSound(c, es[i].value, fs[j].value);
    }
    SameObjects(es, fs);
  }

  lemma FormOfObject(c: Collation, a: Json, b: Json)
    requires IsValue(a) && IsValue(b) && a.Obj? && Normalize(c, a) == Normalize(c, b)
    ensures b.Obj? && DistinctKeys(a.entries) && DistinctKeys(b.entries)
    ensures Arrange(c, Prepared(c, a.entries)) == Arrange(c, Prepared(c, b.entries))
    ensures forall i :: 0 <= i < |a.entries| ==> IsValue(a.entries[i].value)
    ensures forall i :: 0 <= i < |b.entries| ==> IsValue(b.entries[i].value)
  {
    assert b.Obj?;
    hide Arrange, Normalize, Prepared, DistinctKeys;
    NormalizeObj(c, a.entries);
    NormalizeObj(c, b.entries);
  }

  lemma SameObjects(es: seq<Entry>, fs: seq<Entry>)
    requires forall k :: HasKey(es, k) <==> HasKey(fs, k)
    requires forall i, j :: 0 <= i < |es| && 0 <= j < |fs| && es[i].key == fs[j].key ==> Same(es[i].value, fs[j].value)
    ensures Same(Obj(es), Obj(fs))
  {
    hide HasKey;
  }

  /** Objects arranged alike have the same normal form under each key. */
  lemma SharedForm(c: Collation, es: seq<Entry>, fs: seq<Entry>, i: nat, j: nat)
    requires DistinctKeys(es) && DistinctKeys(fs) && i < |es| && j < |fs| && es[i].key == fs[j].key
    requires Arrange(c, Prepared(c, es)) == Arrange(c, Prepared(c, fs))
    ensures Normalize(c, es[i].value) == Normalize(c, fs[j].value)
  {
    hide Arrange, Normalize, Prepared, DistinctKeys;
    NormalizeObj(c, es);
    ArrangeKeeps(c, Prepared(c, es));
    var m := EntryIsArranged(c, es, i);
    var n := EntryIsArranged(c, fs, j);
    OneEntry(Arrange(c, Prepared(c, es)), m, n);
  }

  lemma OneEntry(es: seq<Entry>, m: nat, n: nat)
    requires DistinctKeys(es) && m < |es| && n < |es| && es[m].key == es[n].key
    ensures es[m] == es[n]
  {
  }

  /** No object has two tied keys, at any depth. */
  predicate NoTies(c: Collation, v: Json) {
    match v
    case Arr(items) => forall i :: 0 <= i < |items| ==> NoTies(c, items[i])
    case Obj(es) => Untied(c, es) && forall i :: 0 <= i < |es| ==> NoTies(c, es[i].value)
    case _ => true
  }

  /** Without ties, values equal up to key order have the same normal form. */
  lemma {:induction false} NormalFormComplete(c: Collation, a: Json, b: Json)
    requires IsCollation(c) && IsValue(a) && IsValue(b) && Same(a, b) && NoTies(c, a)
    ensures Normalize(c, a) == Normalize(c, b)
    decreases a
  {
    match a {
      case Arr(items) =>
        forall i | 0 <= i < |items| ensures Normalize(c, items[i]) == Normalize(c, b.items[i]) {
          NormalFormComplete(c, items[i], b.items[i]);
        }
      case Obj(es) => ObjectFormComplete(c, a, b);
      case _ =>
    }
  }

  lemma {:induction false} ObjectFormComplete(c: Collation, a: Json, b: Json)
    requires IsCollation(c) && IsValue(a) && IsValue(b) && a.Obj? && Same(a, b) && NoTies(c, a)
    ensures Normalize(c, a) == Normalize(c, b)
    decreases a, 0
  {
    var es, fs := a.entries, b.entries;
    NormalizeObj(c, es);
    NormalizeObj(c, fs);
    UntiedByKeys(c, es, fs);
    hide Arrange, Normalize, Tied;
    forall i, j | 0 <= i < |es| && 0 <= j < |fs| && es[i].key == fs[j].key
      ensures Normalize(c, es[i].value) == Normalize(c, fs[j].value)
    {
      NormalFormComplete(c, es[i].value, fs[j].value);
    }
    SamePrepared(c, es, fs);
    ArrangeSorts(c, Prepared(c, es));
    ArrangeSorts(c, Prepared(c, fs));
    ArrangeKeeps(c, Prepared(c, es));
    ArrangeKeeps(c, Prepared(c, fs));
    SortedIsUnique(c, Arrange(c, Prepared(c, es)), Arrange(c, Prepared(c, fs)));
  }

  lemma UntiedByKeys(c: Collation, es: seq<Entry>, fs: seq<Entry>)
    requires Untied(c, es) && forall k :: HasKey(fs, k) ==> HasKey(es, k)
    ensures Untied(c, fs)
  {
    hide Tied;
    forall i, j | 0 <= i < |fs| && 0 <= j < |fs| ensures !Tied(c, fs[i].key, fs[j].key) {
      assert HasKey(fs, fs[i].key) && HasKey(fs, fs[j].key);
      var m :| 0 <= m < |es| && es[m].key == fs[i].key;
      var n :| 0 <= n < |es| && es[n].key == fs[j].key;
    }
  }

  lemma SamePrepared(c: Collation, es: seq<Entry>, fs: seq<Entry>)
    requires forall k :: HasKey(es, k) <==> HasKey(fs, k)
    requires forall i, j :: 0 <= i < |es| && 0 <= j < |fs| && es[i].key == fs[j].key ==>
      Normalize(c, es[i].value) == Normalize(c, fs[j].value)
    ensures forall e :: e in Prepared(c, es) <==> e in Prepared(c, fs)
  {
    hide Normalize;
    PreparedWithin(c, es, fs);
    PreparedWithin(c, fs, es);
  }

  lemma PreparedWithin(c: Collation, es: seq<Entry>, fs: seq<Entry>)
    requires forall k :: HasKey(es, k) ==> HasKey(fs, k)
    requires forall i, j :: 0 <= i < |es| && 0 <= j < |fs| && es[i].key == fs[j].key ==>
      Normalize(c, es[i].value) == Normalize(c, fs[j].value)
    ensures forall e :: e in Prepared(c, es) ==> e in Prepared(c, fs)
  {
    hide Normalize;
    forall e | e in Prepared(c, es) ensures e in Prepared(c, fs) {
      var i :| 0 <= i < |es| && Prepared(c, es)[i] == e;
      assert HasKey(es, es[i].key);
      var j :| 0 <= j < |fs| && fs[j].key == es[i].key;
      assert Prepared(c, fs)[j] == e;
    }
  }

  // ---------------------------------------------------------------- where ties show

  lemma {:induction false} SameReflexive(a: Json)
    requires IsValue(a)
    ensures Same(a, a)
    decreases a
  {
    match a {
      case Arr(items) =>
        forall i | 0 <= i < |items| { SameReflexive(items[i]); }
      case Obj(es) =>
        forall i, j | 0 <= i < |es| && 0 <= j < |es| && es[i].key == es[j].key ensures Same(es[i].value, es[j].value) {
          SameReflexive(es[i].value);
          assert i == j;
        }
      case _ =>
    }
  }

  /** The same entries in another order. */
  lemma PermutedSame(es: seq<Entry>, fs: seq<Entry>)
    requires IsValue(Obj(es)) && forall e :: e in es <==> e in fs
    ensures Same(Obj(es), Obj(fs))
  {
    forall k ensures HasKey(es, k) <==> HasKey(fs, k) {
      if HasKey(es, k) {
        var i :| 0 <= i < |es| && es[i].key == k;
        assert es[i] in fs;
      }
      if HasKey(fs, k) {
        var i :| 0 <= i < |fs| && fs[i].key == k;
        assert fs[i] in es;
      }
    }
    forall i, j | 0 <= i < |es| && 0 <= j < |fs| && es[i].key == fs[j].key ensures Same(es[i].value, fs[j].value) {
      assert fs[j] in es;
      SameReflexive(es[i].value);
    }
  }

  /** Another value for one key. */
  lemma ReplacedSame(es: seq<Entry>, i: nat, v: Json)
    requires IsValue(Obj(es)) && i < |es| && IsValue(v) && Same(es[i].value, v)
    ensures IsValue(Obj(es[i := Entry(es[i].key, v)])) && Same(Obj(es), Obj(es[i := Entry(es[i].key, v)]))
  {
    var fs := es[i := Entry(es[i].key, v)];
    assert forall j :: 0 <= j < |es| ==> fs[j].key == es[j].key;
    forall j, k | 0 <= j < |es| && 0 <= k < |fs| && es[j].key == fs[k].key ensures Same(es[j].value, fs[k].value) {
      if k != i {
        SameReflexive(es[j].value);
      }
      assert j == k;
    }
  }

  lemma ReplacedShows(c: Collation, es: seq<Entry>, i: nat, v: Json)
    requires DistinctKeys(es) && i < |es| && Normalize(c, Faded(es[i].value)) != Normalize(c, Faded(v))
    ensures Normalize(c, Faded(Obj(es))) != Normalize(c, Faded(Obj(es[i := Entry(es[i].key, v)])))
  {
    var fs := FadedEntries(es);
    var gs := FadedEntries(es[i := Entry(es[i].key, v)]);
    assert DistinctKeys(fs) && DistinctKeys(gs);
    hide Normalize, Arrange, Prepared, DistinctKeys;
    NormalizeObj(c, fs);
    NormalizeObj(c, gs);
    if Arrange(c, Prepared(c, fs)) == Arrange(c, Prepared(c, gs)) {
      SharedForm(c, fs, gs, i, i);
    }
  }

  function ToFront(es: seq<Entry>, i: nat): seq<Entry>
    requires i < |es|
  {
    [es[i]] + (es[..i] + es[i + 1..])
  }

  lemma ToFrontPermutes(es: seq<Entry>, i: nat)
    requires IsValue(Obj(es)) && i < |es|
    ensures IsValue(Obj(ToFront(es, i))) && forall e :: e in es <==> e in ToFront(es, i)
  {
    var fs := ToFront(es, i);
    assert forall k :: 0 < k < |fs| ==> fs[k] == es[if k <= i then k - 1 else k];
    forall e | e in es ensures e in fs {
      var k :| 0 <= k < |es| && es[k] == e;
      assert fs[if k == i then 0 else if k < i then k + 1 else k] == e;
    }
  }

  lemma ToFrontTwice(es: seq<Entry>, i: nat, j: nat)
    requires i < j < |es|
    ensures var rest := es[..i] + es[i + 1..j] + es[j + 1..];
      && ToFront(ToFront(es, j), i + 1) == [es[i], es[j]] + rest
      && ToFront(ToFront(es, i), j) == [es[j], es[i]] + rest
  {
    var rest := es[..i] + es[i + 1..j] + es[j + 1..];
    var f, g := ToFront(es, j), ToFront(es, i);
    assert f[..i + 1] == [es[j]] + es[..i] && f[i + 2..] == es[i + 1..j] + es[j + 1..];
    assert g[..j] == [es[i]] + es[..i] + es[i + 1..j] && g[j + 1..] == es[j + 1..];
    assert f[..i + 1] + f[i + 2..] == [es[j]] + rest;
    assert g[..j] + g[j + 1..] == [es[i]] + rest;
  }

  /** Two tied keys of one object: some order of its entries gives another text. */
  lemma TiedEntriesShow(c: Collation, es: seq<Entry>, i: nat, j: nat) returns (b: Json)
    requires IsCollation(c) && IsValue(Obj(es)) && i < j < |es| && Tied(c, es[i].key, es[j].key)
    ensures IsValue(b) && Same(Obj(es), b) && Normalize(c, Faded(Obj(es))) != Normalize(c, Faded(b))
  {
    var x, y, rest := es[i], es[j], es[..i] + es[i + 1..j] + es[j + 1..];
    var xy, yx := ToFront(ToFront(es, j), i + 1), ToFront(ToFront(es, i), j);
    ToFrontPermutes(es, i);
    ToFrontPermutes(es, j);
    ToFrontPermutes(ToFront(es, j), i + 1);
    ToFrontPermutes(ToFront(es, i), j);
    ToFrontTwice(es, i, j);
    hide IsValue, ToFront, Normalize, Tied;
    PermutedSame(es, xy);
    PermutedSame(es, yx);
    FadedTwo(x, y, rest);
    FadedTwo(y, x, rest);
    SwappedShows(c, Entry(x.key, Faded(x.value)), Entry(y.key, Faded(y.value)), FadedEntries(rest));
    b := if Normalize(c, Faded(Obj(es))) != Normalize(c, Faded(Obj(xy))) then Obj(xy) else Obj(yx);
  }

  lemma FadedTwo(x: Entry, y: Entry, rest: seq<Entry>)
    ensures Faded(Obj([x, y] + rest))
      == Obj([Entry(x.key, Faded(x.value)), Entry(y.key, Faded(y.value))] + FadedEntries(rest))
  {
    assert FadedEntries([x, y] + rest)
      == [Entry(x.key, Faded(x.value)), Entry(y.key, Faded(y.value))] + FadedEntries(rest);
  }

  lemma PreparedTwo(c: Collation, x: Entry, y: Entry, rest: seq<Entry>)
    ensures Prepared(c, [x, y] + rest)
      == [Entry(x.key, Normalize(c, x.value)), Entry(y.key, Normalize(c, y.value))] + Prepared(c, rest)
  {
    hide Normalize;
  }

  lemma SwappedShows(c: Collation, x: Entry, y: Entry, rest: seq<Entry>)
    requires IsCollation(c) && Tied(c, x.key, y.key)
    ensures Normalize(c, Obj([x, y] + rest)) != Normalize(c, Obj([y, x] + rest))
  {
    hide Normalize, Prepared, Arrange, Place;
    NormalizeObj(c, [x, y] + rest);
    NormalizeObj(c, [y, x] + rest);
    var px, py := Entry(x.key, Normalize(c, x.value)), Entry(y.key, Normalize(c, y.value));
    PreparedTwo(c, x, y, rest);
    PreparedTwo(c, y, x, rest);
    ArrangeTwo(c, px, py, Prepared(c, rest));
    ArrangeTwo(c, py, px, Prepared(c, rest));
    TiesStay(c, px, py, Arrange(c, Prepared(c, rest)));
  }

  lemma ArrangeTwo(c: Collation, x: Entry, y: Entry, rest: seq<Entry>)
    ensures Arrange(c, [x, y] + rest) == Place(c, x, Place(c, y, Arrange(c, rest)))
  {
    hide Place;
    assert ([x, y] + rest)[1..] == [y] + rest && ([y] + rest)[1..] == rest;
  }

  lemma {:induction false} TiesShow(c: Collation, a: Json) returns (b: Json)
    requires IsCollation(c) && IsValue(a) && !NoTies(c, a)
    ensures IsValue(b) && Same(a, b) && Normalize(c, Faded(a)) != Normalize(c, Faded(b))
    decreases a
  {
    hide Same, Normalize, Faded, Tied;
    match a {
      case Arr(items) =>
        var i :| 0 <= i < |items| && !NoTies(c, items[i]);
        var v := TiesShow(c, items[i]);
        ItemShows(c, items, i, v);
        b := Arr(items[i := v]);
      case Obj(es) =>
        if i :| 0 <= i < |es| && !NoTies(c, es[i].value) {
          var v := TiesShow(c, es[i].value);
          ReplacedSame(es, i, v);
          ReplacedShows(c, es, i, v);
          b := Obj(es[i := Entry(es[i].key, v)]);
        } else {
          var i, j :| 0 <= i < |es| && 0 <= j < |es| && Tied(c, es[i].key, es[j].key);
          TiedIsSymmetric(c, es[i].key, es[j].key);
          b := TiedEntriesShow(c, es, if i < j then i else j, if i < j then j else i);
        }
      case _ => b := a;
    }
  }

  lemma TiedIsSymmetric(c: Collation, k: string, l: string)
    ensures Tied(c, k, l) ==> Tied(c, l, k) && k != l
  {
  }

  lemma ItemShows(c: Collation, items: seq<Json>, i: nat, v: Json)
    requires IsValue(Arr(items)) && i < |items|
    requires Same(items[i], v) && Normalize(c, Faded(items[i])) != Normalize(c, Faded(v))
    ensures var a, b := Arr(items), Arr(items[i := v]);
      Same(a, b) && Normalize(c, Faded(a)) != Normalize(c, Faded(b))
  {
    var replaced := items[i := v];
    forall k | 0 <= k < |items| ensures Same(items[k], replaced[k]) {
      SameReflexive(items[k]);
    }
    assert Normalize(c, Faded(Arr(items))).items[i] != Normalize(c, Faded(Arr(replaced))).items[i];
  }

  // ---------------------------------------------------------------- what overflow hides

  /** No overflowed number, at any depth. */
  predicate Finite(v: Json) {
    match v
    case Overflow(_) => false
    case Arr(items) => forall i :: 0 <= i < |items| ==> Finite(items[i])
    case Obj(es) => forall i :: 0 <= i < |es| ==> Finite(es[i].value)
    case _ => true
  }

  /** Nothing that is printed as `null`, at any depth. */
  predicate NoNulls(v: Json) {
    match v
    case Null => false
    case Overflow(_) => false
    case Arr(items) => forall i :: 0 <= i < |items| ==> NoNulls(items[i])
    case Obj(es) => forall i :: 0 <= i < |es| ==> NoNulls(es[i].value)
    case _ => true
  }

  lemma {:induction false} FiniteIsFaded(v: Json)
    requires Finite(v)
    ensures Faded(v) == v
    decreases v
  {
    match v {
      case Arr(items) =>
        forall i | 0 <= i < |items| { FiniteIsFaded(items[i]); }
        assert FadedItems(items) == items;
      case Obj(es) =>
        forall i | 0 <= i < |es| { FiniteIsFaded(es[i].value); }
        assert FadedEntries(es) == es;
      case _ =>
    }
  }

  lemma {:induction false} FadedIsValue(v: Json)
    requires IsValue(v)
    ensures IsValue(Faded(v)) && Finite(Faded(v))
    decreases v
  {
    match v {
      case Arr(items) =>
        forall i | 0 <= i < |items| { FadedIsValue(items[i]); }
      case Obj(es) =>
        forall i | 0 <= i < |es| { FadedIsValue(es[i].value); }
      case _ =>
    }
  }

  lemma {:induction false} FadedTies(c: Collation, v: Json)
    requires NoTies(c, v)
    ensures NoTies(c, Faded(v))
    decreases v
  {
    hide Tied;
    match v {
      case Arr(items) =>
        forall i | 0 <= i < |items| { FadedTies(c, items[i]); }
      case Obj(es) =>
        forall i | 0 <= i < |es| { FadedTies(c, es[i].value); }
      case _ =>
    }
  }

  /** Sorting keys and losing overflowed numbers do not interfere. */
  lemma {:induction false} NormalizeFaded(c: Collation, v: Json)
    ensures Normalize(c, Faded(v)) == Faded(Normalize(c, v))
    decreases v
  {
    match v {
      case Arr(items) =>
        forall i | 0 <= i < |items| { NormalizeFaded(c, items[i]); }
        assert Normalize(c, Faded(v)).items == Faded(Normalize(c, v)).items;
      case Obj(es) =>
        forall i | 0 <= i < |es| { NormalizeFaded(c, es[i].value); }
        NormalizeObj(c, es);
        NormalizeObj(c, FadedEntries(es));
        assert Prepared(c, FadedEntries(es)) == FadedEntries(Prepared(c, es));
        hide Normalize, Prepared;
        ArrangeFaded(c, Prepared(c, es));
      case _ =>
    }
  }

  lemma {:induction false} ArrangeFaded(c: Collation, es: seq<Entry>)
    ensures Arrange(c, FadedEntries(es)) == FadedEntries(Arrange(c, es))
  {
    if es != [] {
      hide Place, Faded;
      FadedFirst(es);
      ArrangeFaded(c, es[1..]);
      PlaceFaded(c, es[0], Arrange(c, es[1..]));
    }
  }

  lemma {:induction false} PlaceFaded(c: Collation, e: Entry, sorted: seq<Entry>)
    ensures Place(c, Entry(e.key, Faded(e.value)), FadedEntries(sorted)) == FadedEntries(Place(c, e, sorted))
  {
    hide Before, Faded;
    var placed := Place(c, e, sorted);
    FadedFirst(placed);
    if sorted != [] && Before(c, sorted[0].key, e.key) {
      FadedFirst(sorted);
      PlaceFaded(c, e, sorted[1..]);
      assert placed[1..] == Place(c, e, sorted[1..]);
    } else {
      assert placed[1..] == sorted;
    }
  }

  /** The same kind of value. */
  lemma {:induction false} SameFaded(a: Json, b: Json)
    requires Same(a, b)
    ensures Same(Faded(a), Faded(b))
    decreases a
  {
    match a {
      case Arr(items) =>
        forall i | 0 <= i < |items| ensures Same(FadedItems(items)[i], FadedItems(b.items)[i]) {
          SameFaded(items[i], b.items[i]);
        }
      case Obj(es) =>
        FadedKeys(es);
        FadedKeys(b.entries);
        forall i, j | 0 <= i < |es| && 0 <= j < |b.entries| && es[i].key == b.entries[j].key
          ensures Same(FadedEntries(es)[i].value, FadedEntries(b.entries)[j].value)
        {
          SameFaded(es[i].value, b.entries[j].value);
        }
      case _ =>
    }
  }

  lemma FadedKeys(es: seq<Entry>)
    ensures forall k :: HasKey(FadedEntries(es), k) <==> HasKey(es, k)
  {
    hide Faded;
    forall k ensures HasKey(FadedEntries(es), k) <==> HasKey(es, k) {
      if HasKey(es, k) {
        var i :| 0 <= i < |es| && es[i].key == k;
        assert FadedEntries(es)[i].key == k;
      }
    }
  }

  /** A value without nulls is recognised behind any other value's text. */
  lemma {:induction false} NoNullsShow(a: Json, b: Json)
    requires NoNulls(a) && Same(a, Faded(b))
    ensures Same(a, b)
    decreases a
  {
    match a {
      case Arr(items) =>
        forall i | 0 <= i < |items| ensures Same(items[i], b.items[i]) {
          assert Same(items[i], FadedItems(b.items)[i]);
          NoNullsShow(items[i], b.items[i]);
        }
      case Obj(es) =>
        FadedKeys(b.entries);
        forall i, j | 0 <= i < |es| && 0 <= j < |b.entries| && es[i].key == b.entries[j].key
          ensures Same(es[i].value, b.entries[j].value)
        {
          assert Same(es[i].value, FadedEntries(b.entries)[j].value);
          NoNullsShow(es[i].value, b.entries[j].value);
        }
      case _ =>
    }
  }

  /** A null, or an overflowed number, has another in its place with the same text. */
  lemma {:induction false} NullsHide(a: Json) returns (b: Json)
    requires IsValue(a) && !NoNulls(a)
    ensures IsValue(b) && Faded(a) == Faded(b) && !Same(a, b)
    decreases a
  {
    hide Faded, Same;
    match a {
      case Null => b := NullPair(a);
      case Overflow(_) => b := NullPair(a);
      case Arr(items) =>
        var i :| 0 <= i < |items| && !NoNulls(items[i]);
        var v := NullsHide(items[i]);
        b := Arr(items[i := v]);
        ItemHides(items, i, v);
      case Obj(es) =>
        var i :| 0 <= i < |es| && !NoNulls(es[i].value);
        var v := NullsHide(es[i].value);
        b := Obj(es[i := Entry(es[i].key, v)]);
        EntryHides(es, i, v);
      case _ => b := a;
    }
  }

  lemma NullPair(a: Json) returns (b: Json)
    requires a.Null? || a.Overflow?
    ensures IsValue(b) && Faded(a) == Faded(b) && !Same(a, b)
  {
    b := if a.Null? then Overflow(false) else Null;
  }

  lemma ItemHides(items: seq<Json>, i: nat, v: Json)
    requires i < |items| && Faded(items[i]) == Faded(v) && !Same(items[i], v)
    ensures var a, b := Arr(items), Arr(items[i := v]); Faded(a) == Faded(b) && !Same(a, b)
  {
    var replaced := items[i := v];
    assert FadedItems(replaced) == FadedItems(items);
    assert !Same(items[i], replaced[i]);
  }

  lemma EntryHides(es: seq<Entry>, i: nat, v: Json)
    requires i < |es| && Faded(es[i].value) == Faded(v) && !Same(es[i].value, v)
    ensures var a, b := Obj(es), Obj(es[i := Entry(es[i].key, v)]); Faded(a) == Faded(b) && !Same(a, b)
  {
    var replaced := es[i := Entry(es[i].key, v)];
    assert FadedEntries(replaced) == FadedEntries(es);
    assert es[i].key == replaced[i].key && !Same(es[i].value, replaced[i].value);
  }

  // ---------------------------------------------------------------- the law of `canonical`

  /** Canonical texts are equal exactly when the normal forms are, up to what the text loses. */
  lemma CanonicalMeans(c: Collation, a: Json, b: Json)
    requires IsValue(a) && IsValue(b)
    ensures Canonical(c, a) == Canonical(c, b) <==> Normalize(c, Faded(a)) == Normalize(c, Faded(b))
  {
    NormalizeIsValue(c, a);
    NormalizeIsValue(c, b);
    NormalizeFaded(c, a);
    NormalizeFaded(c, b);
    hide Normalize, Text, IsValue, Faded;
    TextInjective(Normalize(c, a), Normalize(c, b));
  }

  /** Equal canonical texts mean values equal up to key order and to overflowed numbers read as `null`,
      whatever the collation. */
  lemma CanonicalSound(c: Collation, a: Json, b: Json)
    requires IsValue(a) && IsValue(b) && Canonical(c, a) == Canonical(c, b)
    ensures Same(Faded(a), Faded(b))
    ensures Finite(a) && Finite(b) ==> Same(a, b)
  {
    CanonicalMeans(c, a, b);
    hide Canonical, Normalize, IsValue, Same, Finite, Faded;
    FadedIsValue(a);
    FadedIsValue(b);
    NormalFormSound(c, Faded(a), Faded(b));
    if Finite(a) && Finite(b) {
      FiniteIsFaded(a);
      FiniteIsFaded(b);
    }
  }

  /** The text of a value stands for that value alone, up to key order, exactly when it holds neither
      `null` nor an overflowed number. */
  lemma CanonicalSoundIff(c: Collation, a: Json)
    requires IsValue(a)
    ensures (forall b :: IsValue(b) && Canonical(c, a) == Canonical(c, b) ==> Same(a, b)) <==> NoNulls(a)
  {
    if NoNulls(a) {
      NoNullsIsFinite(a);
      FiniteIsFaded(a);
      hide Canonical, IsValue, Same, NoNulls, Faded;
      forall b | IsValue(b) && Canonical(c, a) == Canonical(c, b) ensures Same(a, b) {
        CanonicalSound(c, a, b);
        NoNullsShow(a, b);
      }
    } else {
      var b := NullsHide(a);
      hide Canonical, IsValue, Same, NoNulls, Faded;
      CanonicalMeans(c, a, b);
    }
  }

  lemma {:induction false} NoNullsIsFinite(v: Json)
    requires NoNulls(v)
    ensures Finite(v)
    decreases v
  {
    match v {
      case Arr(items) =>
        forall i | 0 <= i < |items| { NoNullsIsFinite(items[i]); }
      case Obj(es) =>
        forall i | 0 <= i < |es| { NoNullsIsFinite(es[i].value); }
      case _ =>
    }
  }

  /** Values equal up to key order, and to overflowed numbers read as `null`, have the same canonical
      text unless keys tie. */
  lemma CanonicalComplete(c: Collation, a: Json, b: Json)
    requires IsCollation(c) && IsValue(a) && IsValue(b) && NoTies(c, a) && Same(Faded(a), Faded(b))
    ensures Canonical(c, a) == Canonical(c, b)
  {
    FadedIsValue(a);
    FadedIsValue(b);
    FadedTies(c, a);
    hide Canonical, IsValue, Same, NoTies, Faded, IsCollation, Finite, Normalize;
    NormalFormComplete(c, Faded(a), Faded(b));
    CanonicalMeans(c, a, b);
  }

  /** Every value equal to this one up to key order has its text exactly when no object in it has two
      keys the collation takes for equal. */
  lemma CanonicalCompleteIff(c: Collation, a: Json)
    requires IsCollation(c) && IsValue(a)
    ensures (forall b :: IsValue(b) && Same(a, b) ==> Canonical(c, a) == Canonical(c, b)) <==> NoTies(c, a)
  {
    hide Canonical, IsValue, Same, NoTies, Faded, IsCollation, Normalize;
    if NoTies(c, a) {
      forall b | IsValue(b) && Same(a, b) ensures Canonical(c, a) == Canonical(c, b) {
        SameFaded(a, b);
        CanonicalComplete(c, a, b);
      }
    } else {
      var b := TiesShow(c, a);
      CanonicalMeans(c, a, b);
    }
  }
}

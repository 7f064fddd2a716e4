/** What the scanner of locale tables reads off any table: string literals in both quotes, comments, nested
    objects, and values that are no strings (scripts/harvest-locale-packages.ts). A table is spelled from its
    syntax here, without the scanner; the scanner is shown to read back what was spelled. */
module LocaleTables {
  import opened LocaleBundles
  import opened Strings
  import opened Wrappers

  // ---------------------------------------------------------------- string literals

  datatype Unit = Plain(c: char) | Escaped(c: char)

  datatype Literal = Literal(quote: char, units: seq<Unit>)

  predicate IsLiteral(l: Literal) {
    && l.quote in "\"'`"
    && forall k :: 0 <= k < |l.units| ==> IsUnit(l.units[k], l.quote)
  }

  predicate IsUnit(u: Unit, quote: char) {
    u.Plain? ==> u.c != '\\' && u.c != quote
  }

  function SpellUnit(u: Unit): string {
    match u
    case Plain(c) => [c]
    case Escaped(c) => ['\\', c]
  }

  function SpellUnits(units: seq<Unit>): string {
    if units == [] then "" else SpellUnit(units[0]) + SpellUnits(units[1..])
  }

  function SpellLiteral(l: Literal): string {
    [l.quote] + (SpellUnits(l.units) + [l.quote])
  }

  /** Three escapes have a meaning, every other escaped character stands for itself. */
  function UnitValue(u: Unit): char {
    match u
    case Plain(c) => c
    case Escaped('n') => '\n'
    case Escaped('r') => '\r'
    case Escaped('t') => '\t'
    case Escaped(c) => c
  }

  function Value(units: seq<Unit>): string {
    if units == [] then "" else [UnitValue(units[0])] + Value(units[1..])
  }

  lemma UnitIsScanned(src: string, i: nat, u: Unit, quote: char)
    requires At(src, i, SpellUnit(u)) && IsUnit(u, quote)
    ensures i < |src| && ScanRest(src, i, quote) == Prepend([UnitValue(u)], ScanRest(src, i + |SpellUnit(u)|, quote))
  {
    AtHead(src, i, SpellUnit(u));
    assert u.Escaped? ==> src[i + 1] == src[i..i + 2][1] == u.c;
    hide At;
  }

  lemma QuoteIsScanned(src: string, i: nat, quote: char)
    requires At(src, i, [quote]) && quote != '\\'
    ensures ScanRest(src, i, quote) == Some(("", i + 1))
  {
    AtHead(src, i, [quote]);
  }

  lemma {:induction false} UnitsAreScanned(src: string, i: nat, units: seq<Unit>, quote: char)
    requires At(src, i, SpellUnits(units) + [quote]) && IsLiteral(Literal(quote, units))
    ensures ScanRest(src, i, quote) == Some((Value(units), i + |SpellUnits(units)| + 1))
    decreases |units|
  {
    hide At, ScanRest, SpellUnit, UnitValue, IsUnit;
    if units == [] {
      assert "" + [quote] == [quote];
      QuoteIsScanned(src, i, quote);
    } else {
      var u, rest := units[0], SpellUnits(units[1..]);
      AppendAssociates(SpellUnit(u), rest, [quote]);
      AtSplit(src, i, SpellUnit(u), rest + [quote]);
      UnitIsScanned(src, i, u, quote);
      UnitsAreScanned(src, i + |SpellUnit(u)|, units[1..], quote);
    }
  }

  /** `readString` reads every literal up to its closing quote. */
  lemma LiteralIsScanned(src: string, i: nat, l: Literal)
    requires At(src, i, SpellLiteral(l)) && IsLiteral(l)
    ensures ScanString(src, i) == Some((Value(l.units), i + |SpellLiteral(l)|))
  {
    AtSplit(src, i, [l.quote], SpellUnits(l.units) + [l.quote]);
    AtHead(src, i, [l.quote]);
    UnitsAreScanned(src, i + 1, l.units, l.quote);
  }

  /** And what it reads is a literal. */
  lemma {:induction false} ScannedUnits(src: string, i: nat, quote: char) returns (units: seq<Unit>)
    requires quote in "\"'`" && ScanRest(src, i, quote).Some?
    ensures IsLiteral(Literal(quote, units)) && At(src, i, SpellUnits(units) + [quote])
    ensures ScanRest(src, i, quote) == Some((Value(units), i + |SpellUnits(units)| + 1))
    decreases |src| - i
  {
    if i < |src| && src[i] == quote && src[i] != '\\' {
      units := [];
    } else {
      var u := if src[i] == '\\' then Escaped(src[i + 1]) else Plain(src[i]);
      var n := |SpellUnit(u)|;
      assert At(src, i, SpellUnit(u)) && IsUnit(u, quote) && ScanRest(src, i + n, quote).Some?;
      UnitIsScanned(src, i, u, quote);
      hide ScanRest, UnitValue, SpellUnit, IsUnit;
      var rest := ScannedUnits(src, i + n, quote);
      units := [u] + rest;
      assert units[0] == u && units[1..] == rest;
      AtBoth(src, i, SpellUnit(u), SpellUnits(rest) + [quote]);
      AppendAssociates(SpellUnit(u), SpellUnits(rest), [quote]);
    }
  }

  lemma AtBoth(src: string, i: nat, a: string, b: string)
    requires At(src, i, a) && At(src, i + |a|, b)
    ensures At(src, i, a + b)
  {
    assert src[i..i + |a| + |b|] == src[i..i + |a|] + src[i + |a|..i + |a| + |b|];
  }

  // ---------------------------------------------------------------- blanks and comments

  datatype Piece = Blank(c: char) | LineComment(text: string) | BlockComment(text: string)

  type Gap = seq<Piece>

  predicate IsPiece(p: Piece) {
    match p
    case Blank(c) => c in " \t\n\r"
    case LineComment(text) => '\n' !in text
    case BlockComment(text) => HasNoEnd(text)
  }

  predicate HasNoEnd(text: string) {
    forall k :: 0 < k < |text| ==> !(text[k - 1] == '*' && text[k] == '/')
  }

  predicate IsGap(gap: Gap) {
    forall k :: 0 <= k < |gap| ==> IsPiece(gap[k])
  }

  function SpellPiece(p: Piece): string {
    match p
    case Blank(c) => [c]
    case LineComment(text) => "//" + (text + "\n")
    case BlockComment(text) => "/*" + (text + "*/")
  }

  function SpellGap(gap: Gap): string {
    if gap == [] then "" else SpellPiece(gap[0]) + SpellGap(gap[1..])
  }

  /** No blank and no comment begins here. */
  predicate IsSolid(src: string, i: nat) {
    i < |src| ==> src[i] !in " \t\n\r" && !(src[i] == '/' && i + 1 < |src| && (src[i + 1] == '/' || src[i + 1] == '*'))
  }

  lemma {:induction false} NewlineIs(src: string, i: nat, j: nat)
    requires i <= j < |src| && src[j] == '\n' && forall k :: i <= k < j ==> src[k] != '\n'
    ensures NewlineFrom(src, i) == j
    decreases j - i
  {
    if i < j {
      NewlineIs(src, i + 1, j);
    }
  }

  lemma {:induction false} CommentEndIs(src: string, i: nat, j: nat)
    requires i <= j && j + 1 < |src| && src[j] == '*' && src[j + 1] == '/'
    requires forall k :: i <= k < j ==> !(src[k] == '*' && src[k + 1] == '/')
    ensures CommentEndFrom(src, i) == j
    decreases j - i
  {
    if i < j {
      CommentEndIs(src, i + 1, j);
    }
  }

  lemma CharAt(src: string, i: nat, t: string, k: nat)
    requires At(src, i, t) && k < |t|
    ensures i + k < |src| && src[i + k] == t[k]
  {
    assert src[i..i + |t|][k] == t[k];
  }

  lemma LineIsSkipped(src: string, i: nat, text: string)
    requires At(src, i, "//" + (text + "\n")) && '\n' !in text
    ensures SkipWs(src, i) == SkipWs(src, i + |text| + 3)
  {
    var t := "//" + (text + "\n");
    forall k | 0 <= k < |t| ensures i + k < |src| && src[i + k] == t[k] {
      CharAt(src, i, t, k);
    }
    assert src[i] == '/' && src[i + 1] == '/' && src[i + |t| - 1] == '\n';
    forall k | i <= k < i + |t| - 1 ensures src[k] != '\n' {
      assert src[i + (k - i)] == t[k - i];
      assert k - i >= 2 ==> t[k - i] == text[k - i - 2];
    }
    NewlineIs(src, i, i + |t| - 1);
    hide At, NewlineFrom;
  }

  lemma BlockIsSkipped(src: string, i: nat, text: string)
    requires At(src, i, "/*" + (text + "*/")) && HasNoEnd(text)
    ensures SkipWs(src, i) == SkipWs(src, i + |text| + 4)
  {
    var t := "/*" + (text + "*/");
    forall k | 0 <= k < |t| ensures i + k < |src| && src[i + k] == t[k] {
      CharAt(src, i, t, k);
    }
    var end := i + |t| - 2;
    assert src[i] == '/' && src[i + 1] == '*' && src[i + (|t| - 2)] == '*' && src[i + (|t| - 1)] == '/';
    forall k | i + 2 <= k < end ensures !(src[k] == '*' && src[k + 1] == '/') {
      assert src[i + (k - i)] == t[k - i] == text[k - i - 2];
      assert src[i + (k + 1 - i)] == t[k + 1 - i];
      assert k + 1 < end ==> t[k + 1 - i] == text[k - i - 1];
    }
    CommentEndIs(src, i + 2, end);
    hide At, CommentEndFrom;
  }

  lemma BlankIsSkipped(src: string, i: nat, c: char)
    requires At(src, i, [c]) && c in " \t\n\r"
    ensures SkipWs(src, i) == SkipWs(src, i + 1)
  {
    CharAt(src, i, [c], 0);
  }

  /** A piece is skipped as a whole. */
  lemma PieceIsSkipped(src: string, i: nat, p: Piece)
    requires At(src, i, SpellPiece(p)) && IsPiece(p)
    ensures SkipWs(src, i) == SkipWs(src, i + |SpellPiece(p)|)
  {
    hide At, SkipWs, HasNoEnd;
    match p {
      case Blank(c) => BlankIsSkipped(src, i, c);
      case LineComment(text) => LineIsSkipped(src, i, text);
      case BlockComment(text) => BlockIsSkipped(src, i, text);
    }
  }

  lemma SolidStops(src: string, i: nat)
    requires i <= |src| && IsSolid(src, i)
    ensures SkipWs(src, i) == i
  {
  }

  /** Blanks and comments are skipped up to the first character that begins neither. */
  lemma {:induction false} GapIsSkipped(src: string, i: nat, gap: Gap)
    requires At(src, i, SpellGap(gap)) && IsGap(gap) && IsSolid(src, i + |SpellGap(gap)|)
    ensures SkipWs(src, i) == i + |SpellGap(gap)|
    decreases |gap|
  {
    hide SkipWs, At, IsPiece, SpellPiece, IsSolid;
    if gap == [] {
      AtEnds(src, i, "");
      SolidStops(src, i);
    } else {
      AtSplit(src, i, SpellPiece(gap[0]), SpellGap(gap[1..]));
      PieceIsSkipped(src, i, gap[0]);
      GapIsSkipped(src, i + |SpellPiece(gap[0])|, gap[1..]);
    }
  }

  lemma AtEnds(src: string, i: nat, t: string)
    requires At(src, i, t)
    ensures i + |t| <= |src|
  {
  }

  /** A comment that nothing ends. */
  predicate IsOpenComment(t: string) {
    |t| >= 2 && t[0] == '/'
    && ((t[1] == '/' && '\n' !in t) || (t[1] == '*' && HasNoEnd(t[2..])))
  }

  lemma {:induction false} FirstNewline(src: string, i: nat)
    requires i <= |src|
    ensures var nl := NewlineFrom(src, i);
      (nl < |src| ==> src[nl] == '\n') && forall k :: i <= k < nl ==> src[k] != '\n'
    decreases |src| - i
  {
    if i < |src| && src[i] != '\n' {
      FirstNewline(src, i + 1);
    }
  }

  lemma {:induction false} FirstEnd(src: string, i: nat)
    requires i <= |src|
    ensures var end := CommentEndFrom(src, i);
      && (end < |src| ==> end + 1 < |src| && src[end] == '*' && src[end + 1] == '/')
      && forall k :: i <= k < end && k + 1 < |src| ==> !(src[k] == '*' && src[k + 1] == '/')
    decreases |src| - i
  {
    if i + 1 < |src| && !(src[i] == '*' && src[i + 1] == '/') {
      FirstEnd(src, i + 1);
    }
  }

  lemma LineSpelled(src: string, i: nat, nl: nat)
    requires StartsComment(src, i, '/') && i + 2 <= nl < |src| && src[nl] == '\n'
    requires forall k :: i <= k < nl ==> src[k] != '\n'
    ensures var p := LineComment(src[i + 2..nl]); IsPiece(p) && At(src, i, SpellPiece(p))
  {
    assert src[i..nl + 1] == "//" + (src[i + 2..nl] + "\n");
  }

  lemma BlockSpelled(src: string, i: nat, end: nat)
    requires StartsComment(src, i, '*') && i + 2 <= end && end + 1 < |src| && src[end] == '*' && src[end + 1] == '/'
    requires forall k :: i + 2 <= k < end ==> !(src[k] == '*' && src[k + 1] == '/')
    ensures var p := BlockComment(src[i + 2..end]); IsPiece(p) && At(src, i, SpellPiece(p))
  {
    assert src[i..end + 2] == "/*" + (src[i + 2..end] + "*/");
  }

  /** What is skipped is blanks and comments, at the end of the text perhaps one that nothing ends; and it
      is all of them. */
  lemma {:induction false} SkipsAGap(src: string, i: nat) returns (gap: Gap, open: string)
    requires i <= |src|
    ensures IsGap(gap) && src[i..SkipWs(src, i)] == SpellGap(gap) + open
    ensures open == "" || (IsOpenComment(open) && SkipWs(src, i) == |src|)
    ensures IsSolid(src, SkipWs(src, i))
    decreases |src| - i
  {
    if i == |src| || !(IsWs(src[i]) || StartsComment(src, i, '/') || StartsComment(src, i, '*')) {
      gap, open := [], "";
    } else if IsWs(src[i]) {
      gap, open := SkipMore(src, i, Blank(src[i]));
    } else if StartsComment(src, i, '/') {
      var nl := NewlineFrom(src, i);
      FirstNewline(src, i);
      if nl == |src| {
        gap, open := [], src[i..];
      } else {
        LineSpelled(src, i, nl);
        gap, open := SkipMore(src, i, LineComment(src[i + 2..nl]));
      }
    } else {
      var end := CommentEndFrom(src, i + 2);
      FirstEnd(src, i + 2);
      if end == |src| {
        gap, open := [], src[i..];
      } else {
        BlockSpelled(src, i, end);
        gap, open := SkipMore(src, i, BlockComment(src[i + 2..end]));
      }
    }
  }

  lemma {:induction false} SkipMore(src: string, i: nat, p: Piece) returns (gap: Gap, open: string)
    requires i < |src| && IsPiece(p) && At(src, i, SpellPiece(p))
    ensures IsGap(gap) && src[i..SkipWs(src, i)] == SpellGap(gap) + open
    ensures open == "" || (IsOpenComment(open) && SkipWs(src, i) == |src|)
    ensures IsSolid(src, SkipWs(src, i))
    decreases |src| - i, 0
  {
    hide *;
    var n := |SpellPiece(p)|;
    PieceIsLong(src, i, p);
    PieceIsSkipped(src, i, p);
    var rest;
    rest, open := SkipsAGap(src, i + n);
    gap := [p] + rest;
    MoreGap(p, rest);
    TextInTurn(src, i, i + n, SkipWs(src, i), SpellPiece(p)) by { AtMeans(src, i, SpellPiece(p)); }
    AppendAssociates(SpellPiece(p), SpellGap(rest), open);
  }

  lemma PieceIsLong(src: string, i: nat, p: Piece)
    requires At(src, i, SpellPiece(p))
    ensures |SpellPiece(p)| > 0 && i + |SpellPiece(p)| <= |src|
  {
  }

  lemma AtMeans(src: string, i: nat, t: string)
    requires At(src, i, t)
    ensures i + |t| <= |src| && src[i..i + |t|] == t
  {
  }

  lemma MoreGap(p: Piece, rest: Gap)
    requires IsPiece(p) && IsGap(rest)
    ensures IsGap([p] + rest) && SpellGap([p] + rest) == SpellPiece(p) + SpellGap(rest)
  {
    hide IsPiece, SpellPiece;
    assert ([p] + rest)[1..] == rest;
  }

  lemma TextInTurn(src: string, i: nat, m: nat, end: nat, t: string)
    requires i <= m <= end <= |src| && src[i..m] == t
    ensures src[i..end] == t + src[m..end]
  {
  }

  // ---------------------------------------------------------------- tables

  /** What stands in a table, each with the blanks and comments before it. */
  datatype Element = Element(gap: Gap, item: Item)

  datatype Item =
    | Pair(key: Literal, before: Gap, after: Gap, value: Literal)  // "key": "value"
    | Section(key: Literal, before: Gap, after: Gap, inner: seq<Element>, end: Gap)  // "key": { ... }
    | Bare(inner: seq<Element>, end: Gap)                          // { ... }
    | Setting(key: Literal, before: Gap, after: Gap, first: char)  // "key": 1 or "key": name, up to one character
    | Lone(key: Literal)                                           // a string with no colon behind it
    | Other(c: char)                                               // a comma, a letter, a colon, ...

  function SpellKey(key: Literal, before: Gap, after: Gap, rest: string): string {
    SpellLiteral(key) + (SpellGap(before) + (":" + (SpellGap(after) + rest)))
  }

  function SpellBlock(inner: seq<Element>, end: Gap): string
    decreases inner, 1
  {
    "{" + (SpellElements(inner) + (SpellGap(end) + "}"))
  }

  function SpellItem(item: Item): string
    decreases item, 0
  {
    match item
    case Pair(key, before, after, value) => SpellKey(key, before, after, SpellLiteral(value))
    case Section(key, before, after, inner, end) => SpellKey(key, before, after, SpellBlock(inner, end))
    case Bare(inner, end) => SpellBlock(inner, end)
    case Setting(key, before, after, first) => SpellKey(key, before, after, [first])
    case Lone(key) => SpellLiteral(key)
    case Other(c) => [c]
  }

  function SpellElements(es: seq<Element>): string
    decreases es, 0
  {
    if es == [] then "" else SpellGap(es[0].gap) + (SpellItem(es[0].item) + SpellElements(es[1..]))
  }

  predicate IsKey(key: Literal) {
    IsLiteral(key) && key.quote in "\"'"
  }

  /** A character that is no blank, quote or brace and begins no comment. */
  predicate IsPlainChar(c: char) {
    c !in " \t\n\r" && c != '"' && c != '\'' && c != '{' && c != '}' && c != '/'
  }

  predicate IsItem(item: Item) {
    match item
    case Pair(key, before, after, value) => IsKey(key) && IsGap(before) && IsGap(after) && IsKey(value)
    case Section(key, before, after, inner, end) =>
      IsKey(key) && IsGap(before) && IsGap(after) && AreElements(inner) && IsGap(end)
    case Bare(inner, end) => AreElements(inner) && IsGap(end)
    case Setting(key, before, after, first) => IsKey(key) && IsGap(before) && IsGap(after) && IsPlainChar(first)
    case Lone(key) => IsKey(key)
    case Other(c) => IsPlainChar(c)
  }

  predicate AreElements(es: seq<Element>) {
    es != [] ==>
      && IsGap(es[0].gap) && IsItem(es[0].item) && AreElements(es[1..])
      && (es[0].item.Lone? && |es| > 1 ==> es[1].item != Other(':'))
  }

  /** The entries of a table and of the objects in it, in the order they stand. */
  function Entries(es: seq<Element>): seq<(string, string)> {
    if es == [] then [] else ItemEntries(es[0].item) + Entries(es[1..])
  }

  function ItemEntries(item: Item): seq<(string, string)> {
    match item
    case Pair(key, _, _, value) => [(Value(key.units), Value(value.units))]
    case Section(_, _, _, inner, _) => Entries(inner)
    case Bare(inner, _) => Entries(inner)
    case Setting(_, _, _, _) => []
    case Lone(_) => []
    case Other(_) => []
  }

  /** A later entry replaces an earlier one; `__proto__` cannot be a key. */
  function Stored(out: map<string, string>, entries: seq<(string, string)>): map<string, string>
    decreases |entries|
  {
    if entries == [] then out
    else
      var (key, value) := entries[0];
      Stored(if key == "__proto__" then out else out[key := value], entries[1..])
  }

  lemma {:induction false} StoredInTurn(out: map<string, string>, a: seq<(string, string)>, b: seq<(string, string)>)
    ensures Stored(out, a + b) == Stored(Stored(out, a), b)
    decreases |a|
  {
    if a == [] {
      assert a + b == b;
    } else {
      assert (a + b)[1..] == a[1..] + b;
      var (key, value) := a[0];
      StoredInTurn(if key == "__proto__" then out else out[key := value], a[1..], b);
    }
  }

  // ---------------------------------------------------------------- reading a table

  /** The text behind an element: the next item, or the brace that closes the table. */
  predicate ItemBegins(src: string, i: nat) {
    i < |src| && src[i] !in " \t\n\r/"
  }

  lemma ItemIsSolid(src: string, i: nat)
    requires ItemBegins(src, i)
    ensures IsSolid(src, i)
  {
  }

  lemma FirstOfItem(src: string, i: nat, item: Item)
    requires At(src, i, SpellItem(item)) && IsItem(item)
    ensures ItemBegins(src, i) && SpellItem(item) != ""
    ensures src[i] == ':' <==> item == Other(':')
  {
    hide SpellGap, SpellElements, SpellUnits, IsGap, AreElements, At;
    AtHead(src, i, SpellItem(item));
  }

  lemma GapBeforeItem(src: string, i: nat, gap: Gap)
    requires At(src, i, SpellGap(gap)) && IsGap(gap) && ItemBegins(src, i + |SpellGap(gap)|)
    ensures SkipWs(src, i) == i + |SpellGap(gap)|
  {
    ItemIsSolid(src, i + |SpellGap(gap)|);
    GapIsSkipped(src, i, gap);
  }

  /** Where the parts of `key : rest` stand and what reading them gives. */
  lemma KeyIsRead(src: string, i: nat, key: Literal, before: Gap, after: Gap, rest: string) returns (e: nat, b: nat)
    requires At(src, i, SpellKey(key, before, after, rest)) && IsKey(key) && IsGap(before) && IsGap(after)
    requires rest != "" && rest[0] !in " \t\n\r/"
    ensures i < e <= |src| && IsKeyQuote(src[i]) && ScanString(src, i) == Some((Value(key.units), e))
    ensures var a := SkipWs(src, e); a < |src| && src[a] == ':' && b == SkipWs(src, a + 1)
    ensures b < |src| && At(src, b, rest) && b + |rest| == i + |SpellKey(key, before, after, rest)| && src[b] == rest[0]
  {
    hide *;
    KeyParts(src, i, key, before, after, rest);
    e := i + |SpellLiteral(key)|;
    var a := e + |SpellGap(before)|;
    b := a + 1 + |SpellGap(after)|;
    AtHead(src, a, ":");
    AtHead(src, b, rest);
    LiteralIsScanned(src, i, key) by { KeyIsLiteral(key); }
    QuoteBegins(src, i, key);
    ColonBegins(src, a);
    RestBegins(src, b, rest);
    GapBeforeItem(src, e, before);
    GapBeforeItem(src, a + 1, after);
    AtEnds(src, e, SpellGap(before));
  }

  lemma KeyIsLiteral(key: Literal)
    requires IsKey(key)
    ensures IsLiteral(key)
  {
  }

  lemma ColonBegins(src: string, i: nat)
    requires i < |src| && src[i] == ':'
    ensures ItemBegins(src, i)
  {
  }

  lemma RestBegins(src: string, i: nat, rest: string)
    requires i < |src| && rest != "" && src[i] == rest[0] && rest[0] !in " \t\n\r/"
    ensures ItemBegins(src, i)
  {
  }

  lemma KeyParts(src: string, i: nat, key: Literal, before: Gap, after: Gap, rest: string)
    requires At(src, i, SpellKey(key, before, after, rest))
    ensures var e := i + |SpellLiteral(key)|; var a := e + |SpellGap(before)|; var b := a + 1 + |SpellGap(after)|;
      && At(src, i, SpellLiteral(key)) && At(src, e, SpellGap(before)) && At(src, a, ":")
      && At(src, a + 1, SpellGap(after)) && At(src, b, rest)
      && b + |rest| == i + |SpellKey(key, before, after, rest)| && |SpellLiteral(key)| > 0
  {
    hide SpellGap, SpellUnits, At;
    var k, g, h := SpellLiteral(key), SpellGap(before), SpellGap(after);
    assert |k| > 0;
    hide SpellLiteral;
    AtSplit(src, i, k, g + (":" + (h + rest)));
    AtSplit(src, i + |k|, g, ":" + (h + rest));
    AtSplit(src, i + |k| + |g|, ":", h + rest);
    AtSplit(src, i + |k| + |g| + 1, h, rest);
  }

  lemma QuoteBegins(src: string, i: nat, key: Literal)
    requires At(src, i, SpellLiteral(key)) && IsKey(key)
    ensures i < |src| && IsKeyQuote(src[i]) && src[i] == key.quote
  {
    AtHead(src, i, SpellLiteral(key));
  }

  /** An item that is no block. */
  predicate IsFlat(item: Item) {
    !item.Section? && !item.Bare?
  }

  /** One turn over an item that is no block. */
  lemma FlatTurn(src: string, c: Cursor, j: nat, item: Item)
    requires TurnBegins(src, c, j) && At(src, j, SpellItem(item)) && IsItem(item) && IsFlat(item)
    requires item.Lone? ==> NoColonNext(src, j + |SpellItem(item)|)
    ensures Extract(src, c) == Extract(src, After(c, j, item))
  {
    hide *;
    FlatMeans(item);
    if item.Pair? {
      PairTurn(src, c, j, item);
    } else if item.Setting? {
      SettingTurn(src, c, j, item);
    } else if item.Lone? {
      LoneTurn(src, c, j, item);
    } else {
      OtherTurn(src, c, j, item);
    }
  }

  lemma FlatMeans(item: Item)
    requires IsFlat(item)
    ensures item.Pair? || item.Setting? || item.Lone? || item.Other?
  {
  }

  /** A turn of the loop skips to `j`. */
  predicate TurnBegins(src: string, c: Cursor, j: nat) {
    c.i <= j < |src| && SkipWs(src, c.i) == j && !c.stop && c.depth > 0
  }

  /** The cursor behind an item, its entries stored. */
  function After(c: Cursor, j: nat, item: Item): Cursor {
    c.(i := j + |SpellItem(item)|, out := Stored(c.out, ItemEntries(item)))
  }

  /** Behind `i` stands, after its gap, no colon. */
  predicate NoColonNext(src: string, i: nat) {
    i <= |src| && (SkipWs(src, i) < |src| ==> src[SkipWs(src, i)] != ':')
  }

  lemma LiteralBegins(l: Literal)
    requires IsKey(l)
    ensures SpellLiteral(l) != "" && SpellLiteral(l)[0] == l.quote && l.quote !in " \t\n\r/"
  {
    hide SpellUnits;
  }

  lemma PairTurn(src: string, c: Cursor, j: nat, item: Item)
    requires TurnBegins(src, c, j) && item.Pair? && At(src, j, SpellItem(item)) && IsItem(item)
    ensures Extract(src, c) == Extract(src, After(c, j, item))
  {
    hide SpellGap, IsGap, At, SkipWs, ScanString, SpellLiteral, SpellUnits, SpellKey, Value, Extract;
    var Pair(key, before, after, value) := item;
    LiteralBegins(value);
    var e, b := KeyIsRead(src, j, key, before, after, SpellLiteral(value));
    LiteralIsScanned(src, b, value);
    QuoteBegins(src, b, value);
    StoredOne(c.out, Value(key.units), Value(value.units));
    ExtractTurn(src, c, c.(i := b + |SpellLiteral(value)|, out := Assign(c.out, Value(key.units), Value(value.units))));
  }

  lemma StoredOne(out: map<string, string>, key: string, value: string)
    ensures Stored(out, [(key, value)]) == Assign(out, key, value)
  {
  }

  lemma SettingTurn(src: string, c: Cursor, j: nat, item: Item)
    requires TurnBegins(src, c, j) && item.Setting? && At(src, j, SpellItem(item)) && IsItem(item)
    ensures Extract(src, c) == Extract(src, After(c, j, item))
  {
    hide SpellGap, IsGap, At, SkipWs, ScanString, SpellLiteral, SpellUnits, SpellKey, Value, Extract;
    var Setting(key, before, after, first) := item;
    var e, b := KeyIsRead(src, j, key, before, after, [first]);
    ExtractTurn(src, c, c.(i := b + 1));
  }

  lemma LoneTurn(src: string, c: Cursor, j: nat, item: Item)
    requires TurnBegins(src, c, j) && item.Lone? && At(src, j, SpellItem(item)) && IsItem(item)
    requires NoColonNext(src, j + |SpellItem(item)|)
    ensures Extract(src, c) == Extract(src, After(c, j, item))
  {
    hide At, SkipWs, ScanString, SpellLiteral, SpellUnits, Value, Extract;
    LiteralIsScanned(src, j, item.key);
    QuoteBegins(src, j, item.key);
    ExtractTurn(src, c, c.(i := j + |SpellLiteral(item.key)|));
  }

  lemma OtherTurn(src: string, c: Cursor, j: nat, item: Item)
    requires TurnBegins(src, c, j) && item.Other? && At(src, j, SpellItem(item)) && IsItem(item)
    ensures Extract(src, c) == Extract(src, After(c, j, item))
  {
    hide SkipWs, ScanString, Extract;
    AtHead(src, j, [item.c]);
    ExtractTurn(src, c, c.(i := j + 1));
  }

  /** The turn that closes a block. */
  lemma ClosingBrace(src: string, c: Cursor, end: Gap)
    requires At(src, c.i, SpellGap(end) + "}") && IsGap(end) && !c.stop && c.depth > 0
    ensures Extract(src, c) == Extract(src, c.(i := c.i + |SpellGap(end)| + 1, depth := c.depth - 1))
  {
    hide SpellGap, IsGap, SkipWs, ScanString, Extract;
    AtSplit(src, c.i, SpellGap(end), "}");
    AtHead(src, c.i + |SpellGap(end)|, "}");
    GapBeforeItem(src, c.i, end);
    ExtractTurn(src, c, c.(i := c.i + |SpellGap(end)| + 1, depth := c.depth - 1));
  }

  /** The turn that opens a block: behind a key, or on its own. */
  lemma SectionTurn(src: string, c: Cursor, j: nat, key: Literal, before: Gap, after: Gap, inner: seq<Element>, end: Gap)
      returns (b: nat)
    requires TurnBegins(src, c, j)
    requires At(src, j, SpellKey(key, before, after, SpellBlock(inner, end)))
    requires IsKey(key) && IsGap(before) && IsGap(after)
    ensures b + |SpellBlock(inner, end)| == j + |SpellKey(key, before, after, SpellBlock(inner, end))|
    ensures At(src, b, SpellBlock(inner, end))
    ensures Extract(src, c) == Extract(src, c.(i := b + 1, depth := c.depth + 1))
  {
    hide SpellGap, IsGap, At, SkipWs, ScanString, SpellLiteral, SpellElements, SpellUnits, SpellKey, Value, Extract;
    var e;
    e, b := KeyIsRead(src, j, key, before, after, SpellBlock(inner, end));
    ExtractTurn(src, c, c.(i := b + 1, depth := c.depth + 1));
  }

  lemma BareTurn(src: string, c: Cursor, j: nat, inner: seq<Element>, end: Gap)
    requires TurnBegins(src, c, j)
    requires At(src, j, SpellBlock(inner, end))
    ensures Extract(src, c) == Extract(src, c.(i := j + 1, depth := c.depth + 1))
  {
    hide SpellGap, SkipWs, ScanString, SpellElements, Extract;
    AtHead(src, j, SpellBlock(inner, end));
    ExtractTurn(src, c, c.(i := j + 1, depth := c.depth + 1));
  }

  /** Behind the opening brace of a block its entries are read, and the block is left again. */
  lemma {:induction false} BlockIsRead(src: string, c: Cursor, inner: seq<Element>, end: Gap)
    requires At(src, c.i, SpellElements(inner) + (SpellGap(end) + "}")) && AreElements(inner) && IsGap(end)
    requires !c.stop && c.depth > 0
    ensures Extract(src, c) == Extract(src,
      Cursor(c.i + |SpellElements(inner)| + |SpellGap(end)| + 1, c.depth - 1, Stored(c.out, Entries(inner)), false))
    decreases inner, 1
  {
    hide *;
    ElementsAreRead(src, c, inner, end);
    AtSplit(src, c.i, SpellElements(inner), SpellGap(end) + "}");
    ClosingBrace(src, c.(i := c.i + |SpellElements(inner)|, out := Stored(c.out, Entries(inner))), end);
  }

  /** The elements of a block are read in turn; behind them stands the gap before its closing brace. */
  lemma {:induction false} ElementsAreRead(src: string, c: Cursor, es: seq<Element>, end: Gap)
    requires At(src, c.i, SpellElements(es) + (SpellGap(end) + "}")) && AreElements(es) && IsGap(end)
    requires !c.stop && c.depth > 0
    ensures Extract(src, c) == Extract(src, c.(i := c.i + |SpellElements(es)|, out := Stored(c.out, Entries(es))))
    decreases es, 0
  {
    hide *;
    NoElements(c.out);
    if es == [] {
      assert c.(i := c.i + 0, out := c.out) == c;
    } else {
      var gap, item, rest := es[0].gap, es[0].item, es[1..];
      FirstElement(es, c.out);
      var tail := SpellGap(end) + "}";
      var j := c.i + |SpellGap(gap)|;
      var e := j + |SpellItem(item)|;
      ElementParts(src, c.i, gap, item, SpellElements(rest), tail);
      FirstOfItem(src, j, item);
      GapBeforeItem(src, c.i, gap);
      var next := c.(i := e, out := Stored(c.out, ItemEntries(item)));
      Begins(src, c, j);
      AfterIs(c, j, item);
      if IsFlat(item) {
        if item.Lone? {
          NoColonBehind(src, e, rest, end);
        }
        FlatTurn(src, c, j, item);
      } else {
        BlockTurns(src, c, j, item);
      }
      ElementsAreRead(src, next, rest, end);
    }
  }

  lemma Begins(src: string, c: Cursor, j: nat)
    requires c.i <= j < |src| && SkipWs(src, c.i) == j && !c.stop && c.depth > 0
    ensures TurnBegins(src, c, j)
  {
    hide SkipWs;
  }

  lemma AfterIs(c: Cursor, j: nat, item: Item)
    ensures After(c, j, item) == c.(i := j + |SpellItem(item)|, out := Stored(c.out, ItemEntries(item)))
  {
    hide SpellItem, Stored, ItemEntries;
  }

  lemma NoElements(out: map<string, string>)
    ensures SpellElements([]) == "" && Stored(out, Entries([])) == out
  {
  }

  lemma FirstElement(es: seq<Element>, out: map<string, string>)
    requires es != [] && AreElements(es)
    ensures IsGap(es[0].gap) && IsItem(es[0].item) && AreElements(es[1..])
    ensures es[0].item.Lone? && |es| > 1 ==> es[1..][0].item != Other(':')
    ensures SpellElements(es) == SpellGap(es[0].gap) + (SpellItem(es[0].item) + SpellElements(es[1..]))
    ensures Stored(out, Entries(es)) == Stored(Stored(out, ItemEntries(es[0].item)), Entries(es[1..]))
  {
    hide IsGap, IsItem, SpellGap, SpellItem, ItemEntries, Stored;
    StoredInTurn(out, ItemEntries(es[0].item), Entries(es[1..]));
  }

  lemma ElementParts(src: string, i: nat, gap: Gap, item: Item, rest: string, tail: string)
    requires At(src, i, (SpellGap(gap) + (SpellItem(item) + rest)) + tail)
    ensures var j := i + |SpellGap(gap)|; var e := j + |SpellItem(item)|;
      At(src, i, SpellGap(gap)) && At(src, j, SpellItem(item)) && At(src, e, rest + tail) && e + |rest| + |tail| <= |src|
  {
    var g, t := SpellGap(gap), SpellItem(item);
    hide SpellGap, SpellItem;
    AppendAssociates(g, t + rest, tail);
    AppendAssociates(t, rest, tail);
    AtSplit(src, i, g, t + (rest + tail));
    AtSplit(src, i + |g|, t, rest + tail);
  }

  lemma NoColonBehind(src: string, i: nat, rest: seq<Element>, end: Gap)
    requires At(src, i, SpellElements(rest) + (SpellGap(end) + "}")) && AreElements(rest) && IsGap(end)
    requires rest != [] ==> rest[0].item != Other(':')
    ensures NoColonNext(src, i)
  {
    hide IsGap, IsItem, SpellGap, SpellItem, SkipWs, At;
    var tail := SpellGap(end) + "}";
    if rest == [] {
      assert "" + tail == tail;
      AtSplit(src, i, SpellGap(end), "}");
      AtHead(src, i + |SpellGap(end)|, "}");
      GapBeforeItem(src, i, end);
    } else {
      var gap, item := rest[0].gap, rest[0].item;
      ElementParts(src, i, gap, item, SpellElements(rest[1..]), tail);
      FirstOfItem(src, i + |SpellGap(gap)|, item);
      GapBeforeItem(src, i, gap);
    }
  }

  /** A block adds its own entries and leaves what follows in place. */
  lemma {:induction false} BlockTurns(src: string, c: Cursor, j: nat, item: Item)
    requires TurnBegins(src, c, j)
    requires At(src, j, SpellItem(item)) && IsItem(item) && !IsFlat(item)
    ensures Extract(src, c) == Extract(src, c.(i := j + |SpellItem(item)|, out := Stored(c.out, ItemEntries(item))))
    decreases item, 2
  {
    hide SpellGap, SpellElements, SpellKey, SpellLiteral, IsGap, AreElements, At, SkipWs, Extract, Entries, Stored;
    match item {
      case Section(key, before, after, inner, end) =>
        var b := SectionTurn(src, c, j, key, before, after, inner, end);
        AtSplit(src, b, "{", SpellElements(inner) + (SpellGap(end) + "}"));
        BlockIsRead(src, c.(i := b + 1, depth := c.depth + 1), inner, end);
      case Bare(inner, end) =>
        BareTurn(src, c, j, inner, end);
        AtSplit(src, j, "{", SpellElements(inner) + (SpellGap(end) + "}"));
        BlockIsRead(src, c.(i := j + 1, depth := c.depth + 1), inner, end);
    }
  }

  /** The scanner reads every table, whatever stands before its opening brace and behind its closing one:
      its entries in the order they stand, those of inner objects among them. Blanks and comments, the
      kind of quotes, and values that are no strings leave no trace. */
  lemma TableIsRead(header: string, es: seq<Element>, end: Gap, footer: string)
    requires AreElements(es) && IsGap(end)
    ensures var src := header + (SpellBlock(es, end) + footer);
      Extract(src, Cursor(|header| + 1, 1, map[], false)) == Stored(map[], Entries(es))
  {
    var src := header + (SpellBlock(es, end) + footer);
    TableStands(header, SpellBlock(es, end), footer);
    hide SpellGap, SpellElements, IsGap, AreElements, At, Extract, Entries, Stored;
    AtSplit(src, |header|, "{", SpellElements(es) + (SpellGap(end) + "}"));
    BlockIsRead(src, Cursor(|header| + 1, 1, map[], false), es, end);
    ExtractStops(src, Cursor(|header| + |SpellBlock(es, end)|, 0, Stored(map[], Entries(es)), false));
  }

  lemma TableStands(header: string, block: string, footer: string)
    ensures At(header + (block + footer), |header|, block)
  {
    var src := header + (block + footer);
    assert src[|header|..] == block + footer;
  }

  lemma ExtractStops(src: string, c: Cursor)
    requires c.depth <= 0
    ensures Extract(src, c) == c.out
  {
  }

  predicate HasEntry(entries: seq<(string, string)>, key: string) {
    exists i :: 0 <= i < |entries| && entries[i].0 == key
  }

  /** The value of the last entry with the key. */
  predicate IsLast(entries: seq<(string, string)>, key: string, value: string) {
    exists i :: 0 <= i < |entries| && entries[i] == (key, value)
      && forall j :: i < j < |entries| ==> entries[j].0 != key
  }

  /** The last entry with a key decides; only `__proto__` is never stored. */
  lemma {:induction false} LastEntryDecides(out: map<string, string>, entries: seq<(string, string)>, key: string)
    ensures var r := Stored(out, entries);
      if key == "__proto__" || !HasEntry(entries, key) then
        (key in r <==> key in out) && (key in out ==> r[key] == out[key])
      else key in r && IsLast(entries, key, r[key])
    decreases |entries|
  {
    if entries != [] {
      var (k, v) := entries[0];
      var rest := entries[1..];
      var next := if k == "__proto__" then out else out[k := v];
      LastEntryDecides(next, rest, key);
      assert HasEntry(entries, key) <==> k == key || HasEntry(rest, key) by {
        assert entries == [entries[0]] + rest;
        if HasEntry(rest, key) {
          var i :| 0 <= i < |rest| && rest[i].0 == key;
          assert entries[i + 1].0 == key;
        }
      }
      if key != "__proto__" && HasEntry(rest, key) {
        var r := Stored(out, entries);
        var i :| 0 <= i < |rest| && rest[i] == (key, r[key]) && forall j :: i < j < |rest| ==> rest[j].0 != key;
        assert entries[i + 1] == (key, r[key]);
        assert forall j :: i + 1 < j < |entries| ==> entries[j] == rest[j - 1];
      } else if key != "__proto__" && k == key {
        assert entries[0] == (key, v) && forall j :: 0 < j < |entries| ==> entries[j] == rest[j - 1];
      }
    }
  }

  // ---------------------------------------------------------------- printed bundles are tables

  function PrintedUnit(c: char): seq<Unit> {
    if c == '"' || c == '\\' then [Escaped(c)]
    else if c == '\n' then [Escaped('n')]
    else if c == '\r' then [Escaped('r')]
    else if c == '\t' then [Escaped('t')]
    else if c as int == 8 then [Escaped('b')]
    else if c as int == 12 then [Escaped('f')]
    else if c as int < 32 then
      [Escaped('u'), Plain('0'), Plain('0'), Plain(HexDigit(c as int / 16)), Plain(HexDigit(c as int % 16))]
    else [Plain(c)]
  }

  function PrintedUnits(s: string): seq<Unit> {
    if s == "" then [] else PrintedUnit(s[0]) + PrintedUnits(s[1..])
  }

  function Printed(s: string): Literal {
    Literal('"', PrintedUnits(s))
  }

  lemma {:induction false} UnitsInTurn(a: seq<Unit>, b: seq<Unit>)
    ensures SpellUnits(a + b) == SpellUnits(a) + SpellUnits(b) && Value(a + b) == Value(a) + Value(b)
    decreases |a|
  {
    hide *;
    NoUnits();
    if a == [] {
      assert a + b == b;
    } else {
      assert (a + b)[1..] == a[1..] + b && (a + b)[0] == a[0];
      FirstUnit(a);
      FirstUnit(a + b);
      UnitsInTurn(a[1..], b);
      AppendAssociates(SpellUnit(a[0]), SpellUnits(a[1..]), SpellUnits(b));
      AppendAssociates([UnitValue(a[0])], Value(a[1..]), Value(b));
    }
  }

  lemma NoUnits()
    ensures SpellUnits([]) == "" && Value([]) == ""
  {
  }

  lemma FirstUnit(units: seq<Unit>)
    requires units != []
    ensures SpellUnits(units) == SpellUnit(units[0]) + SpellUnits(units[1..])
    ensures Value(units) == [UnitValue(units[0])] + Value(units[1..])
  {
    hide SpellUnit, UnitValue;
  }

  lemma PrintedUnitIs(c: char)
    ensures SpellUnits(PrintedUnit(c)) == EscapeChar(c) && Value(PrintedUnit(c)) == DecodeChar(c)
    ensures forall k :: 0 <= k < |PrintedUnit(c)| ==> IsUnit(PrintedUnit(c)[k], '"')
  {
    if |PrintedUnit(c)| == 5 {
      HexIsPlain(c as int / 16);
      HexIsPlain(c as int % 16);
      hide HexDigit, SpellUnits, Value;
      FiveUnits(HexDigit(c as int / 16), HexDigit(c as int % 16));
    } else {
      ShortUnit(c);
      hide SpellUnits, Value;
      OneUnit(PrintedUnit(c)[0]);
    }
  }

  lemma ShortUnit(c: char)
    requires |PrintedUnit(c)| != 5
    ensures PrintedUnit(c) == [PrintedUnit(c)[0]] && IsUnit(PrintedUnit(c)[0], '"')
    ensures SpellUnit(PrintedUnit(c)[0]) == EscapeChar(c) && [UnitValue(PrintedUnit(c)[0])] == DecodeChar(c)
  {
    hide HexDigit;
  }

  lemma OneUnit(u: Unit)
    ensures SpellUnits([u]) == SpellUnit(u) && Value([u]) == [UnitValue(u)]
  {
    hide SpellUnit, UnitValue;
    FirstUnit([u]);
    NoUnits();
    assert SpellUnit(u) + "" == SpellUnit(u) && [UnitValue(u)] + "" == [UnitValue(u)];
  }

  lemma FiveUnits(x: char, y: char)
    ensures SpellUnits([Escaped('u'), Plain('0'), Plain('0'), Plain(x), Plain(y)]) == "\\u00" + [x, y]
    ensures Value([Escaped('u'), Plain('0'), Plain('0'), Plain(x), Plain(y)]) == "u00" + [x, y]
  {
    var u, o, p, q := [Escaped('u')], [Plain('0')], [Plain(x)], [Plain(y)];
    assert SpellUnits(u) == "\\u" && Value(u) == "u" && SpellUnits(o) == "0" && Value(o) == "0";
    assert SpellUnits(p) == [x] == Value(p) && SpellUnits(q) == [y] == Value(q);
    assert [Escaped('u'), Plain('0'), Plain('0'), Plain(x), Plain(y)] == u + (o + (o + (p + q)));
    hide SpellUnits, Value;
    UnitsInTurn(u, o + (o + (p + q)));
    UnitsInTurn(o, o + (p + q));
    UnitsInTurn(o, p + q);
    UnitsInTurn(p, q);
  }

  lemma {:induction false} PrintedIsLiteral(s: string)
    ensures IsKey(Printed(s)) && SpellLiteral(Printed(s)) == TsString(s) && Value(PrintedUnits(s)) == Decoded(s)
    ensures SpellUnits(PrintedUnits(s)) == Escape(s)
    decreases |s|
  {
    if s != "" {
      PrintedIsLiteral(s[1..]);
      PrintedUnitIs(s[0]);
      UnitsInTurn(PrintedUnit(s[0]), PrintedUnits(s[1..]));
      hide PrintedUnit, EscapeChar, DecodeChar, IsUnit;
    }
  }

  /** The rows of a printed bundle: a line break and two blanks before each, a comma behind it. */
  function PrintedRows(keys: seq<string>, bundle: map<string, string>): seq<Element>
    requires forall k :: k in keys ==> k in bundle
  {
    if keys == [] then []
    else
      [Element([Blank('\n'), Blank(' '), Blank(' ')], Pair(Printed(keys[0]), [], [Blank(' ')], Printed(bundle[keys[0]]))),
       Element([], Other(','))] + PrintedRows(keys[1..], bundle)
  }

  function PrintedEntries(keys: seq<string>, bundle: map<string, string>): seq<(string, string)>
    requires forall k :: k in keys ==> k in bundle
  {
    if keys == [] then []
    else [(Decoded(keys[0]), Decoded(bundle[keys[0]]))] + PrintedEntries(keys[1..], bundle)
  }

  lemma PrintedRow(key: string, value: string, rest: seq<Element>)
    requires AreElements(rest)
    ensures var pair := Pair(Printed(key), [], [Blank(' ')], Printed(value));
      var row := [Element([Blank('\n'), Blank(' '), Blank(' ')], pair), Element([], Other(','))];
      && AreElements(row + rest)
      && SpellElements(row + rest) == "\n" + (BundleLine(key, value) + SpellElements(rest))
      && Entries(row + rest) == [(Decoded(key), Decoded(value))] + Entries(rest)
  {
    PrintedIsLiteral(key);
    PrintedIsLiteral(value);
    var gap := [Blank('\n'), Blank(' '), Blank(' ')];
    var pair := Pair(Printed(key), [], [Blank(' ')], Printed(value));
    var es := [Element(gap, pair), Element([], Other(','))] + rest;
    SmallGaps();
    hide PrintedUnits, SpellLiteral, Decoded, TsString, SpellGap, IsLiteral, Value;
    assert es[1..] == [Element([], Other(','))] + rest && es[1..][1..] == rest;
    assert AreElements(es[1..]);
    assert SpellElements(es[1..]) == "" + ("," + SpellElements(rest));
    assert Entries(es[1..]) == [] + Entries(rest) == Entries(rest);
    RowText(TsString(key), TsString(value), SpellElements(rest));
  }

  lemma RowText(k: string, v: string, rest: string)
    ensures "\n  " + ((k + ("" + (":" + (" " + v)))) + ("" + ("," + rest)))
         == "\n" + (("  " + (k + (": " + (v + ",")))) + rest)
  {
    var pair := ": " + v;
    assert "" + (":" + (" " + v)) == pair && ": " + (v + ",") == pair + "," && "" + ("," + rest) == "," + rest;
    assert (k + pair) + ("," + rest) == (k + (pair + ",")) + rest;
    assert "\n  " + ((k + (pair + ",")) + rest) == "\n" + (("  " + (k + (pair + ","))) + rest);
  }

  lemma SmallGaps()
    ensures SpellGap([]) == "" && IsGap([])
    ensures SpellGap([Blank(' ')]) == " " && IsGap([Blank(' ')])
    ensures SpellGap([Blank('\n'), Blank(' '), Blank(' ')]) == "\n  " && IsGap([Blank('\n'), Blank(' '), Blank(' ')])
  {
    var gap := [Blank('\n'), Blank(' '), Blank(' ')];
    assert gap[1..] == [Blank(' '), Blank(' ')] && gap[1..][1..] == [Blank(' ')];
  }

  lemma {:induction false} RowsAreElements(keys: seq<string>, bundle: map<string, string>)
    requires forall k :: k in keys ==> k in bundle
    ensures AreElements(PrintedRows(keys, bundle))
    ensures SpellElements(PrintedRows(keys, bundle)) + BUNDLE_END == Rows(keys, bundle)
    ensures Entries(PrintedRows(keys, bundle)) == PrintedEntries(keys, bundle)
    decreases |keys|
  {
    if keys != [] {
      RowsAreElements(keys[1..], bundle);
      PrintedRow(keys[0], bundle[keys[0]], PrintedRows(keys[1..], bundle));
      var line, rest := BundleLine(keys[0], bundle[keys[0]]), SpellElements(PrintedRows(keys[1..], bundle));
      hide BundleLine, SpellElements, AreElements, Entries, Decoded, Printed;
      AppendAssociates("\n", line + rest, BUNDLE_END);
      AppendAssociates(line, rest, BUNDLE_END);
    }
  }

  /** A table with the entries of a printed bundle, however it is laid out and commented, is read as the
      printed bundle is. */
  lemma RelaidBundle(header: string, keys: seq<string>, bundle: map<string, string>,
                     before: string, es: seq<Element>, end: Gap, footer: string)
    requires keys != [] && (forall k :: k in keys <==> k in bundle) && AreElements(es) && IsGap(end)
    requires (forall k :: k in Sort(keys) ==> k in bundle) && Entries(es) == PrintedEntries(Sort(keys), bundle)
    ensures var printed, src := header + BundleBody(keys, bundle), before + (SpellBlock(es, end) + footer);
      Extract(src, Cursor(|before| + 1, 1, map[], false)) == Extract(printed, Cursor(|header| + 1, 1, map[], false))
  {
    hide *;
    TableIsRead(before, es, end, footer);
    var sorted := Sort(keys);
    RowsInBody(header, keys, bundle);
    ExtractRows(header + BundleBody(keys, bundle), |header| + 1, sorted, bundle, map[]);
    CollectedIsStored(map[], sorted, bundle);
  }

  lemma {:induction false} CollectedIsStored(out: map<string, string>, keys: seq<string>, bundle: map<string, string>)
    requires forall k :: k in keys ==> k in bundle
    ensures Collected(out, keys, bundle) == Stored(out, PrintedEntries(keys, bundle))
    decreases |keys|
  {
    if keys != [] {
      var key, value := Decoded(keys[0]), Decoded(bundle[keys[0]]);
      CollectedIsStored(Assign(out, key, value), keys[1..], bundle);
      hide Decoded;
      assert PrintedEntries(keys, bundle)[1..] == PrintedEntries(keys[1..], bundle);
    }
  }
}

/** The locale bundle printer and the scanner that reads such tables back
    (scripts/harvest-locale-packages.ts). */
module LocaleBundles {
  import opened Strings
  import opened Wrappers

  // ---------------------------------------------------------------- printing

  function HexDigit(n: int): char
    requires 0 <= n < 16
  {
    "0123456789abcdef"[n]
  }

  /** One character inside a JSON string (section 7 of RFC 8259), as `JSON.stringify` writes it. */
  function EscapeChar(c: char): string {
    if c == '"' then "\\\""
    else if c == '\\' then "\\\\"
    else if c == '\n' then "\\n"
    else if c == '\r' then "\\r"
    else if c == '\t' then "\\t"
    else if c as int == 8 then "\\b"
    else if c as int == 12 then "\\f"
    else if c as int < 32 then "\\u00" + [HexDigit(c as int / 16), HexDigit(c as int % 16)]
    else [c]
  }

  function Escape(s: string): string {
    if s == "" then "" else EscapeChar(s[0]) + Escape(s[1..])
  }

  function TsString(s: string): string {
    "\"" + (Escape(s) + "\"")
  }

  function BundleLine(key: string, value: string): string {
    "  " + (TsString(key) + (": " + (TsString(value) + ",")))
  }

  function BundleLines(keys: seq<string>, bundle: map<string, string>): seq<string>
    requires forall k :: k in keys ==> k in bundle
  {
    if keys == [] then [] else [BundleLine(keys[0], bundle[keys[0]])] + BundleLines(keys[1..], bundle)
  }

  /** `renderBundle` from its opening brace on; `keys` are the keys of the bundle in their own order. */
  function BundleBody(keys: seq<string>, bundle: map<string, string>): string
    requires forall k :: k in keys ==> k in bundle
  {
    SortKeeps(keys);
    "{\n" + Join(BundleLines(Sort(keys), bundle), "\n") + "\n};\n"
  }

  // ---------------------------------------------------------------- scanning

  predicate IsQuote(c: char) {
    c == '"' || c == '\'' || c == '`'
  }

  /** What `readString` appends for the character after a backslash. */
  function Unescape(c: char): char {
    if c == 'n' then '\n' else if c == 't' then '\t' else if c == 'r' then '\r' else c
  }

  type Scan = Option<(string, nat)>

  function Prepend(prefix: string, scan: Scan): Scan {
    if scan.Some? then Some((prefix + scan.value.0, scan.value.1)) else None
  }

  /** The rest of a quoted string from index `i` on, and the index behind its closing quote. */
  function ScanRest(src: string, i: nat, quote: char): (r: Scan)
    ensures r.Some? ==> i < r.value.1 <= |src|
    decreases |src| - i
  {
    if i >= |src| then None
    else if src[i] == '\\' then
      if i + 1 < |src| then Prepend([Unescape(src[i + 1])], ScanRest(src, i + 2, quote)) else None
    else if src[i] == quote then Some(("", i + 1))
    else Prepend([src[i]], ScanRest(src, i + 1, quote))
  }

  /** What `readString` returns. */
  function ScanString(src: string, i: nat): (r: Scan)
    ensures r.Some? ==> i < r.value.1 <= |src|
  {
    if i < |src| && IsQuote(src[i]) then ScanRest(src, i + 1, src[i]) else None
  }

  method ReadString(src: string, start: nat) returns (r: Scan)
    ensures r == ScanString(src, start)
  {
    if start >= |src| || !IsQuote(src[start]) { return None; }
    var quote := src[start];
    var value := "";
    var i := start + 1;
    PrependNothing(ScanRest(src, i, quote));
    while i < |src|
      invariant i <= |src| + 1
      invariant ScanRest(src, start + 1, quote) == Prepend(value, ScanRest(src, i, quote))
      decreases |src| - i
    {
      if src[i] == '\\' {
        if i + 1 < |src| {
          PrependTwice(value, [Unescape(src[i + 1])], ScanRest(src, i + 2, quote));
          value := value + [Unescape(src[i + 1])];
        }
        i := i + 2;
        continue;
      }
      if src[i] == quote {
        assert value + "" == value;
        return Some((value, i + 1));
      }
      PrependTwice(value, [src[i]], ScanRest(src, i + 1, quote));
      value := value + [src[i]];
      i := i + 1;
    }
    return None;
  }

  lemma PrependNothing(scan: Scan)
    ensures Prepend("", scan) == scan
  {
    if scan.Some? {
      assert "" + scan.value.0 == scan.value.0;
    }
  }

  lemma PrependTwice(a: string, b: string, scan: Scan)
    ensures Prepend(a, Prepend(b, scan)) == Prepend(a + b, scan)
  {
    if scan.Some? {
      AppendAssociates(a, b, scan.value.0);
    }
  }

  /** Stops where `readString` stops; an unterminated string leads past the end. */
  method SkipQuote(src: string, start: nat) returns (end: nat)
    requires start < |src|
    ensures !IsQuote(src[start]) ==> end == start + 1
    ensures ScanString(src, start).Some? ==> end == ScanString(src, start).value.1
    ensures IsQuote(src[start]) && ScanString(src, start).None? ==> end >= |src|
  {
    var quote := src[start];
    if !IsQuote(quote) { return start + 1; }
    var i := start + 1;
    while i < |src|
      invariant ScanRest(src, start + 1, quote).Some? <==> ScanRest(src, i, quote).Some?
      invariant ScanRest(src, i, quote).Some? ==>
        ScanRest(src, start + 1, quote).value.1 == ScanRest(src, i, quote).value.1
      decreases |src| - i
    {
      if src[i] == '\\' {
        i := i + 2;
        continue;
      }
      if src[i] == quote { return i + 1; }
      i := i + 1;
    }
    return i;
  }

  predicate IsWs(c: char) {
    c == ' ' || c == '\t' || c == '\n' || c == '\r'
  }

  /** `src.indexOf("\n", i)`, or the length when there is none. */
  function NewlineFrom(src: string, i: nat): (r: nat)
    requires i <= |src|
    ensures i <= r <= |src|
    decreases |src| - i
  {
    if i == |src| || src[i] == '\n' then i else NewlineFrom(src, i + 1)
  }

  /** `src.indexOf("*" + "/", i)`, or the length when there is none. */
  function CommentEndFrom(src: string, i: nat): (r: nat)
    ensures i <= |src| ==> i <= r <= |src|
    ensures r < |src| ==> r + 1 < |src|
    decreases |src| - i
  {
    if i + 1 >= |src| then |src|
    else if src[i] == '*' && src[i + 1] == '/' then i
    else CommentEndFrom(src, i + 1)
  }

  predicate StartsComment(src: string, i: nat, second: char) {
    i + 1 < |src| && src[i] == '/' && src[i + 1] == second
  }

  function SkipWs(src: string, i: nat): (r: nat)
    requires i <= |src|
    ensures i <= r <= |src|
    decreases |src| - i
  {
    if i == |src| then i
    else if IsWs(src[i]) then SkipWs(src, i + 1)
    else if StartsComment(src, i, '/') then
      var nl := NewlineFrom(src, i);
      if nl == |src| then |src| else SkipWs(src, nl + 1)
    else if StartsComment(src, i, '*') then
      var end := CommentEndFrom(src, i + 2);
      if end == |src| then |src| else SkipWs(src, end + 2)
    else i
  }

  method SkipWsAndComments(src: string, start: nat) returns (i: nat)
    requires start <= |src|
    ensures i == SkipWs(src, start)
  {
    i := start;
    while i < |src|
      invariant i <= |src| && SkipWs(src, start) == SkipWs(src, i)
      decreases |src| - i
    {
      if IsWs(src[i]) {
        i := i + 1;
      } else if StartsComment(src, i, '/') {
        var nl := NewlineFrom(src, i);
        i := if nl == |src| then |src| else nl + 1;
      } else if StartsComment(src, i, '*') {
        var end := CommentEndFrom(src, i + 2);
        i := if end == |src| then |src| else end + 2;
      } else {
        break;
      }
    }
  }

  /** `out[key] = value` on an object literal: assigning a string to `__proto__` has no effect. */
  function Assign(out: map<string, string>, key: string, value: string): map<string, string> {
    if key == "__proto__" then out else out[key := value]
  }

  predicate IsKeyQuote(c: char) {
    c == '"' || c == '\''
  }

  /** The variables of `extractObjectStrings`; `stop` for a `break`. */
  datatype Cursor = Cursor(i: nat, depth: int, out: map<string, string>, stop: bool)

  /** One turn of its loop. */
  function Turn(src: string, c: Cursor): (r: Cursor)
    requires c.i < |src|
    ensures c.i < r.i <= |src| || r.stop
  {
    var j := SkipWs(src, c.i);
    if j == |src| then c.(stop := true)
    else if src[j] == '}' then c.(i := j + 1, depth := c.depth - 1)
    else if src[j] == '{' then c.(i := j + 1, depth := c.depth + 1)
    else if IsKeyQuote(src[j]) then
      var key := ScanString(src, j);
      if key.None? then c.(stop := true) else AfterKey(src, c, key.value.0, key.value.1)
    else c.(i := j + 1)
  }

  /** The rest of a turn once a quoted key has been read. */
  function AfterKey(src: string, c: Cursor, key: string, end: nat): (r: Cursor)
    requires end <= |src|
    ensures r.stop || end <= r.i <= |src|
  {
    var a := SkipWs(src, end);
    if a == |src| || src[a] != ':' then c.(i := end)
    else
      var b := SkipWs(src, a + 1);
      if b == |src| then c.(stop := true)
      else if IsKeyQuote(src[b]) then
        var val := ScanString(src, b);
        if val.None? then c.(i := b) else c.(i := val.value.1, out := Assign(c.out, key, val.value.0))
      else if src[b] == '{' then c.(i := b + 1, depth := c.depth + 1)
      else c.(i := b + 1)
  }

  /** The whole loop. */
  function Extract(src: string, c: Cursor): map<string, string>
    decreases |src| - c.i
  {
    if c.i >= |src| || c.depth <= 0 then c.out
    else
      var next := Turn(src, c);
      if next.stop then next.out else Extract(src, next)
  }

  method ReadEntry(src: string, c: Cursor, key: string, end: nat) returns (r: Cursor)
    requires end <= |src|
    ensures r == AfterKey(src, c, key, end)
  {
    hide ScanString, SkipWs;
    r := c;
    var i := SkipWsAndComments(src, end);
    if i == |src| || src[i] != ':' {
      return r.(i := end);
    }
    i := SkipWsAndComments(src, i + 1);
    if i == |src| { return r.(stop := true); }
    if IsKeyQuote(src[i]) {
      var val := ReadString(src, i);
      if val.Some? {
        return r.(i := val.value.1, out := Assign(r.out, key, val.value.0));
      }
      return r.(i := i);
    }
    if src[i] == '{' {
      return r.(i := i + 1, depth := r.depth + 1);
    }
    return r.(i := i + 1);
  }

  method ExtractObjectStrings(src: string, openBrace: nat) returns (out: map<string, string>)
    requires openBrace < |src|
    ensures out == Extract(src, Cursor(openBrace + 1, 1, map[], false))
  {
    var c := Cursor(openBrace + 1, 1, map[], false);
    while c.i < |src| && c.depth > 0
      invariant !c.stop && Extract(src, Cursor(openBrace + 1, 1, map[], false)) == Extract(src, c)
      decreases |src| - c.i
    {
      hide ScanString, SkipWs, AfterKey;
      var i := SkipWsAndComments(src, c.i);
      if i >= |src| { return c.out; }
      if src[i] == '}' {
        c := c.(i := i + 1, depth := c.depth - 1);
      } else if src[i] == '{' {
        c := c.(i := i + 1, depth := c.depth + 1);
      } else if IsKeyQuote(src[i]) {
        var key := ReadString(src, i);
        if key.None? { return c.out; }
        var next := ReadEntry(src, c, key.value.0, key.value.1);
        if next.stop { return next.out; }
        c := next;
      } else {
        c := c.(i := i + 1);
      }
    }
    return c.out;
  }

  // ---------------------------------------------------------------- scanning what was printed

  /** `t` stands in `src` at index `i`. */
  predicate At(src: string, i: nat, t: string) {
    i + |t| <= |src| && src[i..i + |t|] == t
  }

  lemma AtSplit(src: string, i: nat, a: string, b: string)
    requires At(src, i, a + b)
    ensures At(src, i, a) && At(src, i + |a|, b)
  {
    var t := a + b;
    assert src[i..i + |a|] == t[..|a|];
    assert src[i + |a|..i + |t|] == t[|a|..];
  }

  lemma AtHead(src: string, i: nat, t: string)
    requires At(src, i, t) && t != ""
    ensures i < |src| && src[i] == t[0]
  {
    assert src[i..i + |t|][0] == t[0];
  }

  /** What the scanner makes of an escaped character. */
  function DecodeChar(c: char): string {
    if c as int == 8 then "b"
    else if c as int == 12 then "f"
    else if IsLost(c) then "u00" + [HexDigit(c as int / 16), HexDigit(c as int % 16)]
    else [c]
  }

  /** The characters whose escape the scanner does not know: all control characters but \n, \r, \t. */
  predicate IsLost(c: char) {
    c as int < 32 && c != '\n' && c != '\r' && c != '\t'
  }

  predicate Clean(s: string) {
    forall i :: 0 <= i < |s| ==> !IsLost(s[i])
  }

  function Decoded(s: string): string
    decreases |s|
  {
    if s == "" then "" else DecodeChar(s[0]) + Decoded(s[1..])
  }

  lemma {:induction false} DecodedIsClean(s: string)
    ensures Clean(Decoded(s))
  {
    if s != "" {
      DecodedIsClean(s[1..]);
    }
  }

  lemma {:induction false} CleanIsDecoded(s: string)
    requires Clean(s)
    ensures Decoded(s) == s
  {
    if s != "" {
      CleanIsDecoded(s[1..]);
      assert s == [s[0]] + s[1..];
    }
  }

  lemma DecodedIff(s: string)
    ensures Decoded(s) == s <==> Clean(s)
  {
    DecodedIsClean(s);
    if Clean(s) {
      CleanIsDecoded(s);
    }
  }

  predicate IsPlainText(t: string) {
    forall k :: 0 <= k < |t| ==> t[k] != '\\' && t[k] != '"'
  }

  lemma {:induction false} ScanPlain(src: string, i: nat, t: string)
    requires At(src, i, t) && IsPlainText(t)
    ensures ScanRest(src, i, '"') == Prepend(t, ScanRest(src, i + |t|, '"'))
    decreases |t|
  {
    var rest := ScanRest(src, i + |t|, '"');
    if t == "" {
      assert rest.Some? ==> "" + rest.value.0 == rest.value.0;
    } else {
      assert t == [t[0]] + t[1..];
      AtSplit(src, i, [t[0]], t[1..]);
      AtHead(src, i, [t[0]]);
      ScanPlain(src, i + 1, t[1..]);
      PrependTwice([t[0]], t[1..], rest);
    }
  }

  lemma ScanControl(src: string, i: nat, c: char)
    requires At(src, i, EscapeChar(c)) && IsLost(c) && |EscapeChar(c)| == 6
    ensures ScanRest(src, i, '"') == Prepend(DecodeChar(c), ScanRest(src, i + 6, '"'))
  {
    var d := DecodeChar(c);
    ControlText(c);
    hide EscapeChar, HexDigit, IsLost, DecodeChar;
    AtSplit(src, i, "\\u", d[1..]);
    AtHead(src, i, "\\u");
    assert src[i + 1] == src[i..i + 2][1] == 'u';
    ScanPlain(src, i + 2, d[1..]);
    PrependTwice("u", d[1..], ScanRest(src, i + 6, '"'));
    assert d == "u" + d[1..];
  }

  lemma HexIsPlain(n: int)
    requires 0 <= n < 16
    ensures HexDigit(n) != '\\' && HexDigit(n) != '"'
  {
  }

  lemma ControlText(c: char)
    requires IsLost(c) && |EscapeChar(c)| == 6
    ensures EscapeChar(c) == "\\u" + DecodeChar(c)[1..] && IsPlainText(DecodeChar(c)) && DecodeChar(c)[0] == 'u'
  {
    var x, y := HexDigit(c as int / 16), HexDigit(c as int % 16);
    HexIsPlain(c as int / 16);
    HexIsPlain(c as int % 16);
    hide HexDigit;
    assert EscapeChar(c) == "\\u00" + [x, y] && DecodeChar(c) == "u00" + [x, y];
  }

  lemma ScanEscapedChar(src: string, i: nat, c: char)
    requires At(src, i, EscapeChar(c))
    ensures ScanRest(src, i, '"') == Prepend(DecodeChar(c), ScanRest(src, i + |EscapeChar(c)|, '"'))
  {
    var t := EscapeChar(c);
    AtHead(src, i, t);
    if |t| == 6 {
      ScanControl(src, i, c);
    } else if |t| == 2 {
      assert src[i + 1] == src[i..i + 2][1] == t[1];
    }
  }

  /** What scanning the rest of a printed string from index `i` gives. */
  function Reading(s: string, i: nat): Scan {
    Some((Decoded(s), i + |Escape(s)| + 1))
  }

  lemma ReadingStep(s: string, i: nat)
    requires s != ""
    ensures Prepend(DecodeChar(s[0]), Reading(s[1..], i + |EscapeChar(s[0])|)) == Reading(s, i)
  {
    hide EscapeChar, DecodeChar;
  }

  lemma ScanEnd(src: string, i: nat)
    requires At(src, i, Escape("") + "\"")
    ensures ScanRest(src, i, '"') == Reading("", i)
  {
    assert Escape("") + "\"" == "\"";
    AtHead(src, i, "\"");
    hide At;
  }

  lemma {:induction false} ScanEscaped(src: string, i: nat, s: string)
    requires At(src, i, Escape(s) + "\"")
    ensures ScanRest(src, i, '"') == Reading(s, i)
    decreases |s|
  {
    hide *;
    if s == "" {
      ScanEnd(src, i);
    } else {
      var head, tail := EscapeChar(s[0]), Escape(s[1..]);
      EscapeFirst(s);
      AppendAssociates(head, tail, "\"");
      AtSplit(src, i, head, tail + "\"");
      ScanEscapedChar(src, i, s[0]);
      ScanEscaped(src, i + |head|, s[1..]);
      ReadingStep(s, i);
    }
  }

  lemma EscapeFirst(s: string)
    requires s != ""
    ensures Escape(s) == EscapeChar(s[0]) + Escape(s[1..])
  {
    hide EscapeChar;
  }

  lemma ReadingMeans(s: string, i: nat)
    ensures Reading(s, i) == Some((Decoded(s), i + |Escape(s)| + 1))
  {
    hide Decoded, Escape;
  }

  lemma OpensString(src: string, i: nat, s: string)
    requires At(src, i, TsString(s))
    ensures At(src, i + 1, Escape(s) + "\"") && ScanString(src, i) == ScanRest(src, i + 1, '"')
    ensures |TsString(s)| == |Escape(s)| + 2
  {
    hide Escape, ScanRest;
    AtSplit(src, i, "\"", Escape(s) + "\"");
    AtHead(src, i, "\"");
    hide At;
  }

  /** `readString` reads a printed string up to the end of its literal, wherever it stands; the value is
      the original exactly when it holds no control character beside newline, return and tab. */
  lemma ReadsPrintedString(src: string, i: nat, s: string)
    requires At(src, i, TsString(s))
    ensures ScanString(src, i) == Some((Decoded(s), i + |TsString(s)|))
    ensures Decoded(s) == s <==> Clean(s)
  {
    hide *;
    OpensString(src, i, s);
    ScanEscaped(src, i + 1, s);
    ReadingMeans(s, i + 1);
    DecodedIff(s);
  }

  // ---------------------------------------------------------------- the bundle

  const BUNDLE_END := "\n};\n"

  /** A printed bundle behind its opening brace: each entry on its own line, and the closing brace. */
  function Rows(keys: seq<string>, bundle: map<string, string>): string
    requires forall k :: k in keys ==> k in bundle
  {
    if keys == [] then BUNDLE_END
    else "\n" + (BundleLine(keys[0], bundle[keys[0]]) + Rows(keys[1..], bundle))
  }

  lemma {:induction false} RowsAreJoined(keys: seq<string>, bundle: map<string, string>)
    requires keys != [] && forall k :: k in keys ==> k in bundle
    ensures "\n" + (Join(BundleLines(keys, bundle), "\n") + BUNDLE_END) == Rows(keys, bundle)
  {
    hide BundleLine;
    var line := BundleLine(keys[0], bundle[keys[0]]);
    var lines := BundleLines(keys, bundle);
    if |keys| > 1 {
      RowsAreJoined(keys[1..], bundle);
      assert lines[1..] == BundleLines(keys[1..], bundle) && |lines| > 1;
      var rest := Join(lines[1..], "\n");
      AppendAssociates(line, "\n", rest);
      AppendAssociates(line, "\n" + rest, BUNDLE_END);
      AppendAssociates("\n", rest, BUNDLE_END);
    } else {
      assert BundleLines(keys[1..], bundle) == [];
      assert lines == [line] + [];
    }
  }

  /** What the scanner collects from printed entries. */
  function Collected(out: map<string, string>, keys: seq<string>, bundle: map<string, string>): map<string, string>
    requires forall k :: k in keys ==> k in bundle
    decreases |keys|
  {
    if keys == [] then out
    else Collected(Assign(out, Decoded(keys[0]), Decoded(bundle[keys[0]])), keys[1..], bundle)
  }

  lemma EntryTurn(src: string, i: nat, key: string, value: string, out: map<string, string>)
    requires At(src, i, "\n") && At(src, i + 1, BundleLine(key, value))
    ensures Extract(src, Cursor(i, 1, out, false))
      == Extract(src, Cursor(i + 1 + |BundleLine(key, value)|, 1, Assign(out, Decoded(key), Decoded(value)), false))
  {
    hide *;
    var a := i + 3 + |TsString(key)|;
    var e := a + 2 + |TsString(value)|;
    LineParts(src, i + 1, key, value);
    AtHead(src, e, ",");
    QuoteHead(src, i + 3, key);
    QuoteHead(src, a + 2, value);
    Blanks(src, i);
    Colon(src, a);
    ReadsPrintedString(src, i + 3, key);
    ReadsPrintedString(src, a + 2, value);
    var c, c1 := Cursor(i, 1, out, false), Cursor(e, 1, Assign(out, Decoded(key), Decoded(value)), false);
    EntryRead(src, c, i + 3, Decoded(key), a, a + 2, Decoded(value), e);
    ExtractTurn(src, c, c1);
    CommaTurn(src, c1);
  }

  /** Where the parts of a printed row stand. */
  lemma LineParts(src: string, i: nat, key: string, value: string)
    requires At(src, i, BundleLine(key, value))
    ensures var a := i + 2 + |TsString(key)|; var e := a + 2 + |TsString(value)|;
      && At(src, i, "  ") && At(src, i + 2, TsString(key)) && At(src, a, ": ") && At(src, a + 2, TsString(value))
      && At(src, e, ",") && e + 1 == i + |BundleLine(key, value)|
  {
    hide *;
    var k, v := TsString(key), TsString(value);
    LineShape(key, value);
    AtSplit(src, i, "  ", k + (": " + (v + ",")));
    AtSplit(src, i + 2, k, ": " + (v + ","));
    AtSplit(src, i + 2 + |k|, ": ", v + ",");
    AtSplit(src, i + 4 + |k|, v, ",");
  }

  lemma LineShape(key: string, value: string)
    ensures BundleLine(key, value) == "  " + (TsString(key) + (": " + (TsString(value) + ",")))
    ensures |BundleLine(key, value)| == 5 + |TsString(key)| + |TsString(value)|
  {
    hide TsString;
  }

  /** One turn over a key at `j` that ends at `a`, a colon there, and a string value from `b` to `e`. */
  lemma EntryRead(src: string, c: Cursor, j: nat, key: string, a: nat, b: nat, value: string, e: nat)
    requires c.i < |src| && SkipWs(src, c.i) == j < |src| && src[j] == '"' && ScanString(src, j) == Some((key, a))
    requires a < |src| && SkipWs(src, a) == a && src[a] == ':'
    requires SkipWs(src, a + 1) == b < |src| && src[b] == '"' && ScanString(src, b) == Some((value, e))
    ensures Turn(src, c) == c.(i := e, out := Assign(c.out, key, value))
  {
    hide SkipWs, ScanString, Assign;
  }

  lemma ExtractTurn(src: string, c: Cursor, next: Cursor)
    requires c.i < |src| && c.depth > 0 && Turn(src, c) == next && !next.stop
    ensures Extract(src, c) == Extract(src, next)
  {
  }

  lemma QuoteHead(src: string, i: nat, s: string)
    requires At(src, i, TsString(s))
    ensures i < |src| && src[i] == '"'
  {
    AtHead(src, i, TsString(s));
  }

  lemma Blanks(src: string, i: nat)
    requires At(src, i, "\n") && At(src, i + 1, "  ") && i + 3 < |src| && src[i + 3] == '"'
    ensures SkipWs(src, i) == i + 3
  {
    AtHead(src, i, "\n");
    assert src[i + 1] == src[i + 1..i + 3][0] && src[i + 2] == src[i + 1..i + 3][1];
    assert SkipWs(src, i + 3) == i + 3;
    assert SkipWs(src, i + 2) == i + 3;
    assert SkipWs(src, i + 1) == i + 3;
  }

  lemma Colon(src: string, a: nat)
    requires At(src, a, ": ") && a + 2 < |src| && src[a + 2] == '"'
    ensures SkipWs(src, a) == a && src[a] == ':' && SkipWs(src, a + 1) == a + 2
  {
    assert src[a] == src[a..a + 2][0] && src[a + 1] == src[a..a + 2][1];
    assert SkipWs(src, a + 2) == a + 2;
  }

  lemma CommaTurn(src: string, c: Cursor)
    requires c.i < |src| && src[c.i] == ',' && c.depth > 0 && !c.stop
    ensures Extract(src, c) == Extract(src, c.(i := c.i + 1))
  {
    assert SkipWs(src, c.i) == c.i;
    assert Turn(src, c) == c.(i := c.i + 1);
  }

  lemma ClosingTurn(src: string, i: nat, out: map<string, string>)
    requires At(src, i, BUNDLE_END)
    ensures Extract(src, Cursor(i, 1, out, false)) == out
  {
    assert src[i] == src[i..i + 4][0] && src[i + 1] == src[i..i + 4][1];
    assert SkipWs(src, i + 1) == i + 1;
    assert SkipWs(src, i) == i + 1;
    assert Turn(src, Cursor(i, 1, out, false)) == Cursor(i + 2, 0, out, false);
  }

  lemma {:induction false} ExtractRows(src: string, i: nat, keys: seq<string>, bundle: map<string, string>,
                                       out: map<string, string>)
    requires (forall k :: k in keys ==> k in bundle) && At(src, i, Rows(keys, bundle))
    ensures Extract(src, Cursor(i, 1, out, false)) == Collected(out, keys, bundle)
    decreases |keys|
  {
    hide *;
    if keys == [] {
      NoRows(bundle, out);
      ClosingTurn(src, i, out);
    } else {
      var key, value := keys[0], bundle[keys[0]];
      var line, rest := BundleLine(key, value), Rows(keys[1..], bundle);
      FirstRow(keys, bundle, out);
      AtSplit(src, i, "\n", line + rest);
      AtSplit(src, i + 1, line, rest);
      EntryTurn(src, i, key, value, out);
      ExtractRows(src, i + 1 + |line|, keys[1..], bundle, Assign(out, Decoded(key), Decoded(value)));
    }
  }

  lemma NoRows(bundle: map<string, string>, out: map<string, string>)
    ensures Rows([], bundle) == BUNDLE_END && Collected(out, [], bundle) == out
  {
  }

  lemma FirstRow(keys: seq<string>, bundle: map<string, string>, out: map<string, string>)
    requires keys != [] && forall k :: k in keys ==> k in bundle
    ensures forall k :: k in keys[1..] ==> k in bundle
    ensures Rows(keys, bundle) == "\n" + (BundleLine(keys[0], bundle[keys[0]]) + Rows(keys[1..], bundle))
    ensures Collected(out, keys, bundle)
      == Collected(Assign(out, Decoded(keys[0]), Decoded(bundle[keys[0]])), keys[1..], bundle)
  {
    hide BundleLine, Assign, Decoded;
  }

  /** Names and values the scanner gets back as they were. `__proto__` cannot be a key of its result. */
  predicate Survives(bundle: map<string, string>) {
    && (forall k :: k in bundle ==> Clean(k) && Clean(bundle[k]))
    && "__proto__" !in bundle
  }

  lemma {:induction false} CollectedSurvives(out: map<string, string>, keys: seq<string>, bundle: map<string, string>)
    requires (forall k :: k in keys ==> k in bundle) && Survives(out)
    ensures Survives(Collected(out, keys, bundle))
    decreases |keys|
  {
    if keys != [] {
      var key, value := Decoded(keys[0]), Decoded(bundle[keys[0]]);
      DecodedIsClean(keys[0]);
      DecodedIsClean(bundle[keys[0]]);
      hide Decoded, Clean;
      CollectedSurvives(Assign(out, key, value), keys[1..], bundle);
    }
  }

  lemma {:induction false} CollectedExactly(out: map<string, string>, keys: seq<string>, bundle: map<string, string>)
    requires (forall k :: k in keys ==> k in bundle) && Survives(bundle)
    ensures var result := Collected(out, keys, bundle);
      && (forall k :: k in result <==> k in out || k in keys)
      && (forall k :: k in result ==> result[k] == if k in keys then bundle[k] else out[k])
    decreases |keys|
  {
    if keys != [] {
      CleanIsDecoded(keys[0]);
      CleanIsDecoded(bundle[keys[0]]);
      assert keys[0] in keys && keys[0] != "__proto__";
      assert forall k :: k in keys <==> k == keys[0] || k in keys[1..];
      hide Decoded, Clean;
      CollectedExactly(Assign(out, keys[0], bundle[keys[0]]), keys[1..], bundle);
    }
  }

  /** The rows of a printed bundle stand behind its opening brace. An empty bundle leaves a blank line. */
  lemma RowsInBody(header: string, keys: seq<string>, bundle: map<string, string>)
    requires forall k :: k in keys ==> k in bundle
    ensures var src := header + BundleBody(keys, bundle);
      && |header| < |src| && src[|header|] == '{'
      && (forall k :: k in Sort(keys) <==> k in keys)
      && (if keys == [] then At(src, |header| + 1, "\n" + BUNDLE_END)
          else At(src, |header| + 1, Rows(Sort(keys), bundle)))
  {
    SortKeeps(keys);
    var sorted, src := Sort(keys), header + BundleBody(keys, bundle);
    var joined := Join(BundleLines(sorted, bundle), "\n");
    var tail := "\n" + (joined + BUNDLE_END);
    BodyTail(joined);
    AfterHeader(header, tail);
    if keys == [] {
      assert joined + BUNDLE_END == BUNDLE_END;
    } else {
      assert keys[0] in sorted;
      RowsAreJoined(sorted, bundle);
    }
    hide At, Sort, Rows, BundleLines, Join;
  }

  lemma BodyTail(joined: string)
    ensures "{\n" + joined + "\n};\n" == "{" + ("\n" + (joined + BUNDLE_END))
  {
  }

  lemma AfterHeader(header: string, tail: string)
    ensures var src := header + ("{" + tail);
      |header| < |src| && src[|header|] == '{' && At(src, |header| + 1, tail)
  {
    var src := header + ("{" + tail);
    assert src[|header|..] == "{" + tail && src[|header| + 1..] == tail;
  }

  lemma EmptyBundle(src: string, i: nat, out: map<string, string>)
    requires At(src, i, "\n" + BUNDLE_END)
    ensures Extract(src, Cursor(i, 1, out, false)) == out
  {
    AtSplit(src, i, "\n", BUNDLE_END);
    AtHead(src, i, "\n");
    ClosingTurn(src, i + 1, out);
    assert src[i + 1] == src[i + 1..i + 5][0] && src[i + 2] == src[i + 1..i + 5][1];
    assert SkipWs(src, i + 2) == i + 2;
    assert SkipWs(src, i + 1) == i + 2 && SkipWs(src, i) == i + 2;
    assert Turn(src, Cursor(i, 1, out, false)) == Turn(src, Cursor(i + 1, 1, out, false));
  }

  /** Printing then scanning gives the bundle back exactly when no key or value holds a control character
      beside newline, return and tab, and no key is `__proto__`. Holds for every text before the opening
      brace and every order of the keys. */
  lemma RoundTrip(header: string, keys: seq<string>, bundle: map<string, string>)
    requires forall k :: k in keys <==> k in bundle
    ensures var src := header + BundleBody(keys, bundle);
      Extract(src, Cursor(|header| + 1, 1, map[], false)) == bundle <==> Survives(bundle)
  {
    hide *;
    RowsInBody(header, keys, bundle);
    var sorted, src := Sort(keys), header + BundleBody(keys, bundle);
    if keys == [] {
      EmptyBundle(src, |header| + 1, map[]);
      assert bundle == map[];
      CollectedIff([], bundle);
    } else {
      ExtractRows(src, |header| + 1, sorted, bundle, map[]);
      CollectedIff(sorted, bundle);
    }
  }

  lemma CollectedIff(keys: seq<string>, bundle: map<string, string>)
    requires forall k :: k in keys <==> k in bundle
    ensures Collected(map[], keys, bundle) == bundle <==> Survives(bundle)
    ensures keys == [] ==> Survives(bundle)
  {
    CollectedSurvives(map[], keys, bundle);
    hide Collected, Clean;
    if Survives(bundle) {
      CollectedExactly(map[], keys, bundle);
      assert Collected(map[], keys, bundle) == bundle;
    }
  }
}

/** UTF-8 as `Buffer.toString("utf-8")` reads it: every malformed part becomes one replacement character
    (sections 3 and 4 of RFC 3629; the decoder of the WHATWG Encoding Standard, section 8.1.1). */
module Utf8 {
  import opened Strings

  type Byte = x: int | 0 <= x < 256

  const REPLACEMENT: char := '\U{FFFD}'

  predicate IsContinuation(b: Byte) {
    0x80 <= b < 0xC0
  }

  /** How many bytes have to follow: none after ASCII, nor after a byte that begins no character. */
  function Following(lead: Byte): nat {
    if 0xC2 <= lead <= 0xDF then 1
    else if 0xE0 <= lead <= 0xEF then 2
    else if 0xF0 <= lead <= 0xF4 then 3
    else 0
  }

  /** Overlong forms, surrogates and values beyond Unicode are ruled out by the second byte. */
  predicate IsSecond(lead: Byte, b: Byte) {
    && IsContinuation(b)
    && (lead == 0xE0 ==> 0xA0 <= b)
    && (lead == 0xED ==> b < 0xA0)
    && (lead == 0xF0 ==> 0x90 <= b)
    && (lead == 0xF4 ==> b < 0x90)
  }

  /** The bytes read for one character: all of them, or as many as could begin one. */
  function Taken(bs: seq<Byte>): (n: nat)
    requires bs != []
    ensures 1 <= n <= |bs| && n <= 1 + Following(bs[0])
  {
    var f := Following(bs[0]);
    if f == 0 || |bs| == 1 || !IsSecond(bs[0], bs[1]) then 1
    else if f == 1 || |bs| == 2 || !IsContinuation(bs[2]) then 2
    else if f == 2 || |bs| == 3 || !IsContinuation(bs[3]) then 3
    else 4
  }

  /** The six bits a continuation byte carries. */
  function Bits(b: Byte): int {
    b - 0x80
  }

  function First(bs: seq<Byte>): char
    requires bs != []
  {
    var n, lead: int := Taken(bs), bs[0];
    if n <= Following(bs[0]) then REPLACEMENT
    else if n == 1 then if lead < 0x80 then lead as char else REPLACEMENT
    else if n == 2 then ((lead - 0xC0) * 64 + Bits(bs[1])) as char
    else if n == 3 then (((lead - 0xE0) * 64 + Bits(bs[1])) * 64 + Bits(bs[2])) as char
    else ((((lead - 0xF0) * 64 + Bits(bs[1])) * 64 + Bits(bs[2])) * 64 + Bits(bs[3])) as char
  }

  function Decode(bs: seq<Byte>): string {
    if bs == [] then "" else [First(bs)] + Decode(bs[Taken(bs)..])
  }

  function EncodeChar(c: char): (bs: seq<Byte>)
    ensures bs != []
  {
    var x := c as int;
    if x < 0x80 then [x]
    else if x < 0x800 then [0xC0 + x / 64, 0x80 + x % 64]
    else if x < 0x10000 then [0xE0 + x / 64 / 64, 0x80 + x / 64 % 64, 0x80 + x % 64]
    else [0xF0 + x / 64 / 64 / 64, 0x80 + x / 64 / 64 % 64, 0x80 + x / 64 % 64, 0x80 + x % 64]
  }

  function Encode(text: string): seq<Byte> {
    if text == "" then [] else EncodeChar(text[0]) + Encode(text[1..])
  }

  // ---------------------------------------------------------------- round trip

  /** `bs` begins with the encoding of the character. */
  predicate Begins(bs: seq<Byte>, c: char) {
    var e := EncodeChar(c);
    |e| <= |bs| && forall k :: 0 <= k < |e| ==> bs[k] == e[k]
  }

  lemma ShortFirst(bs: seq<Byte>, c: char)
    requires Begins(bs, c) && c as int < 0x800
    ensures Taken(bs) == |EncodeChar(c)| && First(bs) == c && !IsContinuation(bs[0])
    ensures forall k :: 1 <= k < Taken(bs) ==> IsContinuation(bs[k])
  {
  }

  lemma ThreeFirst(bs: seq<Byte>, c: char)
    requires Begins(bs, c) && 0x800 <= c as int < 0x10000
    ensures Taken(bs) == |EncodeChar(c)| && First(bs) == c && !IsContinuation(bs[0])
    ensures forall k :: 1 <= k < Taken(bs) ==> IsContinuation(bs[k])
  {
    var x := c as int;
    assert Bits(bs[2]) == x % 64 && Bits(bs[1]) == x / 64 % 64;
    assert IsSecond(bs[0], bs[1]) && IsContinuation(bs[2]);
  }

  lemma FourFirst(bs: seq<Byte>, c: char)
    requires Begins(bs, c) && 0x10000 <= c as int
    ensures Taken(bs) == |EncodeChar(c)| && First(bs) == c && !IsContinuation(bs[0])
    ensures forall k :: 1 <= k < Taken(bs) ==> IsContinuation(bs[k])
  {
    var x := c as int;
    assert Bits(bs[3]) == x % 64 && Bits(bs[2]) == x / 64 % 64 && Bits(bs[1]) == x / 64 / 64 % 64;
    assert IsSecond(bs[0], bs[1]) && IsContinuation(bs[2]) && IsContinuation(bs[3]);
  }

  lemma EncodedFirst(c: char, rest: seq<Byte>)
    ensures var e := EncodeChar(c); var bs := e + rest;
      && Taken(bs) == |e| && First(bs) == c && bs[|e|..] == rest
      && !IsContinuation(bs[0]) && forall k :: 1 <= k < |e| ==> IsContinuation(bs[k])
  {
    var e := EncodeChar(c);
    assert Begins(e + rest, c) by { hide EncodeChar; }
    hide *;
    assert (e + rest)[|e|..] == rest;
    if c as int < 0x800 {
      ShortFirst(e + rest, c);
    } else if c as int < 0x10000 {
      ThreeFirst(e + rest, c);
    } else {
      FourFirst(e + rest, c);
    }
  }

  lemma {:induction false} RoundTrip(text: string)
    ensures Decode(Encode(text)) == text
  {
    if text != "" {
      EncodedFirst(text[0], Encode(text[1..]));
      RoundTrip(text[1..]);
    }
  }

  /** A character other than the replacement character is read only off its own encoding. */
  lemma ReadOffItsEncoding(bs: seq<Byte>)
    requires bs != [] && First(bs) != REPLACEMENT
    ensures bs[..Taken(bs)] == EncodeChar(First(bs))
  {
    var n := Taken(bs);
    if n == 3 {
      ThreeBytes(bs);
    } else if n == 4 {
      FourBytes(bs);
    }
  }

  lemma ThreeBytes(bs: seq<Byte>)
    requires bs != [] && Taken(bs) == 3 && First(bs) != REPLACEMENT
    ensures bs[..3] == EncodeChar(First(bs))
  {
    var x := First(bs) as int;
    assert x / 64 == (bs[0] - 0xE0) * 64 + Bits(bs[1]) && x % 64 == Bits(bs[2]);
    assert x >= 0x800;
  }

  lemma FourBytes(bs: seq<Byte>)
    requires bs != [] && Taken(bs) == 4 && First(bs) != REPLACEMENT
    ensures bs[..4] == EncodeChar(First(bs))
  {
    var x := First(bs) as int;
    assert x / 64 == ((bs[0] - 0xF0) * 64 + Bits(bs[1])) * 64 + Bits(bs[2]) && x % 64 == Bits(bs[3]);
    assert x / 64 / 64 == (bs[0] - 0xF0) * 64 + Bits(bs[1]) && x / 64 % 64 == Bits(bs[2]);
    assert x >= 0x10000;
  }

  // ---------------------------------------------------------------- decoding piece by piece

  /** Between two characters of the text, or at one of its ends. */
  predicate IsCut(bs: seq<Byte>, n: nat)
    decreases |bs|
  {
    n == 0 || (bs != [] && Taken(bs) <= n && IsCut(bs[Taken(bs)..], n - Taken(bs)))
  }

  /** Bytes inside a character decode to one replacement character each. */
  lemma {:induction false} Continuations(bs: seq<Byte>, n: nat)
    requires n <= |bs| && forall k :: 0 <= k < n ==> IsContinuation(bs[k])
    ensures |Decode(bs)| == n + |Decode(bs[n..])|
    decreases n
  {
    if n > 0 {
      Continuations(bs[1..], n - 1);
      assert bs[1..][n - 1..] == bs[n..];
    }
  }

  /** The first character of a longer text is read from the same bytes, unless it goes on behind `a`. */
  lemma SameFirst(a: seq<Byte>, b: seq<Byte>)
    requires a != []
    ensures var k := Taken(a + b);
      if k <= |a| then Taken(a) == k && First(a) == First(a + b)
      else Taken(a) == |a| && k - |a| <= |b| && forall i :: 0 <= i < k - |a| ==> IsContinuation(b[i])
  {
    var bs := a + b;
    assert forall i :: 0 <= i < |a| ==> bs[i] == a[i];
    assert forall i :: 0 <= i < |b| ==> bs[|a| + i] == b[i];
  }

  /** What is read for one character is as long as it can be: with the next byte it begins no character. */
  lemma TakenIsMaximal(bs: seq<Byte>, c: char)
    requires bs != [] && Taken(bs) < |bs|
    ensures !(bs[..Taken(bs) + 1] <= EncodeChar(c))
  {
    var n := Taken(bs);
    var a := bs[..n + 1];
    assert a + bs[n + 1..] == bs;
    SameFirst(a, bs[n + 1..]);
    if a <= EncodeChar(c) {
      PartOfEncoded(a, c);
    }
  }

  lemma PartOfEncoded(a: seq<Byte>, c: char)
    requires a != [] && a <= EncodeChar(c)
    ensures Taken(a) == |a|
  {
    var e := EncodeChar(c);
    EncodedFirst(c, []);
    assert a + e[|a|..] == e && e + [] == e;
    SameFirst(a, e[|a|..]);
  }

  /** Decoding in two pieces gives the same exactly when the pieces meet between two characters;
      otherwise it gives more characters. */
  lemma {:induction false} TwoPieces(a: seq<Byte>, b: seq<Byte>)
    ensures IsCut(a + b, |a|) ==> Decode(a + b) == Decode(a) + Decode(b)
    ensures !IsCut(a + b, |a|) ==> |Decode(a + b)| < |Decode(a)| + |Decode(b)|
    decreases |a|
  {
    hide *;
    if a == [] {
      assert a + b == b;
      NothingDecoded();
    } else {
      var k := Taken(a + b);
      SameFirst(a, b);
      DecodeStep(a);
      DecodeStep(a + b);
      if k <= |a| {
        RestOfBoth(a, b, k);
        TwoPieces(a[k..], b);
        AppendAssociates([First(a)], Decode(a[k..]), Decode(b));
      } else {
        Continuations(b, k - |a|);
        RestOfSecond(a, b, k);
        NothingDecoded();
      }
    }
  }

  lemma NothingDecoded()
    ensures Decode([]) == "" && forall bs :: IsCut(bs, 0)
  {
  }

  lemma RestOfBoth(a: seq<Byte>, b: seq<Byte>, k: nat)
    requires k <= |a|
    ensures (a + b)[k..] == a[k..] + b
  {
  }

  lemma RestOfSecond(a: seq<Byte>, b: seq<Byte>, k: nat)
    requires |a| < k <= |a| + |b|
    ensures (a + b)[k..] == b[k - |a|..] && a[|a|..] == []
  {
  }

  lemma DecodeStep(bs: seq<Byte>)
    requires bs != []
    ensures Decode(bs) == [First(bs)] + Decode(bs[Taken(bs)..])
    ensures forall n: nat :: n > 0 ==> (IsCut(bs, n) <==> Taken(bs) <= n && IsCut(bs[Taken(bs)..], n - Taken(bs)))
  {
    hide First, Taken;
  }

  /** The cuts of the first piece are cuts of the whole. */
  lemma {:induction false} CutsOfFirst(a: seq<Byte>, b: seq<Byte>, n: nat)
    requires IsCut(a + b, |a|) && n <= |a|
    ensures IsCut(a, n) <==> IsCut(a + b, n)
    decreases |a|
  {
    if a != [] {
      var k := Taken(a + b);
      SameFirst(a, b);
      assert k <= |a| ==> (a + b)[k..] == a[k..] + b;
      hide Taken;
      if k <= n {
        CutsOfFirst(a[k..], b, n - k);
      }
    }
  }

  function Concat(chunks: seq<seq<Byte>>): seq<Byte> {
    if chunks == [] then [] else Concat(chunks[..|chunks| - 1]) + chunks[|chunks| - 1]
  }

  /** `text += chunk.toString("utf-8")` for one chunk after the other. */
  function DecodeChunks(chunks: seq<seq<Byte>>): string {
    if chunks == [] then "" else DecodeChunks(chunks[..|chunks| - 1]) + Decode(chunks[|chunks| - 1])
  }

  /** Every chunk ends between two characters of the whole. */
  ghost predicate AreCuts(chunks: seq<seq<Byte>>) {
    forall k :: 0 <= k <= |chunks| ==> IsCut(Concat(chunks), |Concat(chunks[..k])|)
  }

  lemma {:induction false} AreCutsStep(chunks: seq<seq<Byte>>)
    requires chunks != []
    ensures var init := chunks[..|chunks| - 1];
      AreCuts(chunks) <==> IsCut(Concat(chunks), |Concat(init)|) && AreCuts(init)
  {
    var init, last := chunks[..|chunks| - 1], chunks[|chunks| - 1];
    var a := Concat(init);
    assert forall k :: 0 <= k <= |init| ==> init[..k] == chunks[..k];
    assert chunks[..|init|] == init && chunks[..|chunks|] == chunks;
    assert Concat(chunks) == a + last;
    hide IsCut, Concat;
    EndIsCut(a + last);
    if IsCut(a + last, |a|) {
      forall k | 0 <= k <= |init|
        ensures IsCut(a, |Concat(init[..k])|) <==> IsCut(a + last, |Concat(chunks[..k])|)
      {
        PartIsShorter(init, k);
        CutsOfFirst(a, last, |Concat(init[..k])|);
      }
    }
  }

  lemma {:induction false} EndIsCut(bs: seq<Byte>)
    ensures IsCut(bs, |bs|)
  {
    if bs != [] {
      EndIsCut(bs[Taken(bs)..]);
    }
  }

  lemma {:induction false} PartIsShorter(chunks: seq<seq<Byte>>, k: nat)
    requires k <= |chunks|
    ensures |Concat(chunks[..k])| <= |Concat(chunks)|
    decreases |chunks|
  {
    if k < |chunks| {
      var init := chunks[..|chunks| - 1];
      PartIsShorter(init, k);
      assert init[..k] == chunks[..k];
    } else {
      assert chunks[..k] == chunks;
    }
  }

  lemma {:induction false} ChunksAreNoShorter(chunks: seq<seq<Byte>>)
    ensures |DecodeChunks(chunks)| >= |Decode(Concat(chunks))|
  {
    if chunks != [] {
      var init := chunks[..|chunks| - 1];
      ChunksAreNoShorter(init);
      TwoPieces(Concat(init), chunks[|chunks| - 1]);
    }
  }

  /** Decoding chunk by chunk gives the text of the whole exactly when every chunk ends between two of
      its characters. Holds for all bytes, malformed ones included. */
  lemma {:induction false} ChunksDecodeIff(chunks: seq<seq<Byte>>)
    ensures DecodeChunks(chunks) == Decode(Concat(chunks)) <==> AreCuts(chunks)
  {
    if chunks != [] {
      var init, last := chunks[..|chunks| - 1], chunks[|chunks| - 1];
      ChunksDecodeIff(init);
      ChunksAreNoShorter(init);
      AreCutsStep(chunks);
      TwoPieces(Concat(init), last);
      hide Decode, IsCut, AreCuts;
      var x, y, z := DecodeChunks(init), Decode(Concat(init)), Decode(last);
      assert x + z == y + z <==> x == y by {
        assert |x| == |y| ==> (x + z)[..|x|] == x && (y + z)[..|x|] == y;
      }
    }
  }

  // ---------------------------------------------------------------- encoded text

  /** In encoded text the cuts are where no continuation byte stands. */
  lemma {:induction false} CutsOfEncoded(text: string, n: nat)
    requires n < |Encode(text)|
    ensures IsCut(Encode(text), n) <==> !IsContinuation(Encode(text)[n])
    decreases |text|
  {
    var e, rest := EncodeChar(text[0]), Encode(text[1..]);
    EncodedFirst(text[0], rest);
    hide EncodeChar, IsContinuation, Taken;
    if n >= |e| {
      CutsOfEncoded(text[1..], n - |e|);
    }
  }

  /** No chunk begins in the middle of a character. */
  predicate NoneContinues(chunks: seq<seq<Byte>>) {
    forall k :: 0 <= k < |chunks| && chunks[k] != [] ==> !IsContinuation(chunks[k][0])
  }

  lemma {:induction false} ChunkInside(chunks: seq<seq<Byte>>, k: nat)
    requires k < |chunks| && chunks[k] != []
    ensures |Concat(chunks[..k])| < |Concat(chunks)| && Concat(chunks)[|Concat(chunks[..k])|] == chunks[k][0]
    decreases |chunks|
  {
    var init, last := chunks[..|chunks| - 1], chunks[|chunks| - 1];
    assert chunks[..k] == init[..k];
    if k < |init| {
      ChunkInside(init, k);
    } else {
      assert init[..k] == init;
    }
  }

  /** Text in UTF-8, received in non-empty chunks, is received as it was exactly when no chunk begins with
      a continuation byte. */
  lemma EncodedChunksIff(chunks: seq<seq<Byte>>, text: string)
    requires Concat(chunks) == Encode(text) && forall k :: 0 <= k < |chunks| ==> chunks[k] != []
    ensures DecodeChunks(chunks) == text <==> NoneContinues(chunks)
  {
    RoundTrip(text);
    ChunksDecodeIff(chunks);
    hide DecodeChunks, Decode, Encode, Concat, IsCut, IsContinuation;
    forall k | 0 <= k < |chunks|
      ensures IsCut(Concat(chunks), |Concat(chunks[..k])|) <==> !IsContinuation(chunks[k][0])
    {
      ChunkInside(chunks, k);
      CutsOfEncoded(text, |Concat(chunks[..k])|);
    }
    assert chunks[..|chunks|] == chunks;
    EndIsCut(Concat(chunks));
  }
}

/** The hand-written base64url codec (crates/execution/src/live.rs; section 5 of RFC 4648).
    Text is a sequence of byte values. Sextets occupy disjoint bits, so a bitwise-or of shifted
    sextets is their sum. */
module Base64Url {
  import opened Money
  import opened Octets

  type Sextet = v: int | 0 <= v < 64

  const PAD: Byte := 61

  /** The character of a sextet in the alphabet A-Z a-z 0-9 - _. */
  function Letter(v: Sextet): Byte {
    if v < 26 then 65 + v
    else if v < 52 then 97 + (v - 26)
    else if v < 62 then 48 + (v - 52)
    else if v == 62 then 45
    else 95
  }

  /** Decoding also accepts the plain alphabet's + and /. */
  function Value(c: Byte): Option<Sextet> {
    if 65 <= c <= 90 then Some(c - 65)
    else if 97 <= c <= 122 then Some(c - 97 + 26)
    else if 48 <= c <= 57 then Some(c - 48 + 52)
    else if c == 43 || c == 45 then Some(62)
    else if c == 47 || c == 95 then Some(63)
    else None
  }

  predicate IsIgnored(c: Byte) {
    c == PAD || c == 32 || c == 9 || c == 10 || c == 12 || c == 13
  }

  function ByteAt(c: seq<Byte>, i: nat): Byte {
    if i < |c| then c[i] else 0
  }

  function Group(c: seq<Byte>): nat {
    ByteAt(c, 0) * 65536 + ByteAt(c, 1) * 256 + ByteAt(c, 2)
  }

  function EncodeChunk(c: seq<Byte>): (e: seq<Byte>)
    requires 1 <= |c| <= 3
    ensures |e| == 4
  {
    var n := Group(c);
    [Letter(n / 262144 % 64), Letter(n / 4096 % 64),
     if |c| > 1 then Letter(n / 64 % 64) else PAD,
     if |c| > 2 then Letter(n % 64) else PAD]
  }

  function Encoded(b: seq<Byte>): seq<Byte> {
    if b == [] then []
    else if |b| <= 3 then EncodeChunk(b)
    else EncodeChunk(b[..3]) + Encoded(b[3..])
  }

  method Encode(b: seq<Byte>) returns (o: seq<Byte>)
    ensures o == Encoded(b)
  {
    hide EncodeChunk;
    o := [];
    var i := 0;
    while i < |b|
      invariant 0 <= i
      invariant o + (if i <= |b| then Encoded(b[i..]) else []) == Encoded(b)
    {
      var c := if i + 3 <= |b| then b[i..i + 3] else b[i..];
      assert if |b| - i <= 3 then b[i..] == c else b[i..][..3] == c && b[i..][3..] == b[i + 3..];
      o := o + EncodeChunk(c);
      i := i + 3;
    }
  }

  function Clean(s: seq<Byte>): seq<Byte> {
    if s == [] then []
    else (if IsIgnored(s[0]) then [] else [s[0]]) + Clean(s[1..])
  }

  /** The number of the first four characters of a chunk, most significant first. */
  function Combine(chunk: seq<Byte>): Option<nat>
    requires |chunk| <= 4
  {
    if chunk == [] then Some(0)
    else
      var n := |chunk| - 1;
      var head := Combine(chunk[..n]);
      var v := Value(chunk[n]);
      if head.None? || v.None? then None else Some(head.value + v.value * Weight(n))
  }

  function Weight(i: nat): nat
    requires i < 4
  {
    if i == 0 then 262144 else if i == 1 then 4096 else if i == 2 then 64 else 1
  }

  function Bytes(n: nat, count: nat): seq<Byte>
    requires count <= 3
  {
    [n / 65536 % 256, n / 256 % 256, n % 256][..count]
  }

  function DecodeChunks(clean: seq<Byte>): Option<seq<Byte>> {
    if clean == [] then Some([])
    else
      var chunk := if |clean| <= 4 then clean else clean[..4];
      var n := Combine(chunk);
      var rest := if |clean| <= 4 then Some([]) else DecodeChunks(clean[4..]);
      if n.None? then None else Prefixed(Bytes(n.value, |chunk| - 1), rest)
  }

  function Prefixed(out: seq<Byte>, r: Option<seq<Byte>>): Option<seq<Byte>> {
    if r.None? then None else Some(out + r.value)
  }

  lemma PrefixedTwice(a: seq<Byte>, b: seq<Byte>, r: Option<seq<Byte>>)
    ensures Prefixed(a, Prefixed(b, r)) == Prefixed(a + b, r)
    ensures Prefixed([], r) == r
  {
    if r.Some? {
      assert a + (b + r.value) == a + b + r.value;
      assert [] + r.value == r.value;
    }
  }

  function Decoded(s: seq<Byte>): Option<seq<Byte>> {
    DecodeChunks(Clean(s))
  }

  method Decode(s: seq<Byte>) returns (r: Option<seq<Byte>>)
    ensures r == Decoded(s)
  {
    hide Clean, Value, Bytes, Weight;
    var clean := Clean(s);
    var out: seq<Byte> := [];
    var i := 0;
    assert clean[0..] == clean;
    PrefixedTwice([], [], DecodeChunks(clean));
    while i < |clean|
      invariant 0 <= i
      invariant Prefixed(out, RestFrom(clean, i)) == DecodeChunks(clean)
    {
      var rest := clean[i..];
      var chunk := if i + 4 <= |clean| then clean[i..i + 4] else clean[i..];
      assert if |rest| > 4 then rest[..4] == chunk && rest[4..] == clean[i + 4..] else rest == chunk;
      var n := 0;
      for j := 0 to |chunk|
        invariant Combine(chunk[..j]) == Some(n)
      {
        assert chunk[..j + 1][..j] == chunk[..j];
        var v := Value(chunk[j]);
        if v.None? {
          CombineNeedsEvery(chunk, j);
          return None;
        }
        n := n + v.value * Weight(j);
      }
      assert chunk[..|chunk|] == chunk;
      PrefixedTwice(out, Bytes(n, |chunk| - 1), RestFrom(clean, i + 4));
      out := out + Bytes(n, |chunk| - 1);
      i := i + 4;
    }
    assert out + [] == out;
    r := Some(out);
  }

  function RestFrom(clean: seq<Byte>, i: nat): Option<seq<Byte>> {
    if i < |clean| then DecodeChunks(clean[i..]) else Some([])
  }

  lemma {:induction false} CombineNeedsEvery(chunk: seq<Byte>, j: nat)
    requires |chunk| <= 4 && j < |chunk| && Value(chunk[j]).None?
    ensures Combine(chunk).None?
  {
    if j < |chunk| - 1 {
      CombineNeedsEvery(chunk[..|chunk| - 1], j);
    }
  }

  // ----- the round trip

  lemma LetterHasItsValue(v: Sextet)
    ensures Value(Letter(v)) == Some(v) && !IsIgnored(Letter(v))
  {
  }

  /** Splitting a 24-bit group into sextets and summing them back is exact. */
  lemma SextetsRecombine(n: nat)
    requires n < 16777216
    ensures (n / 262144 % 64) * 262144 + (n / 4096 % 64) * 4096 + (n / 64 % 64) * 64 + n % 64 == n
  {
    var a := n / 64;
    var b := a / 64;
    var c := b / 64;
    var r3, r2, r1 := n % 64, a % 64, b % 64;
    assert n == a * 64 + r3 && a == b * 64 + r2 && b == c * 64 + r1;
    assert n == b * 4096 + (r2 * 64 + r3);
    assert n / 4096 == b;
    assert n == c * 262144 + (r1 * 4096 + r2 * 64 + r3);
    assert n / 262144 == c;
  }

  lemma GroupBytes(x: Byte, y: Byte, z: Byte)
    ensures var n := x * 65536 + y * 256 + z;
      n < 16777216 && n / 65536 % 256 == x && n / 256 % 256 == y && n % 256 == z
  {
  }

  lemma ShortGroups(x: Byte, y: Byte)
    ensures (x * 65536) % 64 == 0 && (x * 65536) / 64 % 64 == 0 && (x * 65536 + y * 256) % 64 == 0
  {
    assert x * 65536 == 64 * (1024 * x) && 1024 * x == 64 * (16 * x);
    assert x * 65536 + y * 256 == 64 * (1024 * x + 4 * y);
  }

  lemma CombineFour(a: Byte, b: Byte, c: Byte, d: Byte)
    requires Value(a).Some? && Value(b).Some? && Value(c).Some? && Value(d).Some?
    ensures Combine([a, b, c, d])
      == Some(Value(a).value * 262144 + Value(b).value * 4096 + Value(c).value * 64 + Value(d).value)
    ensures Combine([a, b, c]) == Some(Value(a).value * 262144 + Value(b).value * 4096 + Value(c).value * 64)
    ensures Combine([a, b]) == Some(Value(a).value * 262144 + Value(b).value * 4096)
  {
    assert [a, b, c, d][..3] == [a, b, c] && [a, b, c][..2] == [a, b] && [a, b][..1] == [a] && [a][..0] == [];
    assert Combine([a]) == Some(Value(a).value * 262144);
    assert Combine([a, b]) == Some(Value(a).value * 262144 + Value(b).value * 4096);
  }

  /** The letters of a chunk, and the number they combine to. */
  lemma ChunkLetters(c: seq<Byte>)
    requires 1 <= |c| <= 3
    ensures Clean(EncodeChunk(c)) == EncodeChunk(c)[..|c| + 1]
    ensures Combine(EncodeChunk(c)[..|c| + 1]) == Some(Group(c))
  {
    hide Letter, Value, IsIgnored, Combine, Clean;
    var n := Group(c);
    var s0, s1, s2, s3 := n / 262144 % 64, n / 4096 % 64, n / 64 % 64, n % 64;
    GroupBytes(ByteAt(c, 0), ByteAt(c, 1), ByteAt(c, 2));
    SextetsRecombine(n);
    LetterHasItsValue(s0);
    LetterHasItsValue(s1);
    LetterHasItsValue(s2);
    LetterHasItsValue(s3);
    PadIsIgnored();
    ShortGroups(ByteAt(c, 0), ByteAt(c, 1));
    CombineFour(Letter(s0), Letter(s1), Letter(s2), Letter(s3));
    var e := EncodeChunk(c);
    CleanFour(e[0], e[1], e[2], e[3]);
    assert e[..4] == e;
  }

  lemma PadIsIgnored()
    ensures IsIgnored(PAD)
  {
  }

  /** The letters of a chunk decode to the chunk. */
  lemma ChunkRoundTrip(c: seq<Byte>)
    requires 1 <= |c| <= 3
    ensures var letters := Clean(EncodeChunk(c));
      |letters| == |c| + 1 && Combine(letters).Some? && Bytes(Combine(letters).value, |c|) == c
  {
    hide EncodeChunk, Combine, Clean;
    ChunkLetters(c);
    GroupBytes(ByteAt(c, 0), ByteAt(c, 1), ByteAt(c, 2));
  }

  lemma CleanFour(a: Byte, b: Byte, c: Byte, d: Byte)
    requires !IsIgnored(a) && !IsIgnored(b) && (IsIgnored(c) ==> IsIgnored(d))
    ensures Clean([a, b, c, d]) == if IsIgnored(c) then [a, b] else if IsIgnored(d) then [a, b, c] else [a, b, c, d]
  {
    assert [a, b, c, d][1..] == [b, c, d] && [b, c, d][1..] == [c, d] && [c, d][1..] == [d] && [d][1..] == [];
    assert Clean([d]) == if IsIgnored(d) then [] else [d];
    assert Clean([c, d]) == (if IsIgnored(c) then [] else [c]) + Clean([d]);
    assert Clean([b, c, d]) == [b] + Clean([c, d]);
  }

  lemma {:induction false} CleanAppend(a: seq<Byte>, b: seq<Byte>)
    ensures Clean(a + b) == Clean(a) + Clean(b)
  {
    if a == [] {
      assert a + b == b;
    } else {
      assert (a + b)[1..] == a[1..] + b;
      CleanAppend(a[1..], b);
    }
  }

  /** Decoding an encoding returns exactly the bytes, for every length. */
  lemma {:induction false} DecodeInvertsEncode(b: seq<Byte>)
    ensures Decoded(Encoded(b)) == Some(b)
  {
    hide EncodeChunk, Combine, Bytes;
    if b != [] {
      var head := if |b| <= 3 then b else b[..3];
      ChunkRoundTrip(head);
      assert head + [] == head;
      if |b| > 3 {
        var tail := b[3..];
        DecodeInvertsEncode(tail);
        CleanAppend(EncodeChunk(head), Encoded(tail));
        var clean := Clean(Encoded(b));
        assert clean[..4] == Clean(EncodeChunk(head)) && clean[4..] == Clean(Encoded(tail));
        EncodedIsNotBlank(tail);
        assert DecodeChunks(clean) == Prefixed(head, Some(tail));
        assert b == head + tail;
      }
    }
  }

  lemma EncodedIsNotBlank(b: seq<Byte>)
    requires b != []
    ensures Clean(Encoded(b)) != []
  {
    hide EncodeChunk, Combine, Bytes;
    var head := if |b| <= 3 then b else b[..3];
    ChunkRoundTrip(head);
    if |b| > 3 {
      CleanAppend(EncodeChunk(head), Encoded(b[3..]));
    }
  }

  // ----- the alphabet and the order of the bits

  /** The alphabet of section 5 of RFC 4648, and the two characters of section 4 that it replaces. */
  function Upper(): string {
    "ABCDEFGHIJKLMNOPQRSTUVWXYZ"
  }

  function Lower(): string {
    "abcdefghijklmnopqrstuvwxyz"
  }

  function Digits(): string {
    "0123456789"
  }

  function Alphabet(): string {
    Upper() + Lower() + Digits() + "-_"
  }

  lemma UpperAt(i: nat)
    ensures |Upper()| == 26 && (i < 26 ==> Upper()[i] as int == 65 + i)
  {
  }

  lemma LowerAt(i: nat)
    ensures |Lower()| == 26 && (i < 26 ==> Lower()[i] as int == 97 + i)
  {
  }

  lemma DigitAt(i: nat)
    ensures |Digits()| == 10 && (i < 10 ==> Digits()[i] as int == 48 + i)
  {
  }

  /** A sextet is written as its character of the alphabet, and read back from it or from the character
      of the plain alphabet in its place. */
  lemma LettersAreTheAlphabet(v: Sextet)
    ensures |Alphabet()| == 64 && Letter(v) == Alphabet()[v] as int
    ensures Value(Letter(v)) == Some(v) && Value('+' as int) == Some(62) && Value('/' as int) == Some(63)
  {
    hide Upper, Lower, Digits;
    UpperAt(if v < 26 then v else 0);
    LowerAt(if 26 <= v < 52 then v - 26 else 0);
    DigitAt(if 52 <= v < 62 then v - 52 else 0);
  }

  /** The place of a character in the alphabet; padding stands for zero. */
  function Digit(c: Byte): nat {
    if Value(c).Some? then Value(c).value else 0
  }

  /** Each four characters, read as digits of base 64, are the number that their three bytes are in base
      256, most significant first; bytes past the end count as zero. */
  lemma {:induction false} EncodingIsPositional(b: seq<Byte>, i: nat)
    requires i < (|b| + 2) / 3
    ensures |Encoded(b)| >= 4 * i + 4
    ensures var e := Encoded(b)[4 * i..4 * i + 4];
      Digit(e[0]) * 262144 + Digit(e[1]) * 4096 + Digit(e[2]) * 64 + Digit(e[3])
      == ByteAt(b, 3 * i) * 65536 + ByteAt(b, 3 * i + 1) * 256 + ByteAt(b, 3 * i + 2)
  {
    hide EncodeChunk, Digit;
    if i == 0 {
      ChunkIsPositional(if |b| <= 3 then b else b[..3]);
    } else {
      EncodingIsPositional(b[3..], i - 1);
      assert Encoded(b)[4 * i..4 * i + 4] == Encoded(b[3..])[4 * (i - 1)..4 * (i - 1) + 4];
    }
  }

  lemma ChunkIsPositional(c: seq<Byte>)
    requires 1 <= |c| <= 3
    ensures var e := EncodeChunk(c);
      Digit(e[0]) * 262144 + Digit(e[1]) * 4096 + Digit(e[2]) * 64 + Digit(e[3]) == Group(c)
  {
    hide Letter, Value, Group;
    var n := Group(c);
    GroupBytes(ByteAt(c, 0), ByteAt(c, 1), ByteAt(c, 2));
    GroupIsBytes(c);
    SextetsRecombine(n);
    ShortGroups(ByteAt(c, 0), ByteAt(c, 1));
    LetterHasItsValue(n / 262144 % 64);
    LetterHasItsValue(n / 4096 % 64);
    LetterHasItsValue(n / 64 % 64);
    LetterHasItsValue(n % 64);
    PadHasNoValue();
  }

  lemma GroupIsBytes(c: seq<Byte>)
    ensures Group(c) == ByteAt(c, 0) * 65536 + ByteAt(c, 1) * 256 + ByteAt(c, 2)
  {
  }

  lemma PadHasNoValue()
    ensures Value(PAD).None?
  {
  }

  // ----- the shape of an encoding

  lemma LetterIsNotPad(v: Sextet)
    ensures Letter(v) != PAD
  {
  }

  lemma ChunkPads(c: seq<Byte>)
    requires 1 <= |c| <= 3
    ensures forall i :: 0 <= i < 4 ==> (EncodeChunk(c)[i] == PAD <==> i > |c|)
  {
    hide Letter;
    var n := Group(c);
    LetterIsNotPad(n / 262144 % 64);
    LetterIsNotPad(n / 4096 % 64);
    LetterIsNotPad(n / 64 % 64);
    LetterIsNotPad(n % 64);
  }

  /** How many padding characters an encoding of `n` bytes ends with. */
  function Pads(n: nat): nat {
    if n % 3 == 0 then 0 else 3 - n % 3
  }

  /** Four characters per started group of three bytes, padded only at the end, and only when the
      length is not a multiple of three. */
  lemma {:induction false} EncodingShape(b: seq<Byte>)
    ensures |Encoded(b)| == 4 * ((|b| + 2) / 3)
    ensures forall i :: 0 <= i < |Encoded(b)| ==> (Encoded(b)[i] == PAD <==> i >= |Encoded(b)| - Pads(|b|))
  {
    hide EncodeChunk;
    if 0 < |b| <= 3 {
      ChunkPads(b);
    } else if |b| > 3 {
      var rest := Encoded(b[3..]);
      ChunkPads(b[..3]);
      EncodingShape(b[3..]);
      assert Encoded(b) == EncodeChunk(b[..3]) + rest;
      PadsShift(|b|);
      assert forall i :: 4 <= i < |Encoded(b)| ==> Encoded(b)[i] == rest[i - 4];
    }
  }

  lemma PadsShift(n: nat)
    requires n > 3
    ensures Pads(n) == Pads(n - 3) <= 4 * ((n - 3 + 2) / 3) && (n + 2) / 3 == (n - 3 + 2) / 3 + 1
  {
  }

  /** Padding, and the white space of ASCII: space, tab, line feed, form feed and carriage return. */
  predicate IsFiller(c: Byte) {
    c in {'=' as int, ' ' as int, '\t' as int, '\n' as int, 12, '\r' as int}
  }

  /** A character of the alphabet, or one of the two of the plain alphabet. */
  ghost predicate IsLetter(c: Byte) {
    c == '+' as int || c == '/' as int || exists v: Sextet :: Letter(v) == c
  }

  lemma FillersAreIgnored(c: Byte)
    ensures IsIgnored(c) <==> IsFiller(c)
  {
  }

  lemma LettersHaveValues(c: Byte)
    ensures Value(c).Some? <==> IsLetter(c)
  {
    if Value(c).Some? && c != '+' as int && c != '/' as int {
      assert Letter(Value(c).value) == c;
    }
    if v: Sextet :| Letter(v) == c {
      LetterHasItsValue(v);
    }
  }

  /** Text is refused exactly when some character that is neither padding nor white space is in neither
      alphabet. */
  lemma {:induction false} RefusedExactlyWhenForeign(s: seq<Byte>)
    ensures Decoded(s).None? <==> exists i :: 0 <= i < |s| && !IsFiller(s[i]) && !IsLetter(s[i])
  {
    hide Value, IsIgnored, Decoded, IsLetter, IsFiller;
    DecodedIsChunks(s);
    CleanKeeps(s);
    ChunksRefuse(Clean(s));
    forall c: Byte
      ensures (IsIgnored(c) <==> IsFiller(c)) && (Value(c).Some? <==> IsLetter(c))
    {
      FillersAreIgnored(c);
      LettersHaveValues(c);
    }
    if c: Byte :| c in Clean(s) && Value(c).None? {
      assert c in s;
    }
    if i :| 0 <= i < |s| && !IsFiller(s[i]) && !IsLetter(s[i]) {
      assert s[i] in Clean(s);
    }
  }

  lemma DecodedIsChunks(s: seq<Byte>)
    ensures Decoded(s) == DecodeChunks(Clean(s))
  {
  }

  /** Padding and white space may stand anywhere in a text, or nowhere, without changing what it decodes to. */
  lemma FillersDoNotMatter(a: seq<Byte>, c: Byte, b: seq<Byte>)
    requires IsFiller(c)
    ensures Decoded(a + [c] + b) == Decoded(a + b)
  {
    hide DecodeChunks, IsIgnored, IsFiller;
    FillersAreIgnored(c);
    CleanAppend(a + [c], b);
    CleanAppend(a, [c]);
    CleanAppend(a, b);
    assert [c][1..] == [];
    assert Clean([c]) == [];
    assert Clean(a) + [] == Clean(a);
  }

  lemma {:induction false} CleanKeeps(s: seq<Byte>)
    ensures forall c: Byte :: c in Clean(s) <==> c in s && !IsIgnored(c)
  {
    if s != [] {
      CleanKeeps(s[1..]);
    }
  }

  lemma {:induction false} CombineRefuses(chunk: seq<Byte>)
    requires |chunk| <= 4
    ensures Combine(chunk).None? <==> exists c :: c in chunk && Value(c).None?
  {
    if chunk != [] {
      var n := |chunk| - 1;
      CombineRefuses(chunk[..n]);
      assert chunk == chunk[..n] + [chunk[n]];
    }
  }

  lemma {:induction false} ChunksRefuse(clean: seq<Byte>)
    ensures DecodeChunks(clean).None? <==> exists c :: c in clean && Value(c).None?
  {
    hide Combine, Value, Bytes;
    if clean != [] {
      if |clean| <= 4 {
        CombineRefuses(clean);
      } else {
        CombineRefuses(clean[..4]);
        ChunksRefuse(clean[4..]);
        assert clean == clean[..4] + clean[4..];
      }
    }
  }
}

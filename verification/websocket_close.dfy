/** The close-frame helpers of the WebSocket utilities (`websocket.ts`): a close code made safe to
    send, and a close reason cut to the 123 bytes a close frame leaves for it (section 5.5.1 of
    RFC 6455: a control frame carries at most 125 bytes, two of which hold the code). */
module WebSocketClose {

  // ---------------------------------------------------------------- close codes

  /** `DEFAULT_CLOSE_CODE`. */
  const DefaultCloseCode := 1000

  /** The `unknown` a close code arrives as: a finite number, a number that is not finite (`NaN`
      or an infinity), or a value of another type. */
  datatype CodeArg = Finite(x: real) | NotFinite | NotNumber

  /** `Math.trunc`: the integer part, rounded toward zero. */
  function Trunc(x: real): (n: int)
    ensures 0.0 <= x ==> n as real <= x < n as real + 1.0
    ensures x < 0.0 ==> n as real - 1.0 < x <= n as real
  {
    if 0.0 <= x then x.Floor else -((-x).Floor)
  }

  /** The codes the helper lets through: 1000 to 4999 except 1004, which section 7.4.1 of
      RFC 6455 reserves, and 1005, 1006 and 1015, which only ever report a condition and must
      not be sent. */
  predicate Sendable(c: int) {
    1000 <= c <= 4999 && c != 1004 && c != 1005 && c != 1006 && c != 1015
  }

  /** `sanitizeCloseCode`. */
  function SanitizeCloseCode(a: CodeArg): (r: int)
    ensures Sendable(r)
  {
    if !a.Finite? then DefaultCloseCode
    else
      var c := Trunc(a.x);
      if c == 1004 || c == 1005 || c == 1006 || c == 1015 then DefaultCloseCode
      else if c < 1000 || c > 4999 then DefaultCloseCode
      else c
  }

  /** A sendable code comes back as it is. */
  lemma CloseCodeKept(c: int)
    requires Sendable(c)
    ensures SanitizeCloseCode(Finite(c as real)) == c
  {
    assert Trunc(c as real) == c;
  }

  /** A number is truncated before it is judged: it gives what its integer part gives. */
  lemma CloseCodeTruncates(x: real)
    ensures SanitizeCloseCode(Finite(x)) == SanitizeCloseCode(Finite(Trunc(x) as real))
  {
    assert Trunc(Trunc(x) as real) == Trunc(x);
  }

  /** Whatever is not a sendable code once truncated becomes the default code. */
  lemma CloseCodeDefault(a: CodeArg)
    ensures SanitizeCloseCode(a) == DefaultCloseCode <==> !(a.Finite? && Sendable(Trunc(a.x))) || Trunc(a.x) == DefaultCloseCode
    ensures SanitizeCloseCode(a) != DefaultCloseCode ==> SanitizeCloseCode(a) == Trunc(a.x)
  {
  }

  /** Sanitizing a sanitized code changes nothing. */
  lemma CloseCodeIdempotent(a: CodeArg)
    ensures SanitizeCloseCode(Finite(SanitizeCloseCode(a) as real)) == SanitizeCloseCode(a)
  {
    CloseCodeKept(SanitizeCloseCode(a));
  }

  /** Worked cases. */
  lemma CloseCodeScenarios()
    ensures SanitizeCloseCode(NotNumber) == 1000 && SanitizeCloseCode(NotFinite) == 1000
    ensures SanitizeCloseCode(Finite(1004.0)) == 1000 && SanitizeCloseCode(Finite(1015.0)) == 1000
    ensures SanitizeCloseCode(Finite(999.0)) == 1000 && SanitizeCloseCode(Finite(5000.0)) == 1000
    ensures SanitizeCloseCode(Finite(-1.0)) == 1000
    ensures SanitizeCloseCode(Finite(1001.0)) == 1001 && SanitizeCloseCode(Finite(4000.0)) == 4000
    ensures SanitizeCloseCode(Finite(4000.9)) == 4000
  {
    assert Trunc(1004.0) == 1004 && Trunc(1015.0) == 1015 && Trunc(999.0) == 999;
    assert Trunc(5000.0) == 5000 && Trunc(-1.0) == -1 && Trunc(1001.0) == 1001;
    assert Trunc(4000.0) == 4000 && Trunc(4000.9) == 4000;
  }

  // ---------------------------------------------------------------- UTF-8

  newtype byte = x: int | 0 <= x < 256

  /** The UTF-8 encoding of one scalar value (section 3 of RFC 3629). */
  function EncodeChar(c: char): (bs: seq<byte>)
    ensures 1 <= |bs| <= 4
  {
    var n := c as int;
    if n < 0x80 then [n as byte]
    else if n < 0x800 then [(0xC0 + n / 64) as byte, (0x80 + n % 64) as byte]
    else if n < 0x10000 then [(0xE0 + n / 4096) as byte, (0x80 + n / 64 % 64) as byte, (0x80 + n % 64) as byte]
    else [(0xF0 + n / 262144) as byte, (0x80 + n / 4096 % 64) as byte, (0x80 + n / 64 % 64) as byte, (0x80 + n % 64) as byte]
  }

  /** `new TextEncoder().encode(s)`. */
  function Utf8(s: string): seq<byte> {
    if s == [] then [] else EncodeChar(s[0]) + Utf8(s[1..])
  }

  /** Encoding is done character by character. */
  lemma {:induction false} Utf8Append(a: string, b: string)
    ensures Utf8(a + b) == Utf8(a) + Utf8(b)
  {
    if a != [] {
      assert (a + b)[1..] == a[1..] + b;
      assert Utf8(a + b) == EncodeChar(a[0]) + Utf8(a[1..] + b);
      Utf8Append(a[1..], b);
      assert EncodeChar(a[0]) + (Utf8(a[1..]) + Utf8(b)) == (EncodeChar(a[0]) + Utf8(a[1..])) + Utf8(b);
    } else {
      assert a + b == b;
    }
  }

  /** What the UTF-8 decoder of section 8.1.1 of the WHATWG Encoding Standard keeps between
      bytes: how many continuation bytes the sequence needs and has seen, the code point so far,
      and the bounds the next byte must lie within. */
  datatype Decoder = Decoder(needed: nat, seen: nat, cp: nat, lower: nat, upper: nat)

  const Fresh := Decoder(0, 0, 0, 0x80, 0xBF)

  const Replacement: char := '\U{FFFD}'

  /** The number of values the continuation bytes still to come after the next one can add. */
  function Span(k: nat): nat {
    if k == 0 then 1 else if k == 1 then 64 else 4096
  }

  /** Every value in `[a, b)` is a Unicode scalar value. */
  predicate Scalars(a: int, b: int) {
    0 <= a && b <= 0x110000 && (b <= 0xD800 || 0xE000 <= a)
  }

  /** A decoder state the decoder can reach: between sequences it is fresh, and within one
      every code point the sequence can still end with is a scalar value, which is what the
      bounds on the second byte see to. */
  predicate Valid(d: Decoder) {
    if d.needed == 0 then d == Fresh
    else
      d.seen < d.needed <= 3 && 0x80 <= d.lower <= d.upper <= 0xBF
      && Scalars((d.cp * 64 + d.lower - 0x80) * Span(d.needed - d.seen - 1),
                 (d.cp * 64 + d.upper - 0x80 + 1) * Span(d.needed - d.seen - 1))
  }

  /** The state after a lead byte `b`. */
  function Lead(b: int): (d: Decoder)
    requires 0xC2 <= b <= 0xF4
    ensures Valid(d) && d.needed > 0
  {
    if b <= 0xDF then Decoder(1, 0, b - 0xC0, 0x80, 0xBF)
    else if b <= 0xEF then Decoder(2, 0, b - 0xE0, if b == 0xE0 then 0xA0 else 0x80, if b == 0xED then 0x9F else 0xBF)
    else Decoder(3, 0, b - 0xF0, if b == 0xF0 then 0x90 else 0x80, if b == 0xF4 then 0x8F else 0xBF)
  }

  /** A continuation byte within the bounds narrows the code points the sequence can end with. */
  lemma Narrow(d: Decoder, b: int)
    requires Valid(d) && d.needed > 0 && d.lower <= b <= d.upper
    ensures var v := d.cp * 64 + b - 0x80;
      if d.seen + 1 == d.needed then 0 <= v < 0xD800 || 0xE000 <= v < 0x110000
      else Valid(Decoder(d.needed, d.seen + 1, v, 0x80, 0xBF))
  {
  }

  /** The decoder run over `bytes` from state `d`, up to and including the end of the stream:
      a sequence cut short by the end, or broken by a byte out of bounds, yields U+FFFD, and the
      offending byte is read again from a fresh state. */
  function DecodeFrom(d: Decoder, bytes: seq<byte>): string
    requires Valid(d)
    decreases |bytes|, d.needed
  {
    if bytes == [] then (if d.needed != 0 then [Replacement] else [])
    else
      var b := bytes[0] as int;
      if d.needed == 0 then
        if b <= 0x7F then [b as char] + DecodeFrom(Fresh, bytes[1..])
        else if 0xC2 <= b <= 0xF4 then DecodeFrom(Lead(b), bytes[1..])
        else [Replacement] + DecodeFrom(Fresh, bytes[1..])
      else if b < d.lower || d.upper < b then [Replacement] + DecodeFrom(Fresh, bytes)
      else
        Narrow(d, b);
        var v := d.cp * 64 + b - 0x80;
        if d.seen + 1 == d.needed then [v as char] + DecodeFrom(Fresh, bytes[1..])
        else DecodeFrom(Decoder(d.needed, d.seen + 1, v, 0x80, 0xBF), bytes[1..])
  }

  /** The byte order mark a `TextDecoder` that does not ignore it drops from the start. */
  function StripBom(s: string): string {
    if s != [] && s[0] == '\U{FEFF}' then s[1..] else s
  }

  /** `new TextDecoder('utf-8', { fatal: false }).decode(bytes)`. */
  function Decode(bytes: seq<byte>): string {
    StripBom(DecodeFrom(Fresh, bytes))
  }
  // ---------------------------------------------------------------- the decoder, byte by byte

  /** A lead byte sets up its sequence. */
  lemma LeadStep(b: byte, tail: seq<byte>)
    requires 0xC2 <= b as int <= 0xF4
    ensures DecodeFrom(Fresh, [b] + tail) == DecodeFrom(Lead(b as int), tail)
  {
    assert ([b] + tail)[1..] == tail;
  }

  /** A continuation byte within the bounds that does not end the sequence adds to the code
      point. */
  lemma ContinueStep(d: Decoder, b: byte, tail: seq<byte>)
    requires Valid(d) && d.needed > 0 && d.lower <= b as int <= d.upper && d.seen + 1 < d.needed
    ensures Valid(Decoder(d.needed, d.seen + 1, d.cp * 64 + b as int - 0x80, 0x80, 0xBF))
    ensures DecodeFrom(d, [b] + tail) == DecodeFrom(Decoder(d.needed, d.seen + 1, d.cp * 64 + b as int - 0x80, 0x80, 0xBF), tail)
  {
    Narrow(d, b as int);
    assert ([b] + tail)[1..] == tail;
  }

  /** The continuation byte that ends a sequence emits its code point. */
  lemma EmitStep(d: Decoder, b: byte, tail: seq<byte>)
    requires Valid(d) && d.needed > 0 && d.lower <= b as int <= d.upper && d.seen + 1 == d.needed
    ensures var v := d.cp * 64 + b as int - 0x80;
      (0 <= v < 0xD800 || 0xE000 <= v < 0x110000)
      && DecodeFrom(d, [b] + tail) == [v as char] + DecodeFrom(Fresh, tail)
  {
    Narrow(d, b as int);
    assert ([b] + tail)[1..] == tail;
  }

  /** The end of the stream in the middle of a sequence yields U+FFFD. */
  lemma CutShort(d: Decoder)
    requires Valid(d) && d.needed > 0
    ensures DecodeFrom(d, []) == [Replacement]
  {
  }

  /** The base-64 digits UTF-8 spreads a code point over. */
  lemma Sextets(n: nat)
    ensures n == n / 64 * 64 + n % 64
    ensures n / 64 == n / 4096 * 64 + n / 64 % 64
    ensures n / 4096 == n / 262144 * 64 + n / 4096 % 64
  {
  }
  /** The two bytes of a character from U+0080 to U+07FF decode to it. */
  lemma DecodeTwo(c: char, rest: seq<byte>)
    requires 0x80 <= c as int < 0x800
    ensures DecodeFrom(Fresh, EncodeChar(c) + rest) == [c] + DecodeFrom(Fresh, rest)
    ensures DecodeFrom(Fresh, EncodeChar(c)[..1]) == [Replacement]
  {
    var n := c as int;
    Sextets(n);
    var b0, b1 := (0xC0 + n / 64) as byte, (0x80 + n % 64) as byte;
    assert EncodeChar(c) + rest == [b0] + ([b1] + rest);
    LeadStep(b0, [b1] + rest);
    var d := Lead(b0 as int);
    assert d == Decoder(1, 0, n / 64, 0x80, 0xBF);
    EmitStep(d, b1, rest);
    assert (n as char) == c;
    assert EncodeChar(c)[..1] == [b0] + [];
    LeadStep(b0, []);
  }

  /** The bytes of a character from U+0800 to U+FFFF, and the state its lead byte sets up. */
  lemma ThreeBytes(c: char) returns (b0: byte, b1: byte, b2: byte, d: Decoder)
    requires 0x800 <= c as int < 0x10000
    ensures EncodeChar(c) == [b0, b1, b2] && 0xC2 <= b0 as int <= 0xF4 && d == Lead(b0 as int)
    ensures d.needed == 2 && d.seen == 0 && d.lower <= b1 as int <= d.upper && 0x80 <= b2 as int <= 0xBF
    ensures (d.cp * 64 + b1 as int - 0x80) * 64 + b2 as int - 0x80 == c as int
  {
    var n := c as int;
    Sextets(n);
    b0, b1, b2 := (0xE0 + n / 4096) as byte, (0x80 + n / 64 % 64) as byte, (0x80 + n % 64) as byte;
    d := Lead(b0 as int);
  }

  /** The bytes of a character from U+10000 up, and the state its lead byte sets up. */
  lemma FourBytes(c: char) returns (b0: byte, b1: byte, b2: byte, b3: byte, d: Decoder)
    requires 0x10000 <= c as int
    ensures EncodeChar(c) == [b0, b1, b2, b3] && 0xC2 <= b0 as int <= 0xF4 && d == Lead(b0 as int)
    ensures d.needed == 3 && d.seen == 0 && d.lower <= b1 as int <= d.upper
    ensures 0x80 <= b2 as int <= 0xBF && 0x80 <= b3 as int <= 0xBF
    ensures ((d.cp * 64 + b1 as int - 0x80) * 64 + b2 as int - 0x80) * 64 + b3 as int - 0x80 == c as int
  {
    var n := c as int;
    Sextets(n);
    b0, b1, b2, b3 := (0xF0 + n / 262144) as byte, (0x80 + n / 4096 % 64) as byte, (0x80 + n / 64 % 64) as byte, (0x80 + n % 64) as byte;
    d := Lead(b0 as int);
  }

  /** The three bytes of a character from U+0800 to U+FFFF decode to it. */
  lemma DecodeThree(c: char, rest: seq<byte>)
    requires 0x800 <= c as int < 0x10000
    ensures DecodeFrom(Fresh, EncodeChar(c) + rest) == [c] + DecodeFrom(Fresh, rest)
    ensures DecodeFrom(Fresh, EncodeChar(c)[..1]) == [Replacement]
    ensures DecodeFrom(Fresh, EncodeChar(c)[..2]) == [Replacement]
  {
    var b0, b1, b2, d := ThreeBytes(c);
    var d1 := Decoder(2, 1, d.cp * 64 + b1 as int - 0x80, 0x80, 0xBF);
    assert EncodeChar(c) + rest == [b0] + ([b1] + ([b2] + rest));
    LeadStep(b0, [b1] + ([b2] + rest));
    ContinueStep(d, b1, [b2] + rest);
    EmitStep(d1, b2, rest);
    assert EncodeChar(c)[..1] == [b0] + [];
    LeadStep(b0, []);
    assert EncodeChar(c)[..2] == [b0] + ([b1] + []);
    LeadStep(b0, [b1]);
    ContinueStep(d, b1, []);
  }

  /** The four bytes of a character from U+10000 up decode to it. */
  lemma DecodeFour(c: char, rest: seq<byte>)
    requires 0x10000 <= c as int
    ensures DecodeFrom(Fresh, EncodeChar(c) + rest) == [c] + DecodeFrom(Fresh, rest)
  {
    var b0, b1, b2, b3, d := FourBytes(c);
    var d1 := Decoder(3, 1, d.cp * 64 + b1 as int - 0x80, 0x80, 0xBF);
    var d2 := Decoder(3, 2, d1.cp * 64 + b2 as int - 0x80, 0x80, 0xBF);
    assert EncodeChar(c) + rest == [b0] + ([b1] + ([b2] + ([b3] + rest)));
    LeadStep(b0, [b1] + ([b2] + ([b3] + rest)));
    ContinueStep(d, b1, [b2] + ([b3] + rest));
    ContinueStep(d1, b2, [b3] + rest);
    EmitStep(d2, b3, rest);
  }

  /** Any proper prefix of the four bytes of a character decodes to U+FFFD. */
  lemma CutFour(c: char)
    requires 0x10000 <= c as int
    ensures DecodeFrom(Fresh, EncodeChar(c)[..1]) == [Replacement]
    ensures DecodeFrom(Fresh, EncodeChar(c)[..2]) == [Replacement]
    ensures DecodeFrom(Fresh, EncodeChar(c)[..3]) == [Replacement]
  {
    var b0, b1, b2, b3, d := FourBytes(c);
    var d1 := Decoder(3, 1, d.cp * 64 + b1 as int - 0x80, 0x80, 0xBF);
    assert EncodeChar(c)[..1] == [b0] + [];
    LeadStep(b0, []);
    assert EncodeChar(c)[..2] == [b0] + ([b1] + []);
    LeadStep(b0, [b1]);
    ContinueStep(d, b1, []);
    assert EncodeChar(c)[..3] == [b0] + ([b1] + ([b2] + []));
    LeadStep(b0, [b1, b2]);
    ContinueStep(d, b1, [b2]);
    ContinueStep(d1, b2, []);
  }
  /** One character's bytes decode back to it, and any proper prefix of them, at the end of the
      stream, to U+FFFD. */
  lemma DecodeChar(c: char, rest: seq<byte>)
    ensures DecodeFrom(Fresh, EncodeChar(c) + rest) == [c] + DecodeFrom(Fresh, rest)
  {
    var n := c as int;
    if n < 0x80 {
      assert (EncodeChar(c) + rest)[1..] == rest;
      assert (n as char) == c;
    } else if n < 0x800 {
      DecodeTwo(c, rest);
    } else if n < 0x10000 {
      DecodeThree(c, rest);
    } else {
      DecodeFour(c, rest);
    }
  }

  /** A character cut short by the end of the stream decodes to U+FFFD. */
  lemma DecodeCut(c: char, k: nat)
    requires 0 < k < |EncodeChar(c)|
    ensures DecodeFrom(Fresh, EncodeChar(c)[..k]) == [Replacement]
  {
    var n := c as int;
    if n < 0x800 {
      DecodeTwo(c, []);
    } else if n < 0x10000 {
      DecodeThree(c, []);
    } else {
      CutFour(c);
    }
  }

  /** Decoding undoes encoding, whatever follows. */
  lemma {:induction false} DecodeUtf8(s: string, rest: seq<byte>)
    ensures DecodeFrom(Fresh, Utf8(s) + rest) == s + DecodeFrom(Fresh, rest)
  {
    if s != [] {
      assert Utf8(s) + rest == EncodeChar(s[0]) + (Utf8(s[1..]) + rest);
      DecodeChar(s[0], Utf8(s[1..]) + rest);
      DecodeUtf8(s[1..], rest);
      assert s + DecodeFrom(Fresh, rest) == [s[0]] + (s[1..] + DecodeFrom(Fresh, rest));
    } else {
      assert Utf8(s) + rest == rest;
    }
  }

  /** A `TextEncoder` and a `TextDecoder` round-trip every string that does not begin with a
      byte order mark. */
  lemma Utf8RoundTrip(s: string)
    requires s == [] || s[0] != '\U{FEFF}'
    ensures Decode(Utf8(s)) == s
  {
    DecodeUtf8(s, []);
    assert Utf8(s) + [] == Utf8(s);
  }

  // ---------------------------------------------------------------- close reasons

  /** The bytes a close frame leaves for the reason. */
  const MaxReasonBytes := 123

  /** The `unknown` a close reason arrives as. */
  datatype ReasonArg = Text(s: string) | NotText

  /** `sanitizeCloseReason` as written: a reason over the limit is cut after its 123rd byte and
      the bytes are decoded again, without fatal errors. */
  function SanitizeCloseReason(a: ReasonArg): string {
    if !a.Text? || a.s == [] then ""
    else if |Utf8(a.s)| <= MaxReasonBytes then a.s
    else Decode(Utf8(a.s)[..MaxReasonBytes])
  }

  /** The longest prefix of `s` whose encoding fits in `n` bytes. */
  function Fitting(s: string, n: nat): (q: string)
    ensures q <= s && |Utf8(q)| <= n && (q == s || |q| < |s|)
    ensures |q| < |s| ==> n < |Utf8(q)| + |EncodeChar(s[|q|])|
  {
    if s == [] || n < |EncodeChar(s[0])| then []
    else
      var q := [s[0]] + Fitting(s[1..], n - |EncodeChar(s[0])|);
      assert q[1..] == Fitting(s[1..], n - |EncodeChar(s[0])|);
      assert |q| < |s| ==> s[|q|] == s[1..][|q| - 1];
      q
  }

  /** Cutting `a + e + r` inside `e`. */
  lemma SliceInside<T>(a: seq<T>, e: seq<T>, r: seq<T>, n: nat)
    requires |a| <= n <= |a| + |e|
    ensures (a + e + r)[..n] == a + e[..n - |a|]
  {
    assert forall i :: 0 <= i < n ==> (a + e + r)[..n][i] == (a + e[..n - |a|])[i];
  }

  /** The encoding of `q + [x] + rest`, piece by piece. */
  lemma Utf8Around(q: string, x: char, rest: string)
    ensures Utf8(q + [x] + rest) == Utf8(q) + EncodeChar(x) + Utf8(rest)
  {
    Utf8Append(q + [x], rest);
    Utf8Append(q, [x]);
    assert Utf8([x]) == EncodeChar(x) by {
      assert [x][1..] == [];
      assert EncodeChar(x) + [] == EncodeChar(x);
    }
  }

  /** Cutting the encoding of `q + [x] + rest` inside the bytes of `x`. */
  lemma CutInside(q: string, x: char, rest: string, n: nat)
    requires |Utf8(q)| <= n < |Utf8(q)| + |EncodeChar(x)|
    ensures var bs := Utf8(q + [x] + rest);
      n <= |bs| && bs[..n] == Utf8(q) + EncodeChar(x)[..n - |Utf8(q)|]
  {
    Utf8Around(q, x, rest);
    SliceInside(Utf8(q), EncodeChar(x), Utf8(rest), n);
  }

  /** The encoding of a string over `n` bytes, cut after `n` bytes: the longest fitting prefix,
      then part of the next character. */
  lemma FittingCut(s: string, n: nat)
    requires n < |Utf8(s)|
    ensures var q := Fitting(s, n);
      |q| < |s| && n - |Utf8(q)| < |EncodeChar(s[|q|])|
      && Utf8(s)[..n] == Utf8(q) + EncodeChar(s[|q|])[..n - |Utf8(q)|]
  {
    var q := Fitting(s, n);
    assert s == q + [s[|q|]] + s[|q| + 1..];
    CutInside(q, s[|q|], s[|q| + 1..], n);
  }

  /** What a reason over the limit becomes: its longest fitting prefix, then U+FFFD when the
      123rd byte falls inside a character, less a leading byte order mark. */
  lemma ReasonLong(s: string)
    requires MaxReasonBytes < |Utf8(s)|
    ensures var q := Fitting(s, MaxReasonBytes);
      SanitizeCloseReason(Text(s))
      == StripBom(q + (if |Utf8(q)| == MaxReasonBytes then [] else [Replacement]))
  {
    var q := Fitting(s, MaxReasonBytes);
    FittingCut(s, MaxReasonBytes);
    var cut := EncodeChar(s[|q|])[..MaxReasonBytes - |Utf8(q)|];
    DecodeUtf8(q, cut);
    if |Utf8(q)| == MaxReasonBytes {
      assert q + [] == q;
    } else {
      DecodeCut(s[|q|], MaxReasonBytes - |Utf8(q)|);
    }
  }
  /** U+FFFD and the byte order mark both take three bytes. */
  lemma ThreeByteChars()
    ensures |EncodeChar(Replacement)| == 3 && |EncodeChar('\U{FEFF}')| == 3
  {
  }

  /** The bytes a leading byte order mark takes away. */
  lemma StripBomBytes(x: string)
    ensures |Utf8(StripBom(x))| == |Utf8(x)| - (if x != [] && x[0] == '\U{FEFF}' then 3 else 0)
  {
    ThreeByteChars();
  }

  /** The bytes U+FFFD adds at the end. */
  lemma ReplacementBytes(q: string)
    ensures |Utf8(q + [Replacement])| == |Utf8(q)| + 3
  {
    Utf8Around(q, Replacement, []);
    assert q + [Replacement] + [] == q + [Replacement];
    ThreeByteChars();
  }

  /** The exact size of what a reason over the limit becomes: the fitting prefix, three bytes
      more when the cut falls inside a character, three bytes fewer when the prefix begins with
      a byte order mark. */
  lemma ReasonLongBytes(s: string)
    requires MaxReasonBytes < |Utf8(s)|
    ensures var q := Fitting(s, MaxReasonBytes);
      MaxReasonBytes - 3 <= |Utf8(q)| && q != []
      && |Utf8(SanitizeCloseReason(Text(s)))|
         == |Utf8(q)| + (if |Utf8(q)| == MaxReasonBytes then 0 else 3) - (if q[0] == '\U{FEFF}' then 3 else 0)
  {
    var q := Fitting(s, MaxReasonBytes);
    FittingCut(s, MaxReasonBytes);
    ReasonLong(s);
    if |Utf8(q)| == MaxReasonBytes {
      StripBomBytes(q + []);
      assert q + [] == q;
    } else {
      ReplacementBytes(q);
      StripBomBytes(q + [Replacement]);
      assert (q + [Replacement])[0] == q[0];
    }
  }

  /** The reason as written can come out longer than the frame allows: exactly when the 123rd
      byte falls inside a character that began in one of the last two bytes before it, and the
      reason does not begin with a byte order mark. It never comes out longer than 125 bytes. */
  lemma ReasonOverflow(a: ReasonArg)
    ensures |Utf8(SanitizeCloseReason(a))| <= MaxReasonBytes + 2
    ensures MaxReasonBytes < |Utf8(SanitizeCloseReason(a))|
      <==> a.Text? && MaxReasonBytes < |Utf8(a.s)|
           && MaxReasonBytes - 2 <= |Utf8(Fitting(a.s, MaxReasonBytes))| < MaxReasonBytes
           && a.s[0] != '\U{FEFF}'
  {
    if a.Text? && MaxReasonBytes < |Utf8(a.s)| {
      ReasonLongBytes(a.s);
      assert Fitting(a.s, MaxReasonBytes)[0] == a.s[0];
    }
  }

  /** Encoding ASCII text takes one byte per character. */
  lemma {:induction false} AsciiBytes(s: string)
    requires forall i :: 0 <= i < |s| ==> s[i] as int < 0x80
    ensures |Utf8(s)| == |s|
  {
    if s != [] {
      AsciiBytes(s[1..]);
    }
  }

  /** Encoding text of three-byte characters takes three bytes per character. */
  lemma {:induction false} WideBytes(s: string)
    requires forall i :: 0 <= i < |s| ==> 0x800 <= s[i] as int < 0x10000
    ensures |Utf8(s)| == 3 * |s|
  {
    if s != [] {
      WideBytes(s[1..]);
    }
  }

  /** Worked case: 200 HIRAGANA LETTER A (600 bytes) are cut after 123 bytes, a character
      boundary, and come out as the first 41 of them. */
  lemma ReasonMultibyteScenario()
    ensures SanitizeCloseReason(Text(seq(200, _ => '\U{3042}'))) == seq(41, _ => '\U{3042}')
  {
    var s := seq(200, _ => '\U{3042}');
    WideBytes(s);
    var q := seq(41, _ => '\U{3042}');
    WideBytes(q);
    assert s == q + [s[41]] + s[42..];
    assert |EncodeChar(s[41])| == 3;
    CutInside(q, s[41], s[42..], MaxReasonBytes);
    DecodeUtf8(q, []);
    assert EncodeChar(s[41])[..0] == [];
    assert Utf8(q) + [] == Utf8(q) && q + [] == q;
  }

  /** A prefix takes no more bytes than the text it begins, and the character after it adds all
      of its own bytes. */
  lemma Utf8Prefix(a: string, b: string)
    requires a <= b
    ensures |Utf8(a)| <= |Utf8(b)|
    ensures |a| < |b| ==> |Utf8(a)| + |EncodeChar(b[|a|])| <= |Utf8(b)|
  {
    if |a| < |b| {
      assert b == a + [b[|a|]] + b[|a| + 1..];
      Utf8Around(a, b[|a|], b[|a| + 1..]);
    } else {
      assert a == b;
    }
  }

  /** `Fitting` is the only prefix that fits in `n` bytes and would not fit with one more
      character. */
  lemma FittingUnique(s: string, n: nat, p: string)
    requires p <= s && |Utf8(p)| <= n
    requires |p| < |s| ==> n < |Utf8(p)| + |EncodeChar(s[|p|])|
    ensures Fitting(s, n) == p
  {
    var q := Fitting(s, n);
    assert |q| == |p| by {
      if |q| < |p| {
        assert q <= p;
        assert p[|q|] == s[|q|];
        Utf8Prefix(q, p);
      } else if |p| < |q| {
        assert p <= q;
        assert q[|p|] == s[|p|];
        Utf8Prefix(p, q);
      }
    }
    assert q == s[..|q|] && p == s[..|p|];
  }

  /** `u.repeat(k)`. */
  function Repeat(u: string, k: nat): string {
    if k == 0 then [] else u + Repeat(u, k - 1)
  }

  /** A repeated text takes the bytes of one copy, times the count. */
  lemma {:induction false} RepeatBytes(u: string, k: nat)
    ensures |Utf8(Repeat(u, k))| == k * |Utf8(u)|
  {
    if k > 0 {
      var w := |Utf8(u)|;
      var rest := Repeat(u, k - 1);
      RepeatBytes(u, k - 1);
      Utf8Append(u, rest);
      assert |Utf8(Repeat(u, k))| == w + |Utf8(rest)|;
      assert w + (k - 1) * w == k * w;
    }
  }

  /** The three characters the long-reason test repeats: U+201E, U+00C5 and U+00C7, seven bytes
      together (they are the bytes of HIRAGANA LETTER A read as Mac OS Roman). */
  const TestUnit: string := "\U{201E}\U{00C5}\U{00C7}"

  /** A three-character text takes the bytes of its characters. */
  lemma ThreeCharBytes(u: string)
    requires |u| == 3
    ensures |Utf8(u)| == |EncodeChar(u[0])| + |EncodeChar(u[1])| + |EncodeChar(u[2])|
  {
    assert Utf8(u) == EncodeChar(u[0]) + Utf8(u[1..]);
    assert Utf8(u[1..]) == EncodeChar(u[1]) + Utf8(u[2..]) by {
      assert u[1..][0] == u[1] && u[1..][1..] == u[2..];
    }
    assert Utf8(u[2..]) == EncodeChar(u[2]) + Utf8([]) by {
      assert u[2..][0] == u[2] && u[2..][1..] == [];
    }
  }

  /** `r + (u + t)` begins with `r` and the first character of `u`, and the second one follows. */
  lemma PrefixThen<T>(r: seq<T>, u: seq<T>, t: seq<T>)
    requires |u| >= 2
    ensures var p := r + [u[0]];
      |p| < |r + (u + t)| && p <= r + (u + t) && (r + (u + t))[|p|] == u[1]
  {
    var s := r + (u + t);
    var p := r + [u[0]];
    assert forall i :: 0 <= i < |p| ==> p[i] == s[i];
  }

  /** `k` copies of a unit are `j` copies, one more, and the rest. */
  lemma {:induction false} RepeatAt(u: string, k: nat, j: nat)
    requires j < k
    ensures Repeat(u, k) == Repeat(u, j) + (u + Repeat(u, k - j - 1))
  {
    if j > 0 {
      RepeatAt(u, k - 1, j - 1);
      assert Repeat(u, k) == u + Repeat(u, k - 1);
      assert Repeat(u, j) == u + Repeat(u, j - 1);
    }
  }

  /** `k` copies of a unit, read up to the second character of copy `j + 1`. */
  lemma RepeatLayout(u: string, k: nat, j: nat)
    requires |u| == 3 && j < k
    ensures var p := Repeat(u, j) + [u[0]];
      |p| < |Repeat(u, k)| && p <= Repeat(u, k) && Repeat(u, k)[|p|] == u[1] && p[0] == u[0]
  {
    var r := Repeat(u, j);
    var t := Repeat(u, k - j - 1);
    RepeatAt(u, k, j);
    PrefixThen(r, u, t);
    assert j == 0 || r[0] == u[0];
  }

  /** The bytes of `j` copies of a unit and the unit's first character. */
  lemma RepeatPrefixBytes(u: string, j: nat)
    requires |u| > 0
    ensures |Utf8(Repeat(u, j) + [u[0]])| == j * |Utf8(u)| + |EncodeChar(u[0])|
  {
    var r := Repeat(u, j);
    RepeatBytes(u, j);
    Utf8Around(r, u[0], []);
    assert r + [u[0]] + [] == r + [u[0]];
  }

  /** A reason whose 123rd byte falls inside the character after its prefix `p`: the version
      as written keeps `p` and adds U+FFFD, the fitted version keeps `p`. */
  lemma ReasonCutAfter(s: string, p: string)
    requires p <= s && |p| < |s| && |Utf8(p)| < MaxReasonBytes < |Utf8(p)| + |EncodeChar(s[|p|])|
    requires p != [] && p[0] != '\U{FEFF}'
    ensures SanitizeCloseReason(Text(s)) == p + [Replacement]
    ensures |Utf8(SanitizeCloseReason(Text(s)))| == |Utf8(p)| + 3
    ensures SanitizeCloseReasonFitted(Text(s)) == p
  {
    Utf8Prefix(p, s);
    assert s != [] && MaxReasonBytes < |Utf8(s)|;
    FittingUnique(s, MaxReasonBytes, p);
    ReasonLong(s);
    assert SanitizeCloseReason(Text(s)) == StripBom(p + [Replacement]);
    assert StripBom(p + [Replacement]) == p + [Replacement] by {
      assert (p + [Replacement])[0] == p[0];
    }
    ReplacementBytes(p);
  }

  /** A reason made of `k` copies of a unit of a three-byte and two two-byte characters, whose
      123rd byte is the first byte of the unit's second character in copy `j + 1`: the version
      as written keeps `j` units and the first character and adds U+FFFD, two bytes over the
      limit; the fitted version keeps the `j` units and the first character. */
  lemma ReasonRepeatCut(u: string, k: nat, j: nat)
    requires |u| == 3 && u[0] != '\U{FEFF}'
    requires |EncodeChar(u[0])| == 3 && |EncodeChar(u[1])| == 2 && |EncodeChar(u[2])| == 2
    requires j < k && 7 * j + 3 <= MaxReasonBytes < 7 * j + 5
    ensures var s := Repeat(u, k);
      var p := Repeat(u, j) + [u[0]];
      |Utf8(p)| == 7 * j + 3
      && SanitizeCloseReason(Text(s)) == p + [Replacement]
      && |Utf8(SanitizeCloseReason(Text(s)))| == 7 * j + 6
      && SanitizeCloseReasonFitted(Text(s)) == p
  {
    var r := Repeat(u, j);
    var p := r + [u[0]];
    assert |Utf8(p)| == 7 * j + 3 by {
      ThreeCharBytes(u);
      RepeatPrefixBytes(u, j);
      var w := |Utf8(u)|;
      assert w == 7 && j * w == 7 * j;
    }
    var s := Repeat(u, k);
    RepeatLayout(u, k, j);
    assert |EncodeChar(s[|p|])| == 2;
    ReasonCutAfter(s, p);
  }

  /** The long reason of `websocket.test.ts`, the unit above repeated 200 times (1400 bytes),
      comes out as 17 units, an U+201E and U+FFFD: 125 bytes, two more than the test allows.
      The fitted version gives the 122 bytes before U+FFFD. */
  lemma ReasonTestScenario()
    ensures |Utf8(SanitizeCloseReason(Text(Repeat(TestUnit, 200))))| == 125
    ensures SanitizeCloseReasonFitted(Text(Repeat(TestUnit, 200))) == Repeat(TestUnit, 17) + ['\U{201E}']
    ensures |Utf8(SanitizeCloseReasonFitted(Text(Repeat(TestUnit, 200))))| == 122
  {
    ReasonRepeatCut(TestUnit, 200, 17);
  }

  /** The reason of 121 letters `a` and one HIRAGANA LETTER A (124 bytes) is cut after the
      first two bytes of its last character and comes out as 121 letters and U+FFFD: 124 bytes,
      one more than a close frame has room for. */
  lemma ReasonOverflowScenario()
    ensures var s := seq(121, _ => 'a') + ['\U{3042}'];
      |Utf8(s)| == 124 && SanitizeCloseReason(Text(s)) == seq(121, _ => 'a') + [Replacement]
      && |Utf8(SanitizeCloseReason(Text(s)))| == 124
  {
    var q := seq(121, _ => 'a');
    var x := '\U{3042}';
    var s := q + [x];
    AsciiBytes(q);
    assert |EncodeChar(x)| == 3;
    CutInside(q, x, [], MaxReasonBytes);
    Utf8Around(q, x, []);
    assert q + [x] + [] == s;
    DecodeUtf8(q, EncodeChar(x)[..2]);
    DecodeCut(x, 2);
    ReplacementBytes(q);
  }

  /** `sanitizeCloseReason` as its documentation means it: a reason over the limit is cut to its
      longest prefix that fits, so that the result is a prefix of the reason, fits the frame, and
      is as long as it can be. */
  function SanitizeCloseReasonFitted(a: ReasonArg): (r: string)
    ensures |Utf8(r)| <= MaxReasonBytes
    ensures a.Text? ==> r <= a.s
    ensures a.Text? && |r| < |a.s| ==> MaxReasonBytes < |Utf8(r)| + |EncodeChar(a.s[|r|])|
    ensures !a.Text? ==> r == ""
  {
    if !a.Text? || a.s == [] then ""
    else if |Utf8(a.s)| <= MaxReasonBytes then a.s
    else Fitting(a.s, MaxReasonBytes)
  }

  /** The corrected reason agrees with the one as written exactly when the latter cuts the
      reason on a character boundary or does not cut it at all (a leading byte order mark, which
      the version as written drops from a reason it cuts, aside). */
  lemma FittedAgrees(a: ReasonArg)
    requires !a.Text? || a.s == [] || a.s[0] != '\U{FEFF}'
    ensures SanitizeCloseReasonFitted(a) == SanitizeCloseReason(a)
      <==> !a.Text? || |Utf8(a.s)| <= MaxReasonBytes
           || |Utf8(Fitting(a.s, MaxReasonBytes))| == MaxReasonBytes
  {
    if a.Text? && MaxReasonBytes < |Utf8(a.s)| {
      var q := Fitting(a.s, MaxReasonBytes);
      ReasonLongBytes(a.s);
      ReasonLong(a.s);
      assert q[0] == a.s[0];
      if |Utf8(q)| == MaxReasonBytes {
        assert q + [] == q;
      } else {
        assert (q + [Replacement])[0] == q[0];
        assert |SanitizeCloseReason(a)| == |q| + 1;
      }
    }
  }

  /** A reason that fits is sent as it is, by both versions. */
  lemma ReasonShort(s: string)
    requires |Utf8(s)| <= MaxReasonBytes
    ensures SanitizeCloseReason(Text(s)) == s && SanitizeCloseReasonFitted(Text(s)) == s
  {
  }

  /** Worked cases: values that are not text and the empty text give the empty reason, and 1000
      letters are cut to 123. */
  lemma ReasonScenarios()
    ensures SanitizeCloseReason(NotText) == "" && SanitizeCloseReason(Text("")) == ""
    ensures SanitizeCloseReason(Text(seq(1000, _ => 'a'))) == seq(123, _ => 'a')
  {
    var s := seq(1000, _ => 'a');
    AsciiBytes(s);
    var q := seq(123, _ => 'a');
    AsciiBytes(q);
    assert s == q + [s[123]] + s[124..];
    CutInside(q, s[123], s[124..], MaxReasonBytes);
    DecodeUtf8(q, []);
    assert EncodeChar(s[123])[..0] == [];
    assert Utf8(q) + [] == Utf8(q) && q + [] == q;
  }
}

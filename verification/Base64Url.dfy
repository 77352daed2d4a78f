/** Decoding base64url text with a wrapping 32-bit accumulator. */
module Base64Url {

  type Byte = b: int | 0 <= b < 256

  type Digit = d: int | 0 <= d < 64

  const WORD: int := 0x1_0000_0000

  // ---- The alphabet --------------------------------------------------------------------------

  /** Six bits as a character of the URL-safe alphabet, section 5 of RFC 4648. */
  function UrlChar(d: Digit): char {
    if d < 26 then ('A' as int + d) as char
    else if d < 52 then ('a' as int + d - 26) as char
    else if d < 62 then ('0' as int + d - 52) as char
    else if d == 62 then '-'
    else '_'
  }

  /** The decoder's table: a digit, -2 for padding, -1 for anything else. */
  function TableEntry(c: char): (t: int)
    ensures -2 <= t < 64
  {
    if 'A' <= c <= 'Z' then c as int - 'A' as int
    else if 'a' <= c <= 'z' then c as int - 'a' as int + 26
    else if '0' <= c <= '9' then c as int - '0' as int + 52
    else if c == '+' then 62
    else if c == '/' then 63
    else if c == '=' then -2
    else -1
  }

  function Standard(c: char): char {
    if c == '-' then '+' else if c == '_' then '/' else c
  }

  /** Belongs to the standard or the URL-safe alphabet. */
  predicate Accepted(c: char) {
    'A' <= c <= 'Z' || 'a' <= c <= 'z' || '0' <= c <= '9' || c in {'+', '/', '-', '_'}
  }

  lemma TableAccepts(c: char)
    ensures TableEntry(Standard(c)) >= 0 <==> Accepted(c)
    ensures TableEntry(Standard(c)) == -2 <==> c == '='
  {
  }

  lemma UrlCharDecodes(d: Digit)
    ensures Accepted(UrlChar(d)) && TableEntry(Standard(UrlChar(d))) == d
  {
  }

  // ---- What a text means ---------------------------------------------------------------------

  /** The part before the first padding character. */
  function Body(s: string): string {
    if s == "" || s[0] == '=' then "" else [s[0]] + Body(s[1..])
  }

  predicate AllAccepted(s: string) {
    forall i :: 0 <= i < |s| ==> Accepted(s[i])
  }

  function Digits(s: string): seq<Digit>
    requires AllAccepted(s)
  {
    if s == "" then []
    else
      TableAccepts(s[0]);
      [TableEntry(Standard(s[0]))] + Digits(s[1..])
  }

  /** Bits read but not yet part of a byte: how many, and their value. */
  datatype Pending = Pending(bits: nat, rest: nat)
  {
    predicate Ok() {
      || (bits == 0 && rest == 0)
      || (bits == 2 && rest < 4)
      || (bits == 4 && rest < 16)
      || (bits == 6 && rest < 64)
    }

    /** With six more bits: the byte that fills up, if any, and what is pending then. */
    function Add(d: Digit): (r: (seq<Byte>, Pending))
      requires Ok()
      ensures r.1.Ok()
    {
      var acc := rest * 64 + d;
      if bits == 0 then ([], Pending(6, acc))
      else if bits == 6 then ([acc / 16], Pending(4, acc % 16))
      else if bits == 4 then ([acc / 4], Pending(2, acc % 4))
      else ([acc], Pending(0, 0))
    }
  }

  const NOTHING := Pending(0, 0)

  /** The whole bytes in a stream of digits; fewer than eight bits at the end are dropped. */
  function Pack(p: Pending, digits: seq<Digit>): seq<Byte>
    requires p.Ok()
    decreases |digits|
  {
    if digits == [] then [] else p.Add(digits[0]).0 + Pack(p.Add(digits[0]).1, digits[1..])
  }

  /** The bytes of a text; nothing at all if a foreign character stands before the padding. */
  function Decoded(s: string): seq<Byte> {
    if AllAccepted(Body(s)) then Pack(NOTHING, Digits(Body(s))) else []
  }

  // ---- The decoder ---------------------------------------------------------------------------

  /** The low bits of the accumulator are the pending ones, whatever has wrapped out of it. */
  predicate Holds(val: int, p: Pending) {
    && 0 <= val < WORD && p.Ok()
    && (p.bits == 2 ==> val % 4 == p.rest) && (p.bits == 4 ==> val % 16 == p.rest) &&
    (p.bits == 6 ==> val % 64 == p.rest)
  }

  function Power(e: nat): (r: int)
    requires e <= 4
    ensures r > 0
  {
    if e == 0 then 1 else if e == 1 then 2 else if e == 2 then 4 else if e == 3 then 8 else 16
  }

  lemma FeedNothing(val: int, d: Digit)
    requires 0 <= val < WORD
    ensures (val * 64 + d) % WORD % 64 == d
  {
  }

  lemma FeedSix(val: int, rest: nat, d: Digit)
    requires 0 <= val < WORD && val % 64 == rest
    ensures var v := (val * 64 + d) % WORD; v / 16 % 256 == (rest * 64 + d) / 16 && v % 16 == (rest * 64 + d) % 16
  {
    var acc := rest * 64 + d;
    var k := val / 64 - 0x10_0000 * ((val * 64 + d) / WORD);
    assert (val * 64 + d) % WORD == 4096 * k + acc;
    assert (4096 * k + acc) / 16 == 256 * k + acc / 16;
  }

  lemma FeedFour(val: int, rest: nat, d: Digit)
    requires 0 <= val < WORD && val % 16 == rest
    ensures var v := (val * 64 + d) % WORD; v / 4 % 256 == (rest * 64 + d) / 4 && v % 4 == (rest * 64 + d) % 4
  {
    var acc := rest * 64 + d;
    var k := val / 16 - 0x40_0000 * ((val * 64 + d) / WORD);
    assert (val * 64 + d) % WORD == 1024 * k + acc;
    assert (1024 * k + acc) / 4 == 256 * k + acc / 4;
  }

  lemma FeedTwo(val: int, rest: nat, d: Digit)
    requires 0 <= val < WORD && val % 4 == rest
    ensures (val * 64 + d) % WORD % 256 == rest * 64 + d
  {
    var k := val / 4 - 0x100_0000 * ((val * 64 + d) / WORD);
    assert (val * 64 + d) % WORD == 256 * k + (rest * 64 + d);
  }

  /** One digit: the accumulator still holds what is pending, and the byte taken from it is the one that fills up. */
  lemma FeedDigit(val: int, p: Pending, d: Digit)
    requires Holds(val, p)
    ensures var v := (val * 64 + d) % WORD; var (emitted, p') := p.Add(d);
            && Holds(v, p') && p'.Ok() && p'.bits == (p.bits + 6) % 8
            && emitted == if p.bits >= 2 then [v / Power(p.bits - 2) % 256] else []
  {
    if p.bits == 0 {
      FeedNothing(val, d);
    } else if p.bits == 6 {
      FeedSix(val, p.rest, d);
    } else if p.bits == 4 {
      FeedFour(val, p.rest, d);
    } else {
      FeedTwo(val, p.rest, d);
    }
  }

  /** What is still to come of a normalised text, after `out` with `p` pending. */
  function Onward(out: seq<Byte>, p: Pending, t: string): seq<Byte>
    requires p.Ok()
    decreases |t|
  {
    if t == "" then out
    else
      var e := TableEntry(t[0]);
      if e == -1 then [] else if e == -2 then out
      else Onward(out + p.Add(e).0, p.Add(e).1, t[1..])
  }

  function StandardAll(s: string): string {
    seq(|s|, i requires 0 <= i < |s| => Standard(s[i]))
  }

  predicate AllPadding(s: string) {
    forall i :: 0 <= i < |s| ==> s[i] == '='
  }

  lemma {:induction false} OnwardPadding(out: seq<Byte>, p: Pending, pad: string)
    requires p.Ok() && AllPadding(pad)
    ensures Onward(out, p, pad) == out
  {
  }

  lemma {:induction false} OnwardDecodes(out: seq<Byte>, p: Pending, s: string, pad: string)
    requires p.Ok() && AllPadding(pad)
    ensures Onward(out, p, StandardAll(s) + pad) == if AllAccepted(Body(s)) then out + Pack(p, Digits(Body(s))) else []
    decreases |s|
  {
    var t := StandardAll(s) + pad;
    if s == "" {
      assert t == pad;
      OnwardPadding(out, p, pad);
    } else {
      assert t[1..] == StandardAll(s[1..]) + pad && t[0] == Standard(s[0]);
      TableAccepts(s[0]);
      if s[0] == '=' {
        assert out + [] == out;
      } else {
        BodyStep(s);
        if Accepted(s[0]) {
          var (emitted, p') := p.Add(TableEntry(t[0]));
          OnwardDecodes(out + emitted, p', s[1..], pad);
          hide Standard, TableEntry, Accepted, Pending.Add;
          if AllAccepted(Body(s[1..])) {
            var later := Pack(p', Digits(Body(s[1..])));
            assert (out + emitted) + later == out + (emitted + later);
            PackStep(p, Digits(Body(s)));
            assert Digits(Body(s))[1..] == Digits(Body(s[1..]));
          }
        }
      }
    }
  }

  lemma BodyStep(s: string)
    requires s != "" && s[0] != '='
    ensures Body(s) == [s[0]] + Body(s[1..])
    ensures AllAccepted(Body(s)) <==> Accepted(s[0]) && AllAccepted(Body(s[1..]))
    ensures AllAccepted(Body(s)) ==> Digits(Body(s)) == [TableEntry(Standard(s[0]))] + Digits(Body(s[1..]))
  {
    var b := Body(s);
    assert b[1..] == Body(s[1..]);
    hide Accepted, Body;
    assert forall i :: 0 <= i < |b[1..]| ==> b[1..][i] == b[i + 1];
    assert AllAccepted(b) <==> Accepted(b[0]) && AllAccepted(b[1..]) by {
      if Accepted(b[0]) && AllAccepted(b[1..]) {
        forall i | 0 <= i < |b|
          ensures Accepted(b[i])
        {
          assert i > 0 ==> b[i] == b[1..][i - 1];
        }
      }
    }
  }

  /** Into the standard alphabet, filled up with padding to a multiple of four. */
  method Normalize(input: string) returns (b64: string, ghost pad: string)
    ensures b64 == StandardAll(input) + pad && AllPadding(pad) && |b64| % 4 == 0
  {
    b64 := input;
    for i := 0 to |b64|
      invariant |b64| == |input|
      invariant forall k :: 0 <= k < |input| ==> b64[k] == if k < i then Standard(input[k]) else input[k]
    {
      if b64[i] == '-' {
        b64 := b64[i := '+'];
      } else if b64[i] == '_' {
        b64 := b64[i := '/'];
      }
    }
    pad := "";
    assert b64 == StandardAll(input) + pad;
    while |b64| % 4 != 0
      invariant b64 == StandardAll(input) + pad && AllPadding(pad)
      decreases (4 - |b64| % 4) % 4
    {
      b64 := b64 + ['='];
      pad := pad + ['='];
    }
  }

  method Decode(input: string) returns (out: seq<Byte>)
    ensures out == Decoded(input)
  {
    hide TableEntry, Accepted, AllAccepted, Digits, Pack, Body, Pending.Add, Holds, Pending.Ok, StandardAll;
    var b64, pad := Normalize(input);
    out := [];
    StartHolds();
    OnwardDecodes([], NOTHING, input, pad);
    assert b64[0..] == b64 && [] + Decoded(input) == Decoded(input);
    var val, valb := 0, -8;
    ghost var p := NOTHING;
    for i := 0 to |b64|
      invariant p.Ok() && Holds(val, p) && valb == p.bits - 8
      invariant Onward(out, p, b64[i..]) == Decoded(input)
    {
      assert b64[i..][0] == b64[i] && b64[i..][1..] == b64[i + 1..];
      var d := TableEntry(b64[i]);
      if d == -1 {
        return [];
      }
      if d == -2 {
        return;
      }
      FeedDigit(val, p, d);
      PendingBits(p);
      val := (val * 64 + d) % WORD;
      valb := valb + 6;
      ghost var before := out;
      if valb >= 0 {
        out := out + [val / Power(valb) % 256];
        valb := valb - 8;
      }
      assert out == before + p.Add(d).0;
      p := p.Add(d).1;
    }
  }

  lemma StartHolds()
    ensures Holds(0, NOTHING) && NOTHING.Ok()
  {
  }

  lemma PendingBits(p: Pending)
    requires p.Ok()
    ensures p.bits in {0, 2, 4, 6}
  {
  }

  // ---- Encoding, and back --------------------------------------------------------------------

  /** Section 4 of RFC 4648: three bytes make four digits, and one or two left over make two or three. */
  function EncodeDigits(bs: seq<Byte>): seq<Digit> {
    if bs == [] then []
    else if |bs| == 1 then [bs[0] / 4, bs[0] % 4 * 16]
    else if |bs| == 2 then [bs[0] / 4, bs[0] % 4 * 16 + bs[1] / 16, bs[1] % 16 * 4]
    else [bs[0] / 4, bs[0] % 4 * 16 + bs[1] / 16, bs[1] % 16 * 4 + bs[2] / 64, bs[2] % 64] + EncodeDigits(bs[3..])
  }

  function UrlChars(digits: seq<Digit>): string {
    seq(|digits|, i requires 0 <= i < |digits| => UrlChar(digits[i]))
  }

  function Padding(n: nat): string {
    if n % 3 == 1 then "==" else if n % 3 == 2 then "=" else ""
  }

  function Encode(bs: seq<Byte>, padded: bool): string {
    UrlChars(EncodeDigits(bs)) + (if padded then Padding(|bs|) else "")
  }

  lemma PackStep(p: Pending, digits: seq<Digit>)
    requires p.Ok() && digits != []
    ensures Pack(p, digits) == p.Add(digits[0]).0 + Pack(p.Add(digits[0]).1, digits[1..])
  {
  }

  lemma {:induction false} PackUndoesEncode(bs: seq<Byte>)
    ensures Pack(NOTHING, EncodeDigits(bs)) == bs
  {
    var ds := EncodeDigits(bs);
    if bs != [] {
      if |bs| >= 3 {
        PackUndoesEncode(bs[3..]);
        FourDigits(ds, bs[0], bs[1], bs[2]);
        assert ds[4..] == EncodeDigits(bs[3..]);
        assert bs == [bs[0], bs[1], bs[2]] + bs[3..];
      } else {
        hide Pack;
        if |bs| == 1 {
          OneByte(ds, bs[0]);
        } else {
          TwoBytes(ds, bs[0], bs[1]);
        }
      }
    }
  }

  lemma AddSix(a: Byte, b: Byte)
    ensures Pending(6, a / 4).Add(a % 4 * 16 + b / 16) == ([a], Pending(4, b / 16))
  {
  }

  lemma AddFour(b: Byte, c: Byte)
    ensures Pending(4, b / 16).Add(b % 16 * 4 + c / 64) == ([b], Pending(2, c / 64))
  {
  }

  lemma FourDigits(ds: seq<Digit>, a: Byte, b: Byte, c: Byte)
    requires |ds| >= 4 && ds[0] == a / 4 && ds[1] == a % 4 * 16 + b / 16 && ds[2] == b % 16 * 4 + c / 64
    requires ds[3] == c % 64
    ensures Pack(NOTHING, ds) == [a, b, c] + Pack(NOTHING, ds[4..])
  {
    var p1, p2, p3 := Pending(6, a / 4), Pending(4, b / 16), Pending(2, c / 64);
    AddSix(a, b);
    AddFour(b, c);
    assert NOTHING.Add(ds[0]) == ([], p1) && p3.Add(ds[3]) == ([c], NOTHING);
    hide Pack, Pending.Add;
    PackStep(NOTHING, ds);
    PackStep(p1, ds[1..]);
    PackStep(p2, ds[1..][1..]);
    PackStep(p3, ds[1..][1..][1..]);
    assert ds[1..][1..][1..][1..] == ds[4..];
    var rest := Pack(NOTHING, ds[4..]);
    assert [] + ([a] + ([b] + ([c] + rest))) == [a, b, c] + rest;
  }

  lemma OneByte(ds: seq<Digit>, a: Byte)
    requires ds == [a / 4, a % 4 * 16]
    ensures Pack(NOTHING, ds) == [a]
  {
    hide Pack;
    PackStep(NOTHING, ds);
    var p1 := Pending(6, a / 4);
    PackStep(p1, ds[1..]);
    var p2 := Pending(4, 0);
    assert p1.Add(ds[1]) == ([a], p2);
    PackNone(p2);
    assert ds[1..][1..] == [];
  }

  lemma TwoBytes(ds: seq<Digit>, a: Byte, b: Byte)
    requires ds == [a / 4, a % 4 * 16 + b / 16, b % 16 * 4]
    ensures Pack(NOTHING, ds) == [a, b]
  {
    hide Pack;
    PackStep(NOTHING, ds);
    var p1 := Pending(6, a / 4);
    PackStep(p1, ds[1..]);
    var p2 := Pending(4, b / 16);
    assert p1.Add(ds[1]) == ([a], p2);
    PackStep(p2, ds[1..][1..]);
    var p3 := Pending(2, 0);
    assert p2.Add(ds[2]) == ([b], p3);
    PackNone(p3);
    assert ds[1..][1..][1..] == [];
  }

  lemma PackNone(p: Pending)
    requires p.Ok()
    ensures Pack(p, []) == []
  {
  }

  lemma {:induction false} BodyOfUrl(digits: seq<Digit>, pad: string)
    requires AllPadding(pad)
    ensures Body(UrlChars(digits) + pad) == UrlChars(digits) && AllAccepted(UrlChars(digits))
    ensures Digits(UrlChars(digits)) == digits
  {
    var s := UrlChars(digits) + pad;
    if digits == [] {
      assert s == pad;
    } else {
      BodyOfUrl(digits[1..], pad);
      UrlCharDecodes(digits[0]);
      assert s[1..] == UrlChars(digits[1..]) + pad && s[0] == UrlChar(digits[0]);
      assert UrlChars(digits)[1..] == UrlChars(digits[1..]);
      TableAccepts(s[0]);
      forall i | 0 <= i < |digits|
        ensures Accepted(UrlChars(digits)[i])
      {
        UrlCharDecodes(digits[i]);
      }
    }
  }

  /** Decoding undoes encoding, with or without padding. */
  lemma DecodeUndoesEncode(bs: seq<Byte>, padded: bool)
    ensures Decoded(Encode(bs, padded)) == bs
  {
    var pad := if padded then Padding(|bs|) else "";
    BodyOfUrl(EncodeDigits(bs), pad);
    PackUndoesEncode(bs);
  }

  lemma {:induction false} BodyIsPrefix(s: string, k: nat)
    requires k < |s| && forall i :: 0 <= i <= k ==> s[i] != '='
    ensures k < |Body(s)| && Body(s)[k] == s[k]
  {
    if k > 0 {
      BodyIsPrefix(s[1..], k - 1);
    }
  }

  /** A foreign character before the padding leaves nothing. */
  lemma ForeignGivesNothing(s: string, k: nat)
    requires k < |s| && !Accepted(s[k]) && forall i :: 0 <= i <= k ==> s[i] != '='
    ensures Decoded(s) == []
  {
    BodyIsPrefix(s, k);
  }
}

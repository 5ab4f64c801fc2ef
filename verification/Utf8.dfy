/**
 Byte truncation at a code-point boundary (truncateUTF8), against the UTF-8 syntax of
 section 4 of RFC 3629.
 */
module Utf8 {
  type Byte = b: int | 0 <= b < 256 witness 0

  /** utf8.RuneStart: anything but a continuation byte. */
  predicate RuneStart(b: Byte) {
    !(0x80 <= b < 0xC0)
  }

  /** The length announced by a leading byte, or 0 when no character starts with it. */
  function LeadLength(b: Byte): (n: nat)
    ensures n <= 4
  {
    if b < 0x80 then 1
    else if 0xC2 <= b < 0xE0 then 2
    else if 0xE0 <= b < 0xF0 then 3
    else if 0xF0 <= b < 0xF5 then 4
    else 0
  }

  /** The second bytes that exclude overlong forms, surrogates and values above U+10FFFF. */
  predicate SecondOk(lead: Byte, second: Byte) {
    && 0x80 <= second < 0xC0
    && (lead == 0xE0 ==> 0xA0 <= second)
    && (lead == 0xED ==> second < 0xA0)
    && (lead == 0xF0 ==> 0x90 <= second)
    && (lead == 0xF4 ==> second < 0x90)
  }

  predicate StartsWithChar(s: seq<Byte>) {
    && s != []
    && var n := LeadLength(s[0]);
    && 0 < n <= |s|
    && (n > 1 ==> SecondOk(s[0], s[1]))
    && forall k | 2 <= k < n :: !RuneStart(s[k])
  }

  predicate Valid(s: seq<Byte>) {
    s == [] || (StartsWithChar(s) && Valid(s[LeadLength(s[0])..]))
  }

  /** The code points UTF-8 encodes: up to U+10FFFF, without the surrogates. */
  predicate Scalar(cp: int) {
    0 <= cp < 0xD800 || 0xE000 <= cp < 0x11_0000
  }

  /** The encoding of section 3 of RFC 3629: six bits a continuation byte, the rest in the lead. */
  function Encode(cp: int): seq<Byte>
    requires Scalar(cp)
  {
    if cp < 0x80 then [cp]
    else if cp < 0x800 then [0xC0 + cp / 64, 0x80 + cp % 64]
    else if cp < 0x1_0000 then [0xE0 + cp / 64 / 64, 0x80 + cp / 64 % 64, 0x80 + cp % 64]
    else [0xF0 + cp / 64 / 64 / 64, 0x80 + cp / 64 / 64 % 64, 0x80 + cp / 64 % 64, 0x80 + cp % 64]
  }

  function EncodeAll(cps: seq<int>): seq<Byte>
    requires forall i | 0 <= i < |cps| :: Scalar(cps[i])
  {
    if cps == [] then [] else Encode(cps[0]) + EncodeAll(cps[1..])
  }

  lemma EncodeIsChar(cp: int, rest: seq<Byte>)
    requires Scalar(cp)
    ensures StartsWithChar(Encode(cp) + rest) && LeadLength(Encode(cp)[0]) == |Encode(cp)|
  {
  }

  lemma SixBits(high: int, low: int)
    requires 0 <= low < 64
    ensures (high * 64 + low) / 64 == high && (high * 64 + low) % 64 == low
  {
  }

  lemma TwoBytes(a: Byte, b: Byte) returns (cp: int)
    requires 0xC2 <= a < 0xE0 && 0x80 <= b < 0xC0
    ensures Scalar(cp) && Encode(cp) == [a, b]
  {
    var high: int, low: int := a, b;
    cp := (high - 0xC0) * 64 + (low - 0x80);
    SixBits(high - 0xC0, low - 0x80);
  }

  lemma ThreeBytes(a: Byte, b: Byte, c: Byte) returns (cp: int)
    requires 0xE0 <= a < 0xF0 && SecondOk(a, b) && 0x80 <= c < 0xC0
    ensures Scalar(cp) && Encode(cp) == [a, b, c]
  {
    var high: int, mid: int, low: int := a, b, c;
    var upper := (high - 0xE0) * 64 + (mid - 0x80);
    cp := upper * 64 + (low - 0x80);
    SixBits(high - 0xE0, mid - 0x80);
    SixBits(upper, low - 0x80);
  }

  lemma FourBytes(a: Byte, b: Byte, c: Byte, d: Byte) returns (cp: int)
    requires 0xF0 <= a < 0xF5 && SecondOk(a, b) && 0x80 <= c < 0xC0 && 0x80 <= d < 0xC0
    ensures Scalar(cp) && Encode(cp) == [a, b, c, d]
  {
    var top: int, high: int, mid: int, low: int := a, b, c, d;
    var most := (top - 0xF0) * 64 + (high - 0x80);
    var upper := most * 64 + (mid - 0x80);
    cp := upper * 64 + (low - 0x80);
    SixBits(top - 0xF0, high - 0x80);
    SixBits(most, mid - 0x80);
    SixBits(upper, low - 0x80);
  }

  lemma CharIsEncoded(s: seq<Byte>) returns (cp: int)
    requires StartsWithChar(s)
    ensures Scalar(cp) && Encode(cp) == s[..LeadLength(s[0])]
  {
    var n := LeadLength(s[0]);
    if n == 1 {
      cp := s[0];
    } else if n == 2 {
      cp := TwoBytes(s[0], s[1]);
    } else if n == 3 {
      assert !RuneStart(s[2]);
      cp := ThreeBytes(s[0], s[1], s[2]);
    } else {
      assert !RuneStart(s[2]) && !RuneStart(s[3]);
      cp := FourBytes(s[0], s[1], s[2], s[3]);
    }
  }

  lemma {:induction false} EncodedIsValid(cps: seq<int>)
    requires forall i | 0 <= i < |cps| :: Scalar(cps[i])
    ensures Valid(EncodeAll(cps)) && CharCount(EncodeAll(cps)) == |cps|
  {
    if cps != [] {
      EncodedIsValid(cps[1..]);
      CharThenRest(cps[0], EncodeAll(cps[1..]));
    }
  }

  lemma CharThenRest(cp: int, rest: seq<Byte>)
    requires Scalar(cp) && Valid(rest)
    ensures Valid(Encode(cp) + rest) && CharCount(Encode(cp) + rest) == 1 + CharCount(rest)
  {
    var first := Encode(cp);
    EncodeIsChar(cp, rest);
    assert (first + rest)[0] == first[0];
    assert (first + rest)[|first|..] == rest;
  }

  /** The valid strings are exactly the encodings of sequences of code points. */
  lemma {:induction false} ValidIsEncoded(s: seq<Byte>) returns (cps: seq<int>)
    requires Valid(s)
    ensures (forall i | 0 <= i < |cps| :: Scalar(cps[i])) && EncodeAll(cps) == s
    decreases |s|
  {
    cps := [];
    if s != [] {
      var n := LeadLength(s[0]);
      var cp := CharIsEncoded(s);
      var rest := ValidIsEncoded(s[n..]);
      cps := [cp] + rest;
      assert cps[1..] == rest;
      assert s == s[..n] + s[n..];
    }
  }

  /** The number of characters of a valid string. */
  function CharCount(s: seq<Byte>): (n: nat)
    requires Valid(s)
    ensures n <= |s|
  {
    if s == [] then 0 else 1 + CharCount(s[LeadLength(s[0])..])
  }

  function CutPoint(s: seq<Byte>, cut: nat): (r: nat)
    requires cut < |s|
    ensures r <= cut
  {
    if cut == 0 || RuneStart(s[cut]) then cut else CutPoint(s, cut - 1)
  }

  function Truncated(s: seq<Byte>, maxBytes: nat): seq<Byte> {
    if |s| <= maxBytes then s else s[..CutPoint(s, maxBytes)]
  }

  method TruncateUTF8(s: seq<Byte>, maxBytes: nat) returns (r: seq<Byte>)
    ensures r == Truncated(s, maxBytes)
    ensures r <= s && |r| <= maxBytes
    ensures |s| <= maxBytes ==> r == s
  {
    if |s| <= maxBytes {
      return s;
    }
    var cut: nat := maxBytes;
    while cut > 0 && !RuneStart(s[cut])
      invariant cut <= maxBytes
      invariant CutPoint(s, cut) == CutPoint(s, maxBytes)
    {
      cut := cut - 1;
    }
    return s[..cut];
  }

  lemma DropOfTake<T>(s: seq<T>, n: nat, k: nat)
    requires n <= k <= |s|
    ensures s[..k][n..] == s[n..][..k - n]
  {
  }

  /** A prefix of a valid string is valid exactly when it ends where a character starts. */
  lemma {:induction false} PrefixValidIff(s: seq<Byte>, k: nat)
    requires Valid(s) && k <= |s|
    ensures Valid(s[..k]) <==> k == |s| || RuneStart(s[k])
    decreases |s|
  {
    if k == |s| {
      assert s[..k] == s;
    } else if 0 < k {
      var n := LeadLength(s[0]);
      if n <= k {
        PrefixValidIff(s[n..], k - n);
        DropOfTake(s, n, k);
        assert StartsWithChar(s[..k]);
      }
    }
  }

  /** A character starts at most three bytes before any position. */
  lemma {:induction false} StartNearby(s: seq<Byte>, k: nat) returns (j: nat)
    requires Valid(s) && k < |s|
    ensures j <= k <= j + 3 && RuneStart(s[j])
    decreases |s|
  {
    var n := LeadLength(s[0]);
    if k < n {
      j := 0;
    } else {
      j := StartNearby(s[n..], k - n);
      j := j + n;
    }
  }

  lemma {:induction false} CutIsLastStart(s: seq<Byte>, cut: nat, j: nat)
    requires j <= cut < |s| && RuneStart(s[j])
    ensures j <= CutPoint(s, cut) && RuneStart(s[CutPoint(s, cut)])
    decreases cut
  {
    if j < cut && !RuneStart(s[cut]) {
      CutIsLastStart(s, cut - 1, j);
    }
  }

  /**
   On valid UTF-8 the result is the longest valid prefix of at most maxBytes bytes, and it
   gives up at most three bytes of the limit.
   */
  lemma TruncatedIsLongest(s: seq<Byte>, maxBytes: nat, k: nat)
    requires Valid(s)
    ensures var r := Truncated(s, maxBytes);
            && r <= s && |r| <= maxBytes && Valid(r)
            && (k <= maxBytes && k <= |s| && Valid(s[..k]) ==> k <= |r|)
            && (maxBytes < |s| ==> maxBytes <= |r| + 3)
  {
    if maxBytes < |s| {
      var j := StartNearby(s, maxBytes);
      CutIsLastStart(s, maxBytes, j);
      PrefixValidIff(s, CutPoint(s, maxBytes));
      if k <= maxBytes && Valid(s[..k]) {
        PrefixValidIff(s, k);
        CutIsLastStart(s, maxBytes, k);
      }
    }
  }

  lemma TruncatedTwice(s: seq<Byte>, maxBytes: nat, smaller: nat)
    ensures Truncated(Truncated(s, maxBytes), maxBytes) == Truncated(s, maxBytes)
    ensures smaller <= maxBytes && Valid(s) ==> Truncated(Truncated(s, maxBytes), smaller) == Truncated(s, smaller)
  {
    if smaller <= maxBytes < |s| && Valid(s) {
      var r, a := Truncated(s, maxBytes), Truncated(s, smaller);
      TruncatedIsLongest(s, smaller, 0);
      assert s[..|a|] == a;
      TruncatedIsLongest(s, maxBytes, |a|);
      TruncatedOfPrefix(s, r, smaller);
    }
  }

  /** Two strings with the same valid prefixes within the limit are truncated alike. */
  lemma TruncatedOfPrefix(s: seq<Byte>, r: seq<Byte>, smaller: nat)
    requires Valid(s) && Valid(r) && r <= s && |Truncated(s, smaller)| <= |r|
    ensures Truncated(r, smaller) == Truncated(s, smaller)
  {
    var a, b := Truncated(s, smaller), Truncated(r, smaller);
    TruncatedIsLongest(s, smaller, |b|);
    TruncatedIsLongest(r, smaller, |a|);
    assert s[..|b|] == b && r[..|a|] == a;
  }

  /** A truncated error always meets the table's limit on characters. */
  lemma TruncatedFitsColumn(s: seq<Byte>, maxBytes: nat)
    requires Valid(s)
    ensures Valid(Truncated(s, maxBytes)) && CharCount(Truncated(s, maxBytes)) <= maxBytes
  {
    TruncatedIsLongest(s, maxBytes, 0);
  }
}

/**
 The bytes of a text: the UTF-8 encoding of section 3 of RFC 3629, and the proof that cutting the
 encoded text at a byte count and trimming a partial rune, as printableText does, leaves the
 encoding of the longest prefix that fits.
 */
module TextEncoding {
  import opened Bytes
  import opened Utf8Cut
  import opened PrintableText

  function EncodeChar(c: char): (r: Text)
    ensures |r| == Width(c)
  {
    var n := c as int;
    if n < 0x80 then [n]
    else if n < 0x800 then [0xC0 + n / 0x40, 0x80 + n % 0x40]
    else if n < 0x1_0000 then [0xE0 + n / 0x1000, 0x80 + n / 0x40 % 0x40, 0x80 + n % 0x40]
    else [0xF0 + n / 0x4_0000, 0x80 + n / 0x1000 % 0x40, 0x80 + n / 0x40 % 0x40, 0x80 + n % 0x40]
  }

  function Encode(s: string): (t: Text) {
    if s == "" then [] else EncodeChar(s[0]) + Encode(s[1..])
  }

  /** Every character's encoding is one of the standard's productions, of the size its first byte announces. */
  lemma EncodedIsRune(c: char)
    ensures IsRune(EncodeChar(c)) && Size(EncodeChar(c)[0]) == Width(c)
  {
    var n := c as int;
    if 0x800 <= n < 0x1_0000 {
      ThreeByteRune(n / 0x1000, n / 0x40 % 0x40, n % 0x40);
      hide IsRune, Size;
    } else if n >= 0x1_0000 {
      FourByteRune(n / 0x4_0000, n / 0x1000 % 0x40, n / 0x40 % 0x40, n % 0x40);
      hide IsRune, Size;
    }
  }

  lemma ThreeByteRune(a: nat, b: nat, c: nat)
    requires a <= 15 && b < 0x40 && c < 0x40 && (a == 0 ==> b >= 0x20) && (a == 13 ==> b < 0x20)
    ensures IsRune([0xE0 + a, 0x80 + b, 0x80 + c]) && Size(0xE0 + a) == 3
  {}

  lemma FourByteRune(a: nat, b: nat, c: nat, d: nat)
    requires a <= 4 && b < 0x40 && c < 0x40 && d < 0x40 && (a == 0 ==> b >= 0x10) && (a == 4 ==> b < 0x10)
    ensures IsRune([0xF0 + a, 0x80 + b, 0x80 + c, 0x80 + d]) && Size(0xF0 + a) == 4
  {}

  lemma {:induction false} EncodedCons(c: char, t: Text)
    requires Valid(t)
    ensures var s := EncodeChar(c) + t; Valid(s) && Size(s[0]) == Width(c) && s[Width(c)..] == t
  {
    EncodedIsRune(c);
    hide EncodeChar;
    var s := EncodeChar(c) + t;
    assert s[0] == EncodeChar(c)[0] && s[..Width(c)] == EncodeChar(c) && s[Width(c)..] == t;
  }

  lemma {:induction false} EncodedIsValid(s: string)
    ensures Valid(Encode(s)) && |Encode(s)| == ByteLen(s)
  {
    if s != "" {
      EncodedIsValid(s[1..]);
      EncodedCons(s[0], Encode(s[1..]));
      ByteLenCons(s);
    }
  }

  lemma ByteLenCons(s: string)
    requires s != ""
    ensures ByteLen(s) == Width(s[0]) + ByteLen(s[1..])
  {
    assert s == [s[0]] + s[1..] && [s[0]][..0] == "";
    ByteLenConcat([s[0]], s[1..]);
  }

  /** The first character that does not fit is the one that covers the byte at the limit. */
  lemma {:induction false} FitEndsAtRune(s: string, limit: nat)
    requires Valid(Encode(s)) && |Encode(s)| == ByteLen(s) > limit
    ensures Encode(Fit(s, limit)) == Encode(s)[..Begin(Encode(s), limit)]
    decreases |s|
  {
    var c, t := s[0], s[1..];
    EncodedIsValid(t);
    EncodedCons(c, Encode(t));
    FitCons(s, limit);
    ByteLenCons(s);
    if Width(c) <= limit {
      FitEndsAtRune(t, limit - Width(c));
      EncodeOfCons(c, Fit(t, limit - Width(c)));
    }
    hide EncodeChar, Fit, ByteLen, Valid, Width, Size;
  }

  lemma EncodeOfCons(c: char, t: string)
    ensures Encode([c] + t) == EncodeChar(c) + Encode(t)
  {
    hide EncodeChar;
    assert ([c] + t)[1..] == t;
  }

  lemma {:induction false} FitCons(s: string, limit: nat)
    requires s != ""
    ensures Fit(s, limit) == if Width(s[0]) > limit then "" else [s[0]] + Fit(s[1..], limit - Width(s[0]))
  {
    hide Fit, ByteLen;
    var c, t := s[0], s[1..];
    ByteLenOfOne(s);
    if Width(c) > limit {
      FitIs(s, 0, limit);
      assert s[..0] == "";
    } else {
      var p := Fit(t, limit - Width(c));
      FitIsLongest(t, limit - Width(c));
      assert s[..1 + |p|] == [c] + p && s[..1 + |p|][1..] == p;
      ByteLenCons(s[..1 + |p|]);
      if |p| < |t| {
        assert s[..2 + |p|][1..] == t[..|p| + 1];
        ByteLenCons(s[..2 + |p|]);
      }
      FitIs(s, 1 + |p|, limit);
    }
  }

  lemma ByteLenOfOne(s: string)
    requires s != ""
    ensures ByteLen(s[..0]) == 0 && ByteLen(s[..1]) == Width(s[0])
  {
    assert s[..1][..0] == s[..0] == "";
  }

  lemma {:induction false} FitIsLongest(s: string, limit: nat)
    ensures var p := Fit(s, limit);
            p == s[..|p|] && ByteLen(p) <= limit && (|p| < |s| ==> ByteLen(s[..|p| + 1]) > limit)
  {
    if ByteLen(s) <= limit {
      assert s[..|s|] == s;
    } else {
      var front := s[..|s| - 1];
      FitIsLongest(front, limit);
      var p := Fit(front, limit);
      assert Fit(s, limit) == p;
      hide Fit, ByteLen;
      if |p| < |front| {
        assert front[..|p| + 1] == s[..|p| + 1];
      } else {
        assert s[..|p| + 1] == s;
      }
      assert front[..|p|] == s[..|p|];
    }
  }

  /** The cut of printableText, byte for byte. */
  lemma CutKeepsFit(s: string, limit: nat)
    requires limit < |Encode(s)|
    ensures var cut := Encode(s)[..limit]; cut[..TrimEnd(cut, |cut| - 1)] == Encode(Fit(s, limit))
  {
    hide *;
    EncodedIsValid(s);
    FitEndsAtRune(s, limit);
    TrimEndOnValid(Encode(s), limit);
    assert Encode(s)[..limit][..Begin(Encode(s), limit)] == Encode(s)[..Begin(Encode(s), limit)];
  }
}

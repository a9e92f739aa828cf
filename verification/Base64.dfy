/** Base64 as section 4 of RFC 4648 defines it and Node's Buffer reads and writes it. */
module Base64 {
  import opened JsText

  type Byte = b: int | 0 <= b < 256

  type Sextet = s: int | 0 <= s < 64

  const PAD: CodeUnit := 61

  /** `A`-`Z`, `a`-`z`, `0`-`9`, `+`, `/`. */
  function Letter(s: Sextet): CodeUnit {
    if s < 26 then 65 + s
    else if s < 52 then 71 + s
    else if s < 62 then s - 4
    else if s == 62 then 43
    else 47
  }

  predicate IsLetter(u: CodeUnit) {
    65 <= u <= 90 || 97 <= u <= 122 || 48 <= u <= 57 || u == 43 || u == 47
  }

  function SextetOf(u: CodeUnit): Sextet
    requires IsLetter(u)
  {
    if u <= 43 then 62
    else if u == 47 then 63
    else if u <= 57 then u + 4
    else if u <= 90 then u - 65
    else u - 71
  }

  /** Six bits at a time; the last group is filled up with zero bits. */
  function Sextets(b: seq<Byte>): seq<Sextet> {
    if b == [] then []
    else if |b| == 1 then [b[0] / 4, b[0] % 4 * 16]
    else if |b| == 2 then [b[0] / 4, b[0] % 4 * 16 + b[1] / 16, b[1] % 16 * 4]
    else [b[0] / 4, b[0] % 4 * 16 + b[1] / 16, b[1] % 16 * 4 + b[2] / 64, b[2] % 64] + Sextets(b[3..])
  }

  function Bytes(s: seq<Sextet>): seq<Byte> {
    if |s| < 2 then []
    else
      var first: Byte := s[0] as int * 4 + s[1] as int / 16;
      if |s| == 2 then [first]
      else
        var second: Byte := s[1] as int % 16 * 16 + s[2] as int / 4;
        if |s| == 3 then [first, second]
        else
          var third: Byte := s[2] as int % 4 * 64 + s[3] as int;
          [first, second, third] + Bytes(s[4..])
  }

  function Letters(s: seq<Sextet>): Text {
    if s == [] then [] else [Letter(s[0])] + Letters(s[1..])
  }

  function Padding(length: nat): Text {
    if length % 3 == 1 then [PAD, PAD] else if length % 3 == 2 then [PAD] else []
  }

  /** `toString('base64')`. */
  function Encode(b: seq<Byte>): Text {
    Letters(Sextets(b)) + Padding(|b|)
  }

  /** The digits a reader finds: padding ends the text, anything else foreign is skipped. */
  function Digits(t: Text): seq<Sextet> {
    if t == [] || t[0] == PAD then []
    else if IsLetter(t[0]) then [SextetOf(t[0])] + Digits(t[1..])
    else Digits(t[1..])
  }

  /** `Buffer.from(text, 'base64')`. */
  function Decode(t: Text): seq<Byte> {
    Bytes(Digits(t))
  }

  lemma LetterIsRead(s: Sextet)
    ensures IsLetter(Letter(s)) && SextetOf(Letter(s)) == s && Letter(s) != PAD
  {
  }

  lemma {:induction false} DigitsOfLetters(s: seq<Sextet>, length: nat)
    ensures Digits(Letters(s) + Padding(length)) == s
  {
    if s != [] {
      LetterIsRead(s[0]);
      var t := Letters(s) + Padding(length);
      assert t[1..] == Letters(s[1..]) + Padding(length);
      DigitsOfLetters(s[1..], length);
    }
  }

  lemma {:induction false} BytesOfSextets(b: seq<Byte>)
    ensures Bytes(Sextets(b)) == b
  {
    if |b| >= 3 {
      BytesOfSextets(b[3..]);
      assert Sextets(b)[4..] == Sextets(b[3..]);
      assert b == [b[0], b[1], b[2]] + b[3..];
    }
  }

  /** Reading back what was written gives the same bytes, for every byte sequence. */
  lemma DecodeUndoesEncode(b: seq<Byte>)
    ensures Decode(Encode(b)) == b
  {
    DigitsOfLetters(Sextets(b), |b|);
    BytesOfSextets(b);
  }

  /** The alphabet of section 4. */
  lemma TheAlphabet(s: Sextet)
    ensures s < 26 ==> Letter(s) == 'A' as int + s
    ensures 26 <= s < 52 ==> Letter(s) == 'a' as int + (s - 26)
    ensures 52 <= s < 62 ==> Letter(s) == '0' as int + (s - 52)
    ensures s == 62 ==> Letter(s) == '+' as int
    ensures s == 63 ==> Letter(s) == '/' as int
  {
  }

  lemma {:induction false} LettersOf(s: seq<Sextet>)
    ensures |Letters(s)| == |s| && forall i :: 0 <= i < |s| ==> Letters(s)[i] == Letter(s[i])
  {
    if s != [] {
      LettersOf(s[1..]);
    }
  }

  /** Bytes are written three at a time. */
  lemma ThreeAtATime(a: Byte, b: Byte, c: Byte, rest: seq<Byte>)
    ensures Encode([a, b, c] + rest) == Encode([a, b, c]) + Encode(rest)
  {
    var all, three := [a, b, c] + rest, [a, b, c];
    assert all[3..] == rest && three[3..] == [];
    assert Sextets(all) == [a / 4, a % 4 * 16 + b / 16, b % 16 * 4 + c / 64, c % 64] + Sextets(rest);
    assert Sextets(three) == [a / 4, a % 4 * 16 + b / 16, b % 16 * 4 + c / 64, c % 64];
    LettersAppend(Sextets(three), Sextets(rest));
    assert Encode(three) == Letters(Sextets(three));
    assert Padding(|all|) == Padding(|rest|);
    assert (Letters(Sextets(three)) + Letters(Sextets(rest))) + Padding(|rest|) == Letters(Sextets(three)) + (Letters(Sextets(rest)) + Padding(|rest|));
  }

  lemma {:induction false} LettersAppend(a: seq<Sextet>, b: seq<Sextet>)
    ensures Letters(a + b) == Letters(a) + Letters(b)
  {
    if a == [] {
      assert a + b == b;
    } else {
      assert (a + b)[1..] == a[1..] + b;
      LettersAppend(a[1..], b);
    }
  }

  /** The test vectors of section 10 for `f`, `fo` and `foo`: `Zg==`, `Zm8=` and `Zm9v`. */
  lemma KnownTexts()
    ensures Encode([]) == []
    ensures Encode([102]) == [90, 103, 61, 61]
    ensures Encode([102, 111]) == [90, 109, 56, 61]
    ensures Encode([102, 111, 111]) == [90, 109, 57, 118]
  {
    OneText();
    TwoText();
    ThreeText();
  }

  lemma OneText()
    ensures Encode([102]) == [90, 103, 61, 61]
  {
    assert Sextets([102]) == [25, 32];
    LettersOf([25, 32]);
  }

  lemma TwoText()
    ensures Encode([102, 111]) == [90, 109, 56, 61]
  {
    assert Sextets([102, 111]) == [25, 38, 60];
    LettersOf([25, 38, 60]);
  }

  lemma ThreeText()
    ensures Encode([102, 111, 111]) == [90, 109, 57, 118]
  {
    var b: seq<Byte> := [102, 111, 111];
    assert b[3..] == [];
    assert Sextets(b) == [25, 38, 61, 47] + Sextets([]);
    assert Sextets(b) == [25, 38, 61, 47];
    LettersOf([25, 38, 61, 47]);
  }
}

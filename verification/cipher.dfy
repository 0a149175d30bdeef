/** The hint decoder of `scrape_cache_desc`: lower-case each character, then swap
    it through the fixed letter-pair table (ROT13). */
module HintCipher {

  /** The decryption table, pair by pair as the scraper declares it. */
  const DecryptionKeys: map<char, char> := map[
    'a' := 'n', 'n' := 'a', 'b' := 'o', 'o' := 'b', 'c' := 'p', 'p' := 'c',
    'd' := 'q', 'q' := 'd', 'e' := 'r', 'r' := 'e', 'f' := 's', 's' := 'f',
    'g' := 't', 't' := 'g', 'h' := 'u', 'u' := 'h', 'i' := 'v', 'v' := 'i',
    'j' := 'w', 'w' := 'j', 'k' := 'x', 'x' := 'k', 'l' := 'y', 'y' := 'l',
    'm' := 'z', 'z' := 'm'
  ]

  predicate IsLowerLetter(c: char) {
    'a' <= c <= 'z'
  }

  predicate IsUpperLetter(c: char) {
    'A' <= c <= 'Z'
  }

  /** Python's `char.lower()` on ASCII letters; other characters are kept. */
  function Lower(c: char): (r: char)
    ensures !IsUpperLetter(r)
    ensures IsUpperLetter(c) ==> IsLowerLetter(r) && r as int - 'a' as int == c as int - 'A' as int
    ensures !IsUpperLetter(c) ==> r == c
  {
    if IsUpperLetter(c) then (c as int - 'A' as int + 'a' as int) as char else c
  }

  /** An independent reference for the table: rotate a lower-case letter by 13. */
  function Rot13(c: char): (r: char)
    requires IsLowerLetter(c)
    ensures IsLowerLetter(r)
  {
    if c <= 'm' then (c as int + 13) as char else (c as int - 13) as char
  }

  /** Keys `a` to `f` are mapped to their rotation. */
  lemma RotatesAtoF(c: char)
    requires 'a' <= c <= 'f'
    ensures c in DecryptionKeys && DecryptionKeys[c] == Rot13(c)
  {
    var k := c as int - 'a' as int;
    assert c == (k + 'a' as int) as char;
    if k == 0 { assert c == 'a'; } else if k == 1 { assert c == 'b'; }
    else if k == 2 { assert c == 'c'; } else if k == 3 { assert c == 'd'; }
    else if k == 4 { assert c == 'e'; } else { assert c == 'f'; }
  }

  /** Keys `g` to `m` are mapped to their rotation. */
  lemma RotatesGtoM(c: char)
    requires 'g' <= c <= 'm'
    ensures c in DecryptionKeys && DecryptionKeys[c] == Rot13(c)
  {
    var k := c as int - 'a' as int;
    assert c == (k + 'a' as int) as char;
    if k == 6 { assert c == 'g'; } else if k == 7 { assert c == 'h'; }
    else if k == 8 { assert c == 'i'; } else if k == 9 { assert c == 'j'; }
    else if k == 10 { assert c == 'k'; } else if k == 11 { assert c == 'l'; }
    else { assert c == 'm'; }
  }

  /** Keys `n` to `s` are mapped to their rotation. */
  lemma RotatesNtoS(c: char)
    requires 'n' <= c <= 's'
    ensures c in DecryptionKeys && DecryptionKeys[c] == Rot13(c)
  {
    var k := c as int - 'a' as int;
    assert c == (k + 'a' as int) as char;
    if k == 13 { assert c == 'n'; } else if k == 14 { assert c == 'o'; }
    else if k == 15 { assert c == 'p'; } else if k == 16 { assert c == 'q'; }
    else if k == 17 { assert c == 'r'; } else { assert c == 's'; }
  }

  /** Keys `t` to `z` are mapped to their rotation. */
  lemma RotatesTtoZ(c: char)
    requires 't' <= c <= 'z'
    ensures c in DecryptionKeys && DecryptionKeys[c] == Rot13(c)
  {
    var k := c as int - 'a' as int;
    assert c == (k + 'a' as int) as char;
    if k == 19 { assert c == 't'; } else if k == 20 { assert c == 'u'; }
    else if k == 21 { assert c == 'v'; } else if k == 22 { assert c == 'w'; }
    else if k == 23 { assert c == 'x'; } else if k == 24 { assert c == 'y'; }
    else { assert c == 'z'; }
  }

  /** Every lower-case letter is a key and is mapped to its rotation; nothing else is a key. */
  lemma DecryptionKeysAreRot13(c: char)
    ensures c in DecryptionKeys <==> IsLowerLetter(c)
    ensures c in DecryptionKeys ==> DecryptionKeys[c] == Rot13(c)
  {
    if 'a' <= c <= 'f' {
      RotatesAtoF(c);
    } else if 'g' <= c <= 'm' {
      RotatesGtoM(c);
    } else if 'n' <= c <= 's' {
      RotatesNtoS(c);
    } else if 't' <= c <= 'z' {
      RotatesTtoZ(c);
    }
  }

  /** One step of the decoder loop. */
  function DecodeChar(c: char): (r: char)
    ensures IsLowerLetter(Lower(c)) ==> r == Rot13(Lower(c))
    ensures !IsLowerLetter(Lower(c)) ==> r == Lower(c)
    ensures !IsUpperLetter(r)
  {
    DecryptionKeysAreRot13(Lower(c));
    var l := Lower(c);
    if l !in DecryptionKeys then l else DecryptionKeys[l]
  }

  /** The decoded hint: the decoder applied at every position. */
  function Decode(hint: string): (r: string)
    ensures |r| == |hint|
    ensures forall i :: 0 <= i < |hint| ==>
      r[i] == (if IsLowerLetter(Lower(hint[i])) then Rot13(Lower(hint[i])) else Lower(hint[i]))
  {
    seq(|hint|, i requires 0 <= i < |hint| => DecodeChar(hint[i]))
  }

  /** The hint with every ASCII letter lower-cased. */
  function LowerAll(s: string): (r: string)
  {
    seq(|s|, i requires 0 <= i < |s| => Lower(s[i]))
  }

  /** The decoder loop, accumulating the output one character at a time. */
  method DecodeHint(hint: string) returns (decoded: string)
    ensures decoded == Decode(hint)
    ensures |decoded| == |hint|
    ensures forall i :: 0 <= i < |hint| ==>
      decoded[i] == (if IsLowerLetter(Lower(hint[i])) then Rot13(Lower(hint[i])) else Lower(hint[i]))
  {
    decoded := "";
    var n := 0;
    while n < |hint|
      invariant 0 <= n <= |hint|
      invariant |decoded| == n
      invariant forall i :: 0 <= i < n ==> decoded[i] == DecodeChar(hint[i])
    {
      var c := Lower(hint[n]);
      if c !in DecryptionKeys {
        decoded := decoded + [c];
      } else {
        decoded := decoded + [DecryptionKeys[c]];
      }
      n := n + 1;
    }
  }

  lemma DecodeCharTwice(c: char)
    ensures DecodeChar(DecodeChar(c)) == Lower(c)
  {
  }

  /** The table is its own inverse, so decoding twice only lower-cases. */
  lemma {:induction false} DecodeTwiceIsLower(hint: string)
    ensures Decode(Decode(hint)) == LowerAll(hint)
  {
    forall i | 0 <= i < |hint| ensures Decode(Decode(hint))[i] == LowerAll(hint)[i] {
      DecodeCharTwice(hint[i]);
    }
  }

  /** Re-encoding a decoded hint with the same table gives the decoded hint back. */
  lemma DecodeIsInvolutionOnDecoded(hint: string)
    ensures Decode(Decode(Decode(hint))) == Decode(hint)
  {
    DecodeTwiceIsLower(Decode(hint));
    assert LowerAll(Decode(hint)) == Decode(hint);
  }

  /** Decoding keeps the length and leaves every non-letter where it was. */
  lemma DecodeKeepsNonLetters(hint: string, i: nat)
    requires i < |hint| && !IsLowerLetter(hint[i]) && !IsUpperLetter(hint[i])
    ensures |Decode(hint)| == |hint| && Decode(hint)[i] == hint[i]
  {
  }

  /** An encoded upper-case hint decodes to lower-case plain text. */
  lemma DecodeExample()
    ensures Decode("Pcf vf uneq") == "cps is hard"
  {
  }
}

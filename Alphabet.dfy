/**
 * The 27-symbol alphabet and the additive mod-27 one-time-pad codec shared by
 * both pad models (onetimepad/model.swift and onetimepad/ChatModel.swift).
 *
 * A plaintext or ciphertext is a Swift `String`, seen as its sequence of
 * characters; a pad ("codebook") is a sequence of integers.
 */
module Alphabet {

  import opened Wrappers

  /** The 27 symbols in table order: symbol n of this string is numbered n. */
  const SYMBOLS: string := "abcdefghijklmnopqrstuvwxyz "

  /** The dictionary lookup `a_to_n[c]`: a..z are 0..25, space is 26, anything else is absent. */
  function AToN(c: char): (n: Option<int>)
    ensures n.Some? ==> 0 <= n.value < |SYMBOLS| && SYMBOLS[n.value] == c
    ensures n.None? ==> c !in SYMBOLS
  {
    if 'a' <= c <= 'z' then Some(c as int - 'a' as int)
    else if c == ' ' then Some(26)
    else None
  }

  /** The dictionary lookup `n_to_a[n]`: 0..25 are a..z, 26 is space, anything else is absent. */
  function NToA(n: int): (c: Option<char>)
    ensures c.Some? <==> 0 <= n < |SYMBOLS|
    ensures c.Some? ==> c.value == SYMBOLS[n]
  {
    if 0 <= n < 26 then Some(('a' as int + n) as char)
    else if n == 26 then Some(' ')
    else None
  }

  /** One of the 27 keys of `a_to_n`. */
  predicate IsSymbol(c: char) { AToN(c).Some? }

  /** A pad value as `Int.random(in: 0...26)` produces it; exactly the keys of `n_to_a`. */
  predicate IsKey(k: int) { 0 <= k <= 26 }

  /** Every entry of the pad is a key. */
  predicate IsPad(pad: seq<int>) {
    forall i :: 0 <= i < |pad| ==> IsKey(pad[i])
  }

  /** Every character of `s` is one of the 27 symbols. */
  predicate IsPlain(s: string) {
    forall i :: 0 <= i < |s| ==> IsSymbol(s[i])
  }

  /** The two tables list the same 27 pairs: entry n of `SYMBOLS` and the number n. */
  lemma TableEntries(n: int)
    requires 0 <= n < 27
    ensures |SYMBOLS| == 27
    ensures NToA(n) == Some(SYMBOLS[n]) && AToN(SYMBOLS[n]) == Some(n)
  {
  }

  /** `a_to_n` and `n_to_a` are mutual inverses, and their key sets are the 27 symbols and 0..26. */
  lemma TablesInverse(c: char, n: int)
    ensures AToN(c).Some? <==> c in SYMBOLS
    ensures NToA(n).Some? <==> IsKey(n)
    ensures AToN(c).Some? ==> NToA(AToN(c).value) == Some(c)
    ensures NToA(n).Some? ==> AToN(NToA(n).value) == Some(n)
  {
    if c in SYMBOLS {
      var k :| 0 <= k < |SYMBOLS| && SYMBOLS[k] == c;
      TableEntries(k);
    }
    if AToN(c).Some? {
      TableEntries(AToN(c).value);
    }
  }

  /**
   * Swift's `x % 27` on `Int`: the remainder truncates toward zero, so it takes the
   * sign of the dividend (Dafny's `%` never returns a negative value).
   */
  function Rem27(a: int): (r: int)
    ensures a >= 0 ==> 0 <= r < 27
    ensures a < 0 ==> -27 < r <= 0
    ensures (a - r) % 27 == 0
  {
    if a >= 0 then a % 27 else -((-a) % 27)
  }

  /** `a_to_n[c] ?? 26`: a character outside the alphabet counts as space. */
  function SymbolIndex(c: char): (n: int)
    ensures IsKey(n)
    ensures IsSymbol(c) ==> NToA(n) == Some(c)
    ensures !IsSymbol(c) ==> NToA(n) == Some(' ')
  {
    AToN(c).GetOr(26)
  }

  /** `n_to_a[n] ?? " "`: a number outside 0..26 becomes a space. */
  function SymbolAt(n: int): (c: char)
    ensures IsSymbol(c)
    ensures IsKey(n) ==> AToN(c) == Some(n)
    ensures !IsKey(n) ==> c == ' '
  {
    NToA(n).GetOr(' ')
  }

  /** Index computed by `enc` for one character: `((a_to_n[c] ?? 26) + key) % 27`. */
  function EncIndex(c: char, key: int): (n: int)
    ensures IsKey(key) ==> IsKey(n) && n == (SymbolIndex(c) + key) % 27
  {
    Rem27(SymbolIndex(c) + key)
  }

  /** Index computed by `dec` for one character: `((a_to_n[c] ?? 26) - key + 27) % 27`. */
  function DecIndex(c: char, key: int): (n: int)
    ensures IsKey(key) ==> IsKey(n) && n == (SymbolIndex(c) - key + 27) % 27
  {
    Rem27(SymbolIndex(c) - key + 27)
  }

  /** One cipher symbol: with a key in 0..26 the `n_to_a` fallback is never taken. */
  function EncChar(c: char, key: int): (e: char)
    ensures IsKey(key) ==> NToA(EncIndex(c, key)) == Some(e)
    ensures IsKey(key) ==> SymbolIndex(e) == (SymbolIndex(c) + key) % 27
  {
    SymbolAt(EncIndex(c, key))
  }

  /** One plaintext symbol: with a key in 0..26 the `n_to_a` fallback is never taken. */
  function DecChar(c: char, key: int): (d: char)
    ensures IsKey(key) ==> NToA(DecIndex(c, key)) == Some(d)
    ensures IsKey(key) ==> SymbolIndex(d) == (SymbolIndex(c) - key + 27) % 27
  {
    SymbolAt(DecIndex(c, key))
  }

  /** Decoding with the key that encoded gives back the symbol, or space for a character outside the alphabet. */
  lemma DecEncChar(c: char, key: int)
    requires IsKey(key)
    ensures DecChar(EncChar(c, key), key) == if IsSymbol(c) then c else ' '
  {
    var a := SymbolIndex(c);
    var e := EncChar(c, key);
    assert SymbolIndex(e) == (a + key) % 27;
    if a + key < 27 {
      assert (a + key) % 27 == a + key;
    } else {
      assert (a + key) % 27 == a + key - 27;
    }
    assert DecIndex(e, key) == a;
  }

  /** The ciphertext that the per-character loop of `enc` builds from `plain` and the pad entries it consumes. */
  function Encrypt(plain: string, pad: seq<int>): (cipher: string)
    requires |plain| <= |pad|
    ensures |cipher| == |plain|
  {
    seq(|plain|, i requires 0 <= i < |plain| => EncChar(plain[i], pad[i]))
  }

  /** The plaintext that the per-character loop of `dec` builds from `cipher` and the pad entries it consumes. */
  function Decrypt(cipher: string, pad: seq<int>): (plain: string)
    requires |cipher| <= |pad|
    ensures |plain| == |cipher|
  {
    seq(|cipher|, i requires 0 <= i < |cipher| => DecChar(cipher[i], pad[i]))
  }

  /** `s` with every character outside the alphabet replaced by space. */
  function Normalize(s: string): (t: string)
    ensures |t| == |s| && IsPlain(t)
    ensures forall i :: 0 <= i < |s| && IsSymbol(s[i]) ==> t[i] == s[i]
    ensures forall i :: 0 <= i < |s| && !IsSymbol(s[i]) ==> t[i] == ' '
  {
    seq(|s|, i requires 0 <= i < |s| => if IsSymbol(s[i]) then s[i] else ' ')
  }

  /** A ciphertext made with a genuine pad consists of alphabet symbols only. */
  lemma {:induction false} CipherIsPlain(plain: string, pad: seq<int>)
    requires |plain| <= |pad| && IsPad(pad)
    ensures IsPlain(Encrypt(plain, pad))
  {
    forall i | 0 <= i < |plain|
      ensures IsSymbol(Encrypt(plain, pad)[i])
    {
      assert IsKey(pad[i]);
    }
  }

  /**
   * Decrypting with the pad entries that encrypted gives back the plaintext
   * with every out-of-alphabet character turned into space.
   */
  lemma {:induction false} DecryptEncrypt(plain: string, pad: seq<int>)
    requires |plain| <= |pad| && IsPad(pad)
    ensures Decrypt(Encrypt(plain, pad), pad) == Normalize(plain)
  {
    var cipher := Encrypt(plain, pad);
    forall i | 0 <= i < |plain|
      ensures Decrypt(cipher, pad)[i] == Normalize(plain)[i]
    {
      assert IsKey(pad[i]);
      DecEncChar(plain[i], pad[i]);
    }
  }

  /** Round trip: a plaintext over a..z and space is recovered exactly. */
  lemma RoundTrip(plain: string, pad: seq<int>)
    requires |plain| <= |pad| && IsPad(pad) && IsPlain(plain)
    ensures Decrypt(Encrypt(plain, pad), pad) == plain
  {
    DecryptEncrypt(plain, pad);
  }

  /** A character outside the alphabet does not survive the round trip: it comes back as space. */
  lemma LossyOutsideAlphabet(plain: string, pad: seq<int>, i: int)
    requires |plain| <= |pad| && IsPad(pad)
    requires 0 <= i < |plain| && !IsSymbol(plain[i])
    ensures Decrypt(Encrypt(plain, pad), pad)[i] == ' '
  {
    DecryptEncrypt(plain, pad);
  }

  /** Worked example: "ab" is 0, 1; with pad 1, 2, ... the cipher symbols are 1, 3, i.e. "bd". */
  lemma ExampleAb()
    ensures Encrypt("ab", [1, 2, 3, 4, 5]) == "bd"
    ensures Decrypt("bd", [1, 2, 3, 4, 5]) == "ab"
  {
    assert EncChar('a', 1) == 'b' && EncChar('b', 2) == 'd';
    assert DecChar('b', 1) == 'a' && DecChar('d', 2) == 'b';
  }
}

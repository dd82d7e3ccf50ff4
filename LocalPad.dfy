/**
 * The first, self-contained revision of the pad (onetimepad/model.swift): one
 * codebook, an encoding pointer and a decoding pointer into it, an error flag,
 * and a first-in first-out queue of ciphertexts.
 */
module LocalPad {

  import opened Alphabet

  class Model {
    /** The codebook of the conversation. */
    var code: seq<int>
    /** Next unused codebook entry for encoding. */
    var encP: int
    /** Next unused codebook entry for decoding. */
    var decP: int
    /** Set when the last `Enc` asked for more codebook than was left. */
    var error: bool
    /** Ciphertexts waiting to be decoded, oldest first. */
    var ciphertexts: seq<string>

    /** Every codebook entry came from `Generate`, and both pointers lie within the codebook. */
    ghost predicate Valid()
      reads this
    {
      IsPad(code) && 0 <= encP <= |code| && 0 <= decP <= |code|
    }

    /** The stored property initialisers. */
    constructor ()
      ensures Valid()
      ensures code == [] && encP == 0 && decP == 0 && !error && ciphertexts == []
    {
      code, encP, decP, error, ciphertexts := [], 0, 0, false, [];
    }

    /** `generate(n:)`: appends `n` random entries in 0..26 and keeps the existing ones. */
    method Generate(n: int)
      requires Valid()
      requires n >= 0  // `0..<n` traps on a negative count
      modifies this`code
      ensures Valid()
      ensures |code| == old(|code|) + n
      ensures code[..old(|code|)] == old(code)
      ensures IsPad(code[old(|code|)..])
    {
      var i := 0;
      while i < n
        invariant 0 <= i <= n
        invariant |code| == old(|code|) + i
        invariant code[..old(|code|)] == old(code)
        invariant IsPad(code)
      {
        var r :| IsKey(r);  // Int.random(in: 0...26)
        code := code + [r];
        i := i + 1;
      }
    }

    /**
     * `enc(plain:)`: refuses a plaintext longer than the unused codebook by setting
     * `error`; otherwise clears `error`, queues the ciphertext and moves `encP`
     * past the entries it used.
     */
    method Enc(plain: string)
      requires Valid()
      modifies this`encP, this`error, this`ciphertexts
      ensures Valid()
      ensures error <==> |plain| > |code| - old(encP)
      ensures error ==> encP == old(encP) && ciphertexts == old(ciphertexts)
      ensures !error ==> encP == old(encP) + |plain|
      ensures !error ==> ciphertexts == old(ciphertexts) + [Encrypt(plain, code[old(encP)..])]
    {
      if |plain| > |code| - encP {
        error := true;
        return;
      } else {
        error := false;
      }
      var cipher := "";
      var i := 0;
      while i < |plain|
        invariant 0 <= i <= |plain|
        invariant encP == old(encP) + i
        invariant |cipher| == i
        invariant forall j :: 0 <= j < i ==> cipher[j] == EncChar(plain[j], code[old(encP) + j])
        modifies this`encP
      {
        cipher := cipher + [EncChar(plain[i], code[encP])];
        encP := encP + 1;
        i := i + 1;
      }
      assert cipher == Encrypt(plain, code[old(encP)..]);
      ciphertexts := ciphertexts + [cipher];
    }

    /**
     * `dec()`: decodes the oldest ciphertext from `decP` on, removes it from the
     * queue and moves `decP` past the entries it used. The source traps on an
     * empty queue and on a codebook too short for the ciphertext.
     */
    method Dec() returns (plaintext: string)
      requires Valid()
      requires |ciphertexts| > 0 && decP + |ciphertexts[0]| <= |code|
      modifies this`decP, this`ciphertexts
      ensures Valid()
      ensures |plaintext| == |old(ciphertexts[0])|
      ensures plaintext == Decrypt(old(ciphertexts[0]), code[old(decP)..])
      ensures decP == old(decP) + |plaintext|
      ensures ciphertexts == old(ciphertexts[1..])
    {
      var cipher := ciphertexts[0];
      plaintext := "";
      var i := 0;
      while i < |cipher|
        invariant 0 <= i <= |cipher|
        invariant decP == old(decP) + i
        invariant |plaintext| == i
        invariant forall j :: 0 <= j < i ==> plaintext[j] == DecChar(cipher[j], code[old(decP) + j])
        modifies this`decP
      {
        plaintext := plaintext + [DecChar(cipher[i], code[decP])];
        decP := decP + 1;
        i := i + 1;
      }
      assert plaintext == Decrypt(cipher, code[old(decP)..]);
      ciphertexts := ciphertexts[1..];
    }
  }

  /**
   * Encoding then decoding on one model whose pointers agree and whose queue is
   * empty gives back a plaintext over a..z and space, and leaves both pointers
   * equal again. A scenario for one message; the general round trip is
   * `RoundTrip` together with the contracts of `Enc` and `Dec`.
   */
  method EncThenDec(m: Model, plain: string) returns (back: string)
    requires m.Valid() && m.ciphertexts == [] && m.encP == m.decP
    requires IsPlain(plain) && |plain| <= |m.code| - m.encP
    modifies m
    ensures m.Valid() && !m.error && m.ciphertexts == []
    ensures m.encP == m.decP == old(m.encP) + |plain|
    ensures back == plain
  {
    m.Enc(plain);
    back := m.Dec();
    RoundTrip(plain, m.code[old(m.encP)..]);
  }
}

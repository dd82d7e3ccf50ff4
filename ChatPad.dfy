/**
 * The pad tied to a conversation (onetimepad/ChatModel.swift): the codec of
 * the first revision, with ciphertexts published to and read back from the
 * conversation's message list on the document store.
 *
 * The store is not modelled: a publish is a boolean outcome passed in, and a
 * listener callback is a method that receives the snapshot.
 */
module ChatPad {

  import opened Wrappers
  import opened Alphabet

  /** A message document; `date` is the send time, as an integer clock reading. */
  datatype Message = Message(id: Option<string>, date: int, text: string, sender: string)

  class ChatModel {
    /** The conversation this model listens to and publishes into. */
    var chatId: string
    var code: seq<int>
    var encP: int
    var decP: int
    var error: bool
    /** The conversation's messages as last delivered by the listener, oldest first. */
    var messages: seq<Message>
    /** Index of the next message to decode. */
    var decInd: int

    /** Every codebook entry came from `Generate`; both pointers lie within the codebook. */
    ghost predicate Valid()
      reads this
    {
      IsPad(code) && 0 <= encP <= |code| && 0 <= decP <= |code| && 0 <= decInd
    }

    /** `init(chatId:)`: the property initialisers; `attach()` only registers the listener. */
    constructor (chatId: string)
      ensures Valid()
      ensures this.chatId == chatId
      ensures code == [] && encP == 0 && decP == 0 && !error && messages == [] && decInd == 0
    {
      this.chatId := chatId;
      code, encP, decP, error, messages, decInd := [], 0, 0, false, [], 0;
    }

    /**
     * The listener callback of `attach()`: a missing snapshot changes nothing;
     * otherwise `messages` becomes the documents that decode, in snapshot order.
     */
    method OnSnapshot(snapshot: Option<seq<Option<Message>>>)
      requires Valid()
      modifies this`messages
      ensures Valid()
      ensures snapshot.None? ==> messages == old(messages)
      ensures snapshot.Some? ==> messages == Somes(snapshot.value)
    {
      if snapshot.None? {
        return;
      }
      messages := Somes(snapshot.value);
    }

    /** `generate(n:)`: appends `n` random entries in 0..26 and keeps the existing ones. */
    method Generate(n: int)
      requires Valid()
      requires n >= 0  // `0..<n` traps on a negative count
      modifies this`code
      ensures Valid()
      ensures |code| == old(|code|) + n
      ensures code[..old(|code|)] == old(code)
      ensures IsPad(code[old(|code|)..])
    {
      var i := 0;
      while i < n
        invariant 0 <= i <= n
        invariant |code| == old(|code|) + i
        invariant code[..old(|code|)] == old(code)
        invariant IsPad(code)
      {
        var r :| IsKey(r);  // Int.random(in: 0...26)
        code := code + [r];
        i := i + 1;
      }
    }

    /**
     * `enc(plain:)`: refuses a plaintext longer than the unused codebook by
     * setting `error`; otherwise clears `error`, encodes from `encP` on, moves
     * `encP` past the entries used and publishes the ciphertext as a message
     * from "bob" dated `now`. When the publish fails, `encP` is moved back, so
     * the codebook entries count as unused again.
     *
     * `published` is the message handed to the store, if the write succeeded.
     */
    method Enc(plain: string, now: int, publishSucceeds: bool) returns (published: Option<Message>)
      requires Valid()
      modifies this`encP, this`error
      ensures Valid()
      ensures error <==> |plain| > |code| - old(encP)
      ensures error ==> encP == old(encP) && published == None
      ensures !error && publishSucceeds ==>
        encP == old(encP) + |plain| &&
        published == Some(Message(None, now, Encrypt(plain, code[old(encP)..]), "bob"))
      ensures !error && !publishSucceeds ==> encP == old(encP) && published == None
    {
      if |plain| > |code| - encP {
        error := true;
        return None;
      } else {
        error := false;
      }
      var cipher := "";
      var i := 0;
      while i < |plain|
        invariant 0 <= i <= |plain|
        invariant encP == old(encP) + i
        invariant |cipher| == i
        invariant forall j :: 0 <= j < i ==> cipher[j] == EncChar(plain[j], code[old(encP) + j])
        modifies this`encP
      {
        cipher := cipher + [EncChar(plain[i], code[encP])];
        encP := encP + 1;
        i := i + 1;
      }
      assert cipher == Encrypt(plain, code[old(encP)..]);
      var msg := Message(None, now, cipher, "bob");
      if publishSucceeds {
        published := Some(msg);
      } else {
        published := None;
        encP := encP - |plain|;
      }
    }

    /**
     * `dec()`: when every delivered message has been decoded, returns "" and
     * changes nothing; otherwise decodes message `decInd` from `decP` on and
     * moves `decP` past the entries used and `decInd` to the next message. The
     * source traps when the codebook is too short for the message.
     */
    method Dec() returns (plaintext: string)
      requires Valid()
      requires decInd < |messages| ==> decP + |messages[decInd].text| <= |code|
      modifies this`decP, this`decInd
      ensures Valid()
      ensures old(decInd) >= |messages| ==>
        plaintext == "" && decP == old(decP) && decInd == old(decInd)
      ensures old(decInd) < |messages| ==>
        |plaintext| == |messages[old(decInd)].text| &&
        plaintext == Decrypt(messages[old(decInd)].text, code[old(decP)..]) &&
        decP == old(decP) + |plaintext| &&
        decInd == old(decInd) + 1
    {
      if decInd >= |messages| {
        return "";
      }
      var cipher := messages[decInd].text;
      plaintext := "";
      var i := 0;
      while i < |cipher|
        invariant 0 <= i <= |cipher|
        invariant decP == old(decP) + i
        invariant |plaintext| == i
        invariant forall j :: 0 <= j < i ==> plaintext[j] == DecChar(cipher[j], code[old(decP) + j])
        modifies this`decP
      {
        plaintext := plaintext + [DecChar(cipher[i], code[decP])];
        decP := decP + 1;
        i := i + 1;
      }
      assert plaintext == Decrypt(cipher, code[old(decP)..]);
      decInd := decInd + 1;
    }
  }

  /**
   * A message published by `Enc` and delivered as the next message to decode
   * on a model whose `decP` equals the `encP` it was encoded at decodes to the
   * plaintext, for a plaintext over a..z and space. A scenario for one
   * message; the general round trip is `RoundTrip` together with the
   * contracts of `Enc` and `Dec`.
   */
  method PublishThenDec(m: ChatModel, plain: string, now: int) returns (back: string)
    requires m.Valid() && m.encP == m.decP && m.decInd == |m.messages|
    requires IsPlain(plain) && |plain| <= |m.code| - m.encP
    modifies m
    ensures m.Valid() && !m.error
    ensures m.encP == m.decP == old(m.encP) + |plain|
    ensures m.decInd == |m.messages|
    ensures back == plain
  {
    var delivered := m.messages;
    var published := m.Enc(plain, now, true);
    var snapshot := seq(|delivered|, i requires 0 <= i < |delivered| => Some(delivered[i])) + [published];
    m.OnSnapshot(Some(snapshot));
    assert m.messages[old(m.decInd)] == published.value;
    back := m.Dec();
    RoundTrip(plain, m.code[old(m.encP)..]);
  }
}

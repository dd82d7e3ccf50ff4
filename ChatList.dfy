/**
 * The chat list of the newer revision (onetimepad/Model.swift): the local
 * dictionary of chats keyed by chat id, the list of those chats sorted by the
 * time of their latest message, the merge of a document-store snapshot into
 * the dictionary, the choice of the peer in a chat, and codebook generation.
 *
 * Dates are integer clock readings. A snapshot is the sequence of its
 * documents, each either decoded to a chat or not (`None`); the listener
 * registration, the signed-in user and the on-device store are inputs.
 */
module ChatList {

  import opened Wrappers
  import opened Alphabet

  /** The signed-in user; only the uid is used here. */
  datatype User = User(uid: string)

  /** A chat document: its id, a summary of its latest message, and its members. */
  datatype Chat = Chat(
    id: Option<string>,
    latestMessage: string,
    latestSender: string,
    latestTime: int,
    typing: string,
    members: seq<string>,
    newMessage: Option<bool>)

  /** Chats in ascending order of `latestTime`. */
  predicate Ascending(cs: seq<Chat>) {
    forall i, j :: 0 <= i < j < |cs| ==> cs[i].latestTime <= cs[j].latestTime
  }

  /** Keys of `m` in ascending order of the `latestTime` of their chats. */
  predicate KeysAscending(ks: seq<string>, m: map<string, Chat>)
    requires forall k :: k in ks ==> k in m
  {
    forall i, j :: 0 <= i < j < |ks| ==> m[ks[i]].latestTime <= m[ks[j]].latestTime
  }

  /**
   * `s` is `m`'s values sorted by `latestTime`: `order` lists every key of `m`
   * exactly once, and `s` holds the chats of those keys in that order.
   */
  ghost predicate IsSortedView(m: map<string, Chat>, order: seq<string>, s: seq<Chat>) {
    && multiset(order) == multiset(m.Keys)
    && |s| == |order|
    && (forall i :: 0 <= i < |order| ==> order[i] in m && s[i] == m[order[i]])
    && Ascending(s)
  }

  /** A sorted view holds every value of the dictionary once per key, and nothing else. */
  lemma {:induction false} SortedViewIsPermutation(m: map<string, Chat>, order: seq<string>, s: seq<Chat>)
    requires IsSortedView(m, order, s)
    ensures |s| == |m|
    ensures forall k :: k in m ==> m[k] in s
    ensures forall i :: 0 <= i < |s| ==> exists k :: k in m && m[k] == s[i]
  {
    calc {
      |s|;
      |order|;
      |multiset(order)|;
      |multiset(m.Keys)|;
      |m.Keys|;
    }
    forall k | k in m
      ensures m[k] in s
    {
      assert k in multiset(m.Keys);
      assert k in multiset(order);
      var i :| 0 <= i < |order| && order[i] == k;
      assert s[i] == m[k];
    }
    forall i | 0 <= i < |s|
      ensures exists k :: k in m && m[k] == s[i]
    {
      assert order[i] in m && m[order[i]] == s[i];
    }
  }

  /** Insertion of key `k` into keys sorted by time, before the first key that is not earlier. */
  function InsertByTime(k: string, ks: seq<string>, m: map<string, Chat>): (r: seq<string>)
    requires k in m && forall x :: x in ks ==> x in m
    ensures forall x :: x in r <==> x == k || x in ks
    ensures multiset(r) == multiset(ks) + multiset{k}
  {
    if ks == [] then [k]
    else if m[k].latestTime <= m[ks[0]].latestTime then [k] + ks
    else
      assert ks == [ks[0]] + ks[1..];
      [ks[0]] + InsertByTime(k, ks[1..], m)
  }

  /** A key no later than every key of an ascending list can go in front of it. */
  lemma PrependAscending(x: string, ks: seq<string>, m: map<string, Chat>)
    requires x in m && forall y :: y in ks ==> y in m
    requires KeysAscending(ks, m)
    requires forall y :: y in ks ==> m[x].latestTime <= m[y].latestTime
    ensures KeysAscending([x] + ks, m)
  {
    var r := [x] + ks;
    forall i, j | 0 <= i < j < |r|
      ensures m[r[i]].latestTime <= m[r[j]].latestTime
    {
      assert r[j] == ks[j - 1];
      if i > 0 {
        assert r[i] == ks[i - 1];
      }
    }
  }

  /** Inserting into an ascending key list keeps it ascending. */
  lemma {:induction false} InsertKeepsAscending(k: string, ks: seq<string>, m: map<string, Chat>)
    requires k in m && forall x :: x in ks ==> x in m
    requires KeysAscending(ks, m)
    ensures KeysAscending(InsertByTime(k, ks, m), m)
  {
    if ks == [] {
    } else if m[k].latestTime <= m[ks[0]].latestTime {
      PrependAscending(k, ks, m);
    } else {
      var rest := InsertByTime(k, ks[1..], m);
      InsertKeepsAscending(k, ks[1..], m);
      forall x | x in rest
        ensures m[ks[0]].latestTime <= m[x].latestTime
      {
        if x != k {
          var j :| 1 <= j < |ks| && ks[j] == x;
        }
      }
      PrependAscending(ks[0], rest, m);
    }
  }

  /** `sorted(by: { $0.latestTime < $1.latestTime })` on keys of `m`: an ascending permutation. */
  function SortByTime(ks: seq<string>, m: map<string, Chat>): (r: seq<string>)
    requires forall x :: x in ks ==> x in m
    ensures forall x :: x in r ==> x in m
    ensures multiset(r) == multiset(ks)
    ensures KeysAscending(r, m)
  {
    if ks == [] then []
    else
      assert ks == [ks[0]] + ks[1..];
      var sortedTail := SortByTime(ks[1..], m);
      InsertKeepsAscending(ks[0], sortedTail, m);
      InsertByTime(ks[0], sortedTail, m)
  }

  /** The chats of `ks` in `m`, in the order of `ks`. */
  function ChatsOf(ks: seq<string>, m: map<string, Chat>): (cs: seq<Chat>)
    requires forall x :: x in ks ==> x in m
    ensures |cs| == |ks| && forall i :: 0 <= i < |ks| ==> cs[i] == m[ks[i]]
    ensures KeysAscending(ks, m) ==> Ascending(cs)
  {
    seq(|ks|, i requires 0 <= i < |ks| => m[ks[i]])
  }

  /**
   * One document of a snapshot merged into the dictionary: a document that did
   * not decode, or a chat without an id, changes nothing; a chat whose id is
   * new is inserted as it is; a chat whose id is present replaces the stored
   * one, with `newMessage` telling whether `latestTime` changed.
   */
  function MergeDoc(m: map<string, Chat>, doc: Option<Chat>): (r: map<string, Chat>)
    ensures doc.None? || doc.value.id.None? ==> r == m
    ensures doc.Some? && doc.value.id.Some? ==>
      && r.Keys == m.Keys + {doc.value.id.value}
      && (forall k :: k in m && k != doc.value.id.value ==> r[k] == m[k])
      && (doc.value.id.value !in m ==> r[doc.value.id.value] == doc.value)
      && (doc.value.id.value in m ==>
            r[doc.value.id.value] ==
              doc.value.(newMessage := Some(m[doc.value.id.value].latestTime != doc.value.latestTime)))
  {
    match doc
    case None => m
    case Some(chat) =>
      match chat.id
      case None => m
      case Some(id) =>
        if id !in m then m[id := chat]
        else m[id := chat.(newMessage := Some(m[id].latestTime != chat.latestTime))]
  }

  /** The documents of a snapshot merged into the dictionary one after the other, in snapshot order. */
  function MergeAll(m: map<string, Chat>, docs: seq<Option<Chat>>): (r: map<string, Chat>)
    ensures m.Keys <= r.Keys
  {
    if docs == [] then m
    else MergeDoc(MergeAll(m, docs[..|docs| - 1]), docs[|docs| - 1])
  }

  /** The chats of a snapshot that decoded and carry an id, in snapshot order (`self.chats`). */
  function Identified(docs: seq<Option<Chat>>): (cs: seq<Chat>)
    ensures |cs| <= |docs|
    ensures forall c :: c in cs <==> Some(c) in docs && c.id.Some?
  {
    if docs == [] then []
    else
      var last := docs[|docs| - 1];
      var front := docs[..|docs| - 1];
      assert docs == front + [last];
      if last.Some? && last.value.id.Some? then Identified(front) + [last.value]
      else Identified(front)
  }

  /** The ids of the chats of a snapshot that decoded and carry an id. */
  ghost function Ids(docs: seq<Option<Chat>>): set<string> {
    set i | 0 <= i < |docs| && docs[i].Some? && docs[i].value.id.Some? :: docs[i].value.id.value
  }

  /** After a merge the dictionary holds exactly its old keys and the ids of the snapshot. */
  lemma {:induction false} MergeAllKeys(m: map<string, Chat>, docs: seq<Option<Chat>>)
    ensures MergeAll(m, docs).Keys == m.Keys + Ids(docs)
  {
    if docs != [] {
      var front := docs[..|docs| - 1];
      MergeAllKeys(m, front);
      assert docs == front + [docs[|docs| - 1]];
      var last := docs[|docs| - 1];
      if last.Some? && last.value.id.Some? {
        assert Ids(docs) == Ids(front) + {last.value.id.value} by {
          forall id | id in Ids(docs) ensures id in Ids(front) + {last.value.id.value} {
            var i :| 0 <= i < |docs| && docs[i].Some? && docs[i].value.id.Some? && docs[i].value.id.value == id;
            if i < |front| { assert front[i] == docs[i]; }
          }
          forall id | id in Ids(front) ensures id in Ids(docs) {
            var i :| 0 <= i < |front| && front[i].Some? && front[i].value.id.Some? && front[i].value.id.value == id;
            assert docs[i] == front[i];
          }
        }
      } else {
        assert Ids(docs) == Ids(front) by {
          forall id | id in Ids(docs) ensures id in Ids(front) {
            var i :| 0 <= i < |docs| && docs[i].Some? && docs[i].value.id.Some? && docs[i].value.id.value == id;
            if i < |front| { assert front[i] == docs[i]; }
          }
          forall id | id in Ids(front) ensures id in Ids(docs) {
            var i :| 0 <= i < |front| && front[i].Some? && front[i].value.id.Some? && front[i].value.id.value == id;
            assert docs[i] == front[i];
          }
        }
      }
    }
  }

  /** A chat whose id no document of the snapshot carries keeps its stored value. */
  lemma {:induction false} MergeAllUntouched(m: map<string, Chat>, docs: seq<Option<Chat>>, k: string)
    requires k in m
    requires forall i :: 0 <= i < |docs| && docs[i].Some? ==> docs[i].value.id != Some(k)
    ensures k in MergeAll(m, docs) && MergeAll(m, docs)[k] == m[k]
  {
    if docs != [] {
      var front := docs[..|docs| - 1];
      MergeAllUntouched(m, front, k);
    }
  }

  /**
   * A snapshot in which exactly one document carries id `k` leaves at `k` that
   * document's chat: as it is when `k` was new, and otherwise with `newMessage`
   * telling whether its `latestTime` differs from the stored one.
   */
  lemma {:induction false} MergeAllUnique(m: map<string, Chat>, docs: seq<Option<Chat>>, i: int, k: string)
    requires 0 <= i < |docs| && docs[i].Some? && docs[i].value.id == Some(k)
    requires forall j :: 0 <= j < |docs| && j != i && docs[j].Some? ==> docs[j].value.id != Some(k)
    ensures k in MergeAll(m, docs)
    ensures k !in m ==> MergeAll(m, docs)[k] == docs[i].value
    ensures k in m ==>
      MergeAll(m, docs)[k] == docs[i].value.(newMessage := Some(m[k].latestTime != docs[i].value.latestTime))
  {
    var front := docs[..|docs| - 1];
    if i == |docs| - 1 {
      if k in m {
        MergeAllUntouched(m, front, k);
      } else {
        MergeAllKeys(m, front);
        assert k !in Ids(front);
      }
    } else {
      MergeAllUnique(m, front, i, k);
    }
  }

  class Model {
    /** The chats known on this device, keyed by chat id. */
    var localChats: map<string, Chat>
    /** The chats of the last snapshot that decoded and carry an id. */
    var chats: seq<Chat>
    /** The values of `localChats` in ascending order of `latestTime`. */
    var sortedChats: seq<Chat>
    /** The keys of `localChats` in the order of `sortedChats`. */
    ghost var order: seq<string>

    /** `sortedChats` is the sorted view of `localChats` that the `didSet` observer maintains. */
    ghost predicate Valid()
      reads this
    {
      IsSortedView(localChats, order, sortedChats)
    }

    /**
     * `init()` as the source has it: `localChats` receives the stored
     * dictionary (or an empty one), but an assignment in a type's own
     * initialiser does not run its `didSet` observer, so `sortedChats` stays
     * empty.
     */
    constructor AsWritten(stored: Option<map<string, Chat>>)
      ensures localChats == stored.GetOr(map[])
      ensures sortedChats == [] && chats == []
    {
      localChats := stored.GetOr(map[]);
      chats := [];
      sortedChats := [];
      order := [];
    }

    /** `init()` with the observer's effect applied: `sortedChats` is the sorted view of the stored chats. */
    constructor (stored: Option<map<string, Chat>>)
      ensures Valid()
      ensures localChats == stored.GetOr(map[])
      ensures chats == []
    {
      localChats := map[];
      chats := [];
      sortedChats := [];
      order := [];
      new;
      SetLocalChats(stored.GetOr(map[]));
    }

    /** `Array(localChats.values)` walks the dictionary in some order; here, its keys. */
    static method KeysOf(m: map<string, Chat>) returns (ks: seq<string>)
      ensures multiset(ks) == multiset(m.Keys)
    {
      ks := [];
      var rest := m.Keys;
      while rest != {}
        invariant rest <= m.Keys
        invariant multiset(ks) + multiset(rest) == multiset(m.Keys)
        decreases |rest|
      {
        var k :| k in rest;
        assert multiset(rest) == multiset(rest - {k}) + multiset{k};
        ks := ks + [k];
        rest := rest - {k};
      }
    }

    /**
     * An assignment to `localChats` together with its `didSet` observer, which
     * sets `sortedChats` to the dictionary's values sorted by `latestTime`.
     */
    method SetLocalChats(newChats: map<string, Chat>)
      modifies this`localChats, this`sortedChats, this`order
      ensures Valid()
      ensures localChats == newChats
    {
      localChats := newChats;
      var ks := KeysOf(newChats);
      forall x | x in ks ensures x in newChats {
        assert x in multiset(ks);
      }
      var sortedKeys := SortByTime(ks, newChats);
      sortedChats := ChatsOf(sortedKeys, newChats);
      order := sortedKeys;
    }

    /**
     * The closure that `attach()` maps over the documents of a snapshot: skips
     * a document that did not decode or a chat without an id (`kept` is
     * `None`, and no assignment runs the observer); otherwise merges the chat into `localChats` (each assignment
     * re-sorting `sortedChats`) and keeps it.
     */
    method MergeDocument(doc: Option<Chat>) returns (kept: Option<Chat>)
      requires Valid()
      modifies this`localChats, this`sortedChats, this`order
      ensures Valid()
      ensures localChats == MergeDoc(old(localChats), doc)
      ensures kept == if doc.Some? && doc.value.id.Some? then doc else None
      ensures kept.None? ==> sortedChats == old(sortedChats) && order == old(order)
    {
      if doc.None? {
        return None;
      }
      var chat := doc.value;
      if chat.id.None? {
        return None;
      }
      var chatId := chat.id.value;
      if chatId !in localChats {
        SetLocalChats(localChats[chatId := chat]);
      } else {
        var isNew := localChats[chatId].latestTime != chat.latestTime;
        SetLocalChats(localChats[chatId := chat]);
        SetLocalChats(localChats[chatId := localChats[chatId].(newMessage := Some(isNew))]);
      }
      return Some(chat);
    }

    /**
     * The snapshot listener of `attach()`: a missing snapshot changes nothing,
     * and a snapshot with no identified chat leaves `sortedChats` as it was;
     * otherwise each document is merged into `localChats` in snapshot order
     * (every assignment re-sorting `sortedChats`), and `chats` becomes the
     * documents that decoded and carry an id.
     */
    method OnSnapshot(snapshot: Option<seq<Option<Chat>>>)
      requires Valid()
      modifies this`localChats, this`sortedChats, this`order, this`chats
      ensures Valid()
      ensures snapshot.None? ==> localChats == old(localChats) && chats == old(chats)
      ensures snapshot.Some? ==> localChats == MergeAll(old(localChats), snapshot.value)
      ensures snapshot.Some? ==> chats == Identified(snapshot.value)
      ensures snapshot.None? || Identified(snapshot.value) == [] ==>
        sortedChats == old(sortedChats) && order == old(order)
    {
      if snapshot.None? {
        return;
      }
      var docs := snapshot.value;
      var result: seq<Chat> := [];
      var i := 0;
      while i < |docs|
        invariant 0 <= i <= |docs|
        invariant Valid()
        invariant localChats == MergeAll(old(localChats), docs[..i])
        invariant result == Identified(docs[..i])
        invariant result == [] ==> sortedChats == old(sortedChats) && order == old(order)
        modifies this`localChats, this`sortedChats, this`order
      {
        var prefix := docs[..i + 1];
        assert prefix[..i] == docs[..i] && prefix[i] == docs[i];
        var kept := MergeDocument(docs[i]);
        if kept.Some? {
          result := result + [kept.value];
        }
        assert result == Identified(prefix);
        assert localChats == MergeAll(old(localChats), prefix);
        i := i + 1;
      }
      assert docs[..|docs|] == docs;
      chats := result;
    }

    /**
     * `otherUser(chat:)`: the first member of the chat other than the signed-in
     * user; "" when nobody is signed in or every member is the user.
     */
    method OtherUser(currentUser: Option<User>, chat: Chat) returns (peer: string)
      ensures currentUser.None? ==> peer == ""
      ensures currentUser.Some? && (forall j :: 0 <= j < |chat.members| ==> chat.members[j] == currentUser.value.uid) ==>
        peer == ""
      ensures currentUser.Some? && (exists j :: 0 <= j < |chat.members| && chat.members[j] != currentUser.value.uid) ==>
        exists i :: 0 <= i < |chat.members| && chat.members[i] == peer && peer != currentUser.value.uid &&
          forall j :: 0 <= j < i ==> chat.members[j] == currentUser.value.uid
    {
      if currentUser.None? {
        return "";
      }
      var uid := currentUser.value.uid;
      var i := 0;
      while i < |chat.members|
        invariant 0 <= i <= |chat.members|
        invariant forall j :: 0 <= j < i ==> chat.members[j] == uid
      {
        if chat.members[i] != uid {
          return chat.members[i];
        }
        i := i + 1;
      }
      return "";
    }

    /** `generate(n:)`: a fresh codebook of `n` random entries in 0..26. */
    method Generate(n: int) returns (codebook: seq<int>)
      requires n >= 0  // `0..<n` traps on a negative count
      ensures |codebook| == n && IsPad(codebook)
    {
      codebook := [];
      var i := 0;
      while i < n
        invariant 0 <= i <= n
        invariant |codebook| == i && IsPad(codebook)
      {
        var r :| IsKey(r);  // Int.random(in: 0...26)
        codebook := codebook + [r];
        i := i + 1;
      }
    }
  }

  /** The source's initialiser leaves a stored, non-empty dictionary out of the sorted list. */
  lemma {:induction false} AsWrittenInitHidesStoredChats(m: map<string, Chat>, order: seq<string>)
    requires |m| > 0
    ensures !IsSortedView(m, order, [])
  {
    var k :| k in m;
    assert k in multiset(m.Keys);
  }
}

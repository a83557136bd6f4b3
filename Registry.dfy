/** The presence registry `online_users`: a Python dict from nickname to the
    session id of the connection that joined under it. A dict remembers the
    order in which its keys were first inserted, so it is modelled as its
    entries in that order; the functions here are the dict operations the
    handlers use. */
module Registry {

  datatype Option<T> = None | Some(value: T)

  /** An opaque connection handle (Socket.IO's `request.sid`). */
  type Sid = string

  /** One entry of `online_users`: `nickname -> {'sid': sid}`. */
  datatype User = User(nickname: string, sid: Sid)

  /** `list(online_users.keys())`: one nickname per entry, in insertion order,
      with no nickname twice when the entries are a dict's. */
  function Keys(users: seq<User>): (r: seq<string>)
    ensures |r| == |users|
    ensures forall i :: 0 <= i < |users| ==> r[i] == users[i].nickname
    ensures DistinctKeys(users) ==> forall i, j :: 0 <= i < j < |r| ==> r[i] != r[j]
  {
    seq(|users|, i requires 0 <= i < |users| => users[i].nickname)
  }

  /** A dict holds each key once. */
  predicate DistinctKeys(users: seq<User>) {
    forall i, j :: 0 <= i < j < |users| ==> users[i].nickname != users[j].nickname
  }

  /** The position of `nickname` among the keys, if it is one. */
  function IndexOf(users: seq<User>, nickname: string): (r: Option<nat>)
    ensures r.Some? ==> r.value < |users| && users[r.value].nickname == nickname
    ensures r.Some? ==> forall j :: 0 <= j < r.value ==> users[j].nickname != nickname
    ensures r.None? <==> nickname !in Keys(users)
  {
    if users == [] then
      None
    else if users[0].nickname == nickname then
      assert Keys(users)[0] == nickname;
      Some(0)
    else
      match IndexOf(users[1..], nickname)
      case None =>
        assert Keys(users) == [users[0].nickname] + Keys(users[1..]);
        None
      case Some(k) =>
        assert Keys(users)[k + 1] == nickname;
        Some(k + 1)
  }

  /** `online_users[nickname]['sid']`, or None when the key is absent. */
  function Lookup(users: seq<User>, nickname: string): (r: Option<Sid>)
    ensures r.Some? <==> nickname in Keys(users)
    ensures r.Some? ==> User(nickname, r.value) in users
  {
    match IndexOf(users, nickname)
    case None => None
    case Some(i) => Some(users[i].sid)
  }

  /** The first entry, in insertion order, whose session id is `sid`. */
  function FirstWithSid(users: seq<User>, sid: Sid): (r: Option<nat>)
    ensures r.Some? ==> r.value < |users| && users[r.value].sid == sid
    ensures r.Some? ==> forall j :: 0 <= j < r.value ==> users[j].sid != sid
    ensures r.None? ==> forall j :: 0 <= j < |users| ==> users[j].sid != sid
  {
    if users == [] then
      None
    else if users[0].sid == sid then
      Some(0)
    else
      match FirstWithSid(users[1..], sid)
      case None => None
      case Some(k) => Some(k + 1)
  }

  /** `online_users[nickname] = {'sid': sid}`: an existing key keeps its place
      and gets the new value; a new key goes last. */
  function Put(users: seq<User>, nickname: string, sid: Sid): (r: seq<User>)
    ensures |r| == if nickname in Keys(users) then |users| else |users| + 1
    ensures User(nickname, sid) in r
    ensures forall i :: 0 <= i < |users| && users[i].nickname != nickname ==> r[i] == users[i]
  {
    match IndexOf(users, nickname)
    case Some(i) =>
      var r := users[i := User(nickname, sid)];
      assert r[i] == User(nickname, sid);
      r
    case None => users + [User(nickname, sid)]
  }

  /** The entries without the one at position `k`. */
  function RemoveAt(users: seq<User>, k: nat): (r: seq<User>)
    requires k < |users|
    ensures |r| == |users| - 1
    ensures forall i :: 0 <= i < |r| ==> r[i] == users[if i < k then i else i + 1]
  {
    users[..k] + users[k + 1..]
  }

  /** `del online_users[nickname]` when the key is present; otherwise nothing. */
  function Remove(users: seq<User>, nickname: string): (r: seq<User>)
    ensures |r| == if nickname in Keys(users) then |users| - 1 else |users|
    ensures nickname !in Keys(users) ==> r == users
    ensures forall u :: u in r ==> u in users
  {
    match IndexOf(users, nickname)
    case None => users
    case Some(i) => RemoveAt(users, i)
  }

  /** Assignment keeps the key order, appending a key only when it is new. */
  lemma PutKeys(users: seq<User>, nickname: string, sid: Sid)
    ensures Keys(Put(users, nickname, sid)) ==
            if nickname in Keys(users) then Keys(users) else Keys(users) + [nickname]
  {
    var r := Put(users, nickname, sid);
    if nickname in Keys(users) {
      assert Keys(r) == Keys(users);
    } else {
      assert Keys(r) == Keys(users) + [nickname];
    }
  }

  /** Assignment keeps the keys distinct. */
  lemma PutKeepsDistinct(users: seq<User>, nickname: string, sid: Sid)
    requires DistinctKeys(users)
    ensures DistinctKeys(Put(users, nickname, sid))
  {
    if nickname !in Keys(users) {
      var r := Put(users, nickname, sid);
      forall i, j | 0 <= i < j < |r| ensures r[i].nickname != r[j].nickname {
        if j == |users| {
          assert Keys(users)[i] == users[i].nickname;
        }
      }
    }
  }

  /** After assignment the key maps to the new session id and every other key
      to what it mapped to before. */
  lemma PutLookup(users: seq<User>, nickname: string, sid: Sid, other: string)
    requires DistinctKeys(users)
    ensures Lookup(Put(users, nickname, sid), nickname) == Some(sid)
    ensures other != nickname ==> Lookup(Put(users, nickname, sid), other) == Lookup(users, other)
  {
    var r := Put(users, nickname, sid);
    PutKeepsDistinct(users, nickname, sid);
    PutKeys(users, nickname, sid);
    DistinctIndex(r, nickname);
    if other != nickname {
      match IndexOf(users, other)
      case None =>
        assert other !in Keys(r);
      case Some(k) =>
        assert r[k] == users[k] && r[k].nickname == other;
        DistinctIndexAt(r, k);
        DistinctIndexAt(users, k);
    }
  }

  /** In a dict the position of a key is the only one holding it. */
  lemma DistinctIndexAt(users: seq<User>, k: nat)
    requires DistinctKeys(users) && k < |users|
    ensures IndexOf(users, users[k].nickname) == Some(k)
  {
    var r := IndexOf(users, users[k].nickname);
    assert users[k].nickname in Keys(users) by {
      assert Keys(users)[k] == users[k].nickname;
    }
  }

  lemma DistinctIndex(users: seq<User>, nickname: string)
    requires DistinctKeys(users) && nickname in Keys(users)
    ensures IndexOf(users, nickname).Some?
    ensures users[IndexOf(users, nickname).value].sid == Lookup(users, nickname).value
  {
  }

  /** Removing position `k` removes exactly that key from the key order. */
  lemma KeysRemoveAt(users: seq<User>, k: nat)
    requires k < |users|
    ensures Keys(RemoveAt(users, k)) == Keys(users)[..k] + Keys(users)[k + 1..]
  {
  }

  /** Deleting a key cuts it out of the key order, and the other keys keep
      their order. */
  lemma KeysRemove(users: seq<User>, nickname: string)
    requires nickname in Keys(users)
    ensures IndexOf(users, nickname).Some?
    ensures var k := IndexOf(users, nickname).value;
            Keys(Remove(users, nickname)) == Keys(users)[..k] + Keys(users)[k + 1..]
  {
    KeysRemoveAt(users, IndexOf(users, nickname).value);
  }

  /** Removing one entry keeps the keys distinct and, in a dict, drops its key
      from the key set while every other key stays. */
  lemma RemoveAtKeys(users: seq<User>, k: nat, other: string)
    requires DistinctKeys(users) && k < |users|
    ensures DistinctKeys(RemoveAt(users, k))
    ensures users[k].nickname !in Keys(RemoveAt(users, k))
    ensures other != users[k].nickname ==> (other in Keys(RemoveAt(users, k)) <==> other in Keys(users))
  {
    var r := RemoveAt(users, k);
    assert forall i :: 0 <= i < |r| ==> r[i] == users[if i < k then i else i + 1];
    KeysRemoveAt(users, k);
    var keys := Keys(users);
    assert keys == keys[..k] + [users[k].nickname] + keys[k + 1..];
  }

  /** Deletion drops the key, keeps every other key with its value, and leaves
      the remaining keys distinct. */
  lemma RemoveLookup(users: seq<User>, nickname: string, other: string)
    requires DistinctKeys(users)
    ensures DistinctKeys(Remove(users, nickname))
    ensures nickname !in Keys(Remove(users, nickname))
    ensures other != nickname ==> Lookup(Remove(users, nickname), other) == Lookup(users, other)
  {
    match IndexOf(users, nickname)
    case None =>
    case Some(k) =>
      var r := RemoveAt(users, k);
      RemoveAtKeys(users, k, other);
      if other != nickname {
        match IndexOf(users, other)
        case None =>
        case Some(j) =>
          var j' := if j < k then j else j - 1;
          assert r[j'] == users[j];
          DistinctIndexAt(users, j);
          DistinctIndexAt(r, j');
      }
  }

  /** Deleting a key twice is deleting it once. */
  lemma RemoveIsIdempotent(users: seq<User>, nickname: string)
    requires DistinctKeys(users)
    ensures Remove(Remove(users, nickname), nickname) == Remove(users, nickname)
  {
    RemoveLookup(users, nickname, nickname);
  }

  /** Joining under a new nickname and then leaving restores the registry. */
  lemma PutThenRemove(users: seq<User>, nickname: string, sid: Sid)
    requires nickname !in Keys(users)
    ensures Remove(Put(users, nickname, sid), nickname) == users
  {
    var r := Put(users, nickname, sid);
    assert r == users + [User(nickname, sid)];
    var k := IndexOf(r, nickname);
    assert k.Some? && k.value == |users| by {
      assert Keys(r)[|users|] == nickname;
      assert forall j :: 0 <= j < |users| ==> r[j].nickname == Keys(users)[j];
    }
  }

  /** Removing the first entry with a session id is the same as deleting that
      entry's nickname by key. */
  lemma RemoveFirstWithSidIsRemove(users: seq<User>, sid: Sid)
    requires DistinctKeys(users) && FirstWithSid(users, sid).Some?
    ensures var k := FirstWithSid(users, sid).value;
            Remove(users, users[k].nickname) == RemoveAt(users, k)
  {
    DistinctIndexAt(users, FirstWithSid(users, sid).value);
  }

  /** Nothing ties a session id to one nickname: a connection that joined under
      two nicknames keeps the second after its first entry is removed. */
  lemma SharedSidSurvivesRemoval()
    ensures var users := [User("a", "s"), User("b", "s")];
            && FirstWithSid(users, "s") == Some(0)
            && Keys(RemoveAt(users, 0)) == ["b"]
            && FirstWithSid(RemoveAt(users, 0), "s") == Some(0)
  {
  }
}

/** The live room's pure parts: the call and chat ids derived from a slot
    id, the participant list without repeated users, the active speaker
    and the remote tiles, the participant badge, and the class-name
    helper. */
module VideoSession {
  import opened Common
  import opened Seqs
  import opened Text

  // ----- room and chat ids -----

  const CallPrefix := "nit-"
  const ChatPrefix := "chat-"

  /** `sessionId.replace(/[^a-zA-Z0-9]/g, '')`: the part of an id that
      names its room. */
  function RoomKey(sessionId: string): (k: string)
    ensures forall i :: 0 <= i < |k| ==> IsAlnum(k[i])
  {
    KeepAlnum(sessionId)
  }

  /** The video call id. */
  function CallId(sessionId: string): (id: string)
    ensures |id| == |CallPrefix| + |RoomKey(sessionId)|
    ensures id[..|CallPrefix|] == CallPrefix && id[|CallPrefix|..] == RoomKey(sessionId)
  {
    CallPrefix + RoomKey(sessionId)
  }

  /** The chat channel id. */
  function ChatId(sessionId: string): (id: string)
    ensures |id| == |ChatPrefix| + |RoomKey(sessionId)|
    ensures id[..|ChatPrefix|] == ChatPrefix && id[|ChatPrefix|..] == RoomKey(sessionId)
  {
    ChatPrefix + RoomKey(sessionId)
  }

  /** Two slots share a call exactly when they share a chat, and exactly
      when their ids agree once stripped to letters and digits. */
  lemma SameRoomIffSameKey(a: string, b: string)
    ensures CallId(a) == CallId(b) <==> RoomKey(a) == RoomKey(b)
    ensures ChatId(a) == ChatId(b) <==> RoomKey(a) == RoomKey(b)
  {
    if CallId(a) == CallId(b) {
      assert CallId(a)[|CallPrefix|..] == CallId(b)[|CallPrefix|..];
    }
    if ChatId(a) == ChatId(b) {
      assert ChatId(a)[|ChatPrefix|..] == ChatId(b)[|ChatPrefix|..];
    }
  }

  /** Stripping distributes over concatenation. */
  lemma {:induction false} KeepAlnumAppend(a: string, b: string)
    ensures KeepAlnum(a + b) == KeepAlnum(a) + KeepAlnum(b)
    decreases |a|
  {
    if a != [] {
      assert (a + b)[1..] == a[1..] + b;
      KeepAlnumAppend(a[1..], b);
    } else {
      assert a + b == b;
    }
  }

  /** Ids that differ only by a punctuation character share a room: the
      call and the chat of `"ab-c"` are those of `"abc"`. */
  lemma PunctuationSharesRoom(a: string, c: char, b: string)
    requires !IsAlnum(c)
    ensures CallId(a + [c] + b) == CallId(a + b)
    ensures ChatId(a + [c] + b) == ChatId(a + b)
  {
    KeepAlnumAppend(a + [c], b);
    KeepAlnumAppend(a, [c]);
    KeepAlnumAppend(a, b);
    assert KeepAlnum([c]) == [];
    assert KeepAlnum(a) + [] == KeepAlnum(a);
  }

  // ----- participants -----

  /** The participant fields the room reads: a user may be present with
      several sessions (one per open tab). */
  datatype Participant = Participant(userId: string, sessionId: string, isSpeaking: bool)

  function UserIdOf(p: Participant): string { p.userId }

  function SessionIdOf(p: Participant): string { p.sessionId }

  /** `participants.filter((p, index, self) => index === self.findIndex(t =>
      t.userId === p.userId))`: the first entry of each user, in order. */
  function UniqueParticipants(ps: seq<Participant>): (r: seq<Participant>)
    ensures DistinctKeys(r, UserIdOf)
    ensures Keys(r, UserIdOf) == Keys(ps, UserIdOf)
    ensures Subseq(r, ps)
  {
    DedupBy(ps, UserIdOf)
  }

  /** Exactly the first entry of each user is kept: an entry is listed iff
      no earlier entry has its user. */
  lemma UniqueKeepsFirsts(ps: seq<Participant>, i: nat)
    requires i < |ps|
    ensures (forall j :: 0 <= j < i ==> ps[j].userId != ps[i].userId) ==> ps[i] in UniqueParticipants(ps)
    ensures forall x :: x in UniqueParticipants(ps) ==>
      exists k :: 0 <= k < |ps| && x == ps[k] && forall j :: 0 <= j < k ==> ps[j].userId != x.userId
  {
    var k := FirstIndex(ps, UserIdOf, ps[i].userId);
    if forall j :: 0 <= j < i ==> ps[j].userId != ps[i].userId {
      assert k == i;
    }
    forall x | x in UniqueParticipants(ps)
      ensures exists k :: 0 <= k < |ps| && x == ps[k] && forall j :: 0 <= j < k ==> ps[j].userId != x.userId
    {
      DedupKeepsOnlyFirsts(ps, UserIdOf, x);
    }
  }

  predicate Speaking(p: Participant) { p.isSpeaking }

  /** `uniqueParticipants.find(p => p.isSpeaking) || uniqueParticipants[0]`. */
  function ActiveSpeaker(unique: seq<Participant>): (r: Option<Participant>)
    ensures r.None? <==> unique == []
    ensures r.Some? ==> r.value in unique
    ensures (exists i :: 0 <= i < |unique| && unique[i].isSpeaking) ==>
      exists i :: 0 <= i < |unique| && r == Some(unique[i]) && unique[i].isSpeaking &&
                  forall j :: 0 <= j < i ==> !unique[j].isSpeaking
    ensures unique != [] && (forall i :: 0 <= i < |unique| ==> !unique[i].isSpeaking) ==> r == Some(unique[0])
  {
    var found := FindFirst(unique, Speaking);
    if found.Some? then Some(unique[found.value])
    else if unique != [] then Some(unique[0])
    else None
  }

  /** The tile filter: `p.sessionId !== activeSpeaker?.sessionId`. With no
      active speaker every entry passes. */
  function RemoteFilter(active: Option<Participant>): Participant -> bool
  {
    (p: Participant) => active.None? || p.sessionId != active.value.sessionId
  }

  /** The remote tiles. */
  function Remote(unique: seq<Participant>, active: Option<Participant>): (r: seq<Participant>)
    ensures forall x :: x in r <==> x in unique && (active.None? || x.sessionId != active.value.sessionId)
    ensures Subseq(r, unique)
  {
    FilterSubseq(unique, RemoteFilter(active));
    Filter(unique, RemoteFilter(active))
  }

  /** When no two listed entries share a session, the remote tiles are
      everybody listed but the active speaker. */
  lemma RemoteIsEveryoneElse(unique: seq<Participant>)
    requires DistinctKeys(unique, SessionIdOf)
    ensures var active := ActiveSpeaker(unique);
            forall x :: x in Remote(unique, active) <==> x in unique && Some(x) != active
  {
    var active := ActiveSpeaker(unique);
    forall x | x in unique && Some(x) != active
      ensures x in Remote(unique, active)
    {
      if active.Some? {
        var a :| 0 <= a < |unique| && unique[a] == x;
        var b :| 0 <= b < |unique| && unique[b] == active.value;
        assert a != b;
        assert SessionIdOf(unique[a]) != SessionIdOf(unique[b]);
      }
    }
  }

  /** `new Set(participants.map(p => p.userId)).size`: the badge count. */
  function ParticipantCount(ps: seq<Participant>): (n: nat)
    ensures n == |Keys(ps, UserIdOf)|
    ensures n == |UniqueParticipants(ps)|
  {
    var unique := UniqueParticipants(ps);
    DistinctKeysCount(unique, UserIdOf);
    |unique|
  }

  /** A user who joins a second time does not raise the count. */
  lemma RejoinNotCounted(ps: seq<Participant>, p: Participant)
    requires exists q :: q in ps && q.userId == p.userId
    ensures ParticipantCount(ps + [p]) == ParticipantCount(ps)
  {
    KeysAppend(ps, p, UserIdOf);
    var q :| q in ps && q.userId == p.userId;
    assert UserIdOf(q) in Keys(ps, UserIdOf);
  }

  // ----- class names -----

  /** `inputs.filter(Boolean)`: a class argument is kept when it is a
      non-empty string; `false`, `undefined` and `null` are `None`. */
  function KeptClasses(args: seq<Option<string>>): (r: seq<string>)
    ensures |r| <= |args|
    ensures forall c :: c in r <==> Some(c) in args && c != ""
    decreases |args|
  {
    if args == [] then []
    else
      var rest := KeptClasses(args[1..]);
      assert forall c :: Some(c) in args <==> Some(c) == args[0] || Some(c) in args[1..];
      if Truthy(args[0]) then [args[0].value] + rest else rest
  }

  /** `cn(...inputs)`: the kept arguments joined with single spaces. */
  function Cn(args: seq<Option<string>>): (r: string)
    ensures KeptClasses(args) == [] ==> r == ""
  {
    Join(KeptClasses(args), " ")
  }

  /** Splitting the class attribute on spaces gives back the kept
      arguments, when each is a single class name. */
  lemma CnSplits(args: seq<Option<string>>)
    requires forall c :: Some(c) in args ==> ' ' !in c
    requires KeptClasses(args) != []
    ensures Split(Cn(args), ' ') == KeptClasses(args)
  {
    SplitJoin(KeptClasses(args), ' ');
    assert [' '] == " ";
  }

  /** A truthy argument is kept in its place, and joined to the classes
      after it by exactly one space. With `CnIgnoresFalsy` this pins the
      attribute down: the truthy arguments, in order and with repeats. */
  lemma {:induction false} CnKeepsTruthy(a: Option<string>, args: seq<Option<string>>)
    requires Truthy(a)
    ensures KeptClasses([a] + args) == [a.value] + KeptClasses(args)
    ensures Cn([a] + args) == if KeptClasses(args) == [] then a.value else a.value + " " + Cn(args)
  {
    assert ([a] + args)[1..] == args;
    var rest := KeptClasses(args);
    if rest != [] {
      assert ([a.value] + rest)[1..] == rest;
    }
  }

  /** Falsy arguments leave no trace, not even an extra space. */
  lemma {:induction false} CnIgnoresFalsy(args: seq<Option<string>>, falsy: Option<string>)
    requires !Truthy(falsy)
    ensures KeptClasses([falsy] + args) == KeptClasses(args)
    ensures Cn([falsy] + args) == Cn(args)
  {
    assert ([falsy] + args)[1..] == args;
  }
}

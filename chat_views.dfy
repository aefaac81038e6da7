/** The two JSON views of the direct chat that the unread counters rely on
    (apps/chat/views.py): the conversation between the requesting user and
    another, in time order, and the per-sender summary of the messages a
    user has received, with one extra entry for the group chat. Storage
    URLs come from the file storage backend, a parameter here. */
module ChatViews {

  import opened Outcomes
  import opened Text
  import opened Seqs
  import opened Entities

  // ------------------------------------------------------------------ rows

  /** A `Message` row. `file` is the stored path of the attachment, absent or
      empty when there is none. */
  datatype Message = Message(
    id: nat, sender: UserId, receiver: UserId, text: string, timestamp: Timestamp,
    file: Option<string>, fileName: string, fileSize: int)

  /** A `GroupMessage` row; only its time matters to the summary. */
  datatype GroupMessage = GroupMessage(id: nat, sender: UserId, text: string, timestamp: Timestamp)

  /** `bool(m.file)`: a file field is true when it names a file. */
  predicate HasFile(m: Message) { m.file.Some? && m.file.value != "" }

  // --------------------------------------------------------- get_messages

  /** The message is between the two users, in either direction. */
  predicate Between(m: Message, a: UserId, b: UserId) {
    (m.sender == a && m.receiver == b) || (m.sender == b && m.receiver == a)
  }

  function BetweenOf(a: UserId, b: UserId): Message -> bool {
    (m: Message) => Between(m, a, b)
  }

  /** The queryset filter of `get_messages`, in table order. */
  function Conversation(ms: seq<Message>, me: UserId, other: UserId): seq<Message> {
    Filter(ms, BetweenOf(me, other))
  }

  predicate SortedByTime(s: seq<Message>) {
    forall i, j :: 0 <= i < j < |s| ==> s[i].timestamp <= s[j].timestamp
  }

  /** Insertion of one message after every earlier or equally timed one. */
  function InsertByTime(m: Message, s: seq<Message>): (r: seq<Message>)
    requires SortedByTime(s)
    ensures SortedByTime(r)
    ensures multiset(r) == multiset(s) + multiset{m}
    decreases |s|
  {
    if s == [] then [m]
    else if m.timestamp < s[0].timestamp then
      SortedCons(m, s);
      [m] + s
    else
      var rest := InsertByTime(m, s[1..]);
      assert forall k :: 0 <= k < |rest| ==> s[0].timestamp <= rest[k].timestamp by {
        forall k | 0 <= k < |rest|
          ensures s[0].timestamp <= rest[k].timestamp
        {
          assert rest[k] in multiset(rest);
          if rest[k] != m {
            assert rest[k] in multiset(s[1..]);
          }
        }
      }
      SortedCons(s[0], rest);
      assert s == [s[0]] + s[1..];
      [s[0]] + rest
  }

  lemma SortedCons(x: Message, s: seq<Message>)
    requires SortedByTime(s) && forall k :: 0 <= k < |s| ==> x.timestamp <= s[k].timestamp
    ensures SortedByTime([x] + s)
  {
    var r := [x] + s;
    forall i, j | 0 <= i < j < |r|
      ensures r[i].timestamp <= r[j].timestamp
    {
      if i > 0 {
        assert r[i] == s[i - 1] && r[j] == s[j - 1];
      }
    }
  }

  /** `order_by("timestamp")`: the rows in time order. Rows with equal
      times keep their table order, one of the orders the database may
      return. */
  function SortByTime(s: seq<Message>): (r: seq<Message>)
    ensures SortedByTime(r)
    ensures multiset(r) == multiset(s)
    decreases |s|
  {
    if s == [] then []
    else
      assert s == s[..|s| - 1] + [s[|s| - 1]];
      InsertByTime(s[|s| - 1], SortByTime(s[..|s| - 1]))
  }

  /** One element of the `messages` list. `fileSize` is the stored byte
      count behind `get_file_size_display`. */
  datatype MessageJson = MessageJson(
    sender: UserId, message: string, timestamp: Timestamp, file: bool,
    fileName: Option<string>, fileUrl: Option<string>, fileSize: Option<int>)

  /** The dictionary built for each message: the three file fields are null
      exactly when the message has no file. */
  function ToJson(m: Message, url: string -> string): (j: MessageJson)
    ensures j.sender == m.sender && j.message == m.text && j.timestamp == m.timestamp
    ensures j.file == HasFile(m)
    ensures j.fileName.None? <==> !HasFile(m)
    ensures j.fileUrl.None? <==> !HasFile(m)
    ensures j.fileSize.None? <==> !HasFile(m)
  {
    var has := HasFile(m);
    MessageJson(m.sender, m.text, m.timestamp, has,
      if has then Some(m.fileName) else None,
      if has then Some(url(m.file.value)) else None,
      if has then Some(m.fileSize) else None)
  }

  /** `get_messages`: every message between the requesting user and the
      other one, in either direction, in time order. */
  function GetMessages(ms: seq<Message>, me: UserId, other: UserId, url: string -> string): (r: seq<MessageJson>)
    ensures var ordered := SortByTime(Conversation(ms, me, other));
      |r| == |ordered| && forall i :: 0 <= i < |r| ==> r[i] == ToJson(ordered[i], url)
  {
    var ordered := SortByTime(Conversation(ms, me, other));
    seq(|ordered|, i requires 0 <= i < |ordered| => ToJson(ordered[i], url))
  }

  /** The listed messages are exactly the conversation: each message between
      the two users appears as often as it is stored, no other does, and the
      list runs forward in time. */
  lemma MessagesExactlyBetween(ms: seq<Message>, me: UserId, other: UserId)
    ensures var ordered := SortByTime(Conversation(ms, me, other));
      SortedByTime(ordered)
      && (forall m :: m in ordered <==> m in ms && Between(m, me, other))
      && multiset(ordered) == multiset(Conversation(ms, me, other))
  {
    var conv := Conversation(ms, me, other);
    var ordered := SortByTime(conv);
    forall m
      ensures m in ordered <==> m in ms && Between(m, me, other)
    {
      calc {
        m in ordered;
        m in multiset(ordered);
        m in multiset(conv);
        m in conv;
      }
    }
  }

  /** A filter depends only on the values its predicate takes. */
  lemma {:induction false} FilterAgrees(s: seq<Message>, p: Message -> bool, q: Message -> bool)
    requires forall m :: m in s ==> p(m) == q(m)
    ensures Filter(s, p) == Filter(s, q)
    decreases |s|
  {
    if s != [] {
      FilterAgrees(s[1..], p, q);
    }
  }

  /** Both users of a conversation see the same messages in the same order. */
  lemma ConversationSymmetric(ms: seq<Message>, a: UserId, b: UserId, url: string -> string)
    ensures GetMessages(ms, a, b, url) == GetMessages(ms, b, a, url)
  {
    FilterAgrees(ms, BetweenOf(a, b), BetweenOf(b, a));
  }

  // ---------------------------------------------------- get_unread_counts

  /** One entry of the summary: the time of the latest message and how many
      there are (`None`/0 for an empty group chat). */
  datatype Summary = Summary(lastTimestamp: Option<Timestamp>, totalCount: nat)

  const GroupKey: string := "group"

  function ReceivedBy(me: UserId): Message -> bool { (m: Message) => m.receiver == me }
  function SentBy(s: UserId): Message -> bool { (m: Message) => m.sender == s }

  /** The latest of a non-empty list of times (SQL `Max`). */
  function Latest(ts: seq<Timestamp>): (t: Timestamp)
    requires ts != []
    ensures t in ts && forall u :: u in ts ==> u <= t
    decreases |ts|
  {
    if |ts| == 1 then ts[0]
    else
      var rest := Latest(ts[1..]);
      assert forall u :: u in ts ==> u == ts[0] || u in ts[1..];
      if ts[0] < rest then rest else ts[0]
  }

  /** The timestamps of a list of messages, private or group, in order. */
  function Times<M>(ms: seq<M>, stamp: M -> Timestamp): (ts: seq<Timestamp>)
    ensures |ts| == |ms| && forall i :: 0 <= i < |ms| ==> ts[i] == stamp(ms[i])
  {
    seq(|ms|, i requires 0 <= i < |ms| => stamp(ms[i]))
  }

  function MessageTime(m: Message): Timestamp { m.timestamp }

  function GroupTime(g: GroupMessage): Timestamp { g.timestamp }

  /** The senders of a list of messages, each once (the `values('sender_id')`
      grouping). */
  function Senders(ms: seq<Message>): (ss: seq<UserId>)
    ensures forall i, j :: 0 <= i < j < |ss| ==> ss[i] != ss[j]
    ensures forall s :: s in ss <==> Wrote(ms, s)
    decreases |ms|
  {
    if ms == [] then []
    else
      var rest := Senders(ms[1..]);
      assert forall m :: m in ms <==> m == ms[0] || m in ms[1..];
      if ms[0].sender in rest then rest else [ms[0].sender] + rest
  }

  /** `s` sent at least one of the messages. */
  predicate Wrote(ms: seq<Message>, s: UserId) {
    exists m :: m in ms && m.sender == s
  }

  /** `s` sent `me` at least one message. */
  predicate SentTo(ms: seq<Message>, me: UserId, s: UserId) {
    exists m :: m in ms && m.receiver == me && m.sender == s
  }

  lemma WroteReceived(ms: seq<Message>, me: UserId, s: UserId)
    ensures Wrote(Filter(ms, ReceivedBy(me)), s) <==> SentTo(ms, me, s)
  {
    if SentTo(ms, me, s) {
      var m :| m in ms && m.receiver == me && m.sender == s;
      assert m in Filter(ms, ReceivedBy(me));
    }
  }

  /** The aggregate row of one sender: the latest time and the number of
      their messages. */
  function SenderSummary(received: seq<Message>, s: UserId): (r: Summary)
    ensures r.totalCount == |Filter(received, SentBy(s))|
    ensures r.lastTimestamp.Some? <==> Wrote(received, s)
    ensures r.lastTimestamp.Some? ==>
      (forall m :: m in received && m.sender == s ==> m.timestamp <= r.lastTimestamp.value)
      && exists m :: m in received && m.sender == s && r.lastTimestamp == Some(m.timestamp)
  {
    var mine := Filter(received, SentBy(s));
    if mine == [] then
      Summary(None, 0)
    else
      var t := Latest(Times(mine, MessageTime));
      assert forall x :: x in mine ==> x.timestamp in Times(mine, MessageTime) by {
        forall x | x in mine ensures x.timestamp in Times(mine, MessageTime) {
          var k :| 0 <= k < |mine| && mine[k] == x;
          assert Times(mine, MessageTime)[k] == x.timestamp;
        }
      }
      var k :| 0 <= k < |mine| && Times(mine, MessageTime)[k] == t;
      assert mine[k] in mine;
      Summary(Some(t), |mine|)
  }

  /** The total counts of the listed senders, added up. */
  function TotalOf(received: seq<Message>, ss: seq<UserId>): nat
    decreases |ss|
  {
    if ss == [] then 0 else SenderSummary(received, ss[0]).totalCount + TotalOf(received, ss[1..])
  }

  lemma FilterSentByCons(ms: seq<Message>, s: UserId)
    requires ms != []
    ensures |Filter(ms, SentBy(s))| == (if ms[0].sender == s then 1 else 0) + |Filter(ms[1..], SentBy(s))|
  {
  }

  /** Adding one message in front raises the total of the senders by one
      exactly when its sender is among them. */
  lemma {:induction false} TotalOfCons(ms: seq<Message>, ss: seq<UserId>)
    requires ms != []
    ensures TotalOf(ms, ss) == TotalOf(ms[1..], ss) + Count(ss, (u: UserId) => u == ms[0].sender)
    decreases |ss|
  {
    if ss != [] {
      FilterSentByCons(ms, ss[0]);
      TotalOfCons(ms, ss[1..]);
    }
  }

  lemma {:induction false} CountAbsent(ss: seq<UserId>, x: UserId)
    ensures Count(ss, (u: UserId) => u == x) == (if x in ss then |Filter(ss, (u: UserId) => u == x)| else 0)
  {
    if x !in ss {
      FilterNone(ss, (u: UserId) => u == x);
    }
  }

  /** The total counts sent back cover every received message exactly once:
      read or not, each message is counted under its sender. */
  lemma {:induction false} CountsCoverReceived(received: seq<Message>)
    ensures TotalOf(received, Senders(received)) == |received|
    decreases |received|
  {
    if received != [] {
      var m0 := received[0];
      var rest := received[1..];
      var ss := Senders(rest);
      CountsCoverReceived(rest);
      TotalOfCons(received, ss);
      if m0.sender in ss {
        assert Senders(received) == ss;
        DistinctOnce(ss, m0.sender);
      } else {
        assert Senders(received) == [m0.sender] + ss;
        CountAbsent(ss, m0.sender);
        assert !Wrote(rest, m0.sender);
        assert Filter(rest, SentBy(m0.sender)) == [] by {
          FilterNone(rest, SentBy(m0.sender));
        }
        FilterSentByCons(received, m0.sender);
      }
    }
  }

  /** In a list without repetitions a member occurs once. */
  lemma {:induction false} DistinctOnce(ss: seq<UserId>, x: UserId)
    requires forall i, j :: 0 <= i < j < |ss| ==> ss[i] != ss[j]
    requires x in ss
    ensures Count(ss, (u: UserId) => u == x) == 1
    decreases |ss|
  {
    if ss[0] == x {
      assert x !in ss[1..];
      FilterNone(ss[1..], (u: UserId) => u == x);
    } else {
      DistinctOnce(ss[1..], x);
    }
  }

  /** The `group` entry: the latest group message and the number of group
      messages, or null and 0 when there are none. */
  function GroupSummary(gs: seq<GroupMessage>): (r: Summary)
    ensures r.totalCount == |gs|
    ensures r.lastTimestamp.None? <==> gs == []
    ensures gs != [] ==> exists g :: g in gs && r.lastTimestamp == Some(g.timestamp)
  {
    if gs == [] then Summary(None, 0)
    else
      var t := Latest(Times(gs, GroupTime));
      var k :| 0 <= k < |gs| && Times(gs, GroupTime)[k] == t;
      assert gs[k] in gs;
      Summary(Some(t), |gs|)
  }

  /** The loop of `get_unread_counts`: one entry per aggregate row, under
      the sender's id as text. */
  method SenderEntries(received: seq<Message>) returns (result: map<string, Summary>)
    ensures forall s: UserId :: NatToString(s) in result <==> Wrote(received, s)
    ensures forall s: UserId :: NatToString(s) in result ==> result[NatToString(s)] == SenderSummary(received, s)
    ensures forall k :: k in result ==> exists s: UserId :: k == NatToString(s)
  {
    var senders := Senders(received);
    result := map[];
    for i := 0 to |senders|
      invariant forall s: UserId :: NatToString(s) in result <==> s in senders[..i]
      invariant forall s: UserId :: s in senders[..i] ==> result[NatToString(s)] == SenderSummary(received, s)
      invariant forall k :: k in result ==> exists s: UserId :: k == NatToString(s)
    {
      assert senders[..i + 1] == senders[..i] + [senders[i]];
      result := KeyedInsert(result, senders[..i], senders[i], received);
    }
    assert senders[..|senders|] == senders;
  }

  /** One step of the loop: the entry of `s` joins those of `done`. */
  function KeyedInsert(entries: map<string, Summary>, done: seq<UserId>, s: UserId, received: seq<Message>): (r: map<string, Summary>)
    requires forall u: UserId :: NatToString(u) in entries <==> u in done
    requires forall u: UserId :: u in done ==> entries[NatToString(u)] == SenderSummary(received, u)
    requires forall k :: k in entries ==> exists u: UserId :: k == NatToString(u)
    ensures forall u: UserId :: NatToString(u) in r <==> u in done + [s]
    ensures forall u: UserId :: u in done + [s] ==> r[NatToString(u)] == SenderSummary(received, u)
    ensures forall k :: k in r ==> exists u: UserId :: k == NatToString(u)
  {
    var r := entries[NatToString(s) := SenderSummary(received, s)];
    forall u: UserId
      ensures NatToString(u) in r <==> u in done + [s]
      ensures u in done + [s] ==> r[NatToString(u)] == SenderSummary(received, u)
    {
      NatToStringInjective(u, s);
    }
    r
  }

  /** `get_unread_counts`: one entry per sender of a message the user
      received, under the sender's id as text, and the `group` entry,
      which no user id can overwrite. */
  method GetUnreadCounts(ms: seq<Message>, gs: seq<GroupMessage>, me: UserId) returns (result: map<string, Summary>)
    ensures GroupKey in result && result[GroupKey] == GroupSummary(gs)
    ensures forall s: UserId :: NatToString(s) in result <==> SentTo(ms, me, s)
    ensures forall s: UserId :: NatToString(s) in result ==>
      result[NatToString(s)] == SenderSummary(Filter(ms, ReceivedBy(me)), s)
    ensures forall k :: k in result ==> k == GroupKey || exists s: UserId :: k == NatToString(s)
  {
    var received := Filter(ms, ReceivedBy(me));
    var entries := SenderEntries(received);
    forall s: UserId
      ensures NatToString(s) != GroupKey
      ensures Wrote(received, s) <==> SentTo(ms, me, s)
    {
      NotGroupKey(s);
      WroteReceived(ms, me, s);
    }
    result := entries[GroupKey := GroupSummary(gs)];
  }

  /** No user id renders as the group chat's key. */
  lemma NotGroupKey(s: UserId)
    ensures NatToString(s) != GroupKey
  {
    assert IsDigit(NatToString(s)[0]);
  }
}

// The chat widget's unread bookkeeping: one counter per chat (a user id as
// text, or "group"), bumped by messages that arrive for a chat that is not
// open, zeroed when a chat is opened, summed for the widget's badge, kept
// in `localStorage`, and topped up from `/chat/unread-counts/`; plus the
// guards on the attachment size and on sending nothing.

module ChatWidget {

  import opened Outcomes
  import opened Text
  import opened ChatViews

  const UnreadKey: string := "chatUnreadMessages"

  /** `MAX_FILE_SIZE`: 10 MiB. */
  const MaxFileSize: nat := 10 * 1024 * 1024

  /** `String(currentUser)`: `null` renders as "null". */
  function CurrentText(current: Option<string>): (s: string)
    ensures current.Some? ==> s == current.value
    ensures current.None? ==> s == "null"
  {
    if current.Some? then current.value else "null"
  }

  /** `if (!c[k]) c[k] = 0; c[k]++`: a missing or zero counter becomes 1,
      any other grows by one. */
  function Bumped(counts: map<string, int>, k: string): (n: int)
    ensures k !in counts ==> n == 1
    ensures k in counts ==> n == counts[k] + 1
  {
    if k in counts then counts[k] + 1 else 1
  }

  // ------------------------------------------------------------------ sums

  /** `Object.values(c).reduce((sum, x) => sum + x, 0)`. */
  ghost function Total(counts: map<string, int>): int
    decreases |counts|
  {
    if counts == map[] then 0
    else
      var k :| k in counts;
      counts[k] + Total(counts - {k})
  }

  /** The sum does not depend on which counter is taken out first. */
  lemma {:induction false} TotalRemove(counts: map<string, int>, k: string)
    requires k in counts
    ensures Total(counts) == counts[k] + Total(counts - {k})
    decreases |counts|
  {
    var j :| j in counts && Total(counts) == counts[j] + Total(counts - {j});
    if j != k {
      var rest := counts - {j};
      assert |rest| < |counts| by {
        assert rest.Keys == counts.Keys - {j};
      }
      TotalRemove(rest, k);
      var other := counts - {k};
      assert |other| < |counts| by {
        assert other.Keys == counts.Keys - {k};
      }
      TotalRemove(other, j);
      assert rest - {k} == other - {j};
    }
  }

  /** Setting one counter moves the sum by the difference. */
  lemma TotalUpdate(counts: map<string, int>, k: string, v: int)
    ensures Total(counts[k := v]) == Total(counts) - (if k in counts then counts[k] else 0) + v
  {
    var updated := counts[k := v];
    TotalRemove(updated, k);
    assert updated - {k} == counts - {k};
    if k in counts {
      TotalRemove(counts, k);
    } else {
      assert counts - {k} == counts;
    }
  }

  /** Every bump raises the widget's total by exactly one. */
  lemma BumpAddsOne(counts: map<string, int>, k: string)
    ensures Total(counts[k := Bumped(counts, k)]) == Total(counts) + 1
  {
    TotalUpdate(counts, k, Bumped(counts, k));
  }

  // ---------------------------------------------------------- server sync

  /** A value of the `/chat/unread-counts/` response, as `count > 0` sees it:
      a number, or an object, which compares as `NaN` and is never above 0. */
  datatype ServerValue = Number(n: int) | Object

  /** The loop of `syncUnreadCountsWithServer`: each entry above zero
      overwrites its counter, in the order of the response's keys. */
  function Synced(counts: map<string, int>, data: seq<(string, ServerValue)>): (r: map<string, int>)
    ensures r.Keys <= counts.Keys + set i | 0 <= i < |data| :: data[i].0
    decreases |data|
  {
    if data == [] then counts
    else
      var next := Synced(counts, data[..|data| - 1]);
      var (k, v) := data[|data| - 1];
      if v.Number? && v.n > 0 then next[k := v.n] else next
  }

  /** A response of objects only overwrites nothing. */
  lemma {:induction false} ObjectsChangeNothing(counts: map<string, int>, data: seq<(string, ServerValue)>)
    requires forall i :: 0 <= i < |data| ==> data[i].1 == Object
    ensures Synced(counts, data) == counts
    decreases |data|
  {
    if data != [] {
      ObjectsChangeNothing(counts, data[..|data| - 1]);
    }
  }

  /** The response the server sends: every entry is a `{last_timestamp,
      total_count}` object. */
  function AsServerValues(entries: seq<(string, Summary)>): (data: seq<(string, ServerValue)>)
    ensures |data| == |entries|
    ensures forall i :: 0 <= i < |data| ==> data[i] == (entries[i].0, Object)
  {
    seq(|entries|, i requires 0 <= i < |entries| => (entries[i].0, Object))
  }

  /** So the client's sync never changes a counter: the server's summaries
      are objects, and an object is never `> 0`. */
  lemma SyncWithServerIsInert(counts: map<string, int>, entries: seq<(string, Summary)>)
    ensures Synced(counts, AsServerValues(entries)) == counts
  {
    ObjectsChangeNothing(counts, AsServerValues(entries));
  }

  /** Had the server sent numbers, a positive count would replace the
      counter and the others would stay. */
  lemma SyncNumber(counts: map<string, int>, k: string, n: int)
    ensures Synced(counts, [(k, Number(n))]) == if n > 0 then counts[k := n] else counts
  {
    assert [(k, Number(n))][..0] == [];
  }

  // ------------------------------------------------------------- storage

  /** What `localStorage.getItem(key)` holds: nothing, "", JSON of a
      counter object, JSON of an object of ISO times (the last-seen record),
      or text `JSON.parse` rejects. */
  datatype Stored = Missing | Blank | Counters(counts: map<string, int>) | LastSeen(times: map<string, string>) | Corrupt

  /** The key `clearUnreadBadge` records the time each chat was read at. */
  const LastSeenKey: string := "chatLastSeen"

  /** `JSON.parse(localStorage.getItem("chatLastSeen") || "{}")` with the
      chat's entry set to `now`: missing or empty storage starts a new
      record, a stored record keeps every other chat's time, and text that
      is not JSON throws (`None`). */
  function SeenAfter(saved: Stored, chat: string, now: string): (r: Option<Stored>)
    ensures r.None? <==> saved.Corrupt?
    ensures r.Some? ==> r.value.LastSeen? && chat in r.value.times && r.value.times[chat] == now
    ensures saved.LastSeen? ==> r.value.times.Keys == saved.times.Keys + {chat}
    ensures saved.LastSeen? ==> forall k :: k in saved.times && k != chat ==> r.value.times[k] == saved.times[k]
    ensures saved.Missing? || saved.Blank? || saved.Counters? ==> r.value.times.Keys == {chat}
  {
    match saved
    case Corrupt => None
    case LastSeen(times) => Some(LastSeen(times[chat := now]))
    case _ => Some(LastSeen(map[chat := now]))
  }
  /** Storage after `clearUnreadBadge` of a chat: the counters stored under
      their key and then, when the last-seen record is JSON, that record
      with the chat's time. */
  function StoredAfterClear(before: map<string, Stored>, counters: map<string, int>, chat: string, now: string): map<string, Stored> {
    var counted := before[UnreadKey := Counters(counters)];
    match SeenAfter(if LastSeenKey in before then before[LastSeenKey] else Missing, chat, now)
    case Some(seen) => counted[LastSeenKey := seen]
    case None => counted
  }


  /** `loadUnreadFromStorage`: the stored counters, or none at all when
      nothing usable is stored. */
  function Loaded(saved: Stored): (counts: map<string, int>)
    ensures saved.Counters? ==> counts == saved.counts
    ensures !saved.Counters? ==> counts == map[]
  {
    if saved.Counters? then saved.counts else map[]
  }

  /** A file the user picked. */
  datatype Attachment = Attachment(name: string, size: nat)

  /** What `sendMessage` sends: the trimmed text and the selected file. */
  datatype Outgoing = Outgoing(text: string, file: Option<Attachment>)

  /** How `sendMessage` ends: nothing to send; sent on the open chat's
      connection; no chat open, so nothing was sent; or the connection was
      not open, which throws and shows an alert. */
  datatype SendOutcome = NothingToSend | Sent(chat: string, message: Outgoing) | NoChatOpen | NotConnected

  /** `sendMessage`'s guard: blank text and no file sends nothing. */
  function ToSend(input: string, selected: Option<Attachment>): (r: Option<Outgoing>)
    ensures r.None? <==> JsTrim(input) == "" && selected.None?
    ensures r.Some? ==> r.value.text == JsTrim(input) && r.value.file == selected
  {
    var text := JsTrim(input);
    if text == "" && selected.None? then None else Some(Outgoing(text, selected))
  }

  /** Text that is only blanks is not sent without a file. */
  lemma BlankNotSent(input: string)
    requires forall i :: 0 <= i < |input| ==> IsJsSpace(input[i])
    ensures ToSend(input, None).None?
  {
    AllBlankTrimsAway(input);
  }

  lemma {:induction false} AllBlankTrimsAway(s: string)
    requires forall i :: 0 <= i < |s| ==> IsJsSpace(s[i])
    ensures TrimStart(s, JavaScript) == []
  {
    if s != [] {
      AllBlankTrimsAway(s[1..]);
    }
  }

  // ---------------------------------------------------------------- widget

  /** The widget's state: the open chat, whether it is the group chat, the
      counters, what storage holds, the selected file and the text in the
      message box. */
  class Widget {
    var currentUser: Option<string>
    var groupActive: bool
    var unread: map<string, int>
    var stored: map<string, Stored>
    var selectedFile: Option<Attachment>
    var draft: string

    /** The group flag is set exactly when the group chat is the open one,
        and a selected file is never over the limit. */
    predicate Valid()
      reads this
    {
      (groupActive <==> currentUser == Some(GroupKey))
      && (selectedFile.Some? ==> selectedFile.value.size <= MaxFileSize)
    }

    /** A fresh page: no chat open, counters read from storage. */
    constructor (storage: map<string, Stored>)
      ensures Valid()
      ensures currentUser.None? && !groupActive && selectedFile.None? && draft == ""
      ensures stored == storage
      ensures unread == Loaded(if UnreadKey in storage then storage[UnreadKey] else Missing)
    {
      currentUser := None;
      groupActive := false;
      stored := storage;
      selectedFile := None;
      draft := "";
      unread := map[];
      new;
      LoadUnreadFromStorage();
    }

    /** `loadUnreadFromStorage`: corrupt or missing counters reset to none. */
    method LoadUnreadFromStorage()
      modifies this
      ensures unread == Loaded(if UnreadKey in stored then stored[UnreadKey] else Missing)
      ensures currentUser == old(currentUser) && groupActive == old(groupActive)
      ensures stored == old(stored) && selectedFile == old(selectedFile) && draft == old(draft)
    {
      var saved := if UnreadKey in stored then stored[UnreadKey] else Missing;
      match saved
      case Counters(counts) => unread := counts;
      case _ => unread := map[];
    }

    /** `saveUnreadToStorage`. */
    method SaveUnreadToStorage()
      modifies this
      ensures stored == old(stored)[UnreadKey := Counters(unread)]
      ensures unread == old(unread) && currentUser == old(currentUser) && groupActive == old(groupActive)
      ensures selectedFile == old(selectedFile) && draft == old(draft)
    {
      stored := stored[UnreadKey := Counters(unread)];
    }

    /** The `storage` event: another tab has written `newValue` under `key`
        in the storage the tabs share; new counters replace these, while an
        unreadable or empty value leaves them as they are. */
    method OnStorageEvent(key: string, newValue: Stored)
      modifies this
      ensures stored == old(stored)[key := newValue]
      ensures key == UnreadKey && newValue.Counters? ==> unread == newValue.counts
      ensures !(key == UnreadKey && newValue.Counters?) ==> unread == old(unread)
      ensures currentUser == old(currentUser) && groupActive == old(groupActive)
      ensures selectedFile == old(selectedFile) && draft == old(draft)
    {
      stored := stored[key := newValue];
      if key == UnreadKey && newValue.Counters? {
        unread := newValue.counts;
      }
    }

    /** What storage holds under the last-seen key. */
    function LastSeenEntry(): (saved: Stored)
      reads this
      ensures LastSeenKey !in stored ==> saved == Missing
      ensures LastSeenKey in stored ==> saved == stored[LastSeenKey]
    {
      if LastSeenKey in stored then stored[LastSeenKey] else Missing
    }

    /** `isCurrentChatActive`: the open chat's text equals the id's text. */
    function IsCurrentChatActive(userId: string): (active: bool)
      reads this
      ensures active <==> (currentUser.Some? && currentUser.value == userId) || (currentUser.None? && userId == "null")
    {
      CurrentText(currentUser) == userId
    }

    /** `debouncedIncrementBadge`, once its timer has fired: the counter is
        bumped and the counters are stored. */
    method IncrementBadge(userId: string)
      modifies this
      ensures unread == old(unread)[userId := Bumped(old(unread), userId)]
      ensures stored == old(stored)[UnreadKey := Counters(unread)]
      ensures currentUser == old(currentUser) && groupActive == old(groupActive)
      ensures selectedFile == old(selectedFile) && draft == old(draft)
    {
      if userId !in unread || unread[userId] == 0 {
        unread := unread[userId := 0];
      }
      unread := unread[userId := unread[userId] + 1];
      SaveUnreadToStorage();
    }

    /** A private message on the connection for `chatUserId`: it counts as
        unread only when it is not the user's own and that chat is not open. */
    method OnPrivateMessage(chatUserId: string, senderId: string, myId: string)
      modifies this
      ensures senderId != myId && !old(IsCurrentChatActive(chatUserId)) ==>
        unread == old(unread)[chatUserId := Bumped(old(unread), chatUserId)]
      ensures senderId == myId || old(IsCurrentChatActive(chatUserId)) ==> unread == old(unread)
      ensures currentUser == old(currentUser) && groupActive == old(groupActive)
      ensures selectedFile == old(selectedFile) && draft == old(draft)
    {
      var isFromMe := senderId == myId;
      var isActive := IsCurrentChatActive(chatUserId);
      if !isFromMe && !isActive {
        IncrementBadge(chatUserId);
      }
    }

    /** A group message: unread only when it is not the user's own and the
        group chat is not open. */
    method OnGroupMessage(senderId: string, myId: string)
      modifies this
      ensures senderId != myId && !old(groupActive) ==>
        unread == old(unread)[GroupKey := Bumped(old(unread), GroupKey)]
      ensures senderId == myId || old(groupActive) ==> unread == old(unread)
      ensures currentUser == old(currentUser) && groupActive == old(groupActive)
      ensures selectedFile == old(selectedFile) && draft == old(draft)
    {
      if senderId != myId && !groupActive {
        IncrementBadge(GroupKey);
      }
    }

    /** `clearUnreadBadge` at time `now` (ISO text): nothing for a chat that
        is not open; otherwise its counter is zeroed and stored, and the
        chat's last-seen time is recorded. `completed` is false when the
        stored last-seen record is not JSON: `JSON.parse` then throws after
        the counters were stored, and nothing more is written. */
    method ClearUnreadBadge(userId: string, now: string) returns (completed: bool)
      modifies this
      ensures !old(IsCurrentChatActive(userId)) ==> unread == old(unread) && stored == old(stored) && completed
      ensures old(IsCurrentChatActive(userId)) ==> unread == old(unread)[userId := 0]
      ensures old(IsCurrentChatActive(userId)) ==>
        completed == SeenAfter(old(LastSeenEntry()), userId, now).Some?
        && stored == StoredAfterClear(old(stored), unread, userId, now)
      ensures currentUser == old(currentUser) && groupActive == old(groupActive)
      ensures selectedFile == old(selectedFile) && draft == old(draft)
    {
      if !IsCurrentChatActive(userId) {
        return true;
      }
      unread := unread[userId := 0];
      SaveUnreadToStorage();
      var seen := SeenAfter(LastSeenEntry(), userId, now);
      if seen.None? {
        return false;
      }
      stored := stored[LastSeenKey := seen.value];
      completed := true;
    }

    /** `openChat`: the chat becomes the open one and its counter is zeroed. */
    method OpenChat(userId: string, now: string)
      requires Valid() && userId != GroupKey
      modifies this
      ensures Valid()
      ensures currentUser == Some(userId) && !groupActive
      ensures unread == old(unread)[userId := 0]
      ensures stored == StoredAfterClear(old(stored), unread, userId, now)
      ensures selectedFile == old(selectedFile) && draft == old(draft)
    {
      currentUser := Some(userId);
      groupActive := false;
      var _ := ClearUnreadBadge(userId, now);
    }

    /** `openGroupChat`. */
    method OpenGroupChat(now: string)
      requires Valid()
      modifies this
      ensures Valid()
      ensures currentUser == Some(GroupKey) && groupActive
      ensures unread == old(unread)[GroupKey := 0]
      ensures stored == StoredAfterClear(old(stored), unread, GroupKey, now)
      ensures selectedFile == old(selectedFile) && draft == old(draft)
    {
      currentUser := Some(GroupKey);
      groupActive := true;
      var _ := ClearUnreadBadge(GroupKey, now);
    }

    /** `showUsersList`, the back button: no chat is open any more. */
    method ShowUsersList()
      requires Valid()
      modifies this
      ensures Valid()
      ensures currentUser.None? && !groupActive
      ensures unread == old(unread) && stored == old(stored) && selectedFile == old(selectedFile) && draft == old(draft)
    {
      currentUser := None;
      groupActive := false;
    }

    /** Whether a chat is open, as `if (currentUser)` tests it. */
    predicate ChatOpen()
      reads this
    {
      currentUser.Some? && currentUser.value != ""
    }

    /** Closing the widget: the open chat, if any, is marked read first.
        When marking it read throws, the handler stops there and the chat
        stays open (`closed` is false). */
    method CloseWidget(now: string) returns (closed: bool)
      requires Valid()
      modifies this
      ensures Valid()
      ensures !closed <==> old(ChatOpen()) && old(LastSeenEntry()).Corrupt?
      ensures closed ==> currentUser.None? && !groupActive
      ensures !closed ==> currentUser == old(currentUser) && groupActive == old(groupActive)
      ensures old(ChatOpen()) ==> unread == old(unread)[old(currentUser).value := 0]
      ensures old(ChatOpen()) ==> stored == StoredAfterClear(old(stored), unread, old(currentUser).value, now)
      ensures !old(ChatOpen()) ==> unread == old(unread) && stored == old(stored)
      ensures selectedFile == old(selectedFile) && draft == old(draft)
    {
      if ChatOpen() {
        var completed := ClearUnreadBadge(currentUser.value, now);
        if !completed {
          return false;
        }
      }
      currentUser := None;
      groupActive := false;
      closed := true;
    }

    /** `syncUnreadCountsWithServer`, after the response is read. */
    method SyncWithServer(data: seq<(string, ServerValue)>)
      modifies this
      ensures unread == Synced(old(unread), data)
      ensures stored == old(stored)[UnreadKey := Counters(unread)]
      ensures currentUser == old(currentUser) && groupActive == old(groupActive)
      ensures selectedFile == old(selectedFile) && draft == old(draft)
    {
      var counts := unread;
      for i := 0 to |data|
        invariant counts == Synced(unread, data[..i])
      {
        assert data[..i + 1][..i] == data[..i];
        var (k, v) := data[i];
        if v.Number? && v.n > 0 {
          counts := counts[k := v.n];
        }
      }
      assert data[..|data|] == data;
      unread := counts;
      SaveUnreadToStorage();
    }

    /** The total shown on the widget's badge. */
    method TotalUnread() returns (total: int)
      ensures total == Total(unread)
    {
      var rest := unread;
      total := 0;
      while rest != map[]
        invariant total + Total(rest) == Total(unread)
        decreases |rest|
      {
        var k :| k in rest;
        TotalRemove(rest, k);
        total := total + rest[k];
        var smaller := rest - {k};
        assert |smaller| < |rest| by {
          assert smaller.Keys == rest.Keys - {k};
        }
        rest := smaller;
      }
    }

    /** `handleFileSelect`: a file over the limit is refused and the earlier
        selection stays; any other becomes the selection. */
    method HandleFileSelect(file: Attachment)
      requires Valid()
      modifies this
      ensures Valid()
      ensures file.size > MaxFileSize ==> selectedFile == old(selectedFile)
      ensures file.size <= MaxFileSize ==> selectedFile == Some(file)
      ensures unread == old(unread) && currentUser == old(currentUser) && groupActive == old(groupActive)
      ensures stored == old(stored) && draft == old(draft)
    {
      if file.size > MaxFileSize {
        return;
      }
      selectedFile := Some(file);
    }

    /** The user types into the message box. */
    method EditDraft(text: string)
      modifies this
      ensures draft == text
      ensures unread == old(unread) && stored == old(stored) && selectedFile == old(selectedFile)
      ensures currentUser == old(currentUser) && groupActive == old(groupActive)
    {
      draft := text;
    }

    /** The part of `sendMessage` after its guard: the message goes out on
        the open chat's connection, or the call throws and keeps the text
        and the file when that connection is not open; with no chat open
        nothing goes out. Whenever it does not throw, the box and the
        selection are cleared. */
    method Deliver(m: Outgoing, socketOpen: bool) returns (out: SendOutcome)
      requires Valid()
      modifies this
      ensures Valid()
      ensures old(groupActive) ==> out == if socketOpen then Sent(GroupKey, m) else NotConnected
      ensures !old(groupActive) && old(ChatOpen()) ==>
        out == if socketOpen then Sent(old(currentUser).value, m) else NotConnected
      ensures !old(groupActive) && !old(ChatOpen()) ==> out == NoChatOpen
      ensures out.Sent? || out.NoChatOpen? ==> draft == "" && selectedFile.None?
      ensures out.NotConnected? ==> draft == old(draft) && selectedFile == old(selectedFile)
      ensures unread == old(unread) && stored == old(stored)
      ensures currentUser == old(currentUser) && groupActive == old(groupActive)
    {
      if groupActive {
        if !socketOpen {
          return NotConnected;
        }
        out := Sent(GroupKey, m);
      } else if ChatOpen() {
        if !socketOpen {
          return NotConnected;
        }
        out := Sent(currentUser.value, m);
      } else {
        out := NoChatOpen;
      }
      draft := "";
      selectedFile := None;
    }

    /** `sendMessage`, with `socketOpen` telling whether the open chat's
        connection is in the OPEN state: blank text and no file sends
        nothing and changes nothing; otherwise the trimmed text and the
        selected file are delivered. */
    method SendMessage(socketOpen: bool) returns (out: SendOutcome)
      requires Valid()
      modifies this
      ensures Valid()
      ensures var m := ToSend(old(draft), old(selectedFile));
        && (m.None? ==> out == NothingToSend)
        && (m.Some? && old(groupActive) ==> out == if socketOpen then Sent(GroupKey, m.value) else NotConnected)
        && (m.Some? && !old(groupActive) && old(ChatOpen()) ==>
              out == if socketOpen then Sent(old(currentUser).value, m.value) else NotConnected)
        && (m.Some? && !old(groupActive) && !old(ChatOpen()) ==> out == NoChatOpen)
      ensures out.Sent? && out.message.file.Some? ==> out.message.file.value.size <= MaxFileSize
      ensures out.Sent? || out.NoChatOpen? ==> draft == "" && selectedFile.None?
      ensures out.NothingToSend? || out.NotConnected? ==> draft == old(draft) && selectedFile == old(selectedFile)
      ensures unread == old(unread) && stored == old(stored)
      ensures currentUser == old(currentUser) && groupActive == old(groupActive)
    {
      var m := ToSend(draft, selectedFile);
      if m.None? {
        return NothingToSend;
      }
      out := Deliver(m.value, socketOpen);
    }
  }

  /** A numeric chat id is active exactly when it is the open chat. */
  lemma ActiveById(w: Widget, id: nat)
    ensures w.IsCurrentChatActive(NatToString(id)) <==> w.currentUser == Some(NatToString(id))
  {
    var s := NatToString(id);
    assert IsDigit(s[0]);
  }

  /** Opening a chat silences it: a message that then arrives on its own
      connection is not counted. */
  method OpenThenReceive(w: Widget, id: nat, senderId: string, myId: string, now: string)
    requires w.Valid()
    modifies w
    ensures w.unread == old(w.unread)[NatToString(id) := 0]
  {
    NotGroupKey(id);
    w.OpenChat(NatToString(id), now);
    w.OnPrivateMessage(NatToString(id), senderId, myId);
  }
}

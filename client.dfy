/** `Usenetclient`: two maps keyed by message-id (the messages and their
    summaries), filled by `message_add`, and saved to a shelf in two
    alternating generations (`messages.0`/`heads.0` and `messages.1`/`heads.1`)
    with an active-version pointer (`activever`) written last. */
module Client {
  import opened Results
  import opened Text
  import opened Header
  import opened Summaries

  type MessageId = string

  /** A message: its lines, header and body. */
  type Message = seq<Line>

  /** What the shelf holds under a key. */
  datatype Value =
    | Ver(ver: int)
    | Msgs(messages: map<MessageId, Message>)
    | Heads(heads: map<MessageId, Summary>)

  /** The two maps of a client. */
  datatype Snapshot = Snapshot(messages: map<MessageId, Message>, heads: map<MessageId, Summary>)

  datatype ClientError =
    | BadHeader(error: HeaderError)  // header_normalise failed on the message
    | KeyMissing(key: string)        // a lookup of an absent key (KeyError)
    | WrongKind(key: string)         // the shelf holds another kind of value under key

  const PointerKey: string := "activever"

  function MessagesKey(generation: int): string {
    "messages." + Str(generation)
  }

  function HeadsKey(generation: int): string {
    "heads." + Str(generation)
  }

  /** The shelf keys of the protocol never collide: each kind of key differs
      from the others, and a generation's keys name only that generation. */
  lemma KeysDistinct(a: int, b: int)
    ensures MessagesKey(a) != HeadsKey(b)
    ensures MessagesKey(a) != PointerKey && HeadsKey(a) != PointerKey
    ensures MessagesKey(a) == MessagesKey(b) ==> a == b
    ensures HeadsKey(a) == HeadsKey(b) ==> a == b
  {
    assert MessagesKey(a)[0] == 'm' && HeadsKey(b)[0] == 'h' && PointerKey[0] == 'a';
    assert HeadsKey(a)[0] == 'h';
    if MessagesKey(a) == MessagesKey(b) {
      assert Str(a) == MessagesKey(a)[9..] == MessagesKey(b)[9..] == Str(b);
      StrInjective(a, b);
    }
    if HeadsKey(a) == HeadsKey(b) {
      assert Str(a) == HeadsKey(a)[6..] == HeadsKey(b)[6..] == Str(b);
      StrInjective(a, b);
    }
  }

  // ---------------------------------------------------------------------
  // Inserting a message.

  /** The effect of `message_add` on the two maps, given the outcome of
      summarising the message (SummaryOf). */
  function Insert(s: Snapshot, msg: Message, summary: Result<Summary, HeaderError>): Result<Snapshot, ClientError> {
    match summary
    case Err(e) => Err(BadHeader(e))
    case Ok(summ) =>
      if MessageIdKey !in summ then Err(KeyMissing(MessageIdKey))
      else
        var mid := summ[MessageIdKey];
        Ok(Snapshot(s.messages[mid := msg], s.heads[mid := summ]))
  }

  /** The two maps are co-indexed, and each summary is the summary of its
      message and is filed under that summary's own message-id. */
  ghost predicate Consistent(s: Snapshot) {
    s.messages.Keys == s.heads.Keys &&
    forall mid :: mid in s.heads ==>
      SummaryOf(s.messages[mid]) == Ok(s.heads[mid]) &&
      MessageIdKey in s.heads[mid] && s.heads[mid][MessageIdKey] == mid
  }

  /** Insertion succeeds exactly when the header parses and has a message-id;
      it then files the message and its summary under that id, replacing any
      earlier entry, and changes nothing else. */
  lemma InsertSpec(s: Snapshot, msg: Message, summary: Result<Summary, HeaderError>)
    ensures Insert(s, msg, summary).Ok? <==> summary.Ok? && MessageIdKey in summary.value
    ensures Insert(s, msg, summary).Ok? ==>
      var mid := summary.value[MessageIdKey];
      var t := Insert(s, msg, summary).value;
      t.messages.Keys == s.messages.Keys + {mid} && t.heads.Keys == s.heads.Keys + {mid} &&
      t.messages[mid] == msg && t.heads[mid] == summary.value &&
      (forall other :: other in s.messages && other != mid ==> t.messages[other] == s.messages[other]) &&
      (forall other :: other in s.heads && other != mid ==> t.heads[other] == s.heads[other])
  {
  }

  /** Insertion keeps the maps consistent. */
  lemma InsertKeepsConsistent(s: Snapshot, msg: Message)
    requires Consistent(s)
    ensures Insert(s, msg, SummaryOf(msg)).Ok? ==> Consistent(Insert(s, msg, SummaryOf(msg)).value)
  {
    var summary := SummaryOf(msg);
    if Insert(s, msg, summary).Ok? {
      var t := Insert(s, msg, summary).value;
      var mid := summary.value[MessageIdKey];
      forall other | other in t.heads
        ensures SummaryOf(t.messages[other]) == Ok(t.heads[other])
        ensures MessageIdKey in t.heads[other] && t.heads[other][MessageIdKey] == other
      {
        if other != mid {
          assert other in s.heads;
        }
      }
    }
  }

  /** Of two messages with the same message-id, the second replaces the first
      entirely: the store is as if only the second had been inserted. */
  lemma SameIdOverwrites(s: Snapshot, first: Message, second: Message,
                         summary1: Result<Summary, HeaderError>, summary2: Result<Summary, HeaderError>)
    requires Insert(s, first, summary1).Ok? && Insert(s, second, summary2).Ok?
    requires summary1.value[MessageIdKey] == summary2.value[MessageIdKey]
    ensures Insert(Insert(s, first, summary1).value, second, summary2) == Insert(s, second, summary2)
  {
    var mid := summary2.value[MessageIdKey];
    var t := Insert(s, first, summary1).value;
    assert t.messages[mid := second] == s.messages[mid := second];
    assert t.heads[mid := summary2.value] == s.heads[mid := summary2.value];
  }

  // ---------------------------------------------------------------------
  // The shelf and the save protocol.

  /** A shelf, the persistent key/value map that `shelve.open(db)` gives.
      `origin` is what it held when opened and `log` the writes made since,
      in order, so every state it passes through is `origin` with a prefix
      of `log` applied. */
  class Shelf {
    var data: map<string, Value>
    ghost var origin: map<string, Value>
    ghost var log: seq<(string, Value)>

    ghost predicate Valid()
      reads this
    {
      data == Apply(origin, log)
    }

    constructor (initial: map<string, Value>)
      ensures Valid()
      ensures data == initial && origin == initial && log == []
    {
      data := initial;
      origin := initial;
      log := [];
    }

    /** `store[key] = value`: one atomic write, recorded at the end of the log. */
    method Put(key: string, value: Value)
      requires Valid()
      modifies this
      ensures Valid()
      ensures data == old(data)[key := value]
      ensures origin == old(origin) && log == old(log) + [(key, value)]
    {
      ApplySnoc(origin, log, (key, value));
      data := data[key := value];
      log := log + [(key, value)];
    }
  }

  /** Applying one more write updates the result of the earlier ones. */
  lemma {:induction false} ApplySnoc(data: map<string, Value>, writes: seq<(string, Value)>, w: (string, Value))
    ensures Apply(data, writes + [w]) == Apply(data, writes)[w.0 := w.1]
    decreases |writes|
  {
    if writes != [] {
      assert (writes + [w])[1..] == writes[1..] + [w];
      ApplySnoc(data[writes[0].0 := writes[0].1], writes[1..], w);
    }
  }

  /** Applying a concatenation applies its parts in turn. */
  lemma {:induction false} ApplyConcat(data: map<string, Value>, first: seq<(string, Value)>, second: seq<(string, Value)>)
    ensures Apply(data, first + second) == Apply(Apply(data, first), second)
    decreases |first|
  {
    if first != [] {
      assert (first + second)[1..] == first[1..] + second;
      ApplyConcat(data[first[0].0 := first[0].1], first[1..], second);
    } else {
      assert first + second == second;
    }
  }

  /** The generation a save writes: 0 when no pointer is stored, 1 when the
      pointer is 0, and 0 for any other pointer. */
  function Target(data: map<string, Value>): int {
    if PointerKey !in data then 0
    else if data[PointerKey] != Ver(0) then 0
    else 1
  }

  /** A save never writes the generation the active version names. */
  lemma TargetIsOther(data: map<string, Value>)
    ensures Target(data) == 0 || Target(data) == 1
    ensures PointerKey in data && data[PointerKey].Ver? ==> Target(data) != data[PointerKey].ver
    ensures PointerKey !in data ==> Target(data) == 0
  {
  }

  /** The writes of `state_save`, in order: the two maps of the target
      generation, then the pointer. */
  function SaveWrites(data: map<string, Value>, s: Snapshot): seq<(string, Value)> {
    var t := Target(data);
    [(MessagesKey(t), Msgs(s.messages)), (HeadsKey(t), Heads(s.heads)), (PointerKey, Ver(t))]
  }

  /** The shelf after a sequence of writes. */
  function Apply(data: map<string, Value>, writes: seq<(string, Value)>): map<string, Value>
    decreases |writes|
  {
    if writes == [] then data else Apply(data[writes[0].0 := writes[0].1], writes[1..])
  }

  /** The shelf names a generation whose two maps are both stored. */
  predicate Committed(data: map<string, Value>) {
    PointerKey in data && data[PointerKey].Ver? &&
    var v := data[PointerKey].ver;
    MessagesKey(v) in data && data[MessagesKey(v)].Msgs? &&
    HeadsKey(v) in data && data[HeadsKey(v)].Heads?
  }

  /** What `state_load` of a named shelf does to maps `cur`: the error it
      raises, if any, and the maps afterwards.  It reads the pointer and then
      the generation the active version names; a missing pointer is an error, not an
      empty store.  The messages map is assigned before the heads map is read,
      so a missing heads map leaves the new messages in place. */
  function LoadInto(cur: Snapshot, data: map<string, Value>): (r: (Option<ClientError>, Snapshot))
    ensures r.0.None? <==> Committed(data)
    ensures r.0.None? ==> (Committed(data) &&
      Msgs(r.1.messages) == data[MessagesKey(data[PointerKey].ver)] &&
      Heads(r.1.heads) == data[HeadsKey(data[PointerKey].ver)])
    ensures PointerKey !in data ==> r == (Some(KeyMissing(PointerKey)), cur)
    ensures r.0.Some? ==> r.1.heads == cur.heads
  {
    if PointerKey !in data then (Some(KeyMissing(PointerKey)), cur)
    else
      match data[PointerKey]
      case Ver(v) =>
        var mk, hk := MessagesKey(v), HeadsKey(v);
        if mk !in data then (Some(KeyMissing(mk)), cur)
        else if !data[mk].Msgs? then (Some(WrongKind(mk)), cur)
        else
          var loaded := cur.(messages := data[mk].messages);
          if hk !in data then (Some(KeyMissing(hk)), loaded)
          else if !data[hk].Heads? then (Some(WrongKind(hk)), loaded)
          else (None, Snapshot(data[mk].messages, data[hk].heads))
      case _ => (Some(WrongKind(PointerKey)), cur)
  }

  /** What a failed load leaves behind: the error names the first lookup
      that fails, and the maps are unchanged except when the messages map of
      the named generation was read before the heads map failed. */
  lemma LoadFailure(cur: Snapshot, data: map<string, Value>)
    requires !Committed(data)
    ensures PointerKey !in data ==> LoadInto(cur, data) == (Some(KeyMissing(PointerKey)), cur)
    ensures PointerKey in data && !data[PointerKey].Ver? ==>
      LoadInto(cur, data) == (Some(WrongKind(PointerKey)), cur)
    ensures PointerKey in data && data[PointerKey].Ver? ==>
      var mk, hk := MessagesKey(data[PointerKey].ver), HeadsKey(data[PointerKey].ver);
      (mk !in data ==> LoadInto(cur, data) == (Some(KeyMissing(mk)), cur)) &&
      (mk in data && !data[mk].Msgs? ==> LoadInto(cur, data) == (Some(WrongKind(mk)), cur)) &&
      (mk in data && data[mk].Msgs? && hk !in data ==>
        LoadInto(cur, data) == (Some(KeyMissing(hk)), cur.(messages := data[mk].messages))) &&
      (mk in data && data[mk].Msgs? && hk in data ==>
        LoadInto(cur, data) == (Some(WrongKind(hk)), cur.(messages := data[mk].messages)))
  {
  }

  /** Two shelves that agree on the pointer and on the generation it names
      load the same way. */
  lemma LoadReadsOnlyActive(cur: Snapshot, d1: map<string, Value>, d2: map<string, Value>)
    requires PointerKey in d1 <==> PointerKey in d2
    requires PointerKey in d1 ==> d1[PointerKey] == d2[PointerKey]
    requires PointerKey in d1 && d1[PointerKey].Ver? ==>
      var v := d1[PointerKey].ver;
      (MessagesKey(v) in d1 <==> MessagesKey(v) in d2) &&
      (MessagesKey(v) in d1 ==> d1[MessagesKey(v)] == d2[MessagesKey(v)]) &&
      (HeadsKey(v) in d1 <==> HeadsKey(v) in d2) &&
      (HeadsKey(v) in d1 ==> d1[HeadsKey(v)] == d2[HeadsKey(v)])
    ensures LoadInto(cur, d1) == LoadInto(cur, d2)
  {
  }

  /** A save interrupted after any proper prefix of its writes leaves the
      shelf loading exactly as it did before the save began. */
  lemma {:induction false} InterruptedSaveLoadsOld(cur: Snapshot, data: map<string, Value>, s: Snapshot, k: nat)
    requires k < |SaveWrites(data, s)|
    ensures LoadInto(cur, Apply(data, SaveWrites(data, s)[..k])) == LoadInto(cur, data)
  {
    var t := Target(data);
    var writes := SaveWrites(data, s);
    var m1 := data[MessagesKey(t) := Msgs(s.messages)];
    var m2 := m1[HeadsKey(t) := Heads(s.heads)];
    KeysDistinct(t, t);
    if PointerKey in data && data[PointerKey].Ver? {
      var v := data[PointerKey].ver;
      TargetIsOther(data);
      KeysDistinct(v, t);
      KeysDistinct(t, v);
    }
    if k == 0 {
      assert writes[..0] == [];
    } else if k == 1 {
      assert writes[..1] == [writes[0]];
      assert Apply(data, writes[..1]) == Apply(m1, []) == m1;
      LoadReadsOnlyActive(cur, m1, data);
    } else {
      assert writes[..2] == [writes[0], writes[1]];
      assert [writes[0], writes[1]][1..] == [writes[1]];
      assert Apply(data, writes[..2]) == Apply(m1, [writes[1]]) == Apply(m2, []) == m2;
      LoadReadsOnlyActive(cur, m2, data);
    }
  }

  /** Crash safety in terms of a shelf's write log: if the process stops
      after a proper prefix of the save's writes has been logged, the shelf
      as it then stands loads as it did before the save. */
  lemma LoggedSaveStopLoadsOld(cur: Snapshot, origin: map<string, Value>, log: seq<(string, Value)>,
                               s: Snapshot, k: nat)
    requires k < 3
    ensures var before := Apply(origin, log);
      LoadInto(cur, Apply(origin, log + SaveWrites(before, s)[..k])) == LoadInto(cur, before)
  {
    var before := Apply(origin, log);
    ApplyConcat(origin, log, SaveWrites(before, s)[..k]);
    InterruptedSaveLoadsOld(cur, before, s, k);
  }

  /** The shelf after a complete save. */
  lemma {:induction false} SaveResult(data: map<string, Value>, s: Snapshot)
    ensures var t := Target(data);
      Apply(data, SaveWrites(data, s)) ==
        data[MessagesKey(t) := Msgs(s.messages)][HeadsKey(t) := Heads(s.heads)][PointerKey := Ver(t)]
  {
    var t := Target(data);
    var writes := SaveWrites(data, s);
    var m1 := data[MessagesKey(t) := Msgs(s.messages)];
    var m2 := m1[HeadsKey(t) := Heads(s.heads)];
    var m3 := m2[PointerKey := Ver(t)];
    assert writes[1..][1..][1..] == [];
    assert Apply(m3, []) == m3;
    assert Apply(m2, writes[1..][1..]) == Apply(m3, []);
    assert Apply(m1, writes[1..]) == Apply(m2, writes[1..][1..]);
    assert Apply(data, writes) == Apply(m1, writes[1..]);
  }

  /** After a complete save the shelf loads exactly the saved maps, whatever
      it held before. */
  lemma CompletedSaveLoadsNew(cur: Snapshot, data: map<string, Value>, s: Snapshot)
    ensures LoadInto(cur, Apply(data, SaveWrites(data, s))) == (None, s)
  {
    var t := Target(data);
    SaveResult(data, s);
    KeysDistinct(t, t);
  }

  /** A shelf that names a complete generation still names one after every
      prefix of a save's writes. */
  lemma CommittedAtEveryStep(data: map<string, Value>, s: Snapshot, k: nat)
    requires Committed(data)
    requires k <= |SaveWrites(data, s)|
    ensures Committed(Apply(data, SaveWrites(data, s)[..k]))
  {
    var writes := SaveWrites(data, s);
    var cur := Snapshot(map[], map[]);
    if k < |writes| {
      InterruptedSaveLoadsOld(cur, data, s, k);
    } else {
      assert writes[..k] == writes;
      CompletedSaveLoadsNew(cur, data, s);
    }
  }

  /** Saving twice alternates the generation, and the shelf then loads the
      maps of the second save. */
  lemma SaveTwice(cur: Snapshot, data: map<string, Value>, s1: Snapshot, s2: Snapshot)
    ensures var once := Apply(data, SaveWrites(data, s1));
      Target(once) == 1 - Target(data) &&
      LoadInto(cur, Apply(once, SaveWrites(once, s2))) == (None, s2)
  {
    var once := Apply(data, SaveWrites(data, s1));
    SaveResult(data, s1);
    CompletedSaveLoadsNew(cur, once, s2);
  }

  // ---------------------------------------------------------------------
  // The client object.

  class UsenetClient {
    var messages: map<MessageId, Message>
    var heads: map<MessageId, Summary>

    function State(): Snapshot
      reads this
    {
      Snapshot(messages, heads)
    }

    /** A client with empty maps, as `dbnew` leaves it. */
    constructor ()
      ensures State() == Snapshot(map[], map[])
    {
      messages := map[];
      heads := map[];
    }

    /** `dbnew`: start with empty maps. */
    method DbNew()
      modifies this
      ensures State() == Snapshot(map[], map[]) && Consistent(State())
    {
      messages := map[];
      heads := map[];
    }

    /** `message_add`: file the message and its summary under its message-id,
        or fail, before changing anything, when the header does not parse or
        has no message-id. */
    method MessageAdd(msource: Message) returns (err: Option<ClientError>)
      modifies this
      ensures match Insert(old(State()), msource, SummaryOf(msource))
        case Ok(s) => err == None && State() == s
        case Err(e) => err == Some(e) && State() == old(State())
      ensures old(Consistent(State())) ==> Consistent(State())
    {
      var msgList := msource;
      var summ := SummaryMake(msgList);
      if summ.Err? {
        return Some(BadHeader(summ.error));
      }
      if MessageIdKey !in summ.value {
        return Some(KeyMissing(MessageIdKey));
      }
      var mid := summ.value[MessageIdKey];
      if Consistent(State()) {
        InsertKeepsConsistent(State(), msource);
      }
      heads := heads[mid := summ.value];
      messages := messages[mid := msgList];
      err := None;
    }

    /** `state_load`: an empty name starts empty; otherwise the maps are read
        from the generation the shelf's active version names. */
    method StateLoad(db: string, shelf: Shelf) returns (err: Option<ClientError>)
      modifies this
      ensures db == "" ==> err == None && State() == Snapshot(map[], map[])
      ensures db != "" ==> (err, State()) == LoadInto(old(State()), shelf.data)
    {
      if db == "" {
        DbNew();
        return None;
      }
      var store := shelf.data;
      if PointerKey !in store {
        return Some(KeyMissing(PointerKey));
      }
      if !store[PointerKey].Ver? {
        return Some(WrongKind(PointerKey));
      }
      var ver := store[PointerKey].ver;
      var mk, hk := MessagesKey(ver), HeadsKey(ver);
      if mk !in store {
        return Some(KeyMissing(mk));
      }
      if !store[mk].Msgs? {
        return Some(WrongKind(mk));
      }
      messages := store[mk].messages;
      if hk !in store {
        return Some(KeyMissing(hk));
      }
      if !store[hk].Heads? {
        return Some(WrongKind(hk));
      }
      heads := store[hk].heads;
      err := None;
    }

    /** `state_save`: write both maps to the generation the active version
        does not name, close and reopen the shelf, then point at that
        generation.  The log records the three writes in that order. */
    method StateSave(shelf: Shelf)
      requires shelf.Valid()
      modifies shelf
      ensures shelf.Valid() && shelf.origin == old(shelf.origin)
      ensures shelf.log == old(shelf.log) + SaveWrites(old(shelf.data), State())
      ensures shelf.data == Apply(old(shelf.data), SaveWrites(old(shelf.data), State()))
    {
      var ver: int;
      if PointerKey !in shelf.data {
        ver := 0;
      } else if shelf.data[PointerKey] != Ver(0) {
        ver := 0;
      } else {
        ver := 1;
      }
      ghost var before := shelf.data;
      shelf.Put(MessagesKey(ver), Msgs(messages));
      shelf.Put(HeadsKey(ver), Heads(heads));
      // The shelf is closed and reopened here: a step boundary.
      shelf.Put(PointerKey, Ver(ver));
      SaveResult(before, State());
    }

    /** The part of `dbdump` that decides whether there is anything to dump:
        the stored pointer, or nothing when the shelf has none. */
    method DbDump(shelf: Shelf) returns (ver: Option<Value>)
      ensures ver.None? <==> PointerKey !in shelf.data
      ensures ver.Some? ==> ver.value == shelf.data[PointerKey]
    {
      if PointerKey !in shelf.data {
        return None;
      }
      ver := Some(shelf.data[PointerKey]);
    }
  }
}

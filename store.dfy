/** The topic/message store of mqtty/db.py: three tables, the queries a
    session offers, row creation, the topic links of a message, and the
    commit-or-roll-back discipline of a session. */
module Store {

  import opened Wrappers
  import opened Seqs
  import Text
  import Sorting

  // ---------------------------------------------------------------------
  // Rows and tables

  /** A row of the `topic` table. `updated` is an opaque timestamp. */
  datatype Topic = Topic(key: nat, name: string, subscribed: bool, description: string, updated: int)

  /** A row of the `message` table; `topicKey` is the topic it was created under. */
  datatype Message = Message(key: nat, topicKey: nat, text: string, updated: int)

  /** A row of the `topic_message` join table. */
  datatype TopicMessage = TopicMessage(key: nat, topicKey: nat, messageKey: nat, sequence: nat)

  /** The three tables, each in insertion (primary key) order. */
  datatype Tables = Tables(topics: seq<Topic>, messages: seq<Message>, links: seq<TopicMessage>)

  const Empty: Tables := Tables([], [], [])

  function TopicRel(): (Topic, Topic) -> bool
  {
    (a: Topic, b: Topic) => a.key < b.key && a.name != b.name
  }

  function MessageRel(): (Message, Message) -> bool
  {
    (a: Message, b: Message) => a.key < b.key
  }

  /** Link keys increase, and the links of one message carry increasing
      sequence numbers in the order they were added. */
  function LinkRel(): (TopicMessage, TopicMessage) -> bool
  {
    (a: TopicMessage, b: TopicMessage) =>
      a.key < b.key && (a.messageKey == b.messageKey ==> a.sequence < b.sequence)
  }

  /** The invariant of the stored rows. The schema (db.py:29-51) gives the
      primary keys, the UNIQUE `topic.name` and UNIQUE(message_key,
      sequence); keys rising in row order and per-message sequences that
      start at 1 and rise come from how new rows are numbered (SQLite rowids,
      and `max(...) + 1` at db.py:60 and 92), not from the schema. */
  ghost predicate Consistent(t: Tables)
  {
    && Ordered(t.topics, TopicRel())
    && Ordered(t.messages, MessageRel())
    && Ordered(t.links, LinkRel())
    && (forall i :: 0 <= i < |t.links| ==> t.links[i].sequence >= 1)
  }

  /** Consistency implies the UNIQUE(message_key, sequence) constraint. */
  lemma SequenceUnique(t: Tables, i: nat, j: nat)
    requires Consistent(t)
    requires i < j < |t.links|
    requires t.links[i].messageKey == t.links[j].messageKey
    ensures t.links[i].sequence != t.links[j].sequence
  {
    assert LinkRel()(t.links[i], t.links[j]);
  }

  // ---------------------------------------------------------------------
  // Fresh keys and sequence numbers

  /** An INTEGER PRIMARY KEY column gets one more than the largest key in use. */
  function NextTopicKey(t: Tables): (k: nat)
    ensures forall i :: 0 <= i < |t.topics| ==> t.topics[i].key < k
  {
    var keys := seq(|t.topics|, i requires 0 <= i < |t.topics| => t.topics[i].key);
    assert forall i :: 0 <= i < |t.topics| ==> keys[i] == t.topics[i].key;
    MaxNat(keys) + 1
  }

  function NextMessageKey(t: Tables): (k: nat)
    ensures forall i :: 0 <= i < |t.messages| ==> t.messages[i].key < k
  {
    var keys := seq(|t.messages|, i requires 0 <= i < |t.messages| => t.messages[i].key);
    assert forall i :: 0 <= i < |t.messages| ==> keys[i] == t.messages[i].key;
    MaxNat(keys) + 1
  }

  function NextLinkKey(t: Tables): (k: nat)
    ensures forall i :: 0 <= i < |t.links| ==> t.links[i].key < k
  {
    var keys := seq(|t.links|, i requires 0 <= i < |t.links| => t.links[i].key);
    assert forall i :: 0 <= i < |t.links| ==> keys[i] == t.links[i].key;
    MaxNat(keys) + 1
  }

  /** `[x.sequence for x in message.topic_messages]`. */
  function SequencesOf(links: seq<TopicMessage>, messageKey: nat): (r: seq<nat>)
    ensures forall i :: 0 <= i < |links| && links[i].messageKey == messageKey ==> links[i].sequence in r
    ensures (forall i :: 0 <= i < |links| ==> links[i].messageKey != messageKey) ==> r == []
  {
    if links == [] then []
    else
      var init := links[..|links| - 1];
      var last := links[|links| - 1];
      assert forall i :: 0 <= i < |links| - 1 ==> links[i] == init[i];
      SequencesOf(init, messageKey) + (if last.messageKey == messageKey then [last.sequence] else [])
  }

  /** `max([x.sequence for x in message.topic_messages] + [0]) + 1`: above every
      sequence the message already has, and 1 for a message with no links. */
  function NextSequence(links: seq<TopicMessage>, messageKey: nat): (n: nat)
    ensures n >= 1
    ensures forall i :: 0 <= i < |links| && links[i].messageKey == messageKey ==> links[i].sequence < n
    ensures (forall i :: 0 <= i < |links| ==> links[i].messageKey != messageKey) ==> n == 1
  {
    var seqs := SequencesOf(links, messageKey);
    forall i | 0 <= i < |links| && links[i].messageKey == messageKey
      ensures links[i].sequence <= MaxNat(seqs)
    {
      var k :| 0 <= k < |seqs| && seqs[k] == links[i].sequence;
    }
    MaxNat(seqs) + 1
  }

  // ---------------------------------------------------------------------
  // Ordering of query results

  datatype SortKey = ByKey | ByUpdated | ByName

  /** The columns `ORDER BY` may use, projected from a row. */
  datatype SortFields = SortFields(key: nat, updated: int, name: string)

  function CompareInts(a: int, b: int): int
  {
    if a < b then -1 else if a > b then 1 else 0
  }

  function CompareOn(k: SortKey, f: SortFields, g: SortFields): int
  {
    match k
    case ByKey => CompareInts(f.key, g.key)
    case ByUpdated => CompareInts(f.updated, g.updated)
    case ByName => Text.Compare(f.name, g.name)
  }

  /** `ORDER BY k1, k2, ...`: the first key that differs decides; rows equal on
      every key keep primary key order, as SQLite returns them from its
      (column, rowid) indexes. */
  function CompareFields(f: SortFields, g: SortFields, keys: seq<SortKey>): int
  {
    if keys == [] then CompareInts(f.key, g.key)
    else
      var c := CompareOn(keys[0], f, g);
      if c != 0 then c else CompareFields(f, g, keys[1..])
  }

  lemma CompareOnLaws(k: SortKey, f: SortFields, g: SortFields, h: SortFields)
    ensures CompareOn(k, f, g) < 0 <==> CompareOn(k, g, f) > 0
    ensures CompareOn(k, f, g) == 0 ==> CompareOn(k, g, f) == 0 && CompareOn(k, f, h) == CompareOn(k, g, h)
    ensures CompareOn(k, f, g) <= 0 && CompareOn(k, g, h) <= 0 ==> CompareOn(k, f, h) <= 0
    ensures CompareOn(k, f, g) < 0 && CompareOn(k, g, h) <= 0 ==> CompareOn(k, f, h) < 0
    ensures CompareOn(k, f, g) <= 0 && CompareOn(k, g, h) < 0 ==> CompareOn(k, f, h) < 0
  {
    if k == ByName {
      Text.CompareAntisymmetric(f.name, g.name);
      Text.CompareTransitive(f.name, g.name, h.name);
    }
  }

  lemma {:induction false} CompareFieldsTotal(f: SortFields, g: SortFields, keys: seq<SortKey>)
    ensures CompareFields(f, g, keys) <= 0 || CompareFields(g, f, keys) <= 0
  {
    if keys != [] {
      CompareOnLaws(keys[0], f, g, f);
      CompareOnLaws(keys[0], g, f, g);
      if CompareOn(keys[0], f, g) == 0 {
        CompareFieldsTotal(f, g, keys[1..]);
      }
    }
  }

  lemma {:induction false} CompareFieldsTransitive(f: SortFields, g: SortFields, h: SortFields, keys: seq<SortKey>)
    requires CompareFields(f, g, keys) <= 0 && CompareFields(g, h, keys) <= 0
    ensures CompareFields(f, h, keys) <= 0
  {
    if keys != [] {
      var k := keys[0];
      CompareOnLaws(k, f, g, h);
      CompareOnLaws(k, g, h, f);
      CompareOnLaws(k, g, f, h);
      CompareOnLaws(k, h, g, f);
      if CompareOn(k, f, g) == 0 && CompareOn(k, g, h) == 0 {
        CompareFieldsTransitive(f, g, h, keys[1..]);
      }
    }
  }

  function TopicFields(u: Topic): SortFields
  {
    SortFields(u.key, u.updated, u.name)
  }

  /** Messages have no name column; their name field is never compared,
      because a `name` sort key makes the message query fail. */
  function MessageFields(m: Message): SortFields
  {
    SortFields(m.key, m.updated, "")
  }

  function TopicOrder(keys: seq<SortKey>): (Topic, Topic) -> bool
  {
    (a: Topic, b: Topic) => CompareFields(TopicFields(a), TopicFields(b), keys) <= 0
  }

  function MessageOrder(keys: seq<SortKey>): (Message, Message) -> bool
  {
    (a: Message, b: Message) => CompareFields(MessageFields(a), MessageFields(b), keys) <= 0
  }

  lemma TopicOrderIsPreorder(keys: seq<SortKey>)
    ensures Sorting.TotalPreorder(TopicOrder(keys))
  {
    forall a: Topic, b: Topic ensures TopicOrder(keys)(a, b) || TopicOrder(keys)(b, a) {
      CompareFieldsTotal(TopicFields(a), TopicFields(b), keys);
    }
    forall a: Topic, b: Topic, c: Topic | TopicOrder(keys)(a, b) && TopicOrder(keys)(b, c)
      ensures TopicOrder(keys)(a, c)
    {
      CompareFieldsTransitive(TopicFields(a), TopicFields(b), TopicFields(c), keys);
    }
  }

  lemma MessageOrderIsPreorder(keys: seq<SortKey>)
    ensures Sorting.TotalPreorder(MessageOrder(keys))
  {
    forall a: Message, b: Message ensures MessageOrder(keys)(a, b) || MessageOrder(keys)(b, a) {
      CompareFieldsTotal(MessageFields(a), MessageFields(b), keys);
    }
    forall a: Message, b: Message, c: Message | MessageOrder(keys)(a, b) && MessageOrder(keys)(b, c)
      ensures MessageOrder(keys)(a, c)
    {
      CompareFieldsTransitive(MessageFields(a), MessageFields(b), MessageFields(c), keys);
    }
  }

  /** The `sort_by` names `getTopics` understands, in the order given;
      any other name is skipped. */
  function TopicSortKeys(sortBy: seq<string>): (keys: seq<SortKey>)
    ensures |keys| <= |sortBy|
  {
    if sortBy == [] then []
    else
      var s := sortBy[0];
      var rest := TopicSortKeys(sortBy[1..]);
      if s == "key" then [ByKey] + rest
      else if s == "updated" then [ByUpdated] + rest
      else if s == "name" then [ByName] + rest
      else rest
  }

  /** Unknown sort names change nothing, wherever they stand in the list. */
  lemma {:induction false} UnknownSortNamesIgnored(front: seq<string>, s: string, back: seq<string>)
    requires s != "key" && s != "updated" && s != "name"
    ensures TopicSortKeys(front + [s] + back) == TopicSortKeys(front + back)
  {
    var whole := front + [s] + back;
    if front == [] {
      assert whole[0] == s && whole[1..] == back;
      assert front + back == back;
    } else {
      UnknownSortNamesIgnored(front[1..], s, back);
      assert (front + [s] + back)[0] == front[0];
      assert (front + [s] + back)[1..] == front[1..] + [s] + back;
      assert (front + back)[0] == front[0];
      assert (front + back)[1..] == front[1..] + back;
    }
  }

  /** The `sort_by` names `getMessagesByTopic` understands; `None` when the
      list names `name`, which the message table does not have. */
  function MessageSortKeys(sortBy: seq<string>): (r: Option<seq<SortKey>>)
    ensures r.None? <==> "name" in sortBy
  {
    if sortBy == [] then Some([])
    else
      var s := sortBy[0];
      var rest := MessageSortKeys(sortBy[1..]);
      assert sortBy == [s] + sortBy[1..];
      if s == "name" then None
      else if rest.None? then None
      else if s == "key" then Some([ByKey] + rest.value)
      else if s == "updated" then Some([ByUpdated] + rest.value)
      else rest
  }

  // ---------------------------------------------------------------------
  // Queries (DatabaseSession.get*)

  function HasTopicKey(key: nat): Topic -> bool
  {
    (u: Topic) => u.key == key
  }

  function HasName(name: string): Topic -> bool
  {
    (u: Topic) => u.name == name
  }

  function HasMessageKey(key: nat): Message -> bool
  {
    (m: Message) => m.key == key
  }

  function InTopic(topicKey: nat): Message -> bool
  {
    (m: Message) => m.topicKey == topicKey
  }

  function IsSubscribed(): Topic -> bool
  {
    (u: Topic) => u.subscribed
  }

  /** `getTopic(key)`: the topic with that key, or `None`. */
  function GetTopic(t: Tables, key: nat): (r: Option<Topic>)
    ensures r.None? <==> forall i :: 0 <= i < |t.topics| ==> t.topics[i].key != key
    ensures r.Some? ==> r.value in t.topics && r.value.key == key
  {
    Find(t.topics, HasTopicKey(key))
  }

  /** `getTopicByName(name)`: the topic with that name, or `None`. */
  function GetTopicByName(t: Tables, name: string): (r: Option<Topic>)
    ensures r.None? <==> forall i :: 0 <= i < |t.topics| ==> t.topics[i].name != name
    ensures r.Some? ==> r.value in t.topics && r.value.name == name
  {
    Find(t.topics, HasName(name))
  }

  /** `getMessage(key)`: the message with that key, or `None`. */
  function GetMessage(t: Tables, key: nat): (r: Option<Message>)
    ensures r.None? <==> forall i :: 0 <= i < |t.messages| ==> t.messages[i].key != key
    ensures r.Some? ==> r.value in t.messages && r.value.key == key
  {
    Find(t.messages, HasMessageKey(key))
  }

  /** In a consistent store the name lookup finds exactly the topic that has
      that name: topic names are unique. */
  lemma {:induction false} TopicByNameUnique(t: Tables, u: Topic)
    requires Consistent(t)
    requires u in t.topics
    ensures GetTopicByName(t, u.name) == Some(u)
  {
    TopicNamesDistinct(t);
  }

  lemma TopicNamesDistinct(t: Tables)
    requires Consistent(t)
    ensures forall i, j :: 0 <= i < |t.topics| && 0 <= j < |t.topics| && i != j ==> t.topics[i].name != t.topics[j].name
  {
    forall i, j | 0 <= i < |t.topics| && 0 <= j < |t.topics| && i != j
      ensures t.topics[i].name != t.topics[j].name
    {
      if i < j {
        assert TopicRel()(t.topics[i], t.topics[j]);
      } else {
        assert TopicRel()(t.topics[j], t.topics[i]);
      }
    }
  }

  /** The rows in the order the sort keys give. */
  function SortTopics(rows: seq<Topic>, keys: seq<SortKey>): (r: seq<Topic>)
    ensures multiset(r) == multiset(rows)
    ensures forall u :: u in r <==> u in rows
    ensures Sorting.SortedBy(r, TopicOrder(keys))
  {
    TopicOrderIsPreorder(keys);
    Sorting.SortSorted(rows, TopicOrder(keys));
    assert forall u :: u in Sorting.Sort(rows, TopicOrder(keys)) <==> u in multiset(rows);
    Sorting.Sort(rows, TopicOrder(keys))
  }

  function SortMessages(rows: seq<Message>, keys: seq<SortKey>): (r: seq<Message>)
    ensures multiset(r) == multiset(rows)
    ensures forall m :: m in r <==> m in rows
    ensures Sorting.SortedBy(r, MessageOrder(keys))
  {
    MessageOrderIsPreorder(keys);
    Sorting.SortSorted(rows, MessageOrder(keys));
    assert forall m :: m in Sorting.Sort(rows, MessageOrder(keys)) <==> m in multiset(rows);
    Sorting.Sort(rows, MessageOrder(keys))
  }

  /** `getTopics(subscribed, sort_by)`: every topic, or only the subscribed
      ones, ordered by the recognised sort names in priority order. */
  function GetTopics(t: Tables, subscribed: bool, sortBy: seq<string>): (r: seq<Topic>)
    ensures forall u :: u in r <==> u in t.topics && (subscribed ==> u.subscribed)
    ensures subscribed ==> multiset(r) == multiset(Filter(t.topics, IsSubscribed()))
    ensures !subscribed ==> multiset(r) == multiset(t.topics)
    ensures Sorting.SortedBy(r, TopicOrder(TopicSortKeys(sortBy)))
  {
    var rows := if subscribed then Filter(t.topics, IsSubscribed()) else t.topics;
    SortTopics(rows, TopicSortKeys(sortBy))
  }

  /** The first recognised sort name dominates the order of the result. */
  lemma FirstSortKeyDominates(t: Tables, subscribed: bool, sortBy: seq<string>, i: nat, j: nat)
    requires TopicSortKeys(sortBy) != []
    requires i < j < |GetTopics(t, subscribed, sortBy)|
    ensures var r := GetTopics(t, subscribed, sortBy);
            CompareOn(TopicSortKeys(sortBy)[0], TopicFields(r[i]), TopicFields(r[j])) <= 0
  {
    var r := GetTopics(t, subscribed, sortBy);
    assert TopicOrder(TopicSortKeys(sortBy))(r[i], r[j]);
  }

  /** `getMessages()`: every message, in key order. */
  function GetMessages(t: Tables): (r: seq<Message>)
    ensures multiset(r) == multiset(t.messages)
    ensures Sorting.SortedBy(r, MessageOrder([ByKey]))
  {
    SortMessages(t.messages, [ByKey])
  }

  /** `getMessagesByTopic(topic, sort_by)`: the messages whose `topic_key` is
      the topic's key, ordered by the sort names; `None` where the source
      fails on the non-existent `name` column. */
  function GetMessagesByTopic(t: Tables, topic: Topic, sortBy: seq<string>): (r: Option<seq<Message>>)
    ensures r.None? <==> "name" in sortBy
    ensures r.Some? ==> forall m :: m in r.value <==> m in t.messages && m.topicKey == topic.key
    ensures r.Some? ==> multiset(r.value) == multiset(Filter(t.messages, InTopic(topic.key)))
    ensures r.Some? ==> Sorting.SortedBy(r.value, MessageOrder(MessageSortKeys(sortBy).value))
  {
    match MessageSortKeys(sortBy)
    case None => None
    case Some(keys) => Some(SortMessages(Filter(t.messages, InTopic(topic.key)), keys))
  }

  lemma KeySortKeys()
    ensures MessageSortKeys(["key"]) == Some([ByKey])
  {
    var sortBy: seq<string> := ["key"];
    assert sortBy[0] == "key" && sortBy[1..] == [];
    assert MessageSortKeys([]) == Some([]);
    assert "key" != "name" by { assert "key"[0] != "name"[0]; }
    assert MessageSortKeys(sortBy) == Some([ByKey] + []);
    assert [ByKey] + [] == [ByKey];
  }

  /** With the default `sort_by='key'` the query returns the topic's messages
      exactly in insertion (key) order. */
  lemma DefaultMessageOrder(t: Tables, topic: Topic)
    requires Consistent(t)
    ensures GetMessagesByTopic(t, topic, ["key"]) == Some(Filter(t.messages, InTopic(topic.key)))
  {
    var rows := Filter(t.messages, InTopic(topic.key));
    KeySortKeys();
    FilterOrdered(t.messages, InTopic(topic.key), MessageRel());
    assert Sorting.SortedBy(rows, MessageOrder([ByKey])) by {
      forall i, j | 0 <= i < j < |rows| ensures MessageOrder([ByKey])(rows[i], rows[j]) {
        assert MessageRel()(rows[i], rows[j]);
      }
    }
    Sorting.SortOfSorted(rows, MessageOrder([ByKey]));
    assert SortMessages(rows, [ByKey]) == rows;
  }

  /** The number of messages the topic list shows for a topic. */
  function MessageCount(t: Tables, topic: Topic): nat
  {
    KeySortKeys();
    |GetMessagesByTopic(t, topic, ["key"]).value|
  }

  /** The count is the number of messages filed under the topic. */
  lemma MessageCountCounts(t: Tables, topic: Topic)
    ensures MessageCount(t, topic) == |Filter(t.messages, InTopic(topic.key))|
  {
    KeySortKeys();
    var r := GetMessagesByTopic(t, topic, ["key"]);
    assert |r.value| == |multiset(r.value)|;
  }

  // ---------------------------------------------------------------------
  // Link rows

  function NotLinkOf(messageKey: nat, topicKey: nat): TopicMessage -> bool
  {
    (l: TopicMessage) => !(l.messageKey == messageKey && l.topicKey == topicKey)
  }

  predicate Linked(links: seq<TopicMessage>, messageKey: nat, topicKey: nat)
  {
    exists i :: 0 <= i < |links| && links[i].messageKey == messageKey && links[i].topicKey == topicKey
  }

  /** The join rows left once every row of this message and topic is gone,
      as `removeTopic` evidently means to leave them: the others keep their
      order and no row of the pair survives. */
  function Unlink(links: seq<TopicMessage>, messageKey: nat, topicKey: nat): (r: seq<TopicMessage>)
    ensures !Linked(r, messageKey, topicKey)
    ensures forall l :: l in r <==> l in links && !(l.messageKey == messageKey && l.topicKey == topicKey)
  {
    var kept := Filter(links, NotLinkOf(messageKey, topicKey));
    forall i | 0 <= i < |kept| ensures NotLinkOf(messageKey, topicKey)(kept[i]) {
      assert kept[i] in kept;
    }
    kept
  }

  /** The row `message.addTopic(topic)` is evidently meant to insert: the next
      free key, the topic and message keys, and the message's next sequence. */
  function NewLink(t: Tables, messageKey: nat, topicKey: nat): (l: TopicMessage)
    ensures l.topicKey == topicKey && l.messageKey == messageKey
    ensures forall i :: 0 <= i < |t.links| ==> t.links[i].key < l.key
    ensures forall i :: 0 <= i < |t.links| && t.links[i].messageKey == messageKey ==> t.links[i].sequence < l.sequence
  {
    TopicMessage(NextLinkKey(t), topicKey, messageKey, NextSequence(t.links, messageKey))
  }

  lemma AppendLinkConsistent(t: Tables, l: TopicMessage)
    requires Consistent(t)
    requires l == NewLink(t, l.messageKey, l.topicKey)
    ensures Consistent(t.(links := t.links + [l]))
  {
    var links := t.links + [l];
    forall i, j | 0 <= i < j < |links| ensures LinkRel()(links[i], links[j]) {
      if j < |t.links| {
        assert LinkRel()(t.links[i], t.links[j]);
      }
    }
  }

  lemma RemoveLinksConsistent(t: Tables, p: TopicMessage -> bool)
    requires Consistent(t)
    ensures Consistent(t.(links := Filter(t.links, p)))
  {
    FilterOrdered(t.links, p, LinkRel());
    var f := Filter(t.links, p);
    forall i | 0 <= i < |f| ensures f[i].sequence >= 1 {
      assert f[i] in t.links;
    }
  }

  /** The row `message.addTopic(topic)` inserts AS WRITTEN (db.py:93 with the
      constructor at db.py:79-82): `TopicMessage(topic, self, seq)` sets
      `topic_key` from the message, and the relationship append sets
      `message_key` to the message key too. */
  function AddTopicRowAsWritten(t: Tables, m: Message, topic: Topic): (l: TopicMessage)
    ensures l.topicKey == m.key && l.messageKey == m.key
  {
    TopicMessage(NextLinkKey(t), m.key, m.key, NextSequence(t.links, m.key))
  }

  /** The as-written row files the message under a topic whose key is the
      message's own key: with message key 1 and topic key 2 the new row does
      not link the message to topic 2. */
  lemma AddTopicAsWrittenMisfiles()
    ensures var m := Message(1, 2, "x", 0);
            var topic := Topic(2, "b", false, "", 0);
            var l := AddTopicRowAsWritten(Empty, m, topic);
            l.topicKey != topic.key && !Linked([l], m.key, topic.key)
  {
  }

  /** The effect of `for tm in lst: if cond(tm): lst.remove(tm)` AS WRITTEN
      (db.py:101-104, and db.py:70-74): the list iterator advances by index
      while the list shrinks, so the element after each removed one is
      never examined. */
  function RemoveWhileIterating(s: seq<TopicMessage>, topicKey: nat, i: nat): (r: seq<TopicMessage>)
    ensures |r| <= |s|
    decreases |s| - i
  {
    if i >= |s| then s
    else if s[i].topicKey == topicKey then RemoveWhileIterating(s[..i] + s[i + 1..], topicKey, i + 1)
    else RemoveWhileIterating(s, topicKey, i + 1)
  }

  /** Two consecutive links of message 3 to topic 7: the as-written loop
      removes the first and skips the second, so the message is still
      linked to the topic, which `Unlink` rules out. */
  lemma RemoveWhileIteratingSkips()
    ensures var a := TopicMessage(1, 7, 3, 1);
            var b := TopicMessage(2, 7, 3, 2);
            RemoveWhileIterating([a, b], 7, 0) == [b] && Linked([b], 3, 7)
  {
    var a := TopicMessage(1, 7, 3, 1);
    var b := TopicMessage(2, 7, 3, 2);
    assert [a, b][..0] + [a, b][1..] == [b];
    assert [b][0] == b;
  }

  /** The attributes of a mapped `Topic`: its columns (db.py:29-36) and the
      one relationship its mapper adds (db.py:108-112). */
  const TopicAttributes: set<string> := {"key", "name", "subscribed", "description", "updated", "messages"}

  /** The attributes of a mapped `Message`: its columns (db.py:37-43) and the
      two relationships its mapper adds (db.py:113-119). */
  const MessageAttributes: set<string> := {"key", "topic_key", "message", "updated", "topics", "topic_messages"}

  /** `Topic.addMessage` AS WRITTEN (db.py:59-66), up to its first attribute
      lookup: line 61 reads `self.topic_messages`, and `None` is the
      `AttributeError` raised when the mapping lacks it. Past that lookup the
      model stands in the row the method evidently means. */
  function TopicAddMessageAsWritten(t: Tables, topic: Topic, m: Message): Option<TopicMessage>
  {
    if "topic_messages" in TopicAttributes then Some(NewLink(t, m.key, topic.key)) else None
  }

  /** `Topic.removeMessage` AS WRITTEN (db.py:68-76): line 70 reads
      `self.topic_messages` (`None`: the `AttributeError`); past it, the
      FIXME filter of line 72 tests only the topic key, inside the
      remove-while-iterating loop. */
  function TopicRemoveMessageAsWritten(links: seq<TopicMessage>, topic: Topic, m: Message): Option<seq<TopicMessage>>
  {
    if "topic_messages" in TopicAttributes then Some(RemoveWhileIterating(links, topic.key, 0)) else None
  }

  /** Only a `Message` has `topic_messages`: every call of the as-written
      `Topic.addMessage` and `Topic.removeMessage` raises before it writes
      anything, while `Message.addTopic` gets past that lookup. */
  lemma TopicLinkMethodsAsWrittenFail(t: Tables, topic: Topic, m: Message)
    ensures "topic_messages" !in TopicAttributes && "topic_messages" in MessageAttributes
    ensures TopicAddMessageAsWritten(t, topic, m).None?
    ensures TopicRemoveMessageAsWritten(t.links, topic, m).None?
  {
    assert |"topic_messages"| == 14;
    forall a | a in TopicAttributes ensures |a| != 14 {
    }
  }

  /** Even past the lookup, the FIXME filter of db.py:72 ignores the message:
      removing message 3 from topic 7 would delete message 4's join row to
      topic 7, which `Unlink` keeps. */
  lemma TopicRemoveFilterIgnoresMessage()
    ensures var other := TopicMessage(1, 7, 4, 1);
            RemoveWhileIterating([other], 7, 0) == [] && Unlink([other], 3, 7) == [other]
  {
    var other := TopicMessage(1, 7, 4, 1);
    assert [other][..0] + [other][1..] == [];
    assert other in Unlink([other], 3, 7);
  }

  // ---------------------------------------------------------------------
  // The database and its sessions

  /** `Database` together with the state of its scoped session. */
  class Database {
    /** The rows an open session sees, its own flushed writes included. */
    var tables: Tables
    /** The rows as of the last commit. */
    var committed: Tables
    /** `Database.lock`, held from `__enter__` to `__exit__` of a session. */
    var locked: bool
    /** `Database.topics`: the latest payload per topic name (`append`). */
    var latest: map<string, string>

    ghost predicate Valid()
      reads this
    {
      Consistent(tables) && Consistent(committed) && (!locked ==> tables == committed)
    }

    /** A database over the rows already on disk. */
    constructor (onDisk: Tables)
      requires Consistent(onDisk)
      ensures Valid() && !locked
      ensures tables == onDisk && committed == onDisk && latest == map[]
    {
      tables := onDisk;
      committed := onDisk;
      locked := false;
      latest := map[];
    }

    /** `Database.append(msg)`: remembers the payload under the topic name. */
    method Append(topicName: string, payload: string)
      modifies this`latest
      ensures latest == old(latest)[topicName := payload]
      ensures topicName in latest && latest[topicName] == payload
    {
      latest := latest[topicName := payload];
    }

    /** `DatabaseSession.__enter__`: takes the lock. */
    method Enter()
      requires Valid() && !locked
      modifies this`locked
      ensures Valid() && locked
    {
      locked := true;
    }

    /** `DatabaseSession.__exit__`: commits when the block ended normally,
        rolls back when it raised, and releases the lock either way. */
    method Exit(raised: bool)
      requires Valid() && locked
      modifies this`tables, this`committed, this`locked
      ensures Valid() && !locked
      ensures raised ==> tables == old(committed) && committed == old(committed)
      ensures !raised ==> tables == old(tables) && committed == old(tables)
    {
      if raised {
        tables := committed;
      } else {
        committed := tables;
      }
      locked := false;
    }

    /** `DatabaseSession.commit()`. */
    method Commit()
      requires Valid() && locked
      modifies this`committed
      ensures Valid() && locked
      ensures committed == tables
    {
      committed := tables;
    }

    /** `DatabaseSession.abort()`: discards everything since the last commit. */
    method Abort()
      requires Valid() && locked
      modifies this`tables
      ensures Valid() && locked
      ensures tables == committed
    {
      tables := committed;
    }

    /** `createTopic(name)`: a new topic with a fresh key and the column
        defaults; `None` (the UNIQUE violation raised at flush) when the name
        is taken, with nothing written. */
    method CreateTopic(name: string, now: int) returns (r: Option<Topic>)
      requires Valid() && locked
      modifies this`tables
      ensures Valid() && locked && committed == old(committed)
      ensures GetTopicByName(old(tables), name).Some? ==> r.None? && tables == old(tables)
      ensures GetTopicByName(old(tables), name).None? ==>
                r == Some(Topic(NextTopicKey(old(tables)), name, false, "", now)) &&
                tables == old(tables).(topics := old(tables).topics + [r.value])
    {
      if GetTopicByName(tables, name).Some? {
        return None;
      }
      var topic := Topic(NextTopicKey(tables), name, false, "", now);
      ghost var ts := tables.topics + [topic];
      forall i, j | 0 <= i < j < |ts| ensures TopicRel()(ts[i], ts[j]) {
        if j < |tables.topics| {
          assert TopicRel()(tables.topics[i], tables.topics[j]);
        }
      }
      tables := tables.(topics := tables.topics + [topic]);
      r := Some(topic);
    }

    /** `createMessage(text, topic)`: a new message under the topic with a
        fresh key. No join row is written and no other table changes. */
    method CreateMessage(text: string, topic: Topic, now: int) returns (m: Message)
      requires Valid() && locked
      modifies this`tables
      ensures Valid() && locked && committed == old(committed)
      ensures m == Message(NextMessageKey(old(tables)), topic.key, text, now)
      ensures tables == old(tables).(messages := old(tables).messages + [m])
    {
      m := Message(NextMessageKey(tables), topic.key, text, now);
      ghost var ms := tables.messages + [m];
      forall i, j | 0 <= i < j < |ms| ensures MessageRel()(ms[i], ms[j]) {
        if j < |tables.messages| {
          assert MessageRel()(tables.messages[i], tables.messages[j]);
        }
      }
      tables := tables.(messages := tables.messages + [m]);
    }

    /** `message.addTopic(topic)`, as evidently intended: one new join row
        linking the message to the topic, with the message's next sequence. */
    method AddTopic(m: Message, topic: Topic) returns (l: TopicMessage)
      requires Valid() && locked
      requires m in tables.messages
      modifies this`tables
      ensures Valid() && locked && committed == old(committed)
      ensures l == NewLink(old(tables), m.key, topic.key)
      ensures tables == old(tables).(links := old(tables).links + [l])
    {
      l := NewLink(tables, m.key, topic.key);
      AppendLinkConsistent(tables, l);
      tables := tables.(links := tables.links + [l]);
    }

    /** `topic.addMessage(message)`, as evidently intended: the same join row
        as `message.addTopic(topic)`. */
    method AddMessage(topic: Topic, m: Message) returns (l: TopicMessage)
      requires Valid() && locked
      requires topic in tables.topics && m in tables.messages
      modifies this`tables
      ensures Valid() && locked && committed == old(committed)
      ensures l == NewLink(old(tables), m.key, topic.key)
      ensures tables == old(tables).(links := old(tables).links + [l])
    {
      l := AddTopic(m, topic);
    }

    /** `message.removeTopic(topic)`, as evidently intended: deletes every join
        row of this message and topic; `ok` is false (the `ValueError` of
        `message.topics.remove`) when there was none. Messages stay. */
    method RemoveTopic(m: Message, topic: Topic) returns (ok: bool)
      requires Valid() && locked
      modifies this`tables
      ensures Valid() && locked && committed == old(committed)
      ensures ok == Linked(old(tables).links, m.key, topic.key)
      ensures tables == old(tables).(links := Unlink(old(tables).links, m.key, topic.key))
    {
      ok := Linked(tables.links, m.key, topic.key);
      RemoveLinksConsistent(tables, NotLinkOf(m.key, topic.key));
      tables := tables.(links := Unlink(tables.links, m.key, topic.key));
    }

    /** `topic.removeMessage(message)`, as evidently intended: deletes the join
        rows of this topic and message; `ok` is false (the `ValueError` of
        `topic.messages.remove`) when the message was not created under the
        topic, after the rows are gone. */
    method RemoveMessage(topic: Topic, m: Message) returns (ok: bool)
      requires Valid() && locked
      modifies this`tables
      ensures Valid() && locked && committed == old(committed)
      ensures ok == (m.topicKey == topic.key)
      ensures tables == old(tables).(links := Unlink(old(tables).links, m.key, topic.key))
    {
      RemoveLinksConsistent(tables, NotLinkOf(m.key, topic.key));
      tables := tables.(links := Unlink(tables.links, m.key, topic.key));
      ok := m.topicKey == topic.key;
    }
  }
}

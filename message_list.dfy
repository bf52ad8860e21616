/** The message list screen of mqtty/view/message_list.py: the rows of one
    topic's messages and the row cache its refresh keeps. */
module MessageList {

  import opened Seqs
  import Text
  import Store
  import Rows

  /** `MessageRow`: `topicName` is the text `_setName` was given (the
      message payload), `nameText`, `keyText` what its text widgets show. */
  datatype MessageRow = MessageRow(
    topicName: string,
    mark: bool,
    nameText: string,
    keyText: string,
    updated: int)

  function MessageKey(m: Store.Message): nat
  {
    m.key
  }

  /** `MessageRow(message)`: unmarked, named after the payload, showing the
      message's key and update time. */
  function NewMessageRow(m: Store.Message): (r: MessageRow)
    ensures !r.mark && r.topicName == m.text && r.nameText == Rows.MarkedName(m.text, false)
  {
    MessageRow(m.text, false, Rows.MarkedName(m.text, false), Rows.NumberText(m.key), m.updated)
  }

  /** `row.update(message)`: the key and the update time are refreshed; the
      shown payload and the mark stay as they were. */
  function UpdateMessageRow(r: MessageRow, m: Store.Message): (u: MessageRow)
    ensures u.topicName == r.topicName && u.mark == r.mark && u.nameText == r.nameText
  {
    r.(keyText := Rows.NumberText(m.key), updated := m.updated)
  }

  /** A new or updated row shows the message's key and update time. */
  lemma RowShowsMessage(r: MessageRow, m: Store.Message)
    ensures var u := UpdateMessageRow(r, m);
            Text.DigitsValue(u.keyText[..|u.keyText| - 1]) == m.key && u.updated == m.updated
    ensures var n := NewMessageRow(m);
            Text.DigitsValue(n.keyText[..|n.keyText| - 1]) == m.key && n.updated == m.updated
  {
    Rows.NumberTextValue(m.key);
  }

  /** `getMessagesByTopic(self.topic)`, with its default order by key. */
  function ListedMessages(t: Store.Tables, topic: Store.Topic): seq<Store.Message>
  {
    Store.KeySortKeys();
    Store.GetMessagesByTopic(t, topic, ["key"]).value
  }

  /** In a consistent store the listing is the topic's messages in the order
      they were stored, and no two of them share a key. */
  lemma ListedMessagesOfTopic(t: Store.Tables, topic: Store.Topic)
    requires Store.Consistent(t)
    ensures ListedMessages(t, topic) == Filter(t.messages, Store.InTopic(topic.key))
    ensures Rows.DistinctKeys(ListedMessages(t, topic), MessageKey)
  {
    Store.DefaultMessageOrder(t, topic);
    var l := Filter(t.messages, Store.InTopic(topic.key));
    FilterOrdered(t.messages, Store.InTopic(topic.key), Store.MessageRel());
    forall i, j | 0 <= i < j < |l| ensures MessageKey(l[i]) != MessageKey(l[j]) {
      assert Store.MessageRel()(l[i], l[j]);
    }
  }

  /** The cache a refresh of the topic's messages leaves behind. */
  function Refreshed(c: Rows.Cache<MessageRow>, t: Store.Tables, topic: Store.Topic): Rows.Cache<MessageRow>
  {
    Rows.RefreshAll(c, ListedMessages(t, topic), MessageKey, NewMessageRow, UpdateMessageRow)
  }

  /** After a refresh every message of the topic has exactly one row, showing
      its key and update time; a row already there keeps its payload and
      mark, a new one shows the payload unmarked. */
  lemma RefreshShowsMessages(c: Rows.Cache<MessageRow>, t: Store.Tables, topic: Store.Topic, m: Store.Message)
    requires Store.Consistent(t) && Rows.CacheInv(c)
    requires m in t.messages && m.topicKey == topic.key
    ensures var r := Refreshed(c, t, topic);
            && Rows.CacheInv(r)
            && m.key in r.rows && m.key in r.body
            && r.rows[m.key].updated == m.updated
            && r.rows[m.key].keyText == Rows.NumberText(m.key)
            && (m.key in c.rows ==> r.rows[m.key].topicName == c.rows[m.key].topicName &&
                                    r.rows[m.key].mark == c.rows[m.key].mark)
            && (m.key !in c.rows ==> r.rows[m.key].nameText == Rows.MarkedName(m.text, false) && !r.rows[m.key].mark)
  {
    var l := ListedMessages(t, topic);
    ListedMessagesOfTopic(t, topic);
    assert m in l;
    var i :| 0 <= i < |l| && l[i] == m;
    Rows.RefreshRowOf(c, l, MessageKey, NewMessageRow, UpdateMessageRow, i);
    Rows.RefreshKeys(c, l, MessageKey, NewMessageRow, UpdateMessageRow);
    Rows.RefreshKeepsInv(c, l, MessageKey, NewMessageRow, UpdateMessageRow);
  }

  /** A refresh never drops or reorders a row: the old body is kept in front
      and only rows for messages of the topic are added behind it. */
  lemma RefreshOnlyAppends(c: Rows.Cache<MessageRow>, t: Store.Tables, topic: Store.Topic)
    requires Rows.CacheInv(c)
    ensures var r := Refreshed(c, t, topic);
            && |r.body| >= |c.body| && r.body[..|c.body|] == c.body
            && forall j :: |c.body| <= j < |r.body| ==>
                 r.body[j] !in c.rows &&
                 exists m :: m in t.messages && m.topicKey == topic.key && m.key == r.body[j]
  {
    var l := ListedMessages(t, topic);
    Rows.RefreshAppends(c, l, MessageKey, NewMessageRow, UpdateMessageRow);
    var r := Refreshed(c, t, topic);
    forall j | |c.body| <= j < |r.body|
      ensures exists m :: m in t.messages && m.topicKey == topic.key && m.key == r.body[j]
    {
      var i :| 0 <= i < |l| && MessageKey(l[i]) == r.body[j];
      assert l[i] in l;
    }
  }

  /** `MessageListView`: the topic it shows, the row cache and the title. */
  class MessageListView {
    const topic: Store.Topic
    /** `message_rows`. */
    var messageRows: map<nat, MessageRow>
    /** `listbox.body`, as the keys of the rows it shows. */
    var body: seq<nat>
    var title: string

    ghost function CacheOf(): Rows.Cache<MessageRow>
      reads this
    {
      Rows.Cache(body, messageRows)
    }

    ghost predicate Valid()
      reads this
    {
      Rows.CacheInv(CacheOf())
    }

    /** A new view of one topic, filled by a first refresh. */
    constructor (t: Store.Tables, topic: Store.Topic)
      ensures Valid()
      ensures this.topic == topic
      ensures CacheOf() == Refreshed(Rows.Cache([], map[]), t, topic)
      ensures title == "Messages: " + Text.NatToString(|Filter(t.messages, Store.InTopic(topic.key))|)
    {
      this.topic := topic;
      messageRows := map[];
      body := [];
      title := "Message";
      new;
      ghost var c0 := CacheOf();
      assert c0 == Rows.Cache([], map[]);
      assert Valid();
      Refresh(t);
      assert CacheOf() == Refreshed(c0, t, topic);
    }

    /** `refresh()`: walks the topic's messages, updating the row of a known
        key and appending a new row for a new key; the title counts the
        messages. */
    method Refresh(t: Store.Tables)
      requires Valid()
      modifies this`messageRows, this`body, this`title
      ensures Valid()
      ensures CacheOf() == Refreshed(old(CacheOf()), t, topic)
      ensures title == "Messages: " + Text.NatToString(|Filter(t.messages, Store.InTopic(topic.key))|)
    {
      var messages := ListedMessages(t, topic);
      ghost var c0 := CacheOf();
      var n := ShowMessages(messages);
      assert CacheOf() == Refreshed(c0, t, topic);
      Rows.RefreshKeepsInv(c0, messages, MessageKey, NewMessageRow, UpdateMessageRow);
      Store.MessageCountCounts(t, topic);
      assert n == |Filter(t.messages, Store.InTopic(topic.key))|;
      title := "Messages: " + Text.NatToString(n);
    }

    /** The loop of `refresh()`: updates or adds the row of each message in
        turn; `n` is the number of messages walked. */
    method ShowMessages(messages: seq<Store.Message>) returns (n: nat)
      modifies this`messageRows, this`body
      ensures CacheOf() == Rows.RefreshAll(old(CacheOf()), messages, MessageKey, NewMessageRow, UpdateMessageRow)
      ensures n == |messages|
    {
      ghost var c0 := CacheOf();
      n := 0;
      while n < |messages|
        invariant 0 <= n <= |messages|
        invariant CacheOf() == Rows.RefreshAll(c0, messages[..n], MessageKey, NewMessageRow, UpdateMessageRow)
      {
        Rows.RefreshAllStep(c0, messages, MessageKey, NewMessageRow, UpdateMessageRow, n);
        Visit(messages[n]);
        n := n + 1;
      }
      assert messages[..n] == messages;
    }

    /** One pass of the refresh loop. */
    method Visit(m: Store.Message)
      modifies this`messageRows, this`body
      ensures CacheOf() == Rows.Step(old(CacheOf()), m, MessageKey, NewMessageRow, UpdateMessageRow)
    {
      var key := m.key;
      if key in messageRows {
        messageRows := messageRows[key := UpdateMessageRow(messageRows[key], m)];
      } else {
        body := body + [key];
        messageRows := messageRows[key := NewMessageRow(m)];
      }
    }
  }
}

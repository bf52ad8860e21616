/** The topic list screen of mqtty/view/topic_list.py: its column layout,
    its rows, and the row cache its refresh keeps. */
module TopicList {

  import opened Wrappers
  import opened Seqs
  import Text
  import Store
  import Rows

  // ---------------------------------------------------------------------
  // Columns

  /** `ColumnInfo(name, packing, value)`. */
  datatype ColumnInfo = ColumnInfo(name: string, packing: string, value: int)

  /** The width a column takes: its given width plus one, or eight per
      weight unit plus one for any other packing. */
  function Spacing(c: ColumnInfo): int
  {
    if c.packing == "given" then c.value + 1 else c.value * 8 + 1
  }

  /** `COLUMNS`. */
  const Columns: seq<ColumnInfo> := [
    ColumnInfo("No.", "given", 5),
    ColumnInfo("Topic", "weight", 1),
    ColumnInfo("Updated", "given", 20),
    ColumnInfo("# of MSG", "given", 9)
  ]

  /** For every column the spacing is one more than the characters it takes:
      its given width, or eight per weight unit. Within one packing the
      spacing orders and determines the value. */
  lemma SpacingLaws(c: ColumnInfo, d: ColumnInfo)
    ensures c.packing == "given" ==> Spacing(c) - 1 == c.value
    ensures c.packing != "given" ==> Spacing(c) - 1 == 8 * c.value && (Spacing(c) - 1) % 8 == 0
    ensures c.packing == d.packing ==> (Spacing(c) <= Spacing(d) <==> c.value <= d.value)
    ensures c.packing == d.packing ==> (Spacing(c) == Spacing(d) <==> c.value == d.value)
  {
  }

  // ---------------------------------------------------------------------
  // Rows

  /** A topic with the number of its messages, as `refresh` hands it to a row. */
  datatype TopicItem = TopicItem(topic: Store.Topic, count: nat)

  /** `TopicRow`: `topicName` is the name the row was made with,
      `nameText`, `keyText` and `countText` what its text widgets show,
      `style` its attribute when not focused. */
  datatype TopicRow = TopicRow(
    topicName: string,
    mark: bool,
    style: Option<string>,
    nameText: string,
    keyText: string,
    updated: int,
    countText: string)

  /** The shown name and the style agree with the mark. */
  predicate RowWellFormed(r: TopicRow)
  {
    && r.nameText == Rows.MarkedName(r.topicName, r.mark)
    && r.style == (if r.mark then Some("marked-topic") else None)
  }

  function ItemKey(item: TopicItem): nat
  {
    item.topic.key
  }

  /** `TopicRow(topic, num_msg)`: unmarked, named after the topic, showing
      its key, update time and message count. */
  function NewTopicRow(item: TopicItem): (r: TopicRow)
    ensures RowWellFormed(r) && !r.mark && r.topicName == item.topic.name
  {
    TopicRow(item.topic.name, false, None, Rows.MarkedName(item.topic.name, false),
             Rows.NumberText(item.topic.key), item.topic.updated, Rows.NumberText(item.count))
  }

  /** `row.update(topic, num_msg)`: new key, update time and count; the name
      and the mark are not touched. */
  function UpdateTopicRow(r: TopicRow, item: TopicItem): (u: TopicRow)
    ensures u.topicName == r.topicName && u.mark == r.mark && u.nameText == r.nameText && u.style == r.style
    ensures RowWellFormed(r) ==> RowWellFormed(u)
  {
    r.(keyText := Rows.NumberText(item.topic.key), updated := item.topic.updated, countText := Rows.NumberText(item.count))
  }

  /** A new or updated row shows the item's key and count. */
  lemma RowShowsItem(r: TopicRow, item: TopicItem)
    ensures var u := UpdateTopicRow(r, item);
            Text.DigitsValue(u.keyText[..|u.keyText| - 1]) == item.topic.key &&
            Text.DigitsValue(u.countText[..|u.countText| - 1]) == item.count && u.updated == item.topic.updated
    ensures var n := NewTopicRow(item);
            Text.DigitsValue(n.keyText[..|n.keyText| - 1]) == item.topic.key &&
            Text.DigitsValue(n.countText[..|n.countText| - 1]) == item.count && n.updated == item.topic.updated
  {
    Rows.NumberTextValue(item.topic.key);
    Rows.NumberTextValue(item.count);
  }

  /** `toggleMark()`: flips the mark and shows it in the name and style. */
  function ToggleMark(r: TopicRow): (u: TopicRow)
    ensures u.mark == !r.mark && u.topicName == r.topicName
    ensures RowWellFormed(u)
    ensures u.keyText == r.keyText && u.updated == r.updated && u.countText == r.countText
  {
    var m := !r.mark;
    r.(mark := m, style := if m then Some("marked-topic") else None, nameText := Rows.MarkedName(r.topicName, m))
  }

  /** Toggling twice gives the row back. */
  lemma ToggleMarkTwice(r: TopicRow)
    requires RowWellFormed(r)
    ensures ToggleMark(ToggleMark(r)) == r
  {
  }

  // ---------------------------------------------------------------------
  // The listing

  /** `getTopics(sort_by=self.sort_by)`, reversed when `reverse` is set. */
  function ListedTopics(t: Store.Tables, sortBy: string, reverse: bool): (r: seq<Store.Topic>)
    ensures forall u :: u in r <==> u in t.topics
    ensures |r| == |t.topics|
  {
    var l := Store.GetTopics(t, false, [sortBy]);
    assert |l| == |multiset(l)| == |multiset(t.topics)|;
    ReverseMembers(l);
    if reverse then Reverse(l) else l
  }

  /** The topics with their message counts, in the order refresh walks them. */
  function Items(t: Store.Tables, topics: seq<Store.Topic>): (items: seq<TopicItem>)
    ensures |items| == |topics|
    ensures forall i :: 0 <= i < |topics| ==> items[i] == TopicItem(topics[i], Store.MessageCount(t, topics[i]))
  {
    seq(|topics|, i requires 0 <= i < |topics| => TopicItem(topics[i], Store.MessageCount(t, topics[i])))
  }

  /** In a consistent store distinct topics have distinct keys. */
  lemma TopicKeysDistinct(t: Store.Tables)
    requires Store.Consistent(t)
    ensures NoDup(t.topics)
    ensures forall i, j :: 0 <= i < |t.topics| && 0 <= j < |t.topics| && t.topics[i].key == t.topics[j].key ==> i == j
  {
    forall i, j | 0 <= i < |t.topics| && 0 <= j < |t.topics| && i != j
      ensures t.topics[i] != t.topics[j] && t.topics[i].key != t.topics[j].key
    {
      if i < j {
        assert Store.TopicRel()(t.topics[i], t.topics[j]);
      } else {
        assert Store.TopicRel()(t.topics[j], t.topics[i]);
      }
    }
  }

  /** The listing holds every topic once. */
  lemma ListedNoDup(t: Store.Tables, sortBy: string, reverse: bool)
    requires Store.Consistent(t)
    ensures NoDup(ListedTopics(t, sortBy, reverse))
  {
    var l := Store.GetTopics(t, false, [sortBy]);
    TopicKeysDistinct(t);
    NoDupPermutation(l, t.topics);
    ReverseNoDup(l);
  }

  /** In a consistent store no two listed topics share a key. */
  lemma ListedKeysDistinct(t: Store.Tables, sortBy: string, reverse: bool)
    requires Store.Consistent(t)
    ensures Rows.DistinctKeys(Items(t, ListedTopics(t, sortBy, reverse)), ItemKey)
  {
    var r := ListedTopics(t, sortBy, reverse);
    ListedNoDup(t, sortBy, reverse);
    TopicKeysDistinct(t);
    var items := Items(t, r);
    forall i, j | 0 <= i < j < |items| ensures ItemKey(items[i]) != ItemKey(items[j]) {
      assert r[i] in t.topics && r[j] in t.topics && r[i] != r[j];
      var a :| 0 <= a < |t.topics| && t.topics[a] == r[i];
      var b :| 0 <= b < |t.topics| && t.topics[b] == r[j];
      assert a != b;
    }
  }

  /** The cache a refresh of `topics` leaves behind. */
  function Refreshed(c: Rows.Cache<TopicRow>, t: Store.Tables, topics: seq<Store.Topic>): Rows.Cache<TopicRow>
  {
    Rows.RefreshAll(c, Items(t, topics), ItemKey, NewTopicRow, UpdateTopicRow)
  }

  /** After a refresh every listed topic has exactly one row, showing its
      current key, update time and message count, and rows already there keep
      their name and mark. */
  lemma RefreshShowsTopics(c: Rows.Cache<TopicRow>, t: Store.Tables, sortBy: string, reverse: bool, i: nat)
    requires Store.Consistent(t) && Rows.CacheInv(c)
    requires i < |ListedTopics(t, sortBy, reverse)|
    ensures var u := ListedTopics(t, sortBy, reverse)[i];
            var r := Refreshed(c, t, ListedTopics(t, sortBy, reverse));
            && Rows.CacheInv(r)
            && u.key in r.rows && u.key in r.body
            && r.rows[u.key].updated == u.updated
            && r.rows[u.key].countText == Rows.NumberText(|Filter(t.messages, Store.InTopic(u.key))|)
            && r.rows[u.key].keyText == Rows.NumberText(u.key)
            && (u.key in c.rows ==> r.rows[u.key].topicName == c.rows[u.key].topicName &&
                                    r.rows[u.key].mark == c.rows[u.key].mark)
            && (u.key !in c.rows ==> r.rows[u.key].topicName == u.name && !r.rows[u.key].mark)
  {
    var topics := ListedTopics(t, sortBy, reverse);
    var items := Items(t, topics);
    ListedKeysDistinct(t, sortBy, reverse);
    Rows.RefreshRowOf(c, items, ItemKey, NewTopicRow, UpdateTopicRow, i);
    Rows.RefreshKeepsInv(c, items, ItemKey, NewTopicRow, UpdateTopicRow);
    Store.MessageCountCounts(t, topics[i]);
  }

  /** A rebuilt list shows the topics in exactly the listed order. */
  lemma RebuildShowsOrder(t: Store.Tables, sortBy: string, reverse: bool)
    requires Store.Consistent(t)
    ensures var topics := ListedTopics(t, sortBy, reverse);
            var r := Refreshed(Rows.Cache([], map[]), t, topics);
            |r.body| == |topics| && forall j :: 0 <= j < |topics| ==> r.body[j] == topics[j].key
  {
    var topics := ListedTopics(t, sortBy, reverse);
    ListedKeysDistinct(t, sortBy, reverse);
    Rows.RebuildOrder(Items(t, topics), ItemKey, NewTopicRow, UpdateTopicRow);
  }

  /** The key commands `handleCommands` reacts to. */
  datatype Command = RefreshList | SortByNumber | SortByUpdated | SortByTopic | SortByReverse | OtherCommand(name: string)

  /** The command `handleCommands` acts on: the first of refresh, sort by
      number, by update time, by topic, reverse that is present. */
  function Chosen(commands: seq<Command>): (c: Option<Command>)
    ensures c.Some? ==> c.value in commands && !c.value.OtherCommand?
    ensures c.None? <==> forall x :: x in commands ==> x.OtherCommand?
    ensures RefreshList in commands ==> c == Some(RefreshList)
  {
    if RefreshList in commands then Some(RefreshList)
    else if SortByNumber in commands then Some(SortByNumber)
    else if SortByUpdated in commands then Some(SortByUpdated)
    else if SortByTopic in commands then Some(SortByTopic)
    else if SortByReverse in commands then Some(SortByReverse)
    else None
  }

  /** The sort order a sort command selects, and whether the list is reversed. */
  function SortAfter(c: Command, sortBy: string, reverse: bool): (string, bool)
  {
    match c
    case SortByNumber => ("key", reverse)
    case SortByUpdated => ("updated", reverse)
    case SortByTopic => ("name", reverse)
    case SortByReverse => (sortBy, !reverse)
    case _ => (sortBy, reverse)
  }

  /** Reversing twice restores the order; choosing a column is idempotent. */
  lemma SortAfterLaws(c: Command, sortBy: string, reverse: bool)
    ensures var (s1, r1) := SortAfter(SortByReverse, sortBy, reverse); SortAfter(SortByReverse, s1, r1) == (sortBy, reverse)
    ensures c != SortByReverse ==>
              var (s1, r1) := SortAfter(c, sortBy, reverse); SortAfter(c, s1, r1) == (s1, r1)
  {
  }

  /** The view title after a refresh of `n` topics. */
  function TopicsTitle(n: nat): string
  {
    "Topics: " + Text.NatToString(n)
  }

  /** `TopicListView`: the listing settings, the row cache and the title. */
  class TopicListView {
    var sortBy: string
    var reverse: bool
    /** `topic_rows`. */
    var topicRows: map<nat, TopicRow>
    /** `listbox.body`, as the keys of the rows it shows. */
    var body: seq<nat>
    var title: string

    ghost function CacheOf(): Rows.Cache<TopicRow>
      reads this
    {
      Rows.Cache(body, topicRows)
    }

    ghost predicate Valid()
      reads this
    {
      Rows.CacheInv(CacheOf())
    }

    /** A new view sorted by name, filled by a first refresh. */
    constructor (t: Store.Tables)
      ensures Valid()
      ensures sortBy == "name" && !reverse
      ensures CacheOf() == Refreshed(Rows.Cache([], map[]), t, ListedTopics(t, sortBy, reverse))
      ensures title == TopicsTitle(|t.topics|)
    {
      sortBy := "name";
      reverse := false;
      topicRows := map[];
      body := [];
      title := "Topics";
      new;
      ghost var c0 := CacheOf();
      assert c0 == Rows.Cache([], map[]);
      assert Valid();
      Refresh(t);
      assert CacheOf() == Refreshed(c0, t, ListedTopics(t, sortBy, reverse));
    }

    /** `refresh()`: walks the listed topics, updating the row of a known key
        and appending a new row for a new key; the title counts the topics. */
    method Refresh(t: Store.Tables)
      requires Valid()
      modifies this`topicRows, this`body, this`title
      ensures Valid()
      ensures CacheOf() == Refreshed(old(CacheOf()), t, ListedTopics(t, sortBy, reverse))
      ensures title == TopicsTitle(|t.topics|)
    {
      var topics := ListedTopics(t, sortBy, reverse);
      ghost var c0 := CacheOf();
      var n := ShowTopics(t, topics);
      assert CacheOf() == Refreshed(c0, t, topics);
      assert topics == ListedTopics(t, sortBy, reverse);
      Rows.RefreshKeepsInv(c0, Items(t, topics), ItemKey, NewTopicRow, UpdateTopicRow);
      title := TopicsTitle(n);
    }

    /** The loop of `refresh()`: for each topic in turn, counts its messages
        and updates or adds its row; `n` is the number of topics walked. */
    method ShowTopics(t: Store.Tables, topics: seq<Store.Topic>) returns (n: nat)
      modifies this`topicRows, this`body
      ensures CacheOf() == Refreshed(old(CacheOf()), t, topics)
      ensures n == |topics|
    {
      ghost var items := Items(t, topics);
      ghost var c0 := CacheOf();
      n := 0;
      while n < |topics|
        invariant 0 <= n <= |topics|
        invariant CacheOf() == Rows.RefreshAll(c0, items[..n], ItemKey, NewTopicRow, UpdateTopicRow)
      {
        var item := TopicItem(topics[n], Store.MessageCount(t, topics[n]));
        Rows.RefreshAllStep(c0, items, ItemKey, NewTopicRow, UpdateTopicRow, n);
        Visit(item);
        n := n + 1;
      }
      assert items[..n] == items;
    }

    /** One pass of the refresh loop: updates the row of a known topic, or
        makes a row for a new one and appends it to the body. */
    method Visit(item: TopicItem)
      modifies this`topicRows, this`body
      ensures CacheOf() == Rows.Step(old(CacheOf()), item, ItemKey, NewTopicRow, UpdateTopicRow)
    {
      var key := item.topic.key;
      if key in topicRows {
        topicRows := topicRows[key := UpdateTopicRow(topicRows[key], item)];
      } else {
        body := body + [key];
        topicRows := topicRows[key := NewTopicRow(item)];
      }
    }

    /** `clearTopicList()`: removes every cached row from the body and empties
        the cache. */
    method ClearTopicList()
      requires Valid()
      modifies this`topicRows, this`body
      ensures Valid()
      ensures body == [] && topicRows == map[]
    {
      var keys := topicRows.Keys;
      while keys != {}
        invariant NoDup(body)
        invariant forall k :: k in body <==> k in keys
        decreases keys
      {
        var k :| k in keys;
        RemoveFirstDistinct(body, k);
        body := RemoveFirst(body, k);
        keys := keys - {k};
      }
      NoMembersEmpty(body);
      topicRows := map[];
    }

    /** Clears the cache and refreshes, as the sort commands do. */
    method Rebuild(t: Store.Tables)
      requires Valid()
      modifies this`topicRows, this`body, this`title
      ensures Valid()
      ensures CacheOf() == Refreshed(Rows.Cache([], map[]), t, ListedTopics(t, sortBy, reverse))
      ensures title == TopicsTitle(|t.topics|)
    {
      ClearTopicList();
      Refresh(t);
    }

    /** `handleCommands(commands)`: a refresh, or a change of sort order that
        rebuilds the list; a sort command on an empty list is taken but does
        nothing. `handled` is false (`None`) when no command applies. */
    method HandleCommands(commands: seq<Command>, t: Store.Tables) returns (handled: bool)
      requires Valid()
      modifies this`topicRows, this`body, this`title, this`sortBy, this`reverse
      ensures Valid()
      ensures handled == Chosen(commands).Some?
      ensures Chosen(commands) == Some(RefreshList) ==>
                sortBy == old(sortBy) && reverse == old(reverse) &&
                CacheOf() == Refreshed(old(CacheOf()), t, ListedTopics(t, sortBy, reverse)) &&
                title == TopicsTitle(|t.topics|)
      ensures Chosen(commands).None? || (Chosen(commands) != Some(RefreshList) && old(body) == []) ==>
                sortBy == old(sortBy) && reverse == old(reverse) && CacheOf() == old(CacheOf()) && title == old(title)
      ensures Chosen(commands).Some? && Chosen(commands) != Some(RefreshList) && old(body) != [] ==>
                (sortBy, reverse) == SortAfter(Chosen(commands).value, old(sortBy), old(reverse)) &&
                CacheOf() == Refreshed(Rows.Cache([], map[]), t, ListedTopics(t, sortBy, reverse)) &&
                title == TopicsTitle(|t.topics|)
    {
      var c := Chosen(commands);
      if c.None? {
        return false;
      }
      handled := true;
      if c.value == RefreshList {
        Refresh(t);
      } else if body != [] {
        if c.value == SortByNumber {
          sortBy := "key";
        } else if c.value == SortByUpdated {
          sortBy := "updated";
        } else if c.value == SortByTopic {
          sortBy := "name";
        } else {
          reverse := !reverse;
        }
        Rebuild(t);
      }
    }
  }
}

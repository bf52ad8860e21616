/** The work queue and the message ingestion step of mqtty/sync.py. */
module Sync {

  import opened Wrappers
  import opened Seqs
  import Store

  const HighPriority: int := 0
  const NormalPriority: int := 1
  const LowPriority: int := 2

  /** The priorities `Sync` builds its queue with, highest first. */
  const SyncPriorities: seq<int> := [HighPriority, NormalPriority, LowPriority]

  /** The keys of an `OrderedDict` filled from `s`: each value once, at the
      place it first occurs. */
  function Dedup(s: seq<int>): (r: seq<int>)
    ensures NoDup(r)
    ensures forall x :: x in r <==> x in s
    ensures |r| <= |s|
  {
    if s == [] then []
    else
      var init := Dedup(s[..|s| - 1]);
      var last := s[|s| - 1];
      assert forall x :: x in s <==> x in s[..|s| - 1] || x == last;
      if last in init then init else init + [last]
  }

  /** Dedup leaves a list of distinct priorities as it is. */
  lemma {:induction false} DedupOfDistinct(s: seq<int>)
    requires NoDup(s)
    ensures Dedup(s) == s
  {
    if s != [] {
      var init := s[..|s| - 1];
      assert NoDup(init);
      DedupOfDistinct(init);
      assert s[|s| - 1] !in init;
      assert init + [s[|s| - 1]] == s;
    }
  }

  /** The position of the first occurrence of `x` in `s`. */
  function FirstIndex(s: seq<int>, x: int): (i: nat)
    requires x in s
    ensures i < |s| && s[i] == x
    ensures forall j :: 0 <= j < i ==> s[j] != x
  {
    if s[0] == x then 0
    else
      var i := 1 + FirstIndex(s[1..], x);
      assert forall j :: 1 <= j < i ==> s[j] == s[1..][j - 1];
      i
  }

  /** An occurrence with none before it is the first one. */
  lemma FirstIndexAt(s: seq<int>, x: int, k: nat)
    requires k < |s| && s[k] == x
    requires forall j :: 0 <= j < k ==> s[j] != x
    ensures FirstIndex(s, x) == k
  {
  }

  /** A value already in a prefix first occurs where it first occurs in the
      prefix. */
  lemma FirstIndexPrefix(s: seq<int>, n: nat, x: int)
    requires n <= |s| && x in s[..n]
    ensures FirstIndex(s, x) == FirstIndex(s[..n], x)
  {
    var k := FirstIndex(s[..n], x);
    assert forall j :: 0 <= j < k ==> s[j] == s[..n][j];
    FirstIndexAt(s, x, k);
  }

  /** Dedup keeps the values in the order of their first occurrences: with
      the same members and no repeats, this makes it the subsequence of `s`
      of first occurrences. */
  lemma {:induction false} DedupOrder(s: seq<int>)
    ensures forall i, j :: 0 <= i < j < |Dedup(s)| ==> FirstIndex(s, Dedup(s)[i]) < FirstIndex(s, Dedup(s)[j])
  {
    if s != [] {
      var n := |s| - 1;
      var init := s[..n];
      var last := s[n];
      var d := Dedup(init);
      DedupOrder(init);
      assert forall x :: x in d ==> x in init;
      forall i, j | 0 <= i < j < |Dedup(s)|
        ensures FirstIndex(s, Dedup(s)[i]) < FirstIndex(s, Dedup(s)[j])
      {
        var r := Dedup(s);
        FirstIndexPrefix(s, n, r[i]);
        if j < |d| {
          FirstIndexPrefix(s, n, r[j]);
        } else {
          assert r[j] == last && last !in init;
          assert forall k :: 0 <= k < n ==> s[k] == init[k];
          FirstIndexAt(s, last, n);
        }
      }
    }
  }

  /** Total number of queued items over all buckets. */
  function Count<T>(qs: seq<seq<T>>): nat
  {
    if qs == [] then 0 else Count(qs[..|qs| - 1]) + |qs[|qs| - 1]|
  }

  /** Replacing one bucket changes the total by the change in its length. */
  lemma {:induction false} CountUpdate<T>(qs: seq<seq<T>>, i: nat, q: seq<T>)
    requires i < |qs|
    ensures Count(qs[i := q]) == Count(qs) - |qs[i]| + |q|
  {
    var n := |qs| - 1;
    if i < n {
      assert qs[i := q][..n] == qs[..n][i := q];
      CountUpdate(qs[..n], i, q);
    } else {
      assert qs[i := q][..n] == qs[..n];
    }
  }

  /** The first bucket, in priority order, that holds an item. */
  function FirstNonEmpty<T>(qs: seq<seq<T>>): (i: nat)
    requires exists j :: 0 <= j < |qs| && qs[j] != []
    ensures i < |qs| && qs[i] != []
    ensures forall j :: 0 <= j < i ==> qs[j] == []
  {
    if qs[0] != [] then 0
    else
      assert exists j :: 0 <= j < |qs[1..]| && qs[1..][j] != [] by {
        var j :| 0 <= j < |qs| && qs[j] != [];
        assert qs[1..][j - 1] == qs[j];
      }
      FirstNonEmpty(qs[1..]) + 1
  }

  /** The position of a priority among the buckets. */
  function IndexOf(ps: seq<int>, p: int): (i: nat)
    requires p in ps
    ensures i < |ps| && ps[i] == p
    ensures forall j :: 0 <= j < i ==> ps[j] != p
  {
    if ps[0] == p then 0 else IndexOf(ps[1..], p) + 1
  }

  /** `MultiQueue`: one FIFO bucket per priority, plus the items handed out
      by `get` and not yet completed. */
  class MultiQueue<T(==,!new)> {
    /** The bucket keys in order; `get` scans them first to last. */
    var priorities: seq<int>
    /** `queues[i]` is the deque of `priorities[i]`, front first. */
    var queues: seq<seq<T>>
    var incomplete: seq<T>

    ghost predicate Valid()
      reads this
    {
      && |queues| == |priorities|
      && NoDup(priorities)
      && (forall i :: 0 <= i < |queues| ==> NoDup(queues[i]))
    }

    /** Every queued or handed-out item. */
    function Size(): nat
      reads this
    {
      Count(queues) + |incomplete|
    }

    constructor (ps: seq<int>)
      ensures Valid()
      ensures priorities == Dedup(ps)
      ensures |queues| == |priorities| && forall i :: 0 <= i < |queues| ==> queues[i] == []
      ensures incomplete == []
    {
      var keys: seq<int> := [];
      var buckets: seq<seq<T>> := [];
      var k := 0;
      while k < |ps|
        invariant 0 <= k <= |ps|
        invariant keys == Dedup(ps[..k])
        invariant |buckets| == |keys| && forall i :: 0 <= i < |buckets| ==> buckets[i] == []
      {
        assert ps[..k + 1][..k] == ps[..k];
        if ps[k] !in keys {
          keys := keys + [ps[k]];
          buckets := buckets + [[]];
        }
        k := k + 1;
      }
      assert ps[..k] == ps;
      priorities := keys;
      queues := buckets;
      incomplete := [];
    }

    /** `qsize()`: the bucket lengths plus the incomplete items. */
    method QSize() returns (n: nat)
      requires Valid()
      ensures n == Size()
    {
      n := 0;
      var i := 0;
      while i < |queues|
        invariant 0 <= i <= |queues|
        invariant n == Count(queues[..i])
      {
        assert queues[..i + 1][..i] == queues[..i];
        n := n + |queues[i]|;
        i := i + 1;
      }
      assert queues[..i] == queues;
      n := n + |incomplete|;
    }

    /** `put(item, priority)`: appends the item to its bucket unless an equal
        item is already waiting there; other buckets and the incomplete list
        stay as they are. */
    method Put(item: T, priority: int) returns (added: bool)
      requires Valid() && priority in priorities
      modifies this`queues
      ensures Valid()
      ensures var i := IndexOf(priorities, priority);
              && added == (item !in old(queues)[i])
              && queues == old(queues)[i := if added then old(queues)[i] + [item] else old(queues)[i]]
      ensures Size() == old(Size()) + (if added then 1 else 0)
    {
      var i := IndexOf(priorities, priority);
      added := false;
      if item !in queues[i] {
        var q := queues[i] + [item];
        assert NoDup(q);
        CountUpdate(queues, i, q);
        queues := queues[i := q];
        added := true;
      }
    }

    /** `get()`: takes the front item of the first non-empty bucket in
        priority order and records it as incomplete. */
    method Get() returns (item: T)
      requires Valid()
      requires exists j :: 0 <= j < |queues| && queues[j] != []
      modifies this`queues, this`incomplete
      ensures Valid()
      ensures var i := FirstNonEmpty(old(queues));
              && item == old(queues)[i][0]
              && queues == old(queues)[i := old(queues)[i][1..]]
      ensures incomplete == old(incomplete) + [item]
      ensures Size() == old(Size())
    {
      var i := 0;
      while queues[i] == []
        invariant 0 <= i < |queues|
        invariant forall j :: 0 <= j < i ==> queues[j] == []
        invariant exists j :: i <= j < |queues| && queues[j] != []
        decreases |queues| - i
      {
        i := i + 1;
      }
      assert i == FirstNonEmpty(queues) by {
        var f := FirstNonEmpty(queues);
        assert !(f < i) && !(i < f);
      }
      item := queues[i][0];
      var q := queues[i][1..];
      CountUpdate(queues, i, q);
      queues := queues[i := q];
      incomplete := incomplete + [item];
    }

    /** `find(klass, priority)`: the waiting items of one bucket that are of
        the given kind, in queue order. */
    method Find(isKind: T -> bool, priority: int) returns (results: seq<T>)
      requires Valid() && priority in priorities
      ensures results == Filter(queues[IndexOf(priorities, priority)], isKind)
      ensures forall x :: x in results <==> x in queues[IndexOf(priorities, priority)] && isKind(x)
    {
      var q := queues[IndexOf(priorities, priority)];
      results := [];
      var i := 0;
      while i < |q|
        invariant 0 <= i <= |q|
        invariant results == Filter(q[..i], isKind)
      {
        assert q[..i + 1][..i] == q[..i];
        if isKind(q[i]) {
          results := results + [q[i]];
        }
        i := i + 1;
      }
      assert q[..i] == q;
    }

    /** `complete(item)`: drops the first equal item from the incomplete list
        when there is one; the buckets are untouched. */
    method Complete(item: T)
      requires Valid()
      modifies this`incomplete
      ensures Valid()
      ensures incomplete == RemoveFirst(old(incomplete), item)
      ensures item in old(incomplete) ==> Size() == old(Size()) - 1
      ensures item !in old(incomplete) ==> incomplete == old(incomplete)
    {
      if item in incomplete {
        incomplete := RemoveFirst(incomplete, item);
      }
    }
  }

  /** `Sync.on_message`: in one session, looks the topic up by name, creates
      it when missing, and stores the payload as a new message under it;
      the session then commits. */
  method OnMessage(db: Store.Database, topicName: string, payload: string, now: int)
    returns (topic: Store.Topic, msg: Store.Message)
    requires db.Valid() && !db.locked
    modifies db
    ensures db.Valid() && !db.locked
    ensures topic.name == topicName && topic in db.tables.topics
    ensures Store.GetTopicByName(db.tables, topicName) == Some(topic)
    ensures old(Store.GetTopicByName(db.tables, topicName)).Some? ==>
              topic == old(Store.GetTopicByName(db.tables, topicName)).value &&
              db.tables.topics == old(db.tables.topics)
    ensures old(Store.GetTopicByName(db.tables, topicName)).None? ==>
              db.tables.topics == old(db.tables.topics) + [topic]
    ensures msg == Store.Message(Store.NextMessageKey(old(db.tables)), topic.key, payload, now)
    ensures db.tables.messages == old(db.tables.messages) + [msg]
    ensures db.tables.links == old(db.tables.links)
    ensures db.committed == db.tables
  {
    db.Enter();
    var found := Store.GetTopicByName(db.tables, topicName);
    if found.Some? {
      topic := found.value;
    } else {
      var created := db.CreateTopic(topicName, now);
      topic := created.value;
    }
    msg := db.CreateMessage(payload, topic, now);
    Store.TopicByNameUnique(db.tables, topic);
    db.Exit(false);
  }
}

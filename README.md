# mqtty core in Dafny

mqtty is a terminal client for an MQTT broker. A background sync thread
receives published messages and files each one under its topic in an SQLite
store. The interactive side shows a topic list and per-topic message lists.
This project models the parts of that pipeline that carry logic:

- `sync.dfy` (module `Sync`): the priority work queue `MultiQueue` and the
  message ingestion step `Sync.on_message`.
- `store.dfy` (module `Store`): the `topic`, `message` and `topic_message`
  tables and the queries a database session offers. It also covers row
  creation, the join-row helpers of `Message` and `Topic`, the
  commit-or-roll-back rule of a session, and `Database.append`.
- `app.dfy` (module `App`): the screen stack (`changeScreen`, `backScreen`,
  `clearHistory`, `popup`), `refresh`, `clearInputBuffer` and
  `ProjectCache`. It also covers the warning dedup, breadcrumb truncation,
  the socket command split and the numeric search rewrite.
- `rows.dfy` (module `Rows`): the row cache both list views keep.
  `_setName` and `'%i '` formatting are shared here too.
- `topic_list.dfy` (module `TopicList`): the column spacing, the topic rows,
  `TopicListView.refresh`, `clearTopicList` and `handleCommands`.
- `message_list.dfy` (module `MessageList`): the message rows and
  `MessageListView.refresh`.
- `wrappers.dfy`, `seqs.dfy`, `text.dfy` and `sorting.dfy` are support
  modules:
  - an `Option` type;
  - sequence helpers;
  - Python 2 `str.strip`/`str.split` on ASCII whitespace and decimal
    formatting;
  - an insertion sort that stands for SQL `ORDER BY`.

Classes model the stateful parts:

- `MultiQueue` keeps its buckets in a sequence, in `OrderedDict` order.
- `Database` holds the rows an open session sees, the last committed rows
  and the session lock.
- `App` holds the screen stack, the frame body and the status fields.
- `ProjectCache` holds its dictionary.
- The two list views hold a row dictionary and the list body. The body is
  the sequence of row keys on screen.

Pure computations are functions:

- queries;
- key and sequence allocation;
- ordering;
- row text;
- breadcrumb text;
- command splitting.

Each stateful method states its whole new state in terms of such
functions. Lemmas prove what the source promises about those functions.

Modelling choices:

- A table is a sequence of rows in primary-key order. New keys are one more
  than the largest in use.
- `Consistent` is the invariant of the stored rows: unique topic names
  and increasing keys, and per message increasing sequences that start at
  1. The schema itself gives only the primary keys, the UNIQUE name and
  UNIQUE(message_key, sequence). Increasing keys and sequences come from
  how new rows are numbered: SQLite rowids, and `max(...) + 1` in
  `addTopic`.
- `ORDER BY` compares the listed columns in turn. Ties fall back to
  primary-key order.
- Timestamps are opaque integers supplied by the caller (`now`).
- Widgets are values. A `Screen` carries an `id`, so the source's identity
  test `is` becomes equality.

## Model

| member | source | states |
|---|---|---|
| Sync.Dedup | mqtty/sync.py:54-60 | the bucket keys built from `priorities` hold every priority exactly once |
| Sync.DedupOrder | mqtty/sync.py:54-60 | the bucket keys keep the order of each priority's first occurrence in `priorities` |
| Sync.DedupOfDistinct | mqtty/sync.py:54-60 | a priority list without repeats becomes the bucket order unchanged |
| Sync.FirstNonEmpty | mqtty/sync.py:86-99 | the bucket `get` takes from is non-empty and every bucket before it is empty |
| Sync.MultiQueue.constructor | mqtty/sync.py:54-62 | one empty bucket per distinct priority, in order, and no incomplete items |
| Sync.MultiQueue.QSize | mqtty/sync.py:64-72 | the result is the total of all bucket lengths plus the incomplete items |
| Sync.MultiQueue.Put | mqtty/sync.py:74-84 | `added` holds iff the item was absent from its bucket; only then is it appended; other buckets are unchanged and the size grows by exactly one iff added |
| Sync.MultiQueue.Get | mqtty/sync.py:86-99 | returns the front item of the first non-empty bucket, removes it there, appends it to the incomplete list, and leaves the size unchanged |
| Sync.MultiQueue.Find | mqtty/sync.py:101-110 | the result is exactly the bucket's items of the given kind, in queue order |
| Sync.MultiQueue.Complete | mqtty/sync.py:112-118 | drops the first equal incomplete item when there is one, shrinking the size by one; otherwise nothing changes |
| Sync.OnMessage | mqtty/sync.py:149-159 | afterwards the name lookup finds the topic; an existing topic is reused and the topic table is unchanged, otherwise exactly one topic is appended; exactly one message with a fresh key is appended under it; no join row is written; the session is committed and unlocked |
| Store.SequenceUnique | mqtty/db.py:44-50 | in a consistent store two join rows of one message never share a sequence (the UNIQUE constraint) |
| Store.NextTopicKey | mqtty/db.py:29-31 | a new topic key is above every key in use |
| Store.NextMessageKey | mqtty/db.py:37-39 | a new message key is above every key in use |
| Store.NextLinkKey | mqtty/db.py:44-46 | a new join-row key is above every key in use |
| Store.NextSequence | mqtty/db.py:92 | `max(sequences + [0]) + 1`: at least 1, above every sequence the message already has, and 1 for a message without join rows |
| Store.CompareFieldsTotal | mqtty/db.py:209-215 | the multi-column ordering relates any two rows |
| Store.CompareFieldsTransitive | mqtty/db.py:209-215 | the multi-column ordering is transitive |
| Store.TopicOrderIsPreorder | mqtty/db.py:209-215 | the topic ordering is a total preorder, so sorting by it is well defined |
| Store.MessageOrderIsPreorder | mqtty/db.py:248-254 | the message ordering is a total preorder |
| Store.UnknownSortNamesIgnored | mqtty/db.py:209-215 | a sort name other than key, updated and name has no effect wherever it stands |
| Store.MessageSortKeys | mqtty/db.py:248-254 | the message query fails (None) iff the sort names include `name`, a column the message table lacks |
| Store.KeySortKeys | mqtty/db.py:244 | the default sort `key` orders messages by key alone |
| Store.GetTopic | mqtty/db.py:223-227 | None iff no topic has the key; otherwise a stored topic with that key |
| Store.GetTopicByName | mqtty/db.py:229-233 | None iff no topic has the name; otherwise a stored topic with that name |
| Store.GetMessage | mqtty/db.py:238-242 | None iff no message has the key; otherwise a stored message with that key |
| Store.TopicByNameUnique | mqtty/db.py:32 | names are UNIQUE: in a consistent store the name lookup returns exactly the topic that has the name |
| Store.GetTopics | mqtty/db.py:203-221 | a permutation of all topics, or of the subscribed ones only, sorted by the recognised sort names |
| Store.FirstSortKeyDominates | mqtty/db.py:209-215 | in the result, the first recognised sort column never decreases |
| Store.GetMessages | mqtty/db.py:235-236 | a permutation of all messages, in key order |
| Store.GetMessagesByTopic | mqtty/db.py:244-257 | None iff a sort name is `name`; otherwise exactly the messages whose `topic_key` is the topic's key, as a permutation, sorted by the sort names |
| Store.DefaultMessageOrder | mqtty/db.py:244-257 | with the default `key` order the result is the topic's messages in the order they were stored |
| Store.MessageCountCounts | mqtty/view/topic_list.py:129 | `len(getMessagesByTopic(topic))` is the number of messages stored under the topic |
| Store.NewLink | mqtty/db.py:90-97 | the join row `addTopic` evidently means to insert links the message to the topic, with a fresh key and a sequence above all of the message's |
| Store.AppendLinkConsistent | mqtty/db.py:44-50 | appending that join row keeps the store consistent, the sequence constraint included |
| Store.RemoveLinksConsistent | mqtty/db.py:99-106 | deleting join rows keeps the store consistent |
| Store.Unlink | mqtty/db.py:99-106 | after removing a message's topic, no join row of the pair is left, and every other row is kept |
| Store.AddTopicRowAsWritten | mqtty/db.py:78-82 | as written, the inserted join row carries the message key as its `topic_key` |
| Store.AddTopicAsWrittenMisfiles | mqtty/db.py:93 | with message key 1 and topic key 2, the row as written does not link the message to topic 2 |
| Store.RemoveWhileIterating | mqtty/db.py:101-104 | the remove-while-iterating loop as written never grows the list |
| Store.RemoveWhileIteratingSkips | mqtty/db.py:101-104 | two consecutive join rows of the same pair: the loop as written leaves the second, so the message stays linked |
| Store.TopicLinkMethodsAsWrittenFail | mqtty/db.py:59-76 | the Topic mapping has no `topic_messages` (a Message has one), so as written `Topic.addMessage` and `Topic.removeMessage` always raise before writing anything |
| Store.TopicRemoveFilterIgnoresMessage | mqtty/db.py:70-74 | past that lookup, the filter of line 72 tests only the topic key: removing message 3 from topic 7 would delete message 4's join row to topic 7 |
| Store.Database.Append | mqtty/db.py:166-167 | the latest payload of the topic is recorded and no other topic's entry changes |
| Store.Database.Enter | mqtty/db.py:176-179 | entering a session takes the lock |
| Store.Database.Exit | mqtty/db.py:181-190 | a session that raised rolls back to the last commit; otherwise it commits its rows; the lock is released either way |
| Store.Database.Commit | mqtty/db.py:195-196 | the session's rows become the committed rows |
| Store.Database.Abort | mqtty/db.py:192-193 | the session's rows return to the last commit |
| Store.Database.CreateTopic | mqtty/db.py:259-263 | a taken name fails with nothing written; otherwise exactly one topic is appended: fresh key, unsubscribed, empty description, the given time |
| Store.Database.CreateMessage | mqtty/db.py:265-269 | exactly one message is appended, with a fresh key, under the topic; no other table changes |
| Store.Database.AddTopic | mqtty/db.py:90-97 | corrected `addTopic`: appends exactly the join row `NewLink` gives and keeps the store consistent |
| Store.Database.AddMessage | mqtty/db.py:59-66 | corrected `addMessage`: the same join row as `addTopic` |
| Store.Database.RemoveTopic | mqtty/db.py:99-106 | corrected `removeTopic`: deletes every join row of the pair; `ok` is false (the `ValueError` of `topics.remove`) iff there was none |
| Store.Database.RemoveMessage | mqtty/db.py:68-76 | corrected `removeMessage`: deletes every join row of the pair and no other; `ok` is false (the `ValueError` of `messages.remove`) iff the message is not the topic's |
| App.BaseOf | mqtty/app.py:433-435 | the widget under any stack of overlays is a screen |
| App.Landing | mqtty/app.py:403-411 | the stack position `backScreen` stops at: the top with no target; the topmost occurrence of the target; the bottom when the target is absent |
| App.PopTo | mqtty/app.py:406-410 | the pop loop leaves exactly the stack below the landing position and holds the widget at that position |
| App.LandingAt | mqtty/app.py:406-410 | a position with no target above it that is the target, the bottom, or (with no target) the top is the landing position |
| App.ScanEvents | mqtty/app.py:436-446 | `interested` holds iff the screen is interested in some queued event; `invalidate` holds iff some event changed the held state |
| App.App.constructor | mqtty/app.py:327-328 | the application starts on the topic list, which is saved on the stack, with the welcome dialog overlaid on it |
| App.App.ClearInputBuffer | mqtty/app.py:390-393 | a non-empty key buffer is emptied and the status message blanked; an empty one changes nothing |
| App.App.ChangeScreen | mqtty/app.py:395-401 | shows the widget, pushing the old body iff `push`; the status shows the widget's title with no error; the key buffer is empty, and the status message is blanked iff the buffer was not |
| App.App.Popup | mqtty/app.py:456-473 | overlays the widget on the body, which is pushed; the overlay takes the widget's title and the screen under it is unchanged; the key buffer is empty, and the status message is blanked iff the buffer was not |
| App.App.Refresh | mqtty/app.py:431-451 | drains the result queue; the screen under the overlays is refreshed iff forced or interested in some event; status queries are updated iff some event changed the held state |
| App.App.BackScreen | mqtty/app.py:403-416 | an empty stack changes nothing at all; otherwise the stack is cut at the landing position, that widget is shown, its title (if any) is in the status, the key buffer is emptied (blanking the message iff it was not empty), and a forced refresh follows: the queue is drained, the shown screen refreshed, and the status queries updated iff some event changed the held state |
| App.App.ClearHistory | mqtty/app.py:424-429 | empties the stack and ends on its bottom widget with an empty key buffer, the status message blanked iff the buffer was not empty; an empty stack changes nothing |
| App.App.ShowWarning | mqtty/app.py:606-613 | a repeated warning is ignored; a new one is logged exactly once and remembered |
| App.ProjectCache.Get | mqtty/app.py:229-235 | a hit returns the cached counts and changes nothing; a miss stores and returns the fresh counts |
| App.ProjectCache.Clear | mqtty/app.py:237-239 | the project's entry is gone and every other entry stays |
| App.BreadcrumbTitle | mqtty/app.py:148-150 | a non-empty short title wins; otherwise the title, or the widget's text |
| App.BreadcrumbBounds | mqtty/app.py:151-154 | a breadcrumb starts with the symbol and a space and is at most 23 characters; a title of up to 21 characters is shown whole; a longer one keeps its first 18 characters followed by "..." |
| App.BreadcrumbIdempotentCut | mqtty/app.py:151-154 | truncating an already truncated title gives the same breadcrumb |
| App.SplitCommand | mqtty/app.py:381-385 | a line without words is the `IndexError` case (None); otherwise the command and its arguments are exactly the words of the stripped line |
| App.SplitCommandRoundTrip | mqtty/app.py:376-385 | a command and its arguments joined by spaces and ended by a newline are split back into exactly those words |
| App.SearchQueryOfNumber | mqtty/app.py:526-530 | a number typed into the search dialog becomes `story:` followed by that number's digits |
| Rows.MarkedName | mqtty/view/topic_list.py:239-246 | the shown name is the name behind '%' when marked, behind a space otherwise |
| Rows.MarkedNameInjective | mqtty/view/message_list.py:129-136 | the shown name determines both the name and the mark |
| Rows.NumberTextValue | mqtty/view/topic_list.py:277-279 | `'%i ' % n` is digits and a space, and the digits read back as n |
| Rows.RefreshKeys | mqtty/view/topic_list.py:128-138 | after a refresh the row dictionary holds exactly the old keys and the listed ones |
| Rows.RefreshAppends | mqtty/view/topic_list.py:131-137 | a refresh keeps the old body in front and appends only listed keys that had no row |
| Rows.RefreshKeepsInv | mqtty/view/topic_list.py:128-138 | every cached row is shown exactly once before and after a refresh |
| Rows.RefreshKeepsUnlisted | mqtty/view/topic_list.py:128-138 | rows whose key is not listed are left alone |
| Rows.RefreshRowOf | mqtty/view/topic_list.py:131-137 | with distinct keys, each listed item's row is its old row updated with it, or a new row made from it |
| Rows.RebuildOrder | mqtty/view/topic_list.py:179-181 | refilling an emptied cache shows the listed keys in list order |
| TopicList.SpacingLaws | mqtty/view/topic_list.py:25-34 | for every column the spacing is one more than its given width, or than eight per weight unit; within one packing the spacing orders and determines the value |
| TopicList.NewTopicRow | mqtty/view/topic_list.py:248-273 | a new row is unmarked, well formed and named after the topic |
| TopicList.UpdateTopicRow | mqtty/view/topic_list.py:275-279 | an update keeps the name, mark and style |
| TopicList.RowShowsItem | mqtty/view/topic_list.py:275-279 | a new or updated row shows the topic's key, its update time and the message count |
| TopicList.ToggleMark | mqtty/view/topic_list.py:282-289 | flips the mark, shows it in the name and style, and keeps the other columns |
| TopicList.ToggleMarkTwice | mqtty/view/topic_list.py:282-289 | toggling twice restores a well-formed row |
| TopicList.ListedTopics | mqtty/view/topic_list.py:125-127 | the listing holds every topic and has the table's length |
| TopicList.ListedNoDup | mqtty/view/topic_list.py:125-127 | the listing holds every topic exactly once |
| TopicList.ListedKeysDistinct | mqtty/view/topic_list.py:125-130 | no two listed topics share a key |
| TopicList.RefreshShowsTopics | mqtty/view/topic_list.py:117-141 | after a refresh every listed topic has exactly one row, showing its key, update time and number of stored messages; an existing row keeps its name and mark, a new one is unmarked and named after the topic |
| TopicList.RebuildShowsOrder | mqtty/view/topic_list.py:176-206 | after a sort command the body shows the topics in exactly the listed order |
| TopicList.Chosen | mqtty/view/topic_list.py:170-206 | the command acted on is present and is a known one; None iff no known command is present; refresh takes precedence |
| TopicList.SortAfterLaws | mqtty/view/topic_list.py:176-206 | reversing twice restores the order; choosing a sort column twice is the same as once |
| TopicList.TopicListView.constructor | mqtty/view/topic_list.py:90-102 | a new view is sorted by name, not reversed, and filled by a first refresh |
| TopicList.TopicListView.Refresh | mqtty/view/topic_list.py:117-141 | the rows become exactly the refresh of the listed topics; each row is shown once; the title counts all topics |
| TopicList.TopicListView.ShowTopics | mqtty/view/topic_list.py:128-138 | the loop walks every listed topic in order, leaving the cache refreshed by all of them |
| TopicList.TopicListView.ClearTopicList | mqtty/view/topic_list.py:150-153 | the body and the row dictionary end empty |
| TopicList.TopicListView.HandleCommands | mqtty/view/topic_list.py:170-206 | handled iff a known command is present; refresh keeps the settings and refreshes; a sort command on an empty list changes nothing; otherwise it updates the sort settings and rebuilds the list in the new order; after a refresh or a rebuild the title counts all topics |
| MessageList.NewMessageRow | mqtty/view/message_list.py:138-157 | a new row is unmarked and shows the payload behind a space |
| MessageList.UpdateMessageRow | mqtty/view/message_list.py:159-161 | an update keeps the shown payload and the mark |
| MessageList.RowShowsMessage | mqtty/view/message_list.py:159-161 | a new or updated row shows the message's key and update time |
| MessageList.ListedMessagesOfTopic | mqtty/view/message_list.py:85-86 | in a consistent store the view lists the topic's messages in stored order, with distinct keys |
| MessageList.RefreshShowsMessages | mqtty/view/message_list.py:79-97 | after a refresh every message of the topic has exactly one row, showing its key and update time; an existing row keeps its payload and mark, a new one is unmarked |
| MessageList.RefreshOnlyAppends | mqtty/view/message_list.py:85-93 | a refresh never drops or reorders rows; it only appends rows for messages of the topic that had none |
| MessageList.MessageListView.constructor | mqtty/view/message_list.py:58-66 | a new view of the topic, filled by a first refresh |
| MessageList.MessageListView.Refresh | mqtty/view/message_list.py:79-97 | the rows become exactly the refresh of the topic's messages; each row is shown once; the title counts the topic's messages |
| MessageList.MessageListView.ShowMessages | mqtty/view/message_list.py:85-94 | the loop walks every message in order, leaving the cache refreshed by all of them, and counts them |

## Left out

- Threads, locks and condition variables are not modelled. The methods run
  one at a time, and the session lock is a flag.
- Sync.MultiQueue.Get: the source blocks on the condition variable while
  every bucket is empty. The model requires a non-empty bucket instead.
- Sync.MultiQueue.Put and Sync.MultiQueue.Find: an unknown priority raises
  `KeyError` in the source. The model requires a known priority.
- Sync.OnMessage: the final `app.refresh()` call and the debug logging are
  not modelled.
- The MQTT client, the network, the socket listener's I/O, the pipes and
  the logging are not modelled. The socket listener is modelled only as
  its line split (`App.SplitCommand`).
- SQLAlchemy, the session object and alembic migrations are not modelled.
  The store is the `Tables` value and its consistency predicate.
- `ORDER BY` on equal sort columns: SQL leaves the order open. The model
  breaks ties by primary key.
- `ORDER BY name` uses SQLite's text collation. The model compares strings
  by code point (`Text.Compare`).
- Timestamps (`func.now()`, `DateTime`) are integers passed in by the
  caller. `str(updated)` is kept as the number itself.
- App.App.ChangeScreen: a widget without a `title` raises
  `AttributeError` in the source. The model requires a title.
- App.App.Refresh: the status header's own refresh is not modelled.
  `updateStatusQueries` is empty in the source and is counted as calls. The
  views define no `interested`, and the sync code never fills the result
  queue. The model passes `interested` in as a function.
- App.App.ShowWarning: the category filtering after logging is not
  modelled, nor is the error pipe it then writes to. It depends on
  `requestsexceptions`, which is never imported, and on the configuration.
- `SearchQuery` covers only the numeric rewrite. For other text the source
  calls `parseInternalURL`, `openInternalURL` and `doSearch`, none of which
  exists in the source. The model passes the stripped text on.
- `findStoryList` refers to a story list view that is not part of this
  program. It is not modelled.
- The layout of the breadcrumb bar and the status header is not modelled.
  Only the breadcrumb text and its truncation are.
- Widget identity is value equality. Screens carry an `id` so that distinct
  screens are never equal.
- The rows of the views are values in a dictionary. The body holds their
  keys rather than the row objects.
- The database session around a view's refresh is not modelled.
  `app.status.update` from the views is not modelled either.
- Key handling and the keymap (`keypress`, `getCommands`, `help`) are not
  modelled. `handleCommands` receives commands already decoded.
- `onSelect`, the message detail view and mouse scrolling are not
  modelled.
- Python 2 `str.strip` and `str.split` are taken on ASCII whitespace. No
  Unicode whitespace is modelled.
- `createMessage` (db.py:265-269) inserts only the message row; no join
  row is written (`Store.Database.CreateMessage`, `Sync.OnMessage`).
- Store.Database.CreateTopic: `None` stands for the `IntegrityError` of the
  failed flush (db.py:262). In the source that error rolls back the whole
  transaction, so a caller modelling it must end the session with
  `Exit(true)`.
- Store.Database.RemoveTopic and Store.Database.RemoveMessage: `ok ==
  false` stands for the `ValueError` of `list.remove`, which leaves the
  session through `__exit__` (db.py:181-190); a caller modelling the
  source must end the session with `Exit(true)`, which rolls back the
  deleted rows.
- App.ProjectCache.Get: the counts are passed in. The source reads
  `project.active_stories` and `project.stories` (app.py:232-233), which no
  class of this program defines, and the cache is only ever constructed
  (app.py:281).

## Findings

| source | as written | input that shows it | evidently intended | confidence | as-written member | corrected member |
|---|---|---|---|---|---|---|
| mqtty/db.py:93 | `TopicMessage(topic, self, seq+1)` passes the message as the `topic` argument, so the join row's `topic_key` is the message key | a message with key 1 added to the topic with key 2 gets a row with topic key 1 | the row links the message to the given topic | high (not executed) | Store.AddTopicAsWrittenMisfiles | Store.Database.AddTopic |
| mqtty/db.py:101-104 | join rows are removed from the list while iterating over it, so the row after each removed one is skipped | two consecutive rows linking message 3 to topic 7: the second survives | every row of the pair is deleted | high (not executed) | Store.RemoveWhileIteratingSkips | Store.Unlink |
| mqtty/db.py:59-66 | `Topic.addMessage` reads `self.topic_messages`, which the Topic mapping (db.py:108-112) does not define, and builds the row from `self.name`, a string | any topic and message: the call raises `AttributeError` | the same join row as `Message.addTopic` | high (not executed) | Store.TopicLinkMethodsAsWrittenFail | Store.Database.AddMessage |
| mqtty/db.py:68-76 | `Topic.removeMessage` reads `self.topic_messages`, which the Topic mapping does not define; past that, its filter `tm.topic_key == self.key` ignores the message | any topic and message: the call raises `AttributeError`; with the lookup, removing message 3 from topic 7 deletes message 4's row for topic 7 | delete only the join rows of this topic and this message | high (not executed) | Store.TopicRemoveFilterIgnoresMessage | Store.Database.RemoveMessage |

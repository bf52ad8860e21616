/** The screen stack and small helpers of the terminal application in
    mqtty/app.py. */
module App {

  import opened Wrappers
  import opened Seqs
  import Text

  /** A widget that can be shown as the frame body. Screens carry an `id`, so
      two distinct screens are never equal; `title` is absent for widgets
      without a `title` attribute. An overlay shows `top` over `bottom`. */
  datatype Widget =
    | Screen(id: nat, title: Option<string>)
    | Overlay(top: Widget, bottom: Widget, title: Option<string>)

  /** An event from the sync result queue. */
  datatype Event = Event(id: nat, heldChanged: bool)

  /** The screen under any stack of overlays: `contents[0][0]` of an urwid
      overlay is its bottom widget. */
  function BaseOf(w: Widget): (b: Widget)
    ensures b.Screen?
  {
    match w
    case Screen(_, _) => w
    case Overlay(_, bottom, _) => BaseOf(bottom)
  }

  /** The position in the stack whose widget `backScreen(target)` lands on:
      the topmost one with no target; the topmost occurrence of the target;
      the bottom one when the target is not in the stack. */
  function Landing(s: seq<Widget>, target: Option<Widget>): (i: nat)
    requires s != []
    ensures i < |s|
    ensures target.None? ==> i == |s| - 1
    ensures target.Some? && target.value in s ==>
              s[i] == target.value && forall j :: i < j < |s| ==> s[j] != target.value
    ensures target.Some? && target.value !in s ==> i == 0
  {
    if target.None? || s[|s| - 1] == target.value || |s| == 1 then |s| - 1
    else
      var init := s[..|s| - 1];
      assert forall x :: x in s <==> x in init || x == s[|s| - 1];
      Landing(init, target)
  }

  /** `any(widget.interested(e) for e in events)` and `any(e.held_changed for
      e in events)`, computed the way `refresh` drains the queue. */
  method ScanEvents(w: Widget, events: seq<Event>, interested: (Widget, Event) -> bool)
    returns (anyInterested: bool, anyHeldChanged: bool)
    ensures anyInterested <==> exists i :: 0 <= i < |events| && interested(w, events[i])
    ensures anyHeldChanged <==> exists i :: 0 <= i < |events| && events[i].heldChanged
  {
    anyInterested := false;
    anyHeldChanged := false;
    var k := 0;
    while k < |events|
      invariant 0 <= k <= |events|
      invariant anyInterested <==> exists i :: 0 <= i < k && interested(w, events[i])
      invariant anyHeldChanged <==> exists i :: 0 <= i < k && events[i].heldChanged
    {
      if interested(w, events[k]) {
        anyInterested := true;
      }
      if events[k].heldChanged {
        anyHeldChanged := true;
      }
      k := k + 1;
    }
  }

  /** The pop loop of `backScreen`: pops widgets off `s` until the target
      (any widget when there is none) is popped or nothing is left; returns
      the rest of the stack and the last widget popped. */
  method PopTo(s: seq<Widget>, target: Option<Widget>) returns (stack: seq<Widget>, widget: Widget)
    requires s != []
    ensures var i := Landing(s, target); stack == s[..i] && widget == s[i]
  {
    stack := s[..|s| - 1];
    widget := s[|s| - 1];
    while stack != [] && !(target.None? || widget == target.value)
      invariant |stack| < |s|
      invariant stack == s[..|stack|] && widget == s[|stack|]
      invariant target.None? ==> |stack| == |s| - 1
      invariant target.Some? ==> forall j :: |stack| < j < |s| ==> s[j] != target.value
      decreases |stack|
    {
      widget := stack[|stack| - 1];
      stack := stack[..|stack| - 1];
    }
    LandingAt(s, target, |stack|);
  }

  /** A position is the landing when nothing above it is the target and it
      is the target, the bottom, or the top with no target. */
  lemma {:induction false} LandingAt(s: seq<Widget>, target: Option<Widget>, n: nat)
    requires n < |s|
    requires target.None? ==> n == |s| - 1
    requires target.Some? ==> (n == 0 || s[n] == target.value) && forall j :: n < j < |s| ==> s[j] != target.value
    ensures Landing(s, target) == n
  {
    if n < |s| - 1 {
      var init := s[..|s| - 1];
      LandingAt(init, target, n);
    }
  }

  predicate SomeInterested(w: Widget, events: seq<Event>, interested: (Widget, Event) -> bool)
  {
    exists i :: 0 <= i < |events| && interested(w, events[i])
  }

  predicate SomeHeldChanged(events: seq<Event>)
  {
    exists i :: 0 <= i < |events| && events[i].heldChanged
  }

  /** The application state the navigation code touches. */
  class App {
    /** The screen history, oldest first. */
    var screens: seq<Widget>
    /** `frame.body`, the widget on display. */
    var body: Widget
    var inputBuffer: seq<string>
    /** The status header's title, message and error flag. */
    var statusTitle: string
    var statusMessage: string
    var statusError: bool
    /** `sync.result_queue`, oldest first. */
    var resultQueue: seq<Event>
    /** The widgets whose `refresh()` has been called, in call order. */
    var refreshed: seq<Widget>
    /** How often `updateStatusQueries` has run. */
    var statusQueryUpdates: nat
    /** `logged_warnings`, and the warnings logged, in order. */
    var loggedWarnings: set<string>
    var warningLog: seq<string>
    /** `widget.interested(event)` of the views. */
    const interested: (Widget, Event) -> bool

    ghost predicate Valid()
      reads this
    {
      NoDup(warningLog) && (forall m :: m in loggedWarnings <==> m in warningLog)
    }

    /** Starts on the topic list with the welcome dialog popped up over it. */
    constructor (topicList: Widget, welcome: Widget, interestedIn: (Widget, Event) -> bool)
      requires topicList.title.Some?
      ensures Valid()
      ensures screens == [topicList]
      ensures body == Overlay(welcome, topicList, welcome.title)
      ensures statusTitle == topicList.title.value && inputBuffer == []
      ensures resultQueue == [] && refreshed == [] && loggedWarnings == {} && warningLog == []
      ensures interested == interestedIn
    {
      screens := [topicList];
      body := Overlay(welcome, topicList, welcome.title);
      inputBuffer := [];
      statusTitle := topicList.title.value;
      statusMessage := "";
      statusError := false;
      resultQueue := [];
      refreshed := [];
      statusQueryUpdates := 0;
      loggedWarnings := {};
      warningLog := [];
      interested := interestedIn;
    }

    /** `clearInputBuffer()`: empties a non-empty key buffer and blanks the
        status message; an empty buffer leaves everything as it is. */
    method ClearInputBuffer()
      modifies this`inputBuffer, this`statusMessage
      ensures inputBuffer == []
      ensures old(inputBuffer) != [] ==> statusMessage == ""
      ensures old(inputBuffer) == [] ==> statusMessage == old(statusMessage)
    {
      if inputBuffer != [] {
        inputBuffer := [];
        statusMessage := "";
      }
    }

    /** `changeScreen(widget, push)`: shows `w`, saving the current body on
        the stack when `push` holds. */
    method ChangeScreen(w: Widget, push: bool)
      requires w.title.Some?
      modifies this`screens, this`body, this`inputBuffer, this`statusMessage, this`statusTitle, this`statusError
      ensures body == w
      ensures push ==> screens == old(screens) + [old(body)]
      ensures !push ==> screens == old(screens)
      ensures statusTitle == w.title.value && !statusError && inputBuffer == []
      ensures old(inputBuffer) != [] ==> statusMessage == ""
      ensures old(inputBuffer) == [] ==> statusMessage == old(statusMessage)
    {
      statusError := false;
      statusTitle := w.title.value;
      if push {
        screens := screens + [body];
      }
      ClearInputBuffer();
      body := w;
    }

    /** `popup(widget)`: overlays `w` on the current body, which is saved on
        the stack. */
    method Popup(w: Widget)
      modifies this`screens, this`body, this`inputBuffer, this`statusMessage
      ensures screens == old(screens) + [old(body)]
      ensures body == Overlay(w, old(body), w.title)
      ensures BaseOf(body) == BaseOf(old(body))
      ensures inputBuffer == []
      ensures old(inputBuffer) != [] ==> statusMessage == ""
      ensures old(inputBuffer) == [] ==> statusMessage == old(statusMessage)
    {
      ClearInputBuffer();
      var overlay := Overlay(w, body, w.title);
      screens := screens + [body];
      body := overlay;
    }

    /** `refresh(force)`: drains the result queue; refreshes the screen under
        any overlays when forced or when it is interested in some event, and
        updates the status queries when some event changed the held state. */
    method Refresh(force: bool)
      modifies this`resultQueue, this`refreshed, this`statusQueryUpdates
      ensures resultQueue == []
      ensures var w := BaseOf(body);
              refreshed == old(refreshed) +
                (if force || SomeInterested(w, old(resultQueue), interested) then [w] else [])
      ensures statusQueryUpdates == old(statusQueryUpdates) + (if SomeHeldChanged(old(resultQueue)) then 1 else 0)
    {
      var w := BaseOf(body);
      var anyInterested, invalidate := ScanEvents(w, resultQueue, interested);
      resultQueue := [];
      if force || anyInterested {
        refreshed := refreshed + [w];
      }
      if invalidate {
        statusQueryUpdates := statusQueryUpdates + 1;
      }
    }

    /** `backScreen(target)`: pops screens until the target (any screen when
        there is none) is popped or the stack runs out, shows the last popped
        screen and forces a refresh. An empty stack changes nothing. */
    method BackScreen(target: Option<Widget>)
      modifies this`screens, this`body, this`inputBuffer, this`statusMessage, this`statusTitle,
        this`resultQueue, this`refreshed, this`statusQueryUpdates
      ensures old(screens) == [] ==>
                && screens == [] && body == old(body) && inputBuffer == old(inputBuffer)
                && statusTitle == old(statusTitle) && statusMessage == old(statusMessage)
                && refreshed == old(refreshed) && resultQueue == old(resultQueue)
                && statusQueryUpdates == old(statusQueryUpdates)
      ensures old(screens) != [] ==>
                var i := Landing(old(screens), target);
                && screens == old(screens)[..i]
                && body == old(screens)[i]
                && inputBuffer == [] && resultQueue == []
                && refreshed == old(refreshed) + [BaseOf(body)]
                && statusQueryUpdates == old(statusQueryUpdates) + (if SomeHeldChanged(old(resultQueue)) then 1 else 0)
                && (body.title.Some? ==> statusTitle == body.title.value)
                && (body.title.None? ==> statusTitle == old(statusTitle))
                && (old(inputBuffer) != [] ==> statusMessage == "")
                && (old(inputBuffer) == [] ==> statusMessage == old(statusMessage))
    {
      if screens == [] {
        return;
      }
      var stack, widget := PopTo(screens, target);
      screens := stack;
      if widget.title.Some? {
        statusTitle := widget.title.value;
      }
      ClearInputBuffer();
      body := widget;
      Refresh(true);
    }

    /** `clearHistory()`: empties the stack, ending on its bottom screen. */
    method ClearHistory()
      modifies this`screens, this`body, this`inputBuffer, this`statusMessage
      ensures screens == []
      ensures old(screens) != [] ==> body == old(screens)[0] && inputBuffer == []
      ensures old(screens) == [] ==> body == old(body) && inputBuffer == old(inputBuffer)
      ensures old(screens) != [] && old(inputBuffer) != [] ==> statusMessage == ""
      ensures old(screens) == [] || old(inputBuffer) == [] ==> statusMessage == old(statusMessage)
    {
      ghost var s0 := screens;
      while screens != []
        invariant screens == s0[..|screens|]
        invariant |screens| < |s0| ==> body == s0[|screens|] && inputBuffer == []
        invariant |screens| == |s0| ==> body == old(body) && inputBuffer == old(inputBuffer)
        invariant |screens| < |s0| && old(inputBuffer) != [] ==> statusMessage == ""
        invariant |screens| == |s0| || old(inputBuffer) == [] ==> statusMessage == old(statusMessage)
        decreases |screens|
      {
        var widget := screens[|screens| - 1];
        screens := screens[..|screens| - 1];
        ClearInputBuffer();
        body := widget;
      }
    }

    /** `_showWarning(message)`: a message already seen is ignored; a new one
        is logged once and remembered. */
    method ShowWarning(message: string)
      requires Valid()
      modifies this`loggedWarnings, this`warningLog
      ensures Valid()
      ensures message in old(loggedWarnings) ==> warningLog == old(warningLog) && loggedWarnings == old(loggedWarnings)
      ensures message !in old(loggedWarnings) ==>
                warningLog == old(warningLog) + [message] && loggedWarnings == old(loggedWarnings) + {message}
    {
      if message in loggedWarnings {
        return;
      }
      warningLog := warningLog + [message];
      loggedWarnings := loggedWarnings + {message};
    }
  }

  /** Story counts cached per project. */
  datatype ProjectCounts = ProjectCounts(activeStories: nat, stories: nat)

  /** `ProjectCache`: counts computed once per project key until cleared. */
  class ProjectCache {
    var projects: map<nat, ProjectCounts>

    constructor ()
      ensures projects == map[]
    {
      projects := map[];
    }

    /** `get(project)`: the cached counts, computing them (here: `counts`,
        what the project reports now) only on a miss. */
    method Get(key: nat, counts: ProjectCounts) returns (r: ProjectCounts)
      modifies this
      ensures key in old(projects) ==> r == old(projects)[key] && projects == old(projects)
      ensures key !in old(projects) ==> r == counts && projects == old(projects)[key := counts]
      ensures key in projects && projects[key] == r
    {
      if key !in projects {
        projects := projects[key := counts];
      }
      r := projects[key];
    }

    /** `clear(project)`: forgets the project's counts, if any. */
    method Clear(key: nat)
      modifies this
      ensures projects == old(projects) - {key}
      ensures key !in projects
    {
      if key in projects {
        projects := projects - {key};
      }
    }
  }

  // ---------------------------------------------------------------------
  // Pure helpers

  /** `BREADCRUMB_SYMBOL`, BLACK RIGHT-POINTING SMALL TRIANGLE. */
  const BreadcrumbSymbol: char := '\U{25B8}'

  /** The title a breadcrumb shows: a non-empty `short_title`, else `title`,
      else the widget's `str()`. */
  function BreadcrumbTitle(shortTitle: Option<string>, title: Option<string>, repr: string): (t: string)
    ensures shortTitle.Some? && shortTitle.value != [] ==> t == shortTitle.value
    ensures (shortTitle.None? || shortTitle.value == []) ==> t == title.GetOr(repr)
  {
    if shortTitle.Some? && shortTitle.value != [] then shortTitle.value else title.GetOr(repr)
  }

  /** `_get_breadcrumb_text`: symbol, space and title, cut to its first 20
      characters plus "..." when longer than 23. */
  function BreadcrumbText(title: string): (text: string)
  {
    var full := [BreadcrumbSymbol, ' '] + title;
    if |full| > 23 then full[..20] + "..." else full
  }

  /** A breadcrumb is never wider than 23 characters, always starts with the
      symbol, shows a short title whole, and keeps the first 18 characters
      of a long one. */
  lemma BreadcrumbBounds(title: string)
    ensures |BreadcrumbText(title)| <= 23
    ensures BreadcrumbText(title)[..2] == [BreadcrumbSymbol, ' ']
    ensures |title| <= 21 ==> BreadcrumbText(title) == [BreadcrumbSymbol, ' '] + title
    ensures |title| > 21 ==> BreadcrumbText(title) == [BreadcrumbSymbol, ' '] + title[..18] + "..."
  {
    var full := [BreadcrumbSymbol, ' '] + title;
    if |full| > 23 {
      assert full[..20] == [BreadcrumbSymbol, ' '] + title[..18];
    }
  }

  /** Truncation is stable: a breadcrumb of a title that is already a
      truncated one is cut at the same place. */
  lemma BreadcrumbIdempotentCut(title: string)
    requires |title| > 21
    ensures var t := BreadcrumbText(title)[2..];
            |t| == 21 && BreadcrumbText(t) == BreadcrumbText(title)
  {
    var t := BreadcrumbText(title)[2..];
    BreadcrumbBounds(title);
    assert t == title[..18] + "...";
    BreadcrumbBounds(t);
  }

  /** What `_socketListener` queues for a received line: the first word as
      the command and the other words as its arguments; `None` for a line
      without words (the `IndexError` the handler logs). */
  function SplitCommand(buf: string): (r: Option<(string, seq<string>)>)
    ensures r.None? <==> Text.Words(Text.Strip(buf)) == []
    ensures r.Some? ==> [r.value.0] + r.value.1 == Text.Words(Text.Strip(buf))
  {
    var parts := Text.Words(Text.Strip(buf));
    if parts == [] then None else Some((parts[0], parts[1..]))
  }

  /** A command line written as words joined by single spaces and ended by a
      newline is split back into exactly those words. */
  lemma SplitCommandRoundTrip(command: string, args: seq<string>)
    requires Text.IsWord(command)
    requires forall i :: 0 <= i < |args| ==> Text.IsWord(args[i])
    ensures SplitCommand(Text.Join([command] + args) + "\n") == Some((command, args))
  {
    var ws := [command] + args;
    forall i | 0 <= i < |ws| ensures Text.IsWord(ws[i]) {
      if i > 0 {
        assert ws[i] == args[i - 1];
      }
    }
    Text.StripLine(ws);
    Text.WordsOfJoin(ws);
    assert Text.Words(Text.Strip(Text.Join(ws) + "\n")) == ws;
    assert ws[0] == command && ws[1..] == args;
  }

  /** `simple_story_search`: the query the search dialog runs for an entry;
      a number becomes a `story:` query, anything else is passed on
      stripped. */
  function SearchQuery(entry: string): (q: string)
  {
    var query := Text.Strip(entry);
    if Text.IsDigits(query) then "story:" + query else query
  }

  /** A number typed into the search dialog becomes the query for the story
      with that number, and the number reads back from the query. */
  lemma SearchQueryOfNumber(n: nat)
    ensures var q := SearchQuery(Text.NatToString(n));
            q[..6] == "story:" && Text.IsDigits(q[6..]) && Text.DigitsValue(q[6..]) == n
  {
    var d := Text.NatToString(n);
    Text.StripWord(d);
    Text.NatToStringValue(n);
    assert SearchQuery(d)[6..] == d;
  }
}

// packages/flutter-ultra-browser/src/browserManager.ts
//
// Console captures: which listeners are installed on which pages while pages,
// captures and contexts come and go in any order.
module ConsoleCapture {
  import opened Collections

  const CAPTURE_BUFFER_CAP := 10_000

  datatype ConsoleEvent = ConsoleEvent(ts: int, level: string, text: string, url: string)

  // The filters of a capture, all three of them, are one predicate here.
  type Filter = ConsoleEvent -> bool

  // ---------------------------------------------------------------- states

  datatype Capture = Capture(
    contextId: string,
    filter: Filter,
    pageIds: set<string>,
    listeners: set<string>,     // the keys of the listeners map
    buffer: seq<ConsoleEvent>,
    truncated: bool,
    accepted: seq<ConsoleEvent>)  // all events the filter let through so far

  datatype State = State(
    contexts: set<string>,
    pages: map<string, string>,         // page id -> context id
    captures: map<string, Capture>,
    attached: set<(string, string)>,    // listeners on the pages: (page id, capture id)
    closed: set<string>,                // pages whose close event has fired
    known: set<string>)                 // ids given out so far

  function PagesOf(pages: map<string, string>, contextId: string): set<string>
  {
    set p | p in pages && pages[p] == contextId
  }

  function WithPage(c: Capture, p: string): Capture
  {
    c.(pageIds := c.pageIds + {p}, listeners := c.listeners + {p})
  }

  function WithoutPage(c: Capture, p: string): Capture
  {
    c.(pageIds := c.pageIds - {p}, listeners := c.listeners - {p})
  }

  function Record(c: Capture, ev: ConsoleEvent): Capture
  {
    if !c.filter(ev) then c
    else c.(buffer := LastN(c.buffer + [ev], CAPTURE_BUFFER_CAP),
            truncated := c.truncated || |c.buffer| + 1 > CAPTURE_BUFFER_CAP,
            accepted := c.accepted + [ev])
  }

  function WithPageIn(captures: map<string, Capture>, ctx: string, p: string): map<string, Capture>
  {
    map c | c in captures :: if captures[c].contextId == ctx then WithPage(captures[c], p) else captures[c]
  }

  function WithoutPageIn(captures: map<string, Capture>, p: string): map<string, Capture>
  {
    map c | c in captures :: WithoutPage(captures[c], p)
  }

  /** A listener on page p for each capture of the context. */
  function Listening(captures: map<string, Capture>, ctx: string, p: string): set<(string, string)>
  {
    set c | c in captures && captures[c].contextId == ctx :: (p, c)
  }

  lemma OneMoreListening(captures: map<string, Capture>, left: set<string>, c: string, ctx: string, p: string)
    requires c in left && c in captures
    ensures Listening(captures - (left - {c}), ctx, p)
         == Listening(captures - left, ctx, p) + if captures[c].contextId == ctx then {(p, c)} else {}
  {
    var more := captures - (left - {c});
    assert more.Keys == (captures - left).Keys + {c};
  }

  function RecordIn(captures: map<string, Capture>, receivers: set<string>, ev: ConsoleEvent)
    : map<string, Capture>
  {
    map c | c in captures :: if c in receivers then Record(captures[c], ev) else captures[c]
  }

  function NotIn(captures: map<string, Capture>, ctx: string): map<string, Capture>
  {
    map c | c in captures && captures[c].contextId != ctx :: captures[c]
  }

  /** The listeners left when the captures of a context have let go of theirs. */
  function DetachedIn(attached: set<(string, string)>, captures: map<string, Capture>, ctx: string)
    : set<(string, string)>
  {
    set t | t in attached
      && !(t.1 in captures && captures[t.1].contextId == ctx && t.0 in captures[t.1].listeners)
  }

  lemma OneMoreDetached(attached: set<(string, string)>, captures: map<string, Capture>,
                        left: set<string>, c: string, ctx: string)
    requires c in left && c in captures
    ensures DetachedIn(attached, captures - (left - {c}), ctx)
         == if captures[c].contextId == ctx
            then Detached(DetachedIn(attached, captures - left, ctx), c, captures[c].listeners)
            else DetachedIn(attached, captures - left, ctx)
  {
  }

  // ---------------------------------------------------------------- steps

  datatype Event =
    | OpenContext(newContext: string)
    | ContextGone(contextId: string)           // Playwright reports it closed
    | CloseContext(contextId: string)          // up to the first await it reaches
    | CloseAfterVideo(contextId: string)       // from behind the wait for a video path
    | RegisterPage(newPage: string, contextId: string)
    | PageClosed(page: string)
    | StartCapture(newCapture: string, contextId: string, filter: Filter)
    | StopCapture(capture: string)
    | Console(page: string, ev: ConsoleEvent)

  // Ids are new, a page closes once, and a closed page is silent.
  predicate Enabled(s: State, e: Event)
  {
    match e
    case OpenContext(id) => id !in s.known
    case RegisterPage(id, _) => id !in s.known
    case StartCapture(id, _, _) => id !in s.known
    case PageClosed(p) => p in s.known && p !in s.closed
    case Console(p, _) => p in s.known && p !in s.closed
    case _ => true
  }

  function Receivers(s: State, p: string): set<string>
  {
    set t | t in s.attached && t.0 == p :: t.1
  }

  function Step(s: State, e: Event): State
  {
    match e
    case OpenContext(id) => s.(contexts := s.contexts + {id}, known := s.known + {id})
    case ContextGone(ctx) => s.(contexts := s.contexts - {ctx})
    case CloseContext(ctx) => if ctx in s.contexts then Closing(s, ctx) else s
    case CloseAfterVideo(ctx) => Closing(s, ctx)
    case RegisterPage(p, ctx) => Registered(s, p, ctx)
    case PageClosed(p) =>
      s.(pages := s.pages - {p},
         captures := WithoutPageIn(s.captures, p),
         closed := s.closed + {p})
    case StartCapture(id, ctx, filter) => if ctx in s.contexts then Started(s, id, ctx, filter) else s
    case StopCapture(id) => if id in s.captures then Stopped(s, id) else s
    case Console(p, ev) =>
      s.(captures := RecordIn(s.captures, Receivers(s, p), ev))
  }

  function Registered(s: State, p: string, ctx: string): State
  {
    s.(pages := s.pages[p := ctx],
       captures := WithPageIn(s.captures, ctx, p),
       attached := s.attached + Listening(s.captures, ctx, p),
       known := s.known + {p})
  }

  function Started(s: State, id: string, ctx: string, filter: Filter): State
  {
    var here := PagesOf(s.pages, ctx);
    s.(captures := s.captures[id := Capture(ctx, filter, here, here, [], false, [])],
       attached := s.attached + (set p | p in here :: (p, id)),
       known := s.known + {id})
  }

  function Detached(attached: set<(string, string)>, id: string, listeners: set<string>)
    : set<(string, string)>
  {
    attached - (set p | p in listeners :: (p, id))
  }

  function Stopped(s: State, id: string): State
    requires id in s.captures
  {
    s.(captures := s.captures - {id},
       attached := Detached(s.attached, id, s.captures[id].listeners))
  }

  function Closing(s: State, ctx: string): State
  {
    s.(pages := map p | p in s.pages && s.pages[p] != ctx :: s.pages[p],
       captures := NotIn(s.captures, ctx),
       attached := DetachedIn(s.attached, s.captures, ctx))
  }

  function Initial(): State { State({}, map[], map[], {}, {}, {}) }

  // ---------------------------------------------------------------- invariant

  /** A capture is indexed under exactly the registered pages of its context. */
  predicate Agrees(s: State, c: string)
    requires c in s.captures
  {
    var here := PagesOf(s.pages, s.captures[c].contextId);
    s.captures[c].pageIds == here && s.captures[c].listeners == here
  }

  predicate Bounded(c: Capture)
  {
    && c.buffer == LastN(c.accepted, CAPTURE_BUFFER_CAP)
    && (c.truncated <==> |c.accepted| > CAPTURE_BUFFER_CAP)
  }

  /** The listeners that are installed are the ones the captures remember, apart
      from those left on closed pages. */
  predicate Wired(s: State)
  {
    && (forall c :: c in s.captures ==> forall p :: p in s.captures[c].listeners ==> (p, c) in s.attached)
    && (forall t :: t in s.attached && t.0 !in s.closed ==>
          t.1 in s.captures && t.0 in s.captures[t.1].listeners)
  }

  predicate IdsKnown(s: State)
  {
    && s.closed <= s.known
    && (forall p :: p in s.pages ==> p in s.known && p !in s.closed)
    && (forall c :: c in s.captures ==> c in s.known)
    && (forall t :: t in s.attached ==> t.0 in s.known && t.1 in s.known)
  }

  predicate Inv(s: State)
  {
    && IdsKnown(s)
    && Wired(s)
    && forall c :: c in s.captures ==> Agrees(s, c) && Bounded(s.captures[c])
  }

  lemma RecordBounded(c: Capture, ev: ConsoleEvent)
    requires Bounded(c)
    ensures Bounded(Record(c, ev))
  {
    var all := c.accepted + [ev];
    if |c.accepted| <= CAPTURE_BUFFER_CAP {
    } else {
      assert c.buffer + [ev] == all[|c.accepted| - CAPTURE_BUFFER_CAP..];
      assert (c.buffer + [ev])[1..] == all[|all| - CAPTURE_BUFFER_CAP..];
    }
  }

  lemma RegisterKeepsInv(s: State, p: string, ctx: string)
    requires Inv(s) && p !in s.known
    ensures Inv(Registered(s, p, ctx))
  {
    var t := Registered(s, p, ctx);
    forall c | c in t.captures ensures Agrees(t, c) && Bounded(t.captures[c]) {
      assert Agrees(s, c);
      var own := s.captures[c].contextId;
      assert PagesOf(t.pages, own) == PagesOf(s.pages, own) + if own == ctx then {p} else {};
    }
  }

  lemma StartKeepsInv(s: State, id: string, ctx: string, filter: Filter)
    requires Inv(s) && id !in s.known
    ensures Inv(Started(s, id, ctx, filter))
  {
    var t := Started(s, id, ctx, filter);
    forall c | c in t.captures ensures Agrees(t, c) && Bounded(t.captures[c]) {
      if c != id { assert Agrees(s, c); }
    }
  }

  lemma StopKeepsInv(s: State, id: string)
    requires Inv(s) && id in s.captures
    ensures Inv(Stopped(s, id))
  {
    var t := Stopped(s, id);
    forall c | c in t.captures ensures Agrees(t, c) { assert Agrees(s, c); }
  }

  lemma PageCloseKeepsInv(s: State, p: string)
    requires Inv(s) && p in s.known
    ensures Inv(Step(s, PageClosed(p)))
  {
    var t := Step(s, PageClosed(p));
    forall c | c in t.captures ensures Agrees(t, c) && Bounded(t.captures[c]) {
      assert Agrees(s, c) && Bounded(s.captures[c]);
      assert PagesOf(t.pages, s.captures[c].contextId) == PagesOf(s.pages, s.captures[c].contextId) - {p};
    }
  }

  lemma CloseContextKeepsInv(s: State, ctx: string)
    requires Inv(s)
    ensures Inv(Closing(s, ctx))
  {
    var t := Closing(s, ctx);
    forall c | c in t.captures ensures Agrees(t, c) {
      assert Agrees(s, c);
      assert PagesOf(t.pages, t.captures[c].contextId) == PagesOf(s.pages, t.captures[c].contextId);
    }
  }

  lemma ConsoleKeepsInv(s: State, p: string, ev: ConsoleEvent)
    requires Inv(s)
    ensures Inv(Step(s, Console(p, ev)))
  {
    var t := Step(s, Console(p, ev));
    forall c | c in t.captures ensures Agrees(t, c) && Bounded(t.captures[c]) {
      assert Agrees(s, c);
      RecordBounded(s.captures[c], ev);
    }
  }

  /** Every step keeps the invariant. */
  lemma StepKeepsInv(s: State, e: Event)
    requires Inv(s) && Enabled(s, e)
    ensures Inv(Step(s, e))
  {
    match e
    case OpenContext(_) => forall c | c in s.captures ensures Agrees(Step(s, e), c) { assert Agrees(s, c); }
    case ContextGone(_) => forall c | c in s.captures ensures Agrees(Step(s, e), c) { assert Agrees(s, c); }
    case CloseContext(ctx) => CloseContextKeepsInv(s, ctx);
    case CloseAfterVideo(ctx) => CloseContextKeepsInv(s, ctx);
    case RegisterPage(p, ctx) => RegisterKeepsInv(s, p, ctx);
    case PageClosed(p) => PageCloseKeepsInv(s, p);
    case StartCapture(id, ctx, filter) => StartKeepsInv(s, id, ctx, filter);
    case StopCapture(id) => if id in s.captures { StopKeepsInv(s, id); }
    case Console(p, ev) => ConsoleKeepsInv(s, p, ev);
  }

  lemma InReceivers(s: State, p: string, c: string)
    ensures c in Receivers(s, p) <==> (p, c) in s.attached
  {
    var t := (p, c);
    assert t.0 == p && t.1 == c;
  }

  /** An event on a page that has not closed reaches exactly the captures of the
      page's context, and none when the page is no longer registered. */
  lemma ReachesContext(s: State, p: string)
    requires Inv(s) && p !in s.closed
    ensures Receivers(s, p)
         == set c | c in s.captures && p in s.pages && s.captures[c].contextId == s.pages[p]
  {
    forall c
      ensures c in Receivers(s, p)
         <==> c in s.captures && p in s.pages && s.captures[c].contextId == s.pages[p]
    {
      InReceivers(s, p, c);
      if c in s.captures { assert Agrees(s, c); }
    }
  }

  // ---------------------------------------------------------------- what a capture hears

  // The same history without any index of pages or listeners: a capture hears what
  // happens on the pages of its context.
  datatype Active = Active(contextId: string, filter: Filter, heard: seq<ConsoleEvent>)

  datatype Simple = Simple(contexts: set<string>, pages: map<string, string>, active: map<string, Active>)

  function Hear(a: Active, ev: ConsoleEvent): Active
  {
    if a.filter(ev) then a.(heard := a.heard + [ev]) else a
  }

  function SimpleClosing(s: Simple, ctx: string): Simple
  {
    s.(pages := map p | p in s.pages && s.pages[p] != ctx :: s.pages[p],
       active := map c | c in s.active && s.active[c].contextId != ctx :: s.active[c])
  }

  function SimpleStep(s: Simple, e: Event): Simple
  {
    match e
    case OpenContext(id) => s.(contexts := s.contexts + {id})
    case ContextGone(ctx) => s.(contexts := s.contexts - {ctx})
    case CloseContext(ctx) => if ctx in s.contexts then SimpleClosing(s, ctx) else s
    case CloseAfterVideo(ctx) => SimpleClosing(s, ctx)
    case RegisterPage(p, ctx) => s.(pages := s.pages[p := ctx])
    case PageClosed(p) => s.(pages := s.pages - {p})
    case StartCapture(id, ctx, filter) =>
      if ctx in s.contexts then s.(active := s.active[id := Active(ctx, filter, [])]) else s
    case StopCapture(id) => s.(active := s.active - {id})
    case Console(p, ev) =>
      s.(active := map c | c in s.active ::
           if p in s.pages && s.active[c].contextId == s.pages[p] then Hear(s.active[c], ev)
           else s.active[c])
  }

  function Forget(c: Capture): Active { Active(c.contextId, c.filter, c.accepted) }

  function Abstract(s: State): Simple
  {
    Simple(s.contexts, s.pages, map c | c in s.captures :: Forget(s.captures[c]))
  }

  lemma ConsoleRefines(s: State, p: string, ev: ConsoleEvent)
    requires Inv(s) && p !in s.closed
    ensures Abstract(Step(s, Console(p, ev))) == SimpleStep(Abstract(s), Console(p, ev))
  {
    ReachesContext(s, p);
    var t, u := Abstract(Step(s, Console(p, ev))).active, SimpleStep(Abstract(s), Console(p, ev)).active;
    assert t.Keys == u.Keys;
    forall c | c in t ensures t[c] == u[c] {}
  }

  lemma RegisterRefines(s: State, p: string, ctx: string)
    ensures Abstract(Registered(s, p, ctx)) == SimpleStep(Abstract(s), RegisterPage(p, ctx))
  {
    assert Abstract(Registered(s, p, ctx)).active == Abstract(s).active;
  }

  lemma PageCloseRefines(s: State, p: string)
    ensures Abstract(Step(s, PageClosed(p))) == SimpleStep(Abstract(s), PageClosed(p))
  {
    assert Abstract(Step(s, PageClosed(p))).active == Abstract(s).active;
  }

  lemma CloseContextRefines(s: State, ctx: string)
    ensures Abstract(Closing(s, ctx)) == SimpleClosing(Abstract(s), ctx)
  {
    assert Abstract(Closing(s, ctx)).active == SimpleClosing(Abstract(s), ctx).active;
  }

  lemma CaptureRefines(s: State, e: Event)
    requires e.StartCapture? || e.StopCapture?
    ensures Abstract(Step(s, e)) == SimpleStep(Abstract(s), e)
  {
    assert Abstract(Step(s, e)).active == SimpleStep(Abstract(s), e).active;
  }

  lemma StepRefines(s: State, e: Event)
    requires Inv(s) && Enabled(s, e)
    ensures Abstract(Step(s, e)) == SimpleStep(Abstract(s), e)
  {
    match e
    case OpenContext(_) =>
    case ContextGone(_) =>
    case CloseContext(ctx) => CloseContextRefines(s, ctx);
    case CloseAfterVideo(ctx) => CloseContextRefines(s, ctx);
    case RegisterPage(p, ctx) => RegisterRefines(s, p, ctx);
    case PageClosed(p) => PageCloseRefines(s, p);
    case StartCapture(_, _, _) => CaptureRefines(s, e);
    case StopCapture(_) => CaptureRefines(s, e);
    case Console(p, ev) => ConsoleRefines(s, p, ev);
  }

  function Run(events: seq<Event>): State
  {
    if events == [] then Initial()
    else Step(Run(events[..|events| - 1]), events[|events| - 1])
  }

  function SimpleRun(events: seq<Event>): Simple
  {
    if events == [] then Simple({}, map[], map[])
    else SimpleStep(SimpleRun(events[..|events| - 1]), events[|events| - 1])
  }

  predicate Possible(events: seq<Event>)
  {
    events != [] ==>
      && Possible(events[..|events| - 1])
      && Enabled(Run(events[..|events| - 1]), events[|events| - 1])
  }

  /** Under any order of opening and closing pages, captures and contexts, the index
      agrees and every capture has heard exactly the events of its context. */
  lemma {:induction false} RunKeepsInv(events: seq<Event>)
    requires Possible(events)
    ensures Inv(Run(events)) && Abstract(Run(events)) == SimpleRun(events)
  {
    if events != [] {
      var before, last := events[..|events| - 1], events[|events| - 1];
      RunKeepsInv(before);
      StepKeepsInv(Run(before), last);
      StepRefines(Run(before), last);
    }
  }

  /** A page stays open, for events to come and for its own close, from its registration
      to that close. */
  lemma {:induction false} PageStaysOpen(events: seq<Event>, i: nat, ev: ConsoleEvent)
    requires Possible(events) && i < |events| && events[i].RegisterPage? && PageClosed(events[i].newPage) !in events
    ensures var s, p := Run(events), events[i].newPage; Enabled(s, Console(p, ev)) && Enabled(s, PageClosed(p))
    decreases |events|
  {
    var before, last := events[..|events| - 1], events[|events| - 1];
    assert events == before + [last];
    RunKeepsInv(before);
    if i < |before| {
      PageStaysOpen(before, i, ev);
    }
  }

  /** So its buffer is the last of those events, and `truncated` tells whether any
      were lost. */
  lemma BufferIsLastHeard(events: seq<Event>, c: string)
    requires Possible(events)
    ensures c in Run(events).captures <==> c in SimpleRun(events).active
    ensures c in Run(events).captures ==>
              var cap, heard := Run(events).captures[c], SimpleRun(events).active[c].heard;
              cap.buffer == LastN(heard, CAPTURE_BUFFER_CAP)
              && (cap.truncated <==> |heard| > CAPTURE_BUFFER_CAP)
              && cap.pageIds == PagesOf(Run(events).pages, cap.contextId)
  {
    RunKeepsInv(events);
    if c in Run(events).captures {
      assert c in Abstract(Run(events)).active;
      assert Agrees(Run(events), c) && Bounded(Run(events).captures[c]);
    }
  }
}

// packages/flutter-ultra-browser/src/browserManager.ts
//
// The manager itself: its maps and capture records, changed in place. Each method
// takes the step of the same name in module ConsoleCapture.
module BrowserManager {
  import opened Collections
  import opened ConsoleCapture

  class CaptureRecord {
    const captureId: string
    const contextId: string
    const filter: Filter
    var pageIds: set<string>
    var listeners: set<string>
    var buffer: seq<ConsoleEvent>
    var truncated: bool
    ghost var accepted: seq<ConsoleEvent>

    ghost function View(): Capture
      reads this
    {
      Capture(contextId, filter, pageIds, listeners, buffer, truncated, accepted)
    }

    constructor (captureId: string, contextId: string, filter: Filter)
      ensures this.captureId == captureId
      ensures View() == Capture(contextId, filter, {}, {}, [], false, [])
    {
      this.captureId, this.contextId, this.filter := captureId, contextId, filter;
      pageIds, listeners, buffer, truncated, accepted := {}, {}, [], false, [];
    }

    method RecordCaptureEvent(ev: ConsoleEvent)
      modifies this
      ensures View() == Record(old(View()), ev)
    {
      if !filter(ev) { return; }
      buffer := buffer + [ev];
      accepted := accepted + [ev];
      if |buffer| > CAPTURE_BUFFER_CAP {
        buffer := buffer[|buffer| - CAPTURE_BUFFER_CAP..];
        truncated := true;
      }
    }
  }

  ghost function ViewsOf(captures: map<string, CaptureRecord>): map<string, Capture>
    reads captures.Values
  {
    map c | c in captures :: captures[c].View()
  }

  lemma ViewsWith(captures: map<string, CaptureRecord>, id: string, capture: CaptureRecord)
    ensures ViewsOf(captures[id := capture]) == ViewsOf(captures)[id := capture.View()]
  {
  }

  /** A loop over the captures midway: those in `left` are as before. */
  ghost function Updated(before: map<string, Capture>, left: set<string>, after: map<string, Capture>)
    : map<string, Capture>
    requires before.Keys == after.Keys
  {
    map c | c in before :: if c in left then before[c] else after[c]
  }

  lemma UpdatedOne(before: map<string, Capture>, left: set<string>, after: map<string, Capture>, c: string)
    requires before.Keys == after.Keys && c in before && c in left
    ensures Updated(before, left - {c}, after) == Updated(before, left, after)[c := after[c]]
    ensures Updated(before, left, after)[c] == before[c]
  {
  }

  lemma UpdatedNoneAll(before: map<string, Capture>, after: map<string, Capture>)
    requires before.Keys == after.Keys
    ensures Updated(before, before.Keys, after) == before && Updated(before, {}, after) == after
  {
  }

  /** closeContextInternal midway: the captures of the context are gone, apart from
      those in `left`. */
  ghost function Remaining(before: map<string, Capture>, left: set<string>, ctx: string): map<string, Capture>
  {
    map c | c in before && (c in left || before[c].contextId != ctx) :: before[c]
  }

  ghost function DroppedIf(captures: map<string, Capture>, c: string, ctx: string): map<string, Capture>
    requires c in captures
  {
    if captures[c].contextId == ctx then captures - {c} else captures
  }

  ghost function DetachedIf(attached: set<(string, string)>, captures: map<string, Capture>, c: string, ctx: string)
    : set<(string, string)>
    requires c in captures
  {
    if captures[c].contextId == ctx then Detached(attached, c, captures[c].listeners) else attached
  }

  lemma OneFewerRemaining(attached: set<(string, string)>, before: map<string, Capture>, left: set<string>,
                          c: string, ctx: string)
    requires c in before && c in left
    ensures c in Remaining(before, left, ctx)
    ensures Remaining(before, left - {c}, ctx) == DroppedIf(Remaining(before, left, ctx), c, ctx)
    ensures DetachedIn(attached, before - (left - {c}), ctx)
         == DetachedIf(DetachedIn(attached, before - left, ctx), Remaining(before, left, ctx), c, ctx)
  {
    OneMoreDetached(attached, before, left, c, ctx);
  }

  lemma RemainingAllNone(attached: set<(string, string)>, before: map<string, Capture>, ctx: string)
    ensures Remaining(before, before.Keys, ctx) == before
    ensures Remaining(before, {}, ctx) == NotIn(before, ctx)
    ensures DetachedIn(attached, before - before.Keys, ctx) == attached
    ensures before - {} == before
  {
  }

  class BrowserManager {
    var contexts: set<string>
    var pages: map<string, string>
    var captures: map<string, CaptureRecord>
    var attached: set<(string, string)>  // the listener tables of the Playwright pages
    ghost var closed: set<string>
    ghost var known: set<string>

    ghost function View(): State
      reads this, captures.Values
    {
      State(contexts, pages, Views(), attached, closed, known)
    }

    ghost function Views(): map<string, Capture>
      reads `captures, captures.Values
    {
      ViewsOf(captures)
    }

    /** Each record stands under its own id, so no two entries share one. */
    ghost predicate Keyed()
      reads `captures
    {
      forall c :: c in captures ==> captures[c].captureId == c
    }

    ghost predicate Valid()
      reads this, captures.Values
    {
      Keyed() && Inv(View())
    }

    constructor ()
      ensures Valid() && View() == Initial()
    {
      contexts, pages, captures, attached, closed, known := {}, map[], map[], {}, {}, {};
      new;
      assert View() == Initial();
    }

    method RegisterContext(contextId: string)
      requires Valid() && contextId !in known
      modifies this
      ensures Valid() && View() == Step(old(View()), OpenContext(contextId))
    {
      ghost var before := View();
      contexts := contexts + {contextId};
      known := known + {contextId};
      StepKeepsInv(before, OpenContext(contextId));
      assert View() == Step(before, OpenContext(contextId));
    }

    /** The context's own close event. */
    method OnContextClosed(contextId: string)
      requires Valid()
      modifies this
      ensures Valid() && View() == Step(old(View()), ContextGone(contextId))
    {
      ghost var before := View();
      contexts := contexts - {contextId};
      StepKeepsInv(before, ContextGone(contextId));
      assert View() == Step(before, ContextGone(contextId));
    }

    method WireCaptureToPage(capture: CaptureRecord, pageId: string)
      modifies `attached, capture
      ensures attached == old(attached) + {(pageId, capture.captureId)}
      ensures capture.View() == WithPage(old(capture.View()), pageId)
    {
      attached := attached + {(pageId, capture.captureId)};
      capture.pageIds := capture.pageIds + {pageId};
      capture.listeners := capture.listeners + {pageId};
    }

    method WireIfIn(c: string, pageId: string, contextId: string)
      requires Keyed() && c in captures
      modifies `attached, captures.Values
      ensures var was := old(Views())[c]; var wires := was.contextId == contextId;
              && Views() == old(Views())[c := if wires then WithPage(was, pageId) else was]
              && attached == old(attached) + if wires then {(pageId, c)} else {}
    {
      if captures[c].contextId == contextId {
        WireCaptureToPage(captures[c], pageId);
      }
    }

    /** registerPage's loop over the active captures. */
    method WireCaptures(pageId: string, contextId: string)
      requires Keyed()
      modifies `attached, captures.Values
      ensures Views() == WithPageIn(old(Views()), contextId, pageId)
      ensures attached == old(attached) + Listening(old(Views()), contextId, pageId)
    {
      ghost var before, after := Views(), WithPageIn(Views(), contextId, pageId);
      var left := captures.Keys;
      UpdatedNoneAll(before, after);
      while left != {}
        invariant left <= captures.Keys && Views() == Updated(before, left, after)
        invariant attached == old(attached) + Listening(before - left, contextId, pageId)
      {
        var c :| c in left;
        OneMoreListening(before, left, c, contextId, pageId);
        UpdatedOne(before, left, after, c);
        WireIfIn(c, pageId, contextId);
        left := left - {c};
      }
      assert before - left == before;
    }

    method AddPage(pageId: string, contextId: string)
      requires Keyed()
      modifies this, captures.Values
      ensures Keyed() && View() == Registered(old(View()), pageId, contextId)
    {
      ghost var before := Views();
      pages := pages[pageId := contextId];
      known := known + {pageId};
      assert Views() == before;
      WireCaptures(pageId, contextId);
    }

    method RegisterPage(pageId: string, contextId: string)
      requires Valid() && pageId !in known
      modifies this, captures.Values
      ensures Valid() && View() == Step(old(View()), ConsoleCapture.RegisterPage(pageId, contextId))
    {
      RegisterKeepsInv(View(), pageId, contextId);
      AddPage(pageId, contextId);
    }

    method UnlistIn(c: string, pageId: string)
      requires Keyed() && c in captures
      modifies captures.Values
      ensures Views() == old(Views())[c := WithoutPage(old(Views())[c], pageId)]
    {
      captures[c].pageIds := captures[c].pageIds - {pageId};
      captures[c].listeners := captures[c].listeners - {pageId};
    }

    method UnlistPage(pageId: string)
      requires Keyed()
      modifies captures.Values
      ensures Views() == WithoutPageIn(old(Views()), pageId)
    {
      ghost var before, after := Views(), WithoutPageIn(Views(), pageId);
      var left := captures.Keys;
      UpdatedNoneAll(before, after);
      while left != {}
        invariant left <= captures.Keys && Views() == Updated(before, left, after)
      {
        var c :| c in left;
        UpdatedOne(before, left, after, c);
        UnlistIn(c, pageId);
        left := left - {c};
      }
    }

    method DropPage(pageId: string)
      requires Keyed()
      modifies this, captures.Values
      ensures Keyed() && View() == Step(old(View()), PageClosed(pageId))
    {
      ghost var before := Views();
      pages := pages - {pageId};
      closed := closed + {pageId};
      assert Views() == before;
      UnlistPage(pageId);
    }

    method OnPageClosed(pageId: string)
      requires Valid() && pageId in known && pageId !in closed
      modifies this, captures.Values
      ensures Valid() && View() == Step(old(View()), PageClosed(pageId))
    {
      PageCloseKeepsInv(View(), pageId);
      DropPage(pageId);
    }

    /** startConsoleCapture's loop over the pages of the context. */
    method WirePages(capture: CaptureRecord)
      requires capture.pageIds == {} && capture.listeners == {}
      modifies `attached, capture
      ensures var here := PagesOf(pages, capture.contextId);
              && capture.View() == old(capture.View()).(pageIds := here, listeners := here)
              && attached == old(attached) + set p | p in here :: (p, capture.captureId)
    {
      ghost var before := capture.View();
      ghost var done: set<string> := {};
      var left := pages.Keys;
      while left != {}
        invariant left <= pages.Keys
        invariant done == PagesOf(pages, capture.contextId) - left
        invariant capture.View() == before.(pageIds := done, listeners := done)
        invariant attached == old(attached) + set p | p in done :: (p, capture.captureId)
      {
        var p :| p in left;
        if pages[p] == capture.contextId {
          WireCaptureToPage(capture, p);
          done := done + {p};
        }
        left := left - {p};
      }
    }

    method NewCapture(captureId: string, contextId: string, filter: Filter)
      requires Keyed()
      modifies `attached, `captures, `known
      ensures Keyed() && View() == Started(old(View()), captureId, contextId, filter)
      ensures captureId in captures && fresh(captures[captureId])
    {
      ghost var before := View();
      var capture := new CaptureRecord(captureId, contextId, filter);
      WirePages(capture);
      assert Views() == before.captures;
      ViewsWith(captures, captureId, capture);
      captures := captures[captureId := capture];
      known := known + {captureId};
    }

    /** `found` is false where the program throws: no such context. */
    method StartConsoleCapture(captureId: string, contextId: string, filter: Filter) returns (found: bool)
      requires Valid() && captureId !in known
      modifies this
      ensures Valid() && View() == Step(old(View()), StartCapture(captureId, contextId, filter))
      ensures found <==> contextId in old(contexts)
      ensures found ==> captureId in captures && fresh(captures[captureId])
    {
      if contextId !in contexts { return false; }
      StartKeepsInv(View(), captureId, contextId, filter);
      NewCapture(captureId, contextId, filter);
      return true;
    }

    method DetachCaptureListeners(capture: CaptureRecord)
      modifies `attached, capture
      ensures attached == Detached(old(attached), capture.captureId, old(capture.listeners))
      ensures capture.pageIds == {} && capture.listeners == {}
      ensures capture.buffer == old(capture.buffer) && capture.truncated == old(capture.truncated)
      ensures capture.accepted == old(capture.accepted)
    {
      var left := capture.listeners;
      while left != {}
        invariant left <= capture.listeners && capture.View() == old(capture.View())
        invariant attached == old(attached)
          - set p | p in capture.listeners && p !in left :: (p, capture.captureId)
      {
        var p :| p in left;
        attached := attached - {(p, capture.captureId)};
        left := left - {p};
      }
      capture.listeners := {};
      capture.pageIds := {};
    }

    /** Detach and forget a capture; its record keeps what it has collected. */
    method Discard(c: string)
      requires Keyed() && c in captures
      modifies `attached, `captures, captures[c]
      ensures Keyed() && captures == old(captures) - {c} && Views() == old(Views()) - {c}
      ensures attached == Detached(old(attached), c, old(captures[c].listeners))
      ensures old(captures[c]).buffer == old(captures[c].buffer)
      ensures old(captures[c]).truncated == old(captures[c].truncated)
    {
      ghost var before := Views();
      DetachCaptureListeners(captures[c]);
      captures := captures - {c};
      forall d | d in captures ensures captures[d].View() == before[d] {
        assert captures[d].captureId != c;
      }
    }

    /** `result` is None where the program throws: no such capture. */
    method StopConsoleCapture(captureId: string) returns (result: Option<(seq<ConsoleEvent>, bool)>)
      requires Valid()
      modifies this, captures.Values
      ensures Valid() && View() == Step(old(View()), StopCapture(captureId))
      ensures result == if captureId in old(View()).captures
                        then Some((old(View()).captures[captureId].buffer,
                                   old(View()).captures[captureId].truncated))
                        else None
    {
      if captureId !in captures { return None; }
      StopKeepsInv(View(), captureId);
      var capture := captures[captureId];
      assert capture.View() == View().captures[captureId];
      Discard(captureId);
      return Some((capture.buffer, capture.truncated));
    }

    method DiscardIfIn(c: string, contextId: string)
      requires Keyed() && c in captures
      modifies `attached, `captures, captures.Values
      ensures Keyed() && captures.Values <= old(captures.Values)
      ensures old(captures.Keys) - {c} <= captures.Keys
      ensures Views() == DroppedIf(old(Views()), c, contextId)
      ensures attached == DetachedIf(old(attached), old(Views()), c, contextId)
    {
      assert captures[c].View() == Views()[c];
      if captures[c].contextId == contextId {
        Discard(c);
      }
    }

    /** closeContextInternal's loop over the captures. */
    method StopCapturesOf(contextId: string)
      requires Keyed()
      modifies `attached, `captures, captures.Values
      ensures Keyed() && Views() == NotIn(old(Views()), contextId)
      ensures attached == DetachedIn(old(attached), old(Views()), contextId)
    {
      ghost var before := Views();
      var left := captures.Keys;
      RemainingAllNone(old(attached), before, contextId);
      while left != {}
        invariant left <= captures.Keys && Keyed() && captures.Values <= old(captures.Values)
        invariant Views() == Remaining(before, left, contextId)
        invariant attached == DetachedIn(old(attached), before - left, contextId)
      {
        var c :| c in left;
        OneFewerRemaining(old(attached), before, left, c, contextId);
        DiscardIfIn(c, contextId);
        left := left - {c};
      }
    }

    /** closeContextInternal from behind its wait for a video path, up to the await
        of the context's own close. */
    method CloseAfterVideoPath(contextId: string)
      requires Valid()
      modifies this, captures.Values
      ensures Valid() && View() == Step(old(View()), CloseAfterVideo(contextId))
    {
      ghost var before := View();
      CloseContextKeepsInv(before, contextId);
      pages := map p | p in pages && pages[p] != contextId :: pages[p];
      StopCapturesOf(contextId);
      assert View() == Closing(before, contextId);
    }

    /** The same for a context that records no video: there is nothing to wait for. */
    method CloseContextInternal(contextId: string)
      requires Valid()
      modifies this, captures.Values
      ensures Valid() && View() == Step(old(View()), CloseContext(contextId))
    {
      if contextId !in contexts { return; }
      CloseAfterVideoPath(contextId);
    }

    method DeliverTo(c: string, ev: ConsoleEvent)
      requires Keyed() && c in captures
      modifies captures.Values
      ensures Views() == old(Views())[c := Record(old(Views())[c], ev)]
    {
      captures[c].RecordCaptureEvent(ev);
    }

    /** The listeners that captures have installed on a page run one by one. */
    method Deliver(receivers: set<string>, ev: ConsoleEvent)
      requires Keyed() && receivers <= captures.Keys
      modifies captures.Values
      ensures Views() == RecordIn(old(Views()), receivers, ev)
    {
      ghost var before, after := Views(), RecordIn(Views(), receivers, ev);
      var left := receivers;
      while left != {}
        invariant left <= receivers && Views() == Updated(before, left, after)
      {
        var c :| c in left;
        UpdatedOne(before, left, after, c);
        DeliverTo(c, ev);
        left := left - {c};
      }
    }

    /** A console, pageerror or crash event of a page. */
    method OnPageEvent(pageId: string, ev: ConsoleEvent)
      requires Valid() && pageId in known && pageId !in closed
      modifies captures.Values
      ensures Valid() && View() == Step(old(View()), Console(pageId, ev))
    {
      ghost var before := View();
      ConsoleKeepsInv(before, pageId, ev);
      ReachesContext(before, pageId);
      Deliver(set t | t in attached && t.0 == pageId :: t.1, ev);
    }
  }
}

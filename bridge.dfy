/** The initiator side of the page-script bridge (content.js:404-493): a request
    counter, a table of pending requests keyed by request id, a 3-second timer
    per request and the `message` listener that resolves entries. Timers are
    explicit events: `OnTimeout(id)` is the moment the timer set for `id` fires. */
module Bridge {
  import opened Strings
  import opened XmlFormat
  import opened Transform

  /** An editor element, by identity. */
  type ElementId = nat

  /** A callback handed to `checkEditorContent`, by identity. */
  type CallbackId = nat

  /** `{ element, action, showFeedback }` for a format/minify request, or
      `{ callback }` for a content check. */
  datatype Pending =
    | RequestEntry(element: ElementId, action: Action, showFeedback: bool)
    | CheckEntry(callback: CallbackId)

  /** The messages `window.postMessage` carries to the page script. */
  datatype OutMessage =
    | Request(requestId: nat, editorType: string, action: Action, indent: Indent)
    | Check(requestId: nat, editorType: string)

  /** The body of a `message` event, by its `type` field. `error` is `""` when
      absent; `contentType` is `None` when `null` or absent. */
  datatype Body =
    | Response(requestId: int, success: bool, error: string, contentType: Option<string>)
    | CheckResponse(requestId: int, contentType: Option<string>)
    | OtherType

  /** A `message` event: whether it came from this window, the `source` field
      of its data (`None` when the data is missing), and the body. */
  datatype Event = Event(fromThisWindow: bool, source: Option<string>, body: Body)

  /** What the content script does in reaction: `updateButtonState`,
      `showNotification` with the success wording (`<TYPE> formatted` or
      `<TYPE> minified`), `showNotification` with a plain message, or the
      check's callback. */
  datatype Effect =
    | UpdateButton(element: ElementId, action: Action, contentType: Option<string>)
    | NotifyDone(doneType: string, doneAction: Action)
    | NotifyError(message: string)
    | Callback(callback: CallbackId, contentType: Option<string>)

  const TimeoutMessage := "Editor not responding"

  /** JavaScript truthiness of an optional string. */
  predicate Truthy(s: Option<string>) {
    s.Some? && s.value != ""
  }

  /** The listener's reaction to a response for an entry it has just removed. */
  function ResponseEffects(entry: Pending, success: bool, error: string, contentType: Option<string>): (fx: seq<Effect>)
    ensures entry.CheckEntry? && error == "" ==> fx == []
    ensures |fx| <= 2
    ensures forall k :: 0 <= k < |fx| ==> !fx[k].Callback?
    ensures success && entry.RequestEntry? ==>
      |fx| > 0 && fx[0] == UpdateButton(entry.element, entry.action, contentType)
    ensures success && entry.RequestEntry? ==>
      (|fx| == 2 <==> entry.showFeedback && Truthy(contentType))
    ensures |fx| == 2 ==>
      entry.RequestEntry? && contentType.Some? && fx[1] == NotifyDone(contentType.value, entry.action)
    ensures !(success && entry.RequestEntry?) && error != "" ==> fx == [NotifyError(error)]
    ensures !(success && entry.RequestEntry?) && error == "" ==> fx == []
  {
    if success && entry.RequestEntry? then
      [UpdateButton(entry.element, entry.action, contentType)]
      + (if entry.showFeedback && Truthy(contentType) then [NotifyDone(contentType.value, entry.action)] else [])
    else if error != "" then [NotifyError(error)]
    else []
  }

  /** What the timer's callback does when it still finds its entry. */
  function TimeoutEffects(entry: Pending): (fx: seq<Effect>)
    ensures |fx| == 1
    ensures entry.CheckEntry? <==> fx[0].Callback?
    ensures entry.CheckEntry? ==> fx == [Callback(entry.callback, None)]
    ensures entry.RequestEntry? ==> fx == [NotifyError(TimeoutMessage)]
  {
    match entry
    case RequestEntry(_, _, _) => [NotifyError(TimeoutMessage)]
    case CheckEntry(cb) => [Callback(cb, None)]
  }

  class Initiator {
    /** `requestIdCounter`: the last id handed out. */
    var counter: nat
    /** `pendingRequests`. */
    var pending: map<nat, Pending>
    /** Ids whose timer is set and has not fired yet. */
    var armed: set<nat>
    /** `data-jsonspot-id` of each tagged element. */
    var tags: map<ElementId, nat>
    /** Ids whose entry has been removed (by response or timeout). */
    ghost var retired: set<nat>

    ghost predicate Valid()
      reads this
    {
      (forall id :: id in pending ==> 1 <= id <= counter)
      && (forall id :: id in armed ==> 1 <= id <= counter)
      && (forall id :: id in retired ==> 1 <= id <= counter)
      && (forall el :: el in tags ==> 1 <= tags[el] <= counter)
      && pending.Keys <= armed
      && pending.Keys !! retired
    }

    constructor ()
      ensures Valid()
      ensures counter == 0 && pending == map[] && armed == {} && tags == map[] && retired == {}
    {
      counter := 0;
      pending := map[];
      armed := {};
      tags := map[];
      retired := {};
    }

    /** `handleEditorViaPageScript`: the id is minted before the editor type is
        looked up, so it is consumed even when no request is sent. */
    method HandleEditor(el: ElementId, editorType: Option<string>, action: Action, showFeedback: bool, indent: Indent)
      returns (id: nat, sent: Option<OutMessage>)
      requires Valid()
      modifies this
      ensures Valid()
      ensures id == old(counter) + 1 && counter == id
      ensures id !in old(pending) && id !in old(armed) && id !in old(retired)
      ensures retired == old(retired)
      ensures editorType.None? ==>
        sent == None && pending == old(pending) && armed == old(armed) && tags == old(tags)
      ensures editorType.Some? ==>
        sent == Some(Request(id, editorType.value, action, indent))
        && pending == old(pending)[id := RequestEntry(el, action, showFeedback)]
        && armed == old(armed) + {id}
        && tags == old(tags)[el := id]
    {
      counter := counter + 1;
      id := counter;
      if editorType.None? {
        return id, None;
      }
      tags := tags[el := id];
      sent := Some(Request(id, editorType.value, action, indent));
      pending := pending[id := RequestEntry(el, action, showFeedback)];
      armed := armed + {id};
    }

    /** `checkEditorContent`: without an editor type the callback is answered
        `null` at once and nothing is left pending. */
    method CheckEditor(el: ElementId, editorType: Option<string>, cb: CallbackId)
      returns (id: nat, sent: Option<OutMessage>, fx: seq<Effect>)
      requires Valid()
      modifies this
      ensures Valid()
      ensures id == old(counter) + 1 && counter == id
      ensures id !in old(pending) && id !in old(armed) && id !in old(retired)
      ensures retired == old(retired)
      ensures editorType.None? ==>
        sent == None && fx == [Callback(cb, None)]
        && pending == old(pending) && armed == old(armed) && tags == old(tags)
      ensures editorType.Some? ==>
        sent == Some(Check(id, editorType.value)) && fx == []
        && pending == old(pending)[id := CheckEntry(cb)]
        && armed == old(armed) + {id}
        && tags == old(tags)[el := id]
    {
      counter := counter + 1;
      id := counter;
      if editorType.None? {
        return id, None, [Callback(cb, None)];
      }
      tags := tags[el := id];
      sent := Some(Check(id, editorType.value));
      pending := pending[id := CheckEntry(cb)];
      armed := armed + {id};
      fx := [];
    }

    /** The timer set for `id` fires: it removes the entry if it is still there
        and reports the timeout; otherwise it does nothing. */
    method OnTimeout(id: nat) returns (fx: seq<Effect>)
      requires Valid() && id in armed
      modifies this
      ensures Valid()
      ensures armed == old(armed) - {id}
      ensures counter == old(counter) && tags == old(tags)
      ensures id in old(pending) ==>
        pending == old(pending) - {id} && retired == old(retired) + {id}
        && fx == TimeoutEffects(old(pending)[id])
      ensures id !in old(pending) ==>
        pending == old(pending) && retired == old(retired) && fx == []
    {
      armed := armed - {id};
      if id in pending {
        var entry := pending[id];
        pending := pending - {id};
        retired := retired + {id};
        fx := TimeoutEffects(entry);
      } else {
        fx := [];
      }
    }

    /** The `message` listener. Events from another window, without data, or
        whose `source` is not `jsonspot-page` are ignored; a response whose id
        is not pending (already answered, timed out, or never issued) changes
        nothing. */
    method OnMessage(ev: Event) returns (fx: seq<Effect>)
      requires Valid()
      modifies this
      ensures Valid()
      ensures counter == old(counter) && armed == old(armed) && tags == old(tags)
      ensures !Accepted(ev) ==> pending == old(pending) && retired == old(retired) && fx == []
      ensures Accepted(ev) && !ResolvesPending(ev, old(pending)) ==>
        pending == old(pending) && retired == old(retired) && fx == []
      ensures Accepted(ev) && ResolvesPending(ev, old(pending)) ==>
        var id := RequestIdOf(ev.body);
        pending == old(pending) - {id} && retired == old(retired) + {id}
        && fx == MessageEffects(ev.body, old(pending)[id])
    {
      fx := [];
      if !ev.fromThisWindow || ev.source != Some("jsonspot-page") {
        return;
      }
      match ev.body {
        case Response(rid, success, error, contentType) =>
          if rid < 0 || rid as nat !in pending {
            return;
          }
          var id: nat := rid as nat;
          var entry := pending[id];
          pending := pending - {id};
          retired := retired + {id};
          fx := ResponseEffects(entry, success, error, contentType);
        case CheckResponse(rid, contentType) =>
          if rid < 0 || rid as nat !in pending {
            return;
          }
          var id: nat := rid as nat;
          var entry := pending[id];
          pending := pending - {id};
          retired := retired + {id};
          if entry.CheckEntry? {
            fx := [Callback(entry.callback, contentType)];
          }
        case OtherType =>
      }
    }
  }

  /** The listener's source filter. */
  predicate Accepted(ev: Event) {
    ev.fromThisWindow && ev.source == Some("jsonspot-page")
  }

  function RequestIdOf(b: Body): int {
    match b
    case Response(rid, _, _, _) => rid
    case CheckResponse(rid, _) => rid
    case OtherType => -1
  }

  /** The body is a response of either type for an id that is still pending. */
  predicate ResolvesPending(ev: Event, pending: map<nat, Pending>) {
    !ev.body.OtherType? && RequestIdOf(ev.body) >= 0 && RequestIdOf(ev.body) as nat in pending
  }

  /** The effects of resolving `entry` with body `b`. A check response for a
      request entry, like a plain response for a check entry without error,
      removes the entry and does nothing else. */
  function MessageEffects(b: Body, entry: Pending): (fx: seq<Effect>)
    ensures |fx| <= 2
    ensures forall k :: 0 <= k < |fx| && fx[k].Callback? ==>
              b.CheckResponse? && entry.CheckEntry? && fx == [Callback(entry.callback, b.contentType)]
    ensures b.CheckResponse? && entry.CheckEntry? ==> Callback(entry.callback, b.contentType) in fx
  {
    match b
    case Response(_, success, error, contentType) => ResponseEffects(entry, success, error, contentType)
    case CheckResponse(_, contentType) =>
      if entry.CheckEntry? then [Callback(entry.callback, contentType)] else []
    case OtherType => []
  }

  /** A request answered before its timer fires: the button is updated and the
      success notice shown once; the timer then finds nothing to do. */
  method AnsweredThenTimedOut() returns (onResponse: seq<Effect>, onTimeout: seq<Effect>)
    ensures onResponse == [UpdateButton(7, Format, Some("json")), NotifyDone("json", Format)]
    ensures onTimeout == []
  {
    var bridge := new Initiator();
    var id, sent := bridge.HandleEditor(7, Some("monaco"), Format, true, Spaces(2));
    onResponse := bridge.OnMessage(Event(true, Some("jsonspot-page"), Response(id, true, "", Some("json"))));
    onTimeout := bridge.OnTimeout(id);
  }

  /** A request whose timer fires first: the timeout is reported once and the
      late response changes nothing. */
  method TimedOutThenAnswered() returns (onTimeout: seq<Effect>, onResponse: seq<Effect>)
    ensures onTimeout == [NotifyError(TimeoutMessage)]
    ensures onResponse == []
  {
    var bridge := new Initiator();
    var id, sent := bridge.HandleEditor(7, Some("monaco"), Format, true, Spaces(2));
    onTimeout := bridge.OnTimeout(id);
    onResponse := bridge.OnMessage(Event(true, Some("jsonspot-page"), Response(id, true, "", Some("json"))));
  }

  /** Two checks answered out of order each reach their own callback, and a
      check without an editor type still consumes an id. */
  method ChecksOutOfOrder() returns (ids: seq<nat>, immediate: seq<Effect>, first: seq<Effect>, second: seq<Effect>)
    ensures ids == [1, 2, 3]
    ensures immediate == [Callback(30, None)]
    ensures first == [Callback(20, Some("xml"))]
    ensures second == [Callback(10, None)]
  {
    var bridge := new Initiator();
    var a, sa, fa := bridge.CheckEditor(1, Some("ace"), 10);
    var b, sb;
    b, sb, immediate := bridge.CheckEditor(2, None, 30);
    var c, sc, fc := bridge.CheckEditor(3, Some("codemirror"), 20);
    ids := [a, b, c];
    first := bridge.OnMessage(Event(true, Some("jsonspot-page"), CheckResponse(c, Some("xml"))));
    second := bridge.OnMessage(Event(true, Some("jsonspot-page"), CheckResponse(a, None)));
  }
}

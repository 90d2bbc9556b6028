/** The front end's service worker: the `fetch`, `push` and `message`
    listeners and the periodic replay check, over an abstract background-sync
    queue, one message outbox per open window and the notifications shown. */
module ServiceWorker {
  import opened Wrappers

  /** `maxRetentionTime` of the queue, in minutes: one day. */
  const MaxRetentionMinutes := 24 * 60
  /** The period of the replay check, in milliseconds. */
  const ReplayIntervalMs := 60000

  const OfflineMessage := "Requête enregistrée et sera envoyée quand vous serez en ligne."
  /** `JSON.stringify({success: true, offline: true, message})`. */
  const OfflineBody := "{\"success\":true,\"offline\":true,\"message\":\"" + OfflineMessage + "\"}"

  datatype Request = Request(verb: string, url: string, body: string)
  datatype Response = Response(status: int, contentType: Option<string>, body: string)
  /** What `pushRequest` stores: the request clone and when it was queued. */
  datatype QueueEntry = QueueEntry(request: Request, timestamp: Millis)
  /** A window client as `clients.matchAll` reports it. */
  datatype WindowClient = WindowClient(id: nat, controlled: bool)

  /** A string-valued member of a parsed JSON object: missing (read as
      `undefined`), an explicit `null`, or a string. */
  datatype JsonField = Missing | Null | Text(text: string)

  /** The parsed payload of a push (`event.data.json()`): the two members the worker reads. */
  datatype PushData = PushData(title: JsonField, body: JsonField)
  /** What the worker posts to a window. */
  datatype Message = RequestQueued(url: string) | CustomEvent(payload: PushData)
  datatype Notification = Notification(title: string, body: string)
  /** The data of a `message` event: its `type` and the truthiness of `online`. */
  datatype SwMessage = SwMessage(kind: Option<string>, online: bool)

  /** The synthetic answer to a POST that could not be sent. */
  const OfflineResponse := Response(200, Some("application/json"), OfflineBody)

  // ------------------------------------------------------------ fetch

  datatype FetchOutcome =
    | NotIntercepted            // `respondWith` is not called
    | Forwarded(response: Response)
    | QueuedOffline(response: Response)

  /** The fetch listener's answer for `req` when the network gives `network`
      (`None` when `fetch` rejects). */
  function FetchDecision(req: Request, network: Option<Response>): (o: FetchOutcome)
    ensures o.NotIntercepted? <==> req.verb != "POST"
    ensures o.Forwarded? <==> req.verb == "POST" && network.Some?
    ensures o.Forwarded? ==> o.response == network.value
    ensures o.QueuedOffline? <==> req.verb == "POST" && network.None?
    ensures o.QueuedOffline? ==> o.response == OfflineResponse
  {
    if req.verb != "POST" then NotIntercepted
    else if network.Some? then Forwarded(network.value)
    else QueuedOffline(OfflineResponse)
  }

  // ------------------------------------------------------------ fan-out

  /** Whether `clients.matchAll` returns this window. */
  predicate Targeted(w: WindowClient, includeUncontrolled: bool) {
    includeUncontrolled || w.controlled
  }

  /** The outboxes after `msg` is posted to every window `matchAll` returns. */
  function Posted(outboxes: seq<seq<Message>>, windows: seq<WindowClient>, msg: Message,
                  includeUncontrolled: bool): (r: seq<seq<Message>>)
    requires |outboxes| == |windows|
    ensures |r| == |windows|
    ensures forall i :: 0 <= i < |windows| ==> |outboxes[i]| <= |r[i]| <= |outboxes[i]| + 1
    ensures forall i :: 0 <= i < |windows| ==> r[i][..|outboxes[i]|] == outboxes[i]
    ensures forall i :: 0 <= i < |windows| && !Targeted(windows[i], includeUncontrolled) ==> r[i] == outboxes[i]
  {
    seq(|windows|, i requires 0 <= i < |windows| =>
      if Targeted(windows[i], includeUncontrolled) then outboxes[i] + [msg] else outboxes[i])
  }

  /** Each returned window gets `msg` exactly once, after what it already had;
      every other window gets nothing. */
  lemma PostedExactlyOnce(outboxes: seq<seq<Message>>, windows: seq<WindowClient>, msg: Message,
                          includeUncontrolled: bool, i: nat)
    requires |outboxes| == |windows| && i < |windows|
    ensures var r := Posted(outboxes, windows, msg, includeUncontrolled);
      && r[i][..|outboxes[i]|] == outboxes[i]
      && multiset(r[i]) == multiset(outboxes[i]) + (if Targeted(windows[i], includeUncontrolled) then multiset{msg} else multiset{})
      && |r[i]| == |outboxes[i]| + (if Targeted(windows[i], includeUncontrolled) then 1 else 0)
  {
    var r := Posted(outboxes, windows, msg, includeUncontrolled);
    if Targeted(windows[i], includeUncontrolled) {
      assert r[i] == outboxes[i] + [msg];
      assert r[i][..|outboxes[i]|] == outboxes[i];
    } else {
      assert r[i] == outboxes[i];
    }
  }

  // ------------------------------------------------------------ push

  datatype PushAction = FanOut | Notify(notification: Notification)

  /** WebIDL's conversion of a value to `DOMString`. */
  function AsDomString(f: JsonField): string {
    match f
    case Missing => "undefined"
    case Null => "null"
    case Text(s) => s
  }

  /** `showNotification(data.title, {body: data.body})`. The title is a required
      `DOMString`, so a missing one becomes "undefined"; `body` is a dictionary
      member defaulting to "", which only `undefined` takes. An explicit `null`
      becomes "null" in both places. */
  function NotificationFor(data: PushData): (n: Notification)
    ensures data.title.Text? ==> n.title == data.title.text
    ensures data.title.Missing? ==> n.title == "undefined"
    ensures data.title.Null? ==> n.title == "null"
    ensures data.body.Text? ==> n.body == data.body.text
    ensures data.body.Missing? ==> n.body == ""
    ensures data.body.Null? ==> n.body == "null"
  {
    Notification(AsDomString(data.title), if data.body.Missing? then "" else AsDomString(data.body))
  }

  /** The push listener's choice: message the windows when the clients API
      exists and some window, controlled or not, is open; otherwise show a
      notification. */
  function PushPlan(data: PushData, hasClientsApi: bool, openWindows: nat): (a: PushAction)
    ensures a.FanOut? <==> hasClientsApi && openWindows > 0
    ensures a.Notify? ==> a.notification == NotificationFor(data)
  {
    if hasClientsApi && openWindows > 0 then FanOut else Notify(NotificationFor(data))
  }

  // ------------------------------------------------------------ replay triggers

  /** `event.data && event.data.type === 'ONLINE_STATUS_CHANGE' && event.data.online`. */
  function TriggersReplay(data: Option<SwMessage>): (b: bool)
    ensures b <==> data.Some? && data.value.kind == Some("ONLINE_STATUS_CHANGE") && data.value.online
  {
    match data
    case None => false
    case Some(m) => m.kind.Some? && m.kind.value == "ONLINE_STATUS_CHANGE" && m.online
  }

  /** A message without the exact type never triggers a replay, whatever `online` says. */
  lemma OtherTypesIgnored(kind: Option<string>, online: bool)
    requires kind != Some("ONLINE_STATUS_CHANGE")
    ensures !TriggersReplay(Some(SwMessage(kind, online)))
  {
  }

  // ------------------------------------------------------------ the worker

  class Worker {
    /** `postQueue`, as an abstract sequence of entries. */
    var queue: seq<QueueEntry>
    /** The open windows, in the order `matchAll` lists them. */
    var windows: seq<WindowClient>
    /** `outboxes[i]` is everything posted to `windows[i]`. */
    var outboxes: seq<seq<Message>>
    var notifications: seq<Notification>
    /** How many times `replayRequests` has been started. */
    var replays: nat

    ghost predicate Valid()
      reads this
    {
      |outboxes| == |windows|
    }

    constructor (openWindows: seq<WindowClient>)
      ensures Valid()
      ensures queue == [] && windows == openWindows && notifications == [] && replays == 0
      ensures forall i :: 0 <= i < |outboxes| ==> outboxes[i] == []
    {
      queue := [];
      windows := openWindows;
      outboxes := seq(|openWindows|, _ => []);
      notifications := [];
      replays := 0;
    }

    /** `clients.forEach(client => client.postMessage(msg))`. */
    method Broadcast(msg: Message, includeUncontrolled: bool)
      requires Valid()
      modifies this
      ensures Valid() && windows == old(windows)
      ensures outboxes == Posted(old(outboxes), windows, msg, includeUncontrolled)
      ensures queue == old(queue)
      ensures notifications == old(notifications) && replays == old(replays)
    {
      var i := 0;
      while i < |windows|
        invariant windows == old(windows)
        invariant 0 <= i <= |windows| && |outboxes| == |windows|
        invariant forall k :: 0 <= k < i ==>
          outboxes[k] == Posted(old(outboxes), windows, msg, includeUncontrolled)[k]
        invariant forall k :: i <= k < |windows| ==> outboxes[k] == old(outboxes)[k]
        invariant queue == old(queue)
        invariant notifications == old(notifications) && replays == old(replays)
      {
        if Targeted(windows[i], includeUncontrolled) {
          outboxes := outboxes[i := outboxes[i] + [msg]];
        }
        i := i + 1;
      }
    }

    /** The fetch listener at time `now`, `network` being the result of
        sending the clone. A failed POST is queued once and announced to every
        controlled window. */
    method OnFetch(req: Request, network: Option<Response>, now: Millis) returns (o: FetchOutcome)
      requires Valid()
      modifies this
      ensures Valid() && windows == old(windows)
      ensures o == FetchDecision(req, network)
      ensures o.QueuedOffline? ==>
        (queue == old(queue) + [QueueEntry(req, now)]
         && outboxes == Posted(old(outboxes), windows, RequestQueued(req.url), false))
      ensures !o.QueuedOffline? ==> queue == old(queue) && outboxes == old(outboxes)
      ensures notifications == old(notifications) && replays == old(replays)
    {
      o := FetchDecision(req, network);
      if o.QueuedOffline? {
        queue := queue + [QueueEntry(req, now)];
        Broadcast(RequestQueued(req.url), false);
      }
    }

    /** The push listener. */
    method OnPush(data: PushData, hasClientsApi: bool)
      requires Valid()
      modifies this
      ensures Valid() && windows == old(windows)
      ensures PushPlan(data, hasClientsApi, |windows|).FanOut? ==>
        outboxes == Posted(old(outboxes), windows, CustomEvent(data), true)
        && notifications == old(notifications)
      ensures PushPlan(data, hasClientsApi, |windows|).Notify? ==>
        outboxes == old(outboxes) && notifications == old(notifications) + [NotificationFor(data)]
      ensures queue == old(queue) && replays == old(replays)
    {
      var action := PushPlan(data, hasClientsApi, |windows|);
      if action.FanOut? {
        Broadcast(CustomEvent(data), true);
      } else {
        notifications := notifications + [action.notification];
      }
    }

    /** The message listener. */
    method OnMessage(data: Option<SwMessage>)
      modifies this
      ensures replays == old(replays) + (if TriggersReplay(data) then 1 else 0)
      ensures queue == old(queue) && windows == old(windows)
      ensures outboxes == old(outboxes) && notifications == old(notifications)
    {
      if TriggersReplay(data) {
        replays := replays + 1;
      }
    }

    /** One run of the check scheduled every `ReplayIntervalMs`. */
    method OnTick(onLine: bool)
      modifies this
      ensures replays == old(replays) + (if onLine then 1 else 0)
      ensures queue == old(queue) && windows == old(windows)
      ensures outboxes == old(outboxes) && notifications == old(notifications)
    {
      if onLine {
        replays := replays + 1;
      }
    }
  }

  /** With an open window and the clients API, every window, controlled or
      not, receives the payload exactly once and nothing is shown. */
  lemma PushWithWindows(outboxes: seq<seq<Message>>, windows: seq<WindowClient>, data: PushData, i: nat)
    requires |outboxes| == |windows| && i < |windows|
    ensures PushPlan(data, true, |windows|).FanOut?
    ensures var r := Posted(outboxes, windows, CustomEvent(data), true);
      r[i] == outboxes[i] + [CustomEvent(data)]
  {
  }

  /** A failed POST reaches every controlled window, and no uncontrolled one. */
  lemma QueuedReachesControlled(outboxes: seq<seq<Message>>, windows: seq<WindowClient>, url: string, i: nat)
    requires |outboxes| == |windows| && i < |windows|
    ensures var r := Posted(outboxes, windows, RequestQueued(url), false);
      (windows[i].controlled ==> r[i] == outboxes[i] + [RequestQueued(url)])
      && (!windows[i].controlled ==> r[i] == outboxes[i])
  {
  }
}

/** The notification provider (src/components/Dashboard/NotificationContext.js): the list
    every component shares, replaced by each fetch and marked read entry by entry. */
module NotificationContext {
  import opened JsValues

  /** A notification; a missing `read` is the falsy value and is modelled as `false`. */
  datatype Notification = Notification(id: string, message: string, read: bool)

  /** `fetchNotifications`, with the body of the GET as `response` (`None` when it fails,
      which is only logged): the list is replaced wholesale. */
  function Fetched(current: seq<Notification>, response: Option<seq<Notification>>): (r: seq<Notification>)
    ensures response.Some? ==> r == response.value
    ensures response.None? ==> r == current
  {
    if response.Some? then response.value else current
  }

  /** `prev.map(n => n._id === id ? { ...n, read: true } : n)`. */
  function MarkAsRead(ns: seq<Notification>, id: string): (r: seq<Notification>)
    ensures |r| == |ns|
    ensures forall i :: 0 <= i < |ns| ==>
              r[i] == if ns[i].id == id then ns[i].(read := true) else ns[i]
  {
    if ns == [] then []
    else [if ns[0].id == id then ns[0].(read := true) else ns[0]] + MarkAsRead(ns[1..], id)
  }

  /** Marking the same id twice is marking it once. */
  lemma MarkAsReadIdempotent(ns: seq<Notification>, id: string)
    ensures MarkAsRead(MarkAsRead(ns, id), id) == MarkAsRead(ns, id)
  {
    var once := MarkAsRead(ns, id);
    assert forall i :: 0 <= i < |ns| ==> MarkAsRead(once, id)[i] == once[i];
  }

  /** Marks on different ids can be applied in either order. */
  lemma MarksCommute(ns: seq<Notification>, a: string, b: string)
    ensures MarkAsRead(MarkAsRead(ns, a), b) == MarkAsRead(MarkAsRead(ns, b), a)
  {
    var ab := MarkAsRead(MarkAsRead(ns, a), b);
    var ba := MarkAsRead(MarkAsRead(ns, b), a);
    assert forall i :: 0 <= i < |ns| ==> ab[i] == ba[i];
  }

  /** `markAsRead`, with the outcome of the PUT as `ok`: a failure leaves the list alone. */
  function MarkAsReadOutcome(ns: seq<Notification>, id: string, ok: bool): (r: seq<Notification>)
    ensures !ok ==> r == ns
    ensures ok ==> |r| == |ns| && forall i :: 0 <= i < |ns| ==>
              (ns[i].id == id ==> r[i].read && r[i].id == ns[i].id && r[i].message == ns[i].message)
              && (ns[i].id != id ==> r[i] == ns[i])
  {
    if ok then MarkAsRead(ns, id) else ns
  }
}

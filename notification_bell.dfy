/** The notification bell (src/components/Dashboard/NotificationBell.js): the badge counts the
    unread notifications, and each unread one, and only those, carries a "Mark as Read"
    button. */
module NotificationBell {
  import opened Lists
  import opened NotificationContext

  function IsRead(n: Notification): bool {
    n.read
  }

  /** `notifications.filter(n => !n.read)`. */
  function Unread(ns: seq<Notification>): (r: seq<Notification>)
    ensures forall n :: n in r <==> n in ns && !n.read
    ensures |r| <= |ns|
  {
    if ns == [] then []
    else
      assert forall n :: n in ns <==> n == ns[0] || n in ns[1..];
      (if !ns[0].read then [ns[0]] else []) + Unread(ns[1..])
  }

  /** `filter` works entry by entry: the unread entries of a concatenation are those of
      each part, in order. */
  lemma {:induction false} UnreadAppend(a: seq<Notification>, b: seq<Notification>)
    ensures Unread(a + b) == Unread(a) + Unread(b)
  {
    if a == [] {
      assert a + b == b;
    } else {
      assert (a + b)[0] == a[0];
      assert (a + b)[1..] == a[1..] + b;
      UnreadAppend(a[1..], b);
    }
  }

  /** The badge: `notifications.filter(n => !n.read).length`. */
  function UnreadCount(ns: seq<Notification>): (c: nat)
    ensures c <= |ns|
    ensures ns == [] ==> c == 0
  {
    |Unread(ns)|
  }

  /** The badge is the number of notifications whose `read` is false. */
  lemma {:induction false} UnreadCountCountsUnread(ns: seq<Notification>)
    ensures UnreadCount(ns) == CountKey(ns, IsRead, false)
  {
    if ns != [] {
      UnreadCountCountsUnread(ns[1..]);
    }
  }

  /** Whether an entry of the popover shows the button. */
  predicate OffersMarkAsRead(n: Notification) {
    !n.read
  }

  /** The ids the popover's buttons pass to `markAsRead`, in list order. */
  function MarkButtons(ns: seq<Notification>): (r: seq<string>)
    ensures |r| == UnreadCount(ns)
    ensures forall i :: 0 <= i < |ns| && OffersMarkAsRead(ns[i]) ==> ns[i].id in r
    ensures forall i :: 0 <= i < |ns| && ns[i].id !in r ==> !OffersMarkAsRead(ns[i])
  {
    if ns == [] then []
    else (if OffersMarkAsRead(ns[0]) then [ns[0].id] else []) + MarkButtons(ns[1..])
  }

  /** A button is offered for an id exactly when some unread entry carries it. */
  lemma {:induction false} ButtonsExactlyForUnread(ns: seq<Notification>, id: string)
    ensures id in MarkButtons(ns) <==> exists i :: 0 <= i < |ns| && !ns[i].read && ns[i].id == id
  {
    if ns != [] {
      ButtonsExactlyForUnread(ns[1..], id);
      if id in MarkButtons(ns[1..]) {
        var i :| 0 <= i < |ns[1..]| && !ns[1..][i].read && ns[1..][i].id == id;
        assert !ns[i + 1].read && ns[i + 1].id == id;
      }
      if exists i :: 0 <= i < |ns| && !ns[i].read && ns[i].id == id {
        var i :| 0 <= i < |ns| && !ns[i].read && ns[i].id == id;
        if i > 0 {
          assert !ns[1..][i - 1].read && ns[1..][i - 1].id == id;
        }
      }
    }
  }

  /** Unread entries carrying `id`. */
  function UnreadWithId(ns: seq<Notification>, id: string): (c: nat)
    ensures c <= UnreadCount(ns)
  {
    if ns == [] then 0
    else (if !ns[0].read && ns[0].id == id then 1 else 0) + UnreadWithId(ns[1..], id)
  }

  /** Marking an id read lowers the badge by the number of unread entries that carry it. */
  lemma {:induction false} MarkLowersUnread(ns: seq<Notification>, id: string)
    ensures UnreadCount(MarkAsRead(ns, id)) == UnreadCount(ns) - UnreadWithId(ns, id)
  {
    if ns != [] {
      var m := MarkAsRead(ns, id);
      assert m[1..] == MarkAsRead(ns[1..], id);
      MarkLowersUnread(ns[1..], id);
    }
  }

  lemma {:induction false} NoEntryWithId(ns: seq<Notification>, id: string)
    requires forall j :: 0 <= j < |ns| ==> ns[j].id != id
    ensures UnreadWithId(ns, id) == 0
  {
    if ns != [] {
      NoEntryWithId(ns[1..], id);
    }
  }

  /** With ids that identify the entries, the button of an unread entry lowers the badge by
      exactly one. */
  lemma {:induction false} MarkUniqueUnreadLowersByOne(ns: seq<Notification>, i: nat)
    requires i < |ns| && !ns[i].read
    requires forall j :: 0 <= j < |ns| && j != i ==> ns[j].id != ns[i].id
    ensures UnreadCount(MarkAsRead(ns, ns[i].id)) == UnreadCount(ns) - 1
  {
    UniqueUnreadCountsOnce(ns, i);
    MarkLowersUnread(ns, ns[i].id);
  }

  lemma {:induction false} UniqueUnreadCountsOnce(ns: seq<Notification>, i: nat)
    requires i < |ns| && !ns[i].read
    requires forall j :: 0 <= j < |ns| && j != i ==> ns[j].id != ns[i].id
    ensures UnreadWithId(ns, ns[i].id) == 1
  {
    if i == 0 {
      NoEntryWithId(ns[1..], ns[0].id);
    } else {
      assert ns[1..][i - 1] == ns[i];
      UniqueUnreadCountsOnce(ns[1..], i - 1);
    }
  }

  /** Once every entry is read the badge shows nothing and no button is offered. */
  lemma {:induction false} AllReadShowsNothing(ns: seq<Notification>)
    requires forall j :: 0 <= j < |ns| ==> ns[j].read
    ensures UnreadCount(ns) == 0 && MarkButtons(ns) == []
  {
    if ns != [] {
      AllReadShowsNothing(ns[1..]);
    }
  }
}

/** The notification bell: the list of notifications fetched from the server,
    the unread badge, marking one notification as read and the icon of each
    entry. The list is replaced by a successful fetch and updated locally when
    an entry is marked as read. */
module NotificationCenter {
  import opened Common

  datatype Notification = Notification(
    id: int,
    kind: string,
    title: string,
    message: string,
    timestamp: string,
    read: int)

  /** JavaScript `!n.read`: the flag is 0. */
  predicate Unread(n: Notification) {
    n.read == 0
  }

  function UnreadCount(ns: seq<Notification>): (c: nat)
    ensures c <= |ns|
    ensures c == 0 <==> forall i :: 0 <= i < |ns| ==> !Unread(ns[i])
  {
    if |ns| == 0 then 0
    else
      assert forall i :: 1 <= i < |ns| ==> ns[1..][i - 1] == ns[i];
      (if Unread(ns[0]) then 1 else 0) + UnreadCount(ns[1..])
  }

  /** The badge is shown exactly when some notification is unread. */
  predicate ShowsBadge(ns: seq<Notification>) {
    UnreadCount(ns) > 0
  }

  lemma BadgeIff(ns: seq<Notification>)
    ensures ShowsBadge(ns) <==> exists i :: 0 <= i < |ns| && Unread(ns[i])
  {
  }

  /** The local update of `markAsRead(id)`: every entry with that id gets
      `read = 1`, every other entry is unchanged. */
  function MarkRead(ns: seq<Notification>, id: int): (r: seq<Notification>)
    ensures |r| == |ns|
    ensures forall i :: 0 <= i < |ns| && ns[i].id == id ==> r[i] == ns[i].(read := 1)
    ensures forall i :: 0 <= i < |ns| && ns[i].id != id ==> r[i] == ns[i]
  {
    seq(|ns|, i requires 0 <= i < |ns| => if ns[i].id == id then ns[i].(read := 1) else ns[i])
  }

  /** Marking the same notification twice is marking it once. */
  lemma MarkReadIdempotent(ns: seq<Notification>, id: int)
    ensures MarkRead(MarkRead(ns, id), id) == MarkRead(ns, id)
  {
  }

  /** The unread entries that carry `id`. */
  function UnreadWithId(ns: seq<Notification>, id: int): nat {
    if |ns| == 0 then 0
    else (if Unread(ns[0]) && ns[0].id == id then 1 else 0) + UnreadWithId(ns[1..], id)
  }

  /** Marking `id` as read lowers the badge count by exactly the number of
      unread entries with that id. */
  lemma {:induction false} MarkReadCount(ns: seq<Notification>, id: int)
    ensures UnreadCount(MarkRead(ns, id)) + UnreadWithId(ns, id) == UnreadCount(ns)
    decreases |ns|
  {
    if |ns| > 0 {
      MarkReadCount(ns[1..], id);
      assert MarkRead(ns, id)[1..] == MarkRead(ns[1..], id);
    }
  }

  /** After marking, no entry with that id is unread. */
  lemma MarkReadClearsId(ns: seq<Notification>, id: int)
    ensures forall i :: 0 <= i < |ns| && ns[i].id == id ==> !Unread(MarkRead(ns, id)[i])
  {
  }

  datatype Icon = CheckCircle(colour: string) | AlertCircle(colour: string) | InfoIcon(colour: string)

  /** `getIcon`: its own icon for success, warning and error, the info icon for
      every other type. */
  function IconOf(kind: string): (icon: Icon)
    ensures kind == "success" <==> icon == CheckCircle("text-green-500")
    ensures kind == "warning" <==> icon == AlertCircle("text-yellow-500")
    ensures kind == "error" <==> icon == AlertCircle("text-red-500")
    ensures icon.InfoIcon? <==> kind != "success" && kind != "warning" && kind != "error"
  {
    match kind
    case "success" => CheckCircle("text-green-500")
    case "warning" => AlertCircle("text-yellow-500")
    case "error" => AlertCircle("text-red-500")
    case _ => InfoIcon("text-blue-500")
  }

  /** An entry offers "Mark read" when its flag is exactly 0, which for an
      integer flag is exactly when it counts as unread. */
  predicate OffersMarkRead(n: Notification) {
    n.read == 0
  }

  lemma OfferedIffUnread(n: Notification)
    ensures OffersMarkRead(n) <==> Unread(n)
  {
  }

  /** The body of the notifications response: its `success` flag and its
      `data` list. */
  datatype FetchResult = FetchResult(success: bool, data: seq<Notification>)

  class NotificationBell {
    var notifications: seq<Notification>
    var isOpen: bool

    constructor()
      ensures notifications == [] && !isOpen
    {
      notifications := [];
      isOpen := false;
    }

    /** `fetchNotifications`: `outcome` is the parsed response, or the error
        when the request or its JSON body fails. */
    method FetchNotifications(outcome: Result<FetchResult>)
      modifies this
      ensures outcome.Ok? && outcome.value.success ==> notifications == outcome.value.data
      ensures !(outcome.Ok? && outcome.value.success) ==> notifications == old(notifications)
      ensures isOpen == old(isOpen)
    {
      if outcome.Ok? && outcome.value.success {
        notifications := outcome.value.data;
      }
    }

    /** `markAsRead(id)`: the local update of the list. */
    method MarkAsRead(id: int)
      modifies this
      ensures notifications == MarkRead(old(notifications), id)
      ensures UnreadCount(notifications) == UnreadCount(old(notifications)) - UnreadWithId(old(notifications), id)
      ensures isOpen == old(isOpen)
    {
      MarkReadCount(notifications, id);
      notifications := MarkRead(notifications, id);
    }

    /** A click on the bell opens or closes the list. */
    method Toggle()
      modifies this
      ensures isOpen == !old(isOpen) && notifications == old(notifications)
    {
      isOpen := !isOpen;
    }
  }
}

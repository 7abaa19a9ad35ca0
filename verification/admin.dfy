/** The back-office order list: status filter and counters, status updates, detail parsing. */
module Admin {
  import opened Wrappers
  import opened Orders
  import Js
  import Seqs

  /** The caption and colour `statusConfig` gives a status (icons are not modelled). */
  datatype StatusDisplay = StatusDisplay(caption: string, color: string)

  /** `statusConfig[status]`: defined for the four known statuses only. */
  function StatusConfig(status: string): (d: Option<StatusDisplay>)
    ensures d.Some? <==> status in Statuses
  {
    if status == Received then Some(StatusDisplay("Received", "bg-blue-500"))
    else if status == Printing then Some(StatusDisplay("Printing", "bg-yellow-500"))
    else if status == Shipped then Some(StatusDisplay("Shipped", "bg-purple-500"))
    else if status == Delivered then Some(StatusDisplay("Delivered", "bg-green-500"))
    else None
  }

  /**
   * The badge of an order: `statusConfig[status] || statusConfig.received`.
   * A status naming an inherited member finds that member, which is truthy
   * but has no icon, caption or colour; `None` is that badge, which cannot
   * be drawn.
   */
  function DisplayFor(status: string): (d: Option<StatusDisplay>)
    ensures status in Statuses ==> d == StatusConfig(status)
    ensures status in Js.PrototypeMembers ==> d.None?
    ensures status !in Statuses && status !in Js.PrototypeMembers ==> d == StatusConfig(Received)
  {
    match StatusConfig(status)
    case Some(e) => Some(e)
    case None => if status in Js.PrototypeMembers then None else StatusConfig(Received)
  }

  /** What reading `statusConfig[status].label` gives. */
  datatype LabelRead =
    | Label(caption: string)   // one of the four entries
    | NoLabel                  // an inherited member: the read gives `undefined`
    | LabelThrows              // no such member: reading `.label` of `undefined` throws

  function ReadLabel(status: string): (r: LabelRead)
    ensures r.Label? <==> status in Statuses
    ensures r.Label? ==> r.caption == StatusConfig(status).value.caption
    ensures r.NoLabel? <==> status in Js.PrototypeMembers
  {
    match StatusConfig(status)
    case Some(e) => Label(e.caption)
    case None => if status in Js.PrototypeMembers then NoLabel else LabelThrows
  }

  function StatusIs(status: string): Order -> bool {
    (o: Order) => o.status == status
  }

  /** The counter shown for `status`: the length of the list filtered to it. */
  function StatusCount(orders: seq<Order>, status: string): (n: nat)
    ensures n <= |orders|
    ensures n == Seqs.Count(orders, StatusIs(status))
  {
    Seqs.FilterLength(orders, StatusIs(status));
    |Seqs.Filter(orders, StatusIs(status))|
  }

  /** The list under the status selector: everything for `"all"`, else the orders with that status, in order. */
  function FilteredOrders(orders: seq<Order>, filter: string): (r: seq<Order>)
    ensures filter == "all" ==> r == orders
    ensures filter != "all" ==> forall o :: o in r <==> o in orders && o.status == filter
    ensures filter != "all" ==> forall o :: multiset(r)[o] == if o.status == filter then multiset(orders)[o] else 0
    ensures Seqs.SubsequenceOf(r, orders)
  {
    if filter == "all" then
      Seqs.SubsequenceOfSelf(orders);
      orders
    else
      Seqs.FilterIsSubsequence(orders, StatusIs(filter));
      Seqs.Filter(orders, StatusIs(filter))
  }

  /** Each counter agrees with the list the selector would show for that status. */
  lemma CountersMatchFilter(orders: seq<Order>)
    ensures forall s :: s in Statuses ==> StatusCount(orders, s) == |FilteredOrders(orders, s)|
  {
  }

  function CounterSum(orders: seq<Order>): nat {
    StatusCount(orders, Received) + StatusCount(orders, Printing)
      + StatusCount(orders, Shipped) + StatusCount(orders, Delivered)
  }

  /** How many of the four counters an order with status `s` feeds. */
  function Hits(s: string): (n: nat)
    ensures s in Statuses ==> n == 1
    ensures s !in Statuses ==> n == 0
  {
    (if s == Received then 1 else 0) + (if s == Printing then 1 else 0)
      + (if s == Shipped then 1 else 0) + (if s == Delivered then 1 else 0)
  }

  lemma StatusCountCons(orders: seq<Order>, s: string)
    requires |orders| > 0
    ensures StatusCount(orders, s) == (if orders[0].status == s then 1 else 0) + StatusCount(orders[1..], s)
  {
  }

  lemma CounterSumCons(orders: seq<Order>)
    requires |orders| > 0
    ensures CounterSum(orders) == Hits(orders[0].status) + CounterSum(orders[1..])
  {
    StatusCountCons(orders, Received);
    StatusCountCons(orders, Printing);
    StatusCountCons(orders, Shipped);
    StatusCountCons(orders, Delivered);
  }

  function StatusUnknown(): Order -> bool {
    (o: Order) => o.status !in Statuses
  }

  /** Every order feeds exactly one counter, unless its status is unknown. */
  lemma {:induction false} CountersPartition(orders: seq<Order>)
    ensures CounterSum(orders) + Seqs.Count(orders, StatusUnknown()) == |orders|
    decreases |orders|
  {
    if |orders| > 0 {
      CountersPartition(orders[1..]);
      CounterSumCons(orders);
    }
  }

  /** The four counters never exceed the list, and add up to it exactly when every status is known. */
  lemma CountersSum(orders: seq<Order>)
    ensures CounterSum(orders) <= |orders|
    ensures CounterSum(orders) == |orders| <==> forall i :: 0 <= i < |orders| ==> orders[i].status in Statuses
  {
    CountersPartition(orders);
    Seqs.CountZero(orders, StatusUnknown());
  }

  // ---------------------------------------------------------------- status updates

  /** `notes || old`: an absent or empty note keeps the previous notes. */
  function KeptNotes(newNotes: Option<string>, previous: Option<string>): (n: Option<string>)
    ensures newNotes.Some? && newNotes.value != "" ==> n == newNotes
    ensures newNotes.None? || newNotes.value == "" ==> n == previous
  {
    if newNotes.Some? && newNotes.value != "" then newNotes else previous
  }

  predicate HasOrder(orders: seq<Order>, orderId: string) {
    exists i :: 0 <= i < |orders| && orders[i].id == orderId
  }

  /** Every order carrying `orderId` takes the new status and notes; nothing else moves. */
  function ApplyUpdate(orders: seq<Order>, orderId: string, newStatus: string, notes: Option<string>): (r: seq<Order>)
    ensures |r| == |orders|
    ensures forall i :: 0 <= i < |orders| && orders[i].id != orderId ==> r[i] == orders[i]
    ensures forall i :: 0 <= i < |orders| && orders[i].id == orderId ==>
              && r[i].status == newStatus
              && r[i].notes == KeptNotes(notes, orders[i].notes)
              && r[i].(status := orders[i].status, notes := orders[i].notes) == orders[i]
  {
    seq(|orders|, i requires 0 <= i < |orders| =>
      if orders[i].id == orderId
      then orders[i].(status := newStatus, notes := KeptNotes(notes, orders[i].notes))
      else orders[i])
  }

  datatype Toast = NoToast | SuccessToast(caption: string) | ErrorToast

  datatype UpdateResult = UpdateResult(orders: seq<Order>, toast: Toast)

  /**
   * The status selector's update. `stored` is the store's answer, and
   * `emailDelivered` the notification service's, which the sender catches
   * and never reports back. Reading the new status's
   * label for the success toast comes after the list was updated: it throws
   * for an unknown status, and for a status naming an inherited member it
   * gives `undefined`, which the toast prints.
   */
  function UpdateOrderStatus(
    orders: seq<Order>, orderId: string, newStatus: string, notes: Option<string>,
    stored: bool, emailDelivered: bool): (r: UpdateResult)
    ensures !HasOrder(orders, orderId) ==> r == UpdateResult(orders, NoToast)
    ensures !stored ==> r.orders == orders
    ensures HasOrder(orders, orderId) && stored ==> r.orders == ApplyUpdate(orders, orderId, newStatus, notes)
    ensures HasOrder(orders, orderId) && stored && newStatus in Statuses ==>
              r.toast == SuccessToast(StatusConfig(newStatus).value.caption)
    ensures HasOrder(orders, orderId) && stored && newStatus in Js.PrototypeMembers ==>
              r.toast == SuccessToast("undefined")
    ensures HasOrder(orders, orderId) && (!stored || (newStatus !in Statuses && newStatus !in Js.PrototypeMembers)) ==>
              r.toast == ErrorToast
  {
    if !HasOrder(orders, orderId) then UpdateResult(orders, NoToast)
    else if !stored then UpdateResult(orders, ErrorToast)
    else
      var updated := ApplyUpdate(orders, orderId, newStatus, notes);
      match ReadLabel(newStatus)
      case Label(caption) => UpdateResult(updated, SuccessToast(caption))
      case NoLabel => UpdateResult(updated, SuccessToast("undefined"))
      case LabelThrows => UpdateResult(updated, ErrorToast)
  }

  /** No transition is forbidden: any known status can be set on an order in any known status. */
  lemma AnyTransitionAllowed(o: Order, to: string, emailDelivered: bool)
    requires o.status in Statuses && to in Statuses
    ensures UpdateOrderStatus([o], o.id, to, None, true, emailDelivered).orders == [o.(status := to)]
  {
    assert HasOrder([o], o.id) by { assert [o][0].id == o.id; }
  }

  /**
   * The notification's outcome never changes the list or the message: the
   * sender catches its own failure, so the handler carries on either way.
   */
  lemma StatusEmailIsolated(orders: seq<Order>, orderId: string, newStatus: string, notes: Option<string>, stored: bool)
    ensures UpdateOrderStatus(orders, orderId, newStatus, notes, stored, false)
         == UpdateOrderStatus(orders, orderId, newStatus, notes, stored, true)
  {
  }

  /** The stored frame details, or an empty object when they cannot be parsed. */
  function ParseFrameDetails(parse: string -> Option<Js.Json>, details: string): (v: Js.Json)
    ensures parse(details).None? ==> v == Js.JObject([])
    ensures parse(details).Some? ==> v == parse(details).value
  {
    parse(details).GetOr(Js.JObject([]))
  }
}

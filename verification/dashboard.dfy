/** The seller dashboard (js/dashboard.js): the "my listings" grid, the buy
    and sell order lists with their counters, the actions each order offers,
    and the order-status requests. */
module Dashboard {
  import opened Js
  import opened Web
  import opened Records

  // ------------------------------------------------------------ badges

  /** `getOrderStatusColor`: the badge colour of an order status, "primary"
      for "completed" and for every status the table does not name. */
  function OrderStatusColor(status: string): (colour: string)
    ensures colour in {"warning", "success", "danger", "primary"}
    ensures colour == "warning" <==> status == "pending"
    ensures colour == "success" <==> status == "accepted"
    ensures colour == "danger" <==> status == "rejected"
  {
    var colours := map["pending" := "warning", "accepted" := "success",
                       "rejected" := "danger", "completed" := "primary"];
    if status in colours then colours[status] else "primary"
  }

  /** The members every object literal inherits from `Object.prototype`; an
      indexing expression `colors[status]` finds them too. */
  const InheritedMembers: set<string> := {
    "constructor", "hasOwnProperty", "isPrototypeOf", "propertyIsEnumerable",
    "toLocaleString", "toString", "valueOf", "__defineGetter__",
    "__defineSetter__", "__lookupGetter__", "__lookupSetter__", "__proto__"}

  /** `colors[status] || 'primary'` as JavaScript evaluates it: an inherited
      member is truthy, so it is returned and rendered into the class name. */
  function OrderStatusColorAsWritten(status: string): (colour: string)
    ensures status !in InheritedMembers ==> colour == OrderStatusColor(status)
    ensures status in InheritedMembers ==> colour !in {"warning", "success", "danger", "primary"}
  {
    if status !in InheritedMembers then OrderStatusColor(status)
    else if status == "__proto__" then "[object Object]"
    else if status == "constructor" then "function Object() { [native code] }"
    else "function " + status + "() { [native code] }"
  }

  /** A status named like an inherited member escapes the "primary" default. */
  lemma InheritedStatusEscapesDefault(status: string)
    requires status == "toString"
    ensures OrderStatusColorAsWritten(status) !in {"warning", "success", "danger", "primary"}
    ensures OrderStatusColor(status) == "primary"
  {
    assert status in InheritedMembers;
  }

  /** The listing status badge (dashboard.js line 37, admin.js line 73). */
  function ListingBadge(status: string): (colour: string)
    ensures colour == "success" <==> status == "available"
    ensures colour == "warning" <==> status != "available"
  {
    if status == "available" then "success" else "warning"
  }

  // ------------------------------------------------------- my listings

  predicate SoldBy(l: Listing, userId: string) {
    l.seller.Some? && l.seller.value.id == userId
  }

  /** `a` can be obtained from `b` by deleting elements. */
  predicate Subsequence<T(==)>(a: seq<T>, b: seq<T>)
    decreases |b|
  {
    if |a| == 0 then true
    else if |b| == 0 then false
    else if a[0] == b[0] then Subsequence(a[1..], b[1..])
    else Subsequence(a, b[1..])
  }

  /** `listings.filter(l => l.seller._id === user.id)`: `None` when a listing
      has no seller, where reading `_id` throws; otherwise only the user's
      listings. */
  function MyListings(ls: seq<Listing>, userId: string): (r: Option<seq<Listing>>)
    ensures r.Some? <==> forall i :: 0 <= i < |ls| ==> ls[i].seller.Some?
    ensures r.Some? ==> forall l :: l in r.value ==> SoldBy(l, userId)
  {
    if |ls| == 0 then Some([])
    else if ls[0].seller.None? then None
    else
      match MyListings(ls[1..], userId)
      case None => None
      case Some(rest) => if ls[0].seller.value.id == userId then Some([ls[0]] + rest) else Some(rest)
  }

  /** The filter keeps each of the user's listings as often as the input
      holds it. */
  lemma {:induction false} MyListingsCounts(ls: seq<Listing>, userId: string, l: Listing)
    requires MyListings(ls, userId).Some? && SoldBy(l, userId)
    ensures multiset(MyListings(ls, userId).value)[l] == multiset(ls)[l]
  {
    if |ls| > 0 {
      MyListingsCounts(ls[1..], userId, l);
      assert ls == [ls[0]] + ls[1..];
    }
  }

  /** The filter keeps the input's order. */
  lemma {:induction false} MyListingsInOrder(ls: seq<Listing>, userId: string)
    requires MyListings(ls, userId).Some?
    ensures Subsequence(MyListings(ls, userId).value, ls)
  {
    if |ls| > 0 {
      MyListingsInOrder(ls[1..], userId);
      var rest := MyListings(ls[1..], userId).value;
      if ls[0].seller.value.id != userId && rest != [] {
        assert rest[0] in rest;
      }
    }
  }

  datatype ListingCard = ListingCard(listing: Listing, badge: string)

  datatype MyListingsPanel = MyCards(cards: seq<ListingCard>) | NoListingsYet | ListingsError

  /** The panel and the `myListingsCount` counter; `None` leaves the counter
      as the page had it. */
  datatype MyListingsView = MyListingsView(panel: MyListingsPanel, count: Option<nat>)

  /** `loadMyListings`. The reply's `success` flag is never read: whatever
      listings the reply carries are filtered. */
  function LoadMyListings(reply: Reply<seq<Listing>>, userId: string): (v: MyListingsView)
    ensures v.panel == ListingsError <==>
      (reply.Thrown? || reply.payload.None? || MyListings(reply.payload.value, userId).None?)
    ensures v.count.Some? <==> !v.panel.ListingsError?
    ensures v.panel == NoListingsYet ==> v.count == Some(0)
    ensures v.panel.MyCards? ==> v.count == Some(|v.panel.cards|) && |v.panel.cards| > 0
    ensures v.panel.MyCards? ==> forall i :: 0 <= i < |v.panel.cards| ==>
      SoldBy(v.panel.cards[i].listing, userId)
      && v.panel.cards[i].badge == ListingBadge(v.panel.cards[i].listing.status)
    ensures !v.panel.ListingsError? ==>
      v.count == Some(|MyListings(reply.payload.value, userId).value|)
    ensures v.panel.MyCards? ==> forall i :: 0 <= i < |v.panel.cards| ==>
      v.panel.cards[i].listing == MyListings(reply.payload.value, userId).value[i]
  {
    if reply.Thrown? || reply.payload.None? then MyListingsView(ListingsError, None)
    else
      match MyListings(reply.payload.value, userId)
      case None => MyListingsView(ListingsError, None)
      case Some(mine) =>
        if |mine| == 0 then MyListingsView(NoListingsYet, Some(0))
        else
          assert forall i :: 0 <= i < |mine| ==> mine[i] in mine;
          MyListingsView(MyCards(seq(|mine|, i requires 0 <= i < |mine| =>
                           ListingCard(mine[i], ListingBadge(mine[i].status)))), Some(|mine|))
  }

  /** The grid depends on the listings a reply carries, not on its flag. */
  lemma MyListingsIgnoreSuccessFlag(listings: seq<Listing>, userId: string)
    ensures LoadMyListings(Answer(false, Some(listings)), userId)
         == LoadMyListings(Answer(true, Some(listings)), userId)
  {
  }

  // ------------------------------------------------------------- orders

  /** The Mark-as-Paid block of a buy order: accepted, and the seller has a
      UPI id. */
  predicate OffersPayment(o: Order) {
    o.status == "accepted" && o.seller.Some? && Truthy(o.seller.value.upiId)
  }

  /** Accept and Reject buttons of a sell order: only while it is pending. */
  predicate OffersDecision(o: Order) {
    o.status == "pending"
  }

  datatype PaymentBox = PaymentBox(orderId: string, upiId: string, amount: Option<int>)

  datatype BuyCard = BuyCard(title: string, price: int, sellerName: Option<string>, badge: string, payment: Option<PaymentBox>)

  /** One buy-order card; `None` when the payment block reads the price of a
      listing that is gone. */
  function BuyCardOf(o: Order): (c: Option<BuyCard>)
    ensures c.None? <==> OffersPayment(o) && o.listing.None?
    ensures c.Some? ==> (c.value.payment.Some? <==> OffersPayment(o))
    ensures c.Some? && c.value.payment.Some? ==>
      c.value.payment.value.upiId == o.seller.value.upiId.value && c.value.payment.value.orderId == o.id
    ensures c.Some? ==> c.value.badge == OrderStatusColor(o.status) && c.value.price == OrderPrice(o)
  {
    if OffersPayment(o) && o.listing.None? then None
    else
      var payment :=
        if OffersPayment(o) then Some(PaymentBox(o.id, o.seller.value.upiId.value, o.listing.value.price))
        else None;
      Some(BuyCard(OrElse(OrderTitle(o), "Listing"), OrderPrice(o), NameOf(o.seller),
                   OrderStatusColor(o.status), payment))
  }

  datatype SellCard = SellCard(title: string, price: int, buyerName: Option<string>, badge: string, decision: bool)

  function SellCardOf(o: Order): (c: Option<SellCard>)
    ensures c.Some?
    ensures c.value.decision <==> OffersDecision(o)
    ensures c.value.badge == OrderStatusColor(o.status) && c.value.price == OrderPrice(o)
  {
    Some(SellCard(OrElse(OrderTitle(o), "Listing"), OrderPrice(o), NameOf(o.buyer),
                  OrderStatusColor(o.status), OffersDecision(o)))
  }

  datatype OrdersPanel<C> = Cards(cards: seq<C>) | NoRequests | OrdersError

  /** An order list and its counter; `None` leaves the counter as it was. */
  datatype OrdersView<C> = OrdersView(panel: OrdersPanel<C>, count: Option<nat>)

  /** What `loadBuyOrders` and `loadSellOrders` render from their replies;
      the two ask for different orders (`?role=buyer`, `?role=seller`) and
      draw different cards. The cards need a successful, non-empty reply; otherwise the "no requests"
      text shows and the counter falls back to the length of whatever order
      list came back, or 0. */
  function LoadOrders<C>(reply: Reply<seq<Order>>, card: Order -> Option<C>): (v: OrdersView<C>)
    ensures v.count.Some? <==> !v.panel.OrdersError?
    ensures v.panel.OrdersError? <==>
      (reply.Thrown?
       || (reply.Succeeded() && reply.payload.None?)
       || (reply.Succeeded() && reply.payload.Some? && |reply.payload.value| > 0
           && exists i :: 0 <= i < |reply.payload.value| && card(reply.payload.value[i]).None?))
    ensures v.panel.Cards? ==>
      && reply.Succeeded() && reply.payload.Some?
      && |v.panel.cards| == |reply.payload.value| > 0
      && v.count == Some(|reply.payload.value|)
      && forall i :: 0 <= i < |v.panel.cards| ==> Some(v.panel.cards[i]) == card(reply.payload.value[i])
    ensures v.panel.NoRequests? <==>
      reply.Answer? && (!reply.success || (reply.payload.Some? && |reply.payload.value| == 0))
    ensures v.panel.NoRequests? ==>
      v.count == Some(if reply.payload.Some? then |reply.payload.value| else 0)
  {
    match reply
    case Thrown(_) => OrdersView(OrdersError, None)
    case Answer(ok, orders) =>
      if ok && orders.None? then OrdersView(OrdersError, None)
      else if ok && |orders.value| > 0 then
        match MapAll(orders.value, card)
        case None => OrdersView(OrdersError, None)
        case Some(cards) => OrdersView(Cards(cards), Some(|orders.value|))
      else OrdersView(NoRequests, Some(if orders.Some? then |orders.value| else 0))
  }

  function LoadBuyOrders(reply: Reply<seq<Order>>): (v: OrdersView<BuyCard>)
    ensures v.panel.Cards? ==>
      && reply.Answer? && reply.payload.Some? && |v.panel.cards| == |reply.payload.value|
      && forall i :: 0 <= i < |v.panel.cards| ==>
           (v.panel.cards[i].payment.Some? <==> OffersPayment(reply.payload.value[i]))
  {
    LoadOrders(reply, BuyCardOf)
  }

  function LoadSellOrders(reply: Reply<seq<Order>>): (v: OrdersView<SellCard>)
    ensures v.panel.OrdersError? <==> reply.Thrown? || (reply.Succeeded() && reply.payload.None?)
    ensures v.panel.Cards? ==>
      && reply.Answer? && reply.payload.Some? && |v.panel.cards| == |reply.payload.value|
      && forall i :: 0 <= i < |v.panel.cards| ==>
           (v.panel.cards[i].decision <==> reply.payload.value[i].status == "pending")
  {
    LoadOrders(reply, SellCardOf)
  }

  /** An unsuccessful reply that still carries orders shows "no requests"
      next to a counter that counts them. */
  lemma RefusedReplyStillCounted(orders: seq<Order>)
    ensures LoadSellOrders(Answer(false, Some(orders))) == OrdersView(NoRequests, Some(|orders|))
  {
  }

  // ---------------------------------------------------------- requests

  function StatusRequest(orderId: string, body: seq<(string, string)>): Effect {
    Send(Request(Put, OrdersPath + "/" + orderId + "/status", true, body))
  }

  /** `markAsPaid`: nothing without confirmation; otherwise one PUT of
      exactly `{paymentStatus: 'paid', status: 'completed'}`, and the buy
      orders reload only when it succeeded. */
  function MarkAsPaid(orderId: string, confirmed: bool, reply: Reply<()>): (effects: seq<Effect>)
    ensures !confirmed ==> effects == []
    ensures confirmed ==> |effects| == 3 || |effects| == 2
    ensures confirmed ==>
      effects[0] == StatusRequest(orderId, [("paymentStatus", "paid"), ("status", "completed")])
    ensures confirmed ==> forall i :: 1 <= i < |effects| ==> !effects[i].Send?
    ensures Reload("buyOrders") in effects <==> confirmed && reply.Succeeded()
  {
    if !confirmed then []
    else
      var put := StatusRequest(orderId, [("paymentStatus", "paid"), ("status", "completed")]);
      match reply
      case Thrown(m) => [put, Alert("Error: " + m)]
      case Answer(ok, _) =>
        if ok then [put, Alert("Payment marked as complete!"), Reload("buyOrders")]
        else [put, Alert("Failed to update payment status")]
  }

  /** `updateOrderStatus`, behind the Accept and Reject buttons: one PUT of
      `{status}`, and the sell orders reload only when it succeeded. */
  function UpdateOrderStatus(orderId: string, status: string, reply: Reply<()>): (effects: seq<Effect>)
    ensures |effects| >= 2 && effects[0] == StatusRequest(orderId, [("status", status)])
    ensures forall i :: 1 <= i < |effects| ==> !effects[i].Send?
    ensures Reload("sellOrders") in effects <==> reply.Succeeded()
    ensures reply.Succeeded() ==> effects[1] == Alert("Order " + status + " successfully!")
  {
    var put := StatusRequest(orderId, [("status", status)]);
    match reply
    case Thrown(m) => [put, Alert("Error: " + m)]
    case Answer(ok, _) =>
      if ok then [put, Alert("Order " + status + " successfully!"), Reload("sellOrders")]
      else [put, Alert("Failed to update order")]
  }
}

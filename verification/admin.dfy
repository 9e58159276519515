/** The administrator page (js/admin.js): the statistics counters, the
    users, listings and orders tables, tab selection, and deleting a listing
    as administrator. */
module Admin {
  import opened Js
  import opened Web
  import opened Records
  import Dashboard

  /** `getStatusColor`, a second copy of the dashboard's status table,
      letter for letter; the model shares the dashboard's definition. */
  function StatusColor(status: string): (colour: string)
    ensures colour in {"warning", "success", "danger", "primary"}
    ensures colour == "warning" <==> status == "pending"
    ensures colour == "success" <==> status == "accepted"
    ensures colour == "danger" <==> status == "rejected"
  {
    Dashboard.OrderStatusColor(status)
  }

  /** The administrator page's table is the dashboard's (js/admin.js:115-123
      repeats js/dashboard.js:143-151), so the model defines one by the other;
      this records that the two colour every order status alike. */
  lemma StatusColourTablesAgree(status: string)
    ensures StatusColor(status) == Dashboard.OrderStatusColor(status)
    ensures status == "completed" ==> StatusColor(status) == "primary"
  {
  }

  function PaymentBadge(paymentStatus: string): (colour: string)
    ensures colour == "success" <==> paymentStatus == "paid"
    ensures colour == "warning" <==> paymentStatus != "paid"
  {
    if paymentStatus == "paid" then "success" else "warning"
  }

  /** `switchTab`: the position of the tab button to highlight; every name
      other than "users" and "listings" highlights the orders tab. */
  function TabIndex(tabName: string): (i: nat)
    ensures i <= 2
    ensures i == 0 <==> tabName == "users"
    ensures i == 1 <==> tabName == "listings"
  {
    if tabName == "users" then 0 else if tabName == "listings" then 1 else 2
  }

  // ------------------------------------------------------------- tables

  // The three tables share `Web.LoadPanel`.

  /** A registered user as the users table reads it. */
  datatype Member = Member(name: Option<string>, isAdmin: bool)

  datatype UserRow = UserRow(name: Option<string>, adminMark: string)

  function UserRowOf(u: Member): (r: UserRow)
    ensures r.name == u.name
    ensures r.adminMark == (if u.isAdmin then "\U{2705} Yes" else "\U{274C} No")
  {
    UserRow(u.name, if u.isAdmin then "\U{2705} Yes" else "\U{274C} No")
  }

  datatype ListingRow = ListingRow(listingId: string, title: string, sellerName: string, badge: string)

  function ListingRowOf(l: Listing): (r: ListingRow)
    ensures r.sellerName == OrElse(NameOf(l.seller), "Unknown")
    ensures r.badge == Dashboard.ListingBadge(l.status)
    ensures r.listingId == l.id && r.title == l.title
  {
    ListingRow(l.id, l.title, OrElse(NameOf(l.seller), "Unknown"), Dashboard.ListingBadge(l.status))
  }

  datatype OrderRow = OrderRow(title: string, buyerName: string, sellerName: string, badge: string, paymentBadge: string)

  /** An order row: a deleted listing shows as "Deleted", a missing buyer or
      seller as "Unknown". */
  function OrderRowOf(o: Order): (r: OrderRow)
    ensures r.title == OrElse(OrderTitle(o), "Deleted")
    ensures r.buyerName == OrElse(NameOf(o.buyer), "Unknown")
    ensures r.sellerName == OrElse(NameOf(o.seller), "Unknown")
    ensures r.badge == StatusColor(o.status) && r.paymentBadge == PaymentBadge(o.paymentStatus)
  {
    OrderRow(OrElse(OrderTitle(o), "Deleted"), OrElse(NameOf(o.buyer), "Unknown"),
             OrElse(NameOf(o.seller), "Unknown"), StatusColor(o.status), PaymentBadge(o.paymentStatus))
  }

  function LoadUsers(reply: Reply<seq<Member>>): (t: Panel<UserRow>)
    ensures t.Rows? <==> reply.Succeeded() && reply.payload.Some? && |reply.payload.value| > 0
    ensures t.Notice? ==> t.text == "No users found"
    ensures t.ErrorNotice? ==> t.text == "Error loading users"
    ensures t.Rows? ==>
      reply.Answer? && reply.payload.Some? && |t.rows| == |reply.payload.value|
      && forall i :: 0 <= i < |t.rows| ==> t.rows[i] == UserRowOf(reply.payload.value[i])
  {
    LoadPanel(reply, UserRowOf, "No users found", "Error loading users")
  }

  function LoadListings(reply: Reply<seq<Listing>>): (t: Panel<ListingRow>)
    ensures t.Rows? <==> reply.Succeeded() && reply.payload.Some? && |reply.payload.value| > 0
    ensures t.Notice? ==> t.text == "No listings found"
    ensures t.ErrorNotice? ==> t.text == "Error loading listings"
    ensures t.Rows? ==>
      reply.Answer? && reply.payload.Some? && |t.rows| == |reply.payload.value|
      && forall i :: 0 <= i < |t.rows| ==> t.rows[i] == ListingRowOf(reply.payload.value[i])
  {
    LoadPanel(reply, ListingRowOf, "No listings found", "Error loading listings")
  }

  function LoadOrders(reply: Reply<seq<Order>>): (t: Panel<OrderRow>)
    ensures t.Rows? <==> reply.Succeeded() && reply.payload.Some? && |reply.payload.value| > 0
    ensures t.Notice? ==> t.text == "No orders found"
    ensures t.ErrorNotice? ==> t.text == "Error loading orders"
    ensures t.Rows? ==>
      reply.Answer? && reply.payload.Some? && |t.rows| == |reply.payload.value|
      && forall i :: 0 <= i < |t.rows| ==> t.rows[i] == OrderRowOf(reply.payload.value[i])
  {
    LoadPanel(reply, OrderRowOf, "No orders found", "Error loading orders")
  }

  /** A refused or empty user list leaves exactly one row, the notice. */
  lemma NoUsersIsOneRow(reply: Reply<seq<Member>>)
    requires reply.Answer?
    requires !reply.success || (reply.payload.Some? && |reply.payload.value| == 0)
    ensures LoadUsers(reply) == Notice("No users found")
    ensures LoadUsers(reply).RowCount() == 1
  {
  }

  // ------------------------------------------------------ stats, delete

  datatype Stats = Stats(totalUsers: int, totalListings: int, totalOrders: int)

  /** `loadStats`: the counters change only on a successful reply carrying
      statistics; everything else leaves them as they were. */
  function LoadStats(shown: Option<Stats>, reply: Reply<Stats>): (r: Option<Stats>)
    ensures reply.Succeeded() && reply.payload.Some? ==> r == reply.payload
    ensures !(reply.Succeeded() && reply.payload.Some?) ==> r == shown
  {
    if reply.Succeeded() && reply.payload.Some? then reply.payload else shown
  }

  /** The administrator's `deleteListing`: nothing without confirmation;
      otherwise one DELETE through the admin route, and the listings table
      and the counters reload only when it succeeded. */
  function DeleteListing(listingId: string, confirmed: bool, reply: Reply<()>): (effects: seq<Effect>)
    ensures !confirmed ==> effects == []
    ensures confirmed ==>
      |effects| >= 2 && effects[0] == Send(Request(Delete, AdminPath + "/listings/" + listingId, true, []))
      && NoRequest(effects[1..])
    ensures Reload("listings") in effects <==> confirmed && reply.Succeeded()
    ensures Reload("stats") in effects <==> confirmed && reply.Succeeded()
  {
    if !confirmed then []
    else
      var delete := Send(Request(Delete, AdminPath + "/listings/" + listingId, true, []));
      match reply
      case Thrown(m) => [delete, Alert("Error: " + m)]
      case Answer(ok, _) =>
        if ok then [delete, Alert("Listing deleted successfully"), Reload("listings"), Reload("stats")]
        else [delete, Alert("Failed to delete listing")]
  }
}

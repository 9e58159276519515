/** The listing detail page (js/listing.js): loading the listing named in
    the URL, the actions offered to its owner, to other members and to
    visitors, and the buy, chat and delete requests behind them. */
module ListingPage {
  import opened Js
  import opened Web
  import opened Records

  /** Who may do what with an unsold listing. */
  datatype Actions =
    | SoldNotice
    | Offered(buyAndChat: bool, loginLink: bool, editDelete: bool)

  datatype Detail = Detail(sold: bool, actions: Actions)

  datatype ListingView = InvalidId | NotFound | LoadFailed | Shown(detail: Detail)

  /** What `loadListing` leaves behind: `currentListing`, the container, and
      the request it made. */
  datatype Loaded = Loaded(current: Option<Listing>, view: ListingView, effects: seq<Effect>)

  predicate IsOwner(userId: Option<string>, seller: Person) {
    userId.Some? && userId.value == seller.id
  }

  /** The action block of `displayListing`: a sold listing offers nothing;
      otherwise exactly one group shows, chosen by who is looking. */
  function ActionsFor(userId: Option<string>, l: Listing, seller: Person): (a: Actions)
    ensures a.SoldNotice? <==> l.status == "sold"
    ensures a.Offered? ==> (a.loginLink <==> userId.None?)
    ensures a.Offered? ==> (a.editDelete <==> IsOwner(userId, seller))
    ensures a.Offered? ==> (a.buyAndChat <==> userId.Some? && !IsOwner(userId, seller))
  {
    if l.status == "sold" then SoldNotice
    else
      var owner := IsOwner(userId, seller);
      Offered(!owner && userId.Some?, userId.None?, owner)
  }

  /** Every viewer of an unsold listing sees exactly one action group. */
  lemma ExactlyOneActionGroup(userId: Option<string>, l: Listing, seller: Person)
    requires l.status != "sold"
    ensures var a := ActionsFor(userId, l, seller);
      a.Offered? && (if a.buyAndChat then 1 else 0) + (if a.loginLink then 1 else 0) + (if a.editDelete then 1 else 0) == 1
  {
  }

  /** `displayListing`: `None` when the listing or its seller is missing, where
      reading the seller's fields throws. */
  function DisplayListing(userId: Option<string>, listing: Option<Listing>): (d: Option<Detail>)
    ensures d.Some? <==> listing.Some? && listing.value.seller.Some?
    ensures d.Some? ==> d.value.sold == (listing.value.status == "sold")
    ensures d.Some? ==> d.value.actions == ActionsFor(userId, listing.value, listing.value.seller.value)
  {
    if listing.None? || listing.value.seller.None? then None
    else
      var l := listing.value;
      Some(Detail(l.status == "sold", ActionsFor(userId, l, l.seller.value)))
  }

  function FetchListing(id: string): Effect {
    Send(Request(Get, ListingsPath + "/" + id, false, []))
  }

  /** `loadListing`, given the `id` query parameter and the signed-in user.
      A missing or empty id is refused before any request; otherwise one
      unauthenticated GET, and the listing is kept whenever the reply says
      success, even when it then fails to display. A thrown request, or a
      successful reply that cannot be displayed, shows the load error. */
  function LoadListing(idParam: Option<string>, userId: Option<string>, reply: Reply<Listing>): (r: Loaded)
    ensures !Truthy(idParam) ==> r == Loaded(None, InvalidId, [])
    ensures Truthy(idParam) ==> r.effects == [FetchListing(idParam.value)]
    ensures r.current.Some? <==> Truthy(idParam) && reply.Succeeded() && reply.payload.Some?
    ensures r.current.Some? ==> r.current == reply.payload
    ensures r.view.Shown? <==> r.current.Some? && r.current.value.seller.Some?
    ensures r.view.Shown? ==> Some(r.view.detail) == DisplayListing(userId, r.current)
    ensures r.view == NotFound <==> Truthy(idParam) && reply.Answer? && !reply.success
    ensures r.view == InvalidId <==> !Truthy(idParam)
    ensures r.view == LoadFailed <==>
      Truthy(idParam) && (reply.Thrown? || (reply.success && DisplayListing(userId, reply.payload).None?))
  {
    if !Truthy(idParam) then Loaded(None, InvalidId, [])
    else
      var fetch := [FetchListing(idParam.value)];
      match reply
      case Thrown(_) => Loaded(None, LoadFailed, fetch)
      case Answer(ok, listing) =>
        if !ok then Loaded(None, NotFound, fetch)
        else
          match DisplayListing(userId, listing)
          case None => Loaded(listing, LoadFailed, fetch)
          case Some(d) => Loaded(listing, Shown(d), fetch)
  }

  const LoginPage := "login.html"
  const DashboardPage := "dashboard.html"

  /** `requestToBuy`: a visitor is sent to log in; a member who confirms posts
      one order for the current listing and is taken to the dashboard only
      when it succeeded. A refusal shows the server's message, or a default
      when it gave none. */
  function RequestToBuy(loggedIn: bool, confirmed: bool, current: Listing, reply: Reply<string>): (effects: seq<Effect>)
    ensures !loggedIn ==> effects == [Navigate(LoginPage)]
    ensures loggedIn && !confirmed ==> effects == []
    ensures loggedIn && confirmed ==>
      |effects| >= 2 && effects[0] == Send(Request(Post, OrdersPath, true, [("listingId", current.id)]))
      && NoRequest(effects[1..])
    ensures Navigate(DashboardPage) in effects <==> loggedIn && confirmed && reply.Succeeded()
    ensures loggedIn && confirmed && reply.Answer? && !reply.success ==>
      effects[1] == Alert(OrElse(reply.payload, "Failed to send request"))
  {
    if !loggedIn then [Navigate(LoginPage)]
    else if !confirmed then []
    else
      var post := Send(Request(Post, OrdersPath, true, [("listingId", current.id)]));
      match reply
      case Thrown(m) => [post, Alert("Error sending request: " + m)]
      case Answer(ok, message) =>
        if ok then [post, Alert("Request sent successfully! Check your dashboard for updates."), Navigate(DashboardPage)]
        else [post, Alert(OrElse(message, "Failed to send request"))]
  }

  /** The chat page opened on one conversation. */
  function ChatUrl(conversationId: string): (url: string)
    ensures |url| == 13 + |conversationId|
    ensures url[..13] == "chat.html?id=" && url[13..] == conversationId
    ensures url != LoginPage
  {
    var url := "chat.html?id=" + conversationId;
    assert url[0] != LoginPage[0];
    url
  }

  /** `startChat`: a visitor is sent to log in. A listing without a seller
      throws while the body is built, so nothing is posted; otherwise one POST
      naming the listing and its seller, and the chat page opens on the
      conversation the reply names. */
  function StartChat(loggedIn: bool, current: Listing, reply: Reply<string>): (effects: seq<Effect>)
    ensures !loggedIn ==> effects == [Navigate(LoginPage)]
    ensures loggedIn && current.seller.None? ==> effects == [Alert("Error: " + TypeErrorMessage)]
    ensures loggedIn && current.seller.Some? ==>
      |effects| == 2
      && effects[0] == Send(Request(Post, ChatsPath + "/start", true,
                                    [("listingId", current.id), ("recipientId", current.seller.value.id)]))
    ensures (exists i :: 0 <= i < |effects| && effects[i].Navigate? && effects[i].url != LoginPage) <==>
      loggedIn && current.seller.Some? && reply.Succeeded() && reply.payload.Some?
    ensures loggedIn && current.seller.Some? && reply.Succeeded() && reply.payload.Some? ==>
      effects[1] == Navigate(ChatUrl(reply.payload.value))
    ensures loggedIn && current.seller.Some? && !(reply.Succeeded() && reply.payload.Some?) ==>
      effects[1].Alert?
    ensures loggedIn && current.seller.Some? && reply.Answer? && !reply.success ==>
      effects[1] == Alert("Failed to start chat")
    ensures loggedIn && current.seller.Some? && reply.Thrown? ==>
      effects[1] == Alert("Error: " + reply.message)
  {
    if !loggedIn then [Navigate(LoginPage)]
    else if current.seller.None? then [Alert("Error: " + TypeErrorMessage)]
    else
      var post := Send(Request(Post, ChatsPath + "/start", true,
                               [("listingId", current.id), ("recipientId", current.seller.value.id)]));
      match reply
      case Thrown(m) => [post, Alert("Error: " + m)]
      case Answer(ok, conversation) =>
        if !ok then [post, Alert("Failed to start chat")]
        else if conversation.None? then [post, Alert("Error: " + TypeErrorMessage)]
        else
          var effects := [post, Navigate(ChatUrl(conversation.value))];
          assert effects[1].Navigate? && effects[1].url != LoginPage;
          effects
  }

  /** `deleteListing`: nothing without confirmation; otherwise one DELETE of
      the current listing, leaving for the dashboard only when it succeeded. */
  function DeleteListing(confirmed: bool, current: Listing, reply: Reply<()>): (effects: seq<Effect>)
    ensures !confirmed ==> effects == []
    ensures confirmed ==>
      |effects| >= 2 && effects[0] == Send(Request(Delete, ListingsPath + "/" + current.id, true, []))
      && NoRequest(effects[1..])
    ensures Navigate(DashboardPage) in effects <==> confirmed && reply.Succeeded()
  {
    if !confirmed then []
    else
      var delete := Send(Request(Delete, ListingsPath + "/" + current.id, true, []));
      match reply
      case Thrown(m) => [delete, Alert("Error: " + m)]
      case Answer(ok, _) =>
        if ok then [delete, Alert("Listing deleted successfully"), Navigate(DashboardPage)]
        else [delete, Alert("Failed to delete listing")]
  }
}

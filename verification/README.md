# Campus marketplace pages, modelled in Dafny

This project models the decision logic of the browser front end of a campus
marketplace. On this site students list items for sale, ask to buy them,
chat with sellers, and track orders. Seven of its front-end scripts are
modelled:

- the chat page;
- the seller dashboard;
- the listing detail page;
- the administrator page;
- the browse page;
- the home page;
- the light/dark theme switch.

Each script becomes one module of pure functions over immutable records.
Everything a page gets from outside is a parameter:
- a reply of the REST API (`Web.Reply`): the `success` flag and the one
  payload field the page reads, or the exception the request raised;
- the signed-in user;
- the answer to a `confirm` dialog;
- the browser's local storage.

What a page does in answer to the user is a list of effects
(`Web.Effect`): a request sent, a navigation, an alert, or a panel reloaded.
The list loaders of the dashboard and administrator pages return only what
they render; their requests are listed under "Left out".

| file | module | models |
|---|---|---|
| js.dfy | `Js` | the JavaScript built-ins the pages rely on: `a \|\| b` on strings, `substring`/`slice`, `trim`, `Array.map` with a throwing callback |
| web.dfy | `Web` | replies, requests, effects, API paths, and the shared "rows or notice" list shape |
| records.dfy | `Records` | listings, people and orders as the pages read them |
| uri.dfy | `Uri` | UTF-8; `encodeURIComponent`; the form-urlencoded serializer and parser behind `URLSearchParams` (section 5 of the WHATWG URL Standard) |
| chat.dfy | `Chat` | the chat session as a transition system over the conversation list, the current conversation, the messages, the refresh interval and the browser's interval table; its list and message views |
| dashboard.dfy | `Dashboard` | the status badge table, the "my listings" filter, the buy and sell order cards with their actions and counters, and the order-status requests |
| listing.dfy | `ListingPage` | the listing page: id guard, owner/login/sold action groups, buy, chat and delete |
| admin.dfy | `Admin` | statistics, the three tables, tab selection, and deleting a listing as administrator |
| browse.dfy | `Browse` | the filter query, filters read back from the URL, and the listing grid |
| home.dfy | `Home` | the home search link, which the browse page reads back, and the latest-listings strip |
| theme.dfy | `Theme` | the stored theme, the `data-theme` attribute and the toggle button |

The main results are these:
- In the chat session, taken as a sequence of atomic steps, at most one
  polling interval is ever live, and it polls the selected conversation
  (`Chat.RunPreserves`). The "at most one" half also holds in the browser;
  the "selected conversation" half does not (see the first
  `Chat.SelectConversation` line under "Left out").
- In the same sequential model, selecting A and then B leaves one interval,
  which polls B (`Chat.SelectTwice`).
- Parsing a serialized query gives back its pairs (`Uri.ParseSerialize`).
- Parsing the browse page's listing query gives back exactly the filters it
  was built from (`Browse.ListingsQueryRestoresFilters`).
- The home page's search link fills in the browse page's filters
  (`Home.HomeSearchReachesBrowse`).

## Model

| member | source | states |
|---|---|---|
| Js.OrElse | js/browse.js:84 | `x \|\| d` on a string that may be absent: the value when present and non-empty, else the default; a non-empty default gives a non-empty result |
| Js.Prefix | js/main.js:31 | `slice(0, n)`/`substring(0, n)`: a prefix of the input of length min(n, length) |
| Js.Ellipsis | js/browse.js:82 | the card truncation: min(n, length) characters that begin the text, then "..."; the dots are added even when nothing was cut |
| Js.Trim | js/chat.js:123 | `trim()`: the slice between the leading and trailing whitespace, with no whitespace left at either end |
| Js.TrimEmptyIffWhitespace | js/chat.js:123-125 | the trimmed text is empty exactly when the input is all whitespace, which is when the send guard refuses |
| Js.TrimIdempotent | js/chat.js:123 | trimming twice equals trimming once |
| Js.MapAll | js/dashboard.js:71-95 | `map` with a callback that may throw: succeeds exactly when every element succeeds, and then yields one result per element in order |
| Web.LoadPanel | js/browse.js:55-67 | the shared list loader: rows exactly for a successful non-empty reply, one per record and in order; the error notice exactly when the request throws or a successful reply lacks the list; otherwise the empty notice; never zero rows |
| Records.OrderPrice | js/dashboard.js:77 | `order.listing?.price \|\| 0`: the listing's price, or 0 when the listing or its price is missing |
| Uri.Utf8 | js/main.js:15 | UTF-8 of one scalar value: 1 to 4 bytes, one byte exactly for ASCII, and continuation bytes after the first |
| Uri.DecodeOneUtf8 | js/browse.js:11 | the decoder reads one encoded character back with its exact byte count |
| Uri.Utf8RoundTrip | js/browse.js:11 | UTF-8 decoding inverts UTF-8 encoding for every string |
| Uri.Encode | js/main.js:15-16 | both encoders emit only ASCII with no `&`, `=` or `#`; `encodeURIComponent` never emits `+` |
| Uri.EncodeAlphanumeric | js/browse.js:45-49 | letters and digits are written unchanged, so parameter names and `available` appear verbatim |
| Uri.PercentDecodeEscapes | js/browse.js:11 | percent-decoding undoes percent-escaping of any byte string, whatever follows it |
| Uri.DecodeEncode | js/browse.js:11 | the form parser's component decoding reads back exactly what either encoder wrote |
| Uri.Lookup | js/browse.js:13-24 | `params.get(name)`: present exactly when some pair has the name, and then the value of the first such pair |
| Uri.EncodePair | js/browse.js:52 | an encoded `name=value` piece is non-empty and has no `&` |
| Uri.ParseEncodedPair | js/browse.js:11 | an encoded piece parses back to its name and value |
| Uri.SplitJoin | js/browse.js:52 | splitting on `&` gives back the joined pieces when none holds `&` |
| Uri.ParseQueryCons | js/browse.js:11 | a piece, `&`, then a query parses to the piece's pair in front of the query's pairs |
| Uri.ParseSerialize | js/browse.js:38-52 | parsing `params.toString()` gives back every appended pair, in order, with names and values intact |
| Chat.FindConversation | js/chat.js:57 | `find` by id: the index of the first conversation with that id, or none when no conversation has it |
| Chat.OtherParticipant | js/chat.js:65 | the first participant whose id is not the user's, or none when every participant is the user |
| Chat.LoadConversations | js/chat.js:21-37 | one request; the list is replaced only by a successful non-empty reply; the error shows exactly for an exception or a successful reply without the list; a refusal shows "No conversations yet" |
| Chat.LoadMessages | js/chat.js:81-93 | one request; the messages are replaced by a successful reply and nothing changes otherwise |
| Chat.ClearRefresh | js/chat.js:77 | `clearInterval(refreshInterval)` removes that interval and keeps every other live interval unchanged |
| Chat.SelectConversation | js/chat.js:56-79 | an unknown id changes nothing and sends nothing; otherwise the first match becomes current, its messages are fetched once, the old interval is cleared and a new one polls the selected id |
| Chat.Poll | js/chat.js:78 | a tick of a live interval reloads the conversation it was created for; a cleared interval does nothing |
| Chat.SendMessage | js/chat.js:121-145 | no text after trimming, or no current conversation, sends nothing and changes nothing; otherwise the trimmed text is posted; success empties the box, keeps the intervals, the conversation list and the rest of the session, and shows the reloaded messages (the old ones when the reload fails); a refusal keeps the box and reloads nothing; an exception alerts |
| Chat.Teardown | js/chat.js:148-150 | unloading the page clears the live interval and leaves the session as it was |
| Chat.AtMostOneTimer | js/chat.js:6 | under the session invariant at most one interval is live, and none while no handle is held |
| Chat.InitialTracksSelection | js/chat.js:3-6 | the freshly loaded page satisfies the invariant |
| Chat.ApplyPreserves | js/chat.js:77-78 | every event (list load, selection, tick, typing, send, unload) keeps the invariant |
| Chat.RunPreserves | js/chat.js:56-79 | any sequence of events keeps the invariant, so no two intervals are ever live at once |
| Chat.SelectLeavesOneTimer | js/chat.js:77-78 | after a successful selection exactly one interval is live: the one `refreshInterval` names, polling the selected id |
| Chat.SelectTwice | js/chat.js:77-78 | selecting A then B leaves one live interval, polling B, with B current |
| Chat.PollFetchesCurrent | js/chat.js:78 | under the invariant every tick fetches the current conversation's messages and nothing else |
| Chat.TeardownStopsPolling | js/chat.js:148-150 | after unloading no interval is live and no tick has an effect |
| Chat.FailedSelectKeepsOldMessages | js/chat.js:86-89 | a selection whose message load fails shows the new header over the previous conversation's messages |
| Chat.Preview | js/chat.js:50 | the last-message line shows exactly for a truthy last message: its first 30 characters and "..." |
| Chat.ConversationItems | js/chat.js:39-54 | one item per conversation, in order; an item is active exactly when its id is the current conversation's; its title is the listing title or "Listing"; its name is the first other participant's truthy name or "User"; a preview shows exactly for a truthy last message and is the first 30 characters of that message followed by "..." |
| Chat.SelectionMarksOneItem | js/chat.js:46 | with distinct ids, after a successful selection exactly the selected item is active |
| Chat.ChatHeader | js/chat.js:65-68 | the title is the listing's title when it is truthy, else "Conversation"; the subtitle is "Chatting with " and the first other participant's name when truthy, else "User" |
| Chat.TwoPersonHeader | js/chat.js:65-68 | in every chat between two distinct people, each side's header names the other person, or "User" when that person has no name |
| Chat.RenderMessages | js/chat.js:95-115 | the placeholder exactly for no messages; otherwise one bubble per message, marked sent exactly when the sender is the user, with a sender name only on received bubbles |
| Dashboard.OrderStatusColor | js/dashboard.js:143-151 | pending shows warning, accepted success, rejected danger (each exactly), and every other status, "completed" included, primary |
| Dashboard.OrderStatusColorAsWritten | js/dashboard.js:150 | as JavaScript evaluates it, the lookup agrees with the table except on the names of inherited object members, where it yields no badge colour at all |
| Dashboard.InheritedStatusEscapesDefault | js/dashboard.js:150 | for the status "toString" the lookup as written yields no badge colour, while the intended table gives "primary" |
| Dashboard.ListingBadge | js/dashboard.js:37 | success exactly for "available", warning for every other status |
| Dashboard.MyListings | js/dashboard.js:26 | the filter throws (`None`) exactly when some listing has no seller; otherwise it keeps only the user's listings |
| Dashboard.MyListingsCounts | js/dashboard.js:26 | each of the user's listings is kept as often as the reply holds it |
| Dashboard.MyListingsInOrder | js/dashboard.js:26 | the kept listings are in the reply's order |
| Dashboard.LoadMyListings | js/dashboard.js:18-61 | an error (with the counter untouched) exactly when the request throws, the list is missing, or a listing has no seller; otherwise the counter is the number of the user's listings, with one card per listing of the user in the reply's order carrying its status badge, or the empty text when there are none |
| Dashboard.MyListingsIgnoreSuccessFlag | js/dashboard.js:23-28 | the grid and counter ignore the reply's `success` flag |
| Dashboard.BuyCardOf | js/dashboard.js:76-88 | the Mark-as-Paid block appears exactly for an accepted order whose seller has a UPI id, with that id and the order's id; rendering throws exactly when that block needs a missing listing |
| Dashboard.SellCardOf | js/dashboard.js:117-129 | Accept and Reject appear exactly while the order is pending |
| Dashboard.LoadOrders | js/dashboard.js:63-104 | cards exactly for a successful non-empty reply whose every card renders, counted; the empty text for a refusal or empty list, with the counter at the list's length or 0; otherwise an error with the counter untouched |
| Dashboard.LoadBuyOrders | js/dashboard.js:63-104 | one buy card per order, each offering payment exactly when the order does |
| Dashboard.LoadSellOrders | js/dashboard.js:106-141 | sell cards never fail to render, so the error shows only for an exception or a missing list; each card offers a decision exactly for a pending order |
| Dashboard.RefusedReplyStillCounted | js/dashboard.js:133-137 | a refused reply that still carries orders shows the empty text next to a counter of those orders |
| Dashboard.MarkAsPaid | js/dashboard.js:189-209 | nothing without confirmation; otherwise exactly one PUT with paymentStatus=paid and status=completed; the buy orders reload exactly when it succeeded |
| Dashboard.UpdateOrderStatus | js/dashboard.js:169-187 | one PUT of the new status; on success the alert names it and the sell orders reload, and only then |
| ListingPage.ActionsFor | js/listing.js:72-86 | a sold listing offers only the sold notice; otherwise login link exactly for visitors, edit/delete exactly for the owner, buy/chat exactly for other signed-in members |
| ListingPage.ExactlyOneActionGroup | js/listing.js:74-84 | every viewer of an unsold listing sees exactly one of the three groups |
| ListingPage.DisplayListing | js/listing.js:37-90 | rendering fails exactly when the listing or its seller is missing; otherwise sold state and actions follow the viewer |
| ListingPage.LoadListing | js/listing.js:10-35 | a missing or empty id shows "Invalid listing ID" and fetches nothing; otherwise one unauthenticated GET; the listing is kept exactly for a successful reply carrying one; "not found" exactly for a refusal; "Invalid listing ID" exactly for a missing or empty id; the load error exactly for a thrown request or a successful reply that cannot be displayed |
| ListingPage.RequestToBuy | js/listing.js:92-117 | a visitor is sent to log in and nothing is posted; nothing without confirmation; otherwise one POST naming the listing; the dashboard opens exactly on success, and a refusal alerts the server's message or "Failed to send request" |
| ListingPage.ChatUrl | js/listing.js:137 | the chat link is `chat.html?id=` followed by exactly the conversation id, so it never leads to the login page |
| ListingPage.StartChat | js/listing.js:119-144 | a visitor is sent to log in; a listing without a seller throws before posting; otherwise one POST naming the listing and seller; the chat page opens exactly when a successful reply names a conversation; otherwise the second effect is an alert: "Failed to start chat" for a refusal, "Error: " and the message for a thrown request |
| ListingPage.DeleteListing | js/listing.js:146-164 | nothing without confirmation; otherwise one DELETE of the current listing; the dashboard opens exactly on success |
| Admin.StatusColor | js/admin.js:115-123 | the administrator's copy of the status table, defined as the dashboard's: warning, success, danger exactly for pending, accepted, rejected; primary otherwise |
| Admin.StatusColourTablesAgree | js/admin.js:115-123 | the administrator page's status table is identical to the dashboard's, so the model defines it as the dashboard's; this lemma records that, and that "completed" is primary |
| Admin.PaymentBadge | js/admin.js:103 | success exactly for "paid", warning otherwise |
| Admin.TabIndex | js/admin.js:135-137 | tab 0 exactly for "users", 1 exactly for "listings", 2 for every other name |
| Admin.UserRowOf | js/admin.js:43-47 | the admin column reads "✅ Yes" exactly for administrators |
| Admin.ListingRowOf | js/admin.js:70-73 | a missing seller name shows "Unknown"; the badge follows the availability rule |
| Admin.OrderRowOf | js/admin.js:99-103 | a missing listing title shows "Deleted", a missing buyer or seller name "Unknown"; status and payment badges per their tables |
| Admin.LoadUsers | js/admin.js:33-57 | one row per user of a successful non-empty reply; otherwise the "No users found" or error row |
| Admin.LoadListings | js/admin.js:59-87 | one row per listing of a successful non-empty reply; otherwise the "No listings found" or error row |
| Admin.LoadOrders | js/admin.js:89-113 | one row per order of a successful non-empty reply; otherwise the "No orders found" or error row |
| Admin.NoUsersIsOneRow | js/admin.js:40-52 | a refused or empty user list renders exactly one row, "No users found" |
| Admin.LoadStats | js/admin.js:18-31 | the counters change only for a successful reply carrying statistics |
| Admin.DeleteListing | js/admin.js:140-163 | nothing without confirmation; otherwise one DELETE through the admin route; the listings table and the counters reload exactly on success |
| Browse.NameInjective | js/browse.js:45-49 | distinct parameters have distinct names |
| Browse.AppendIf | js/browse.js:45-49 | a conditional append keeps the parameters in rank order and adds the parameter exactly when wanted, last |
| Browse.AppendedFilters | js/browse.js:45-48 | the filter parameters appended are exactly the wanted ones, in order |
| Browse.Appended | js/browse.js:45-49 | the appended parameters are exactly the wanted ones (search, min and max price when non-empty; category when non-empty and not "All"; status always), in the order search, category, minPrice, maxPrice, status, with status last |
| Browse.Pairs | js/browse.js:45-49 | one name/value pair per appended parameter, in order |
| Browse.ListingsRequest | js/browse.js:52 | an unauthenticated GET of the listings path with the filter query |
| Browse.LookupParam | js/browse.js:52 | a parameter's name finds its value among the pairs exactly when it was appended |
| Browse.ServerReadsFilters | js/browse.js:38-52 | the query parses, and each parameter reads back its own value exactly when it was wanted |
| Browse.FiltersFromUrl | js/browse.js:10-25 | each filter named in the page URL replaces that input's text; the others keep theirs; an undecodable query changes nothing |
| Browse.ListingsQueryRestoresFilters | js/browse.js:10-25 | parsing the listing query with the filter reader gives back every filter that was set, and the inputs keep their text for the filters left unset |
| Browse.CardOf | js/browse.js:82-84 | 100 characters of description and "...", the seller's name or "Student", the seller's year or nothing |
| Browse.LoadListings | js/browse.js:33-68 | one card per listing of a successful non-empty reply; otherwise "No listings found" or the error |
| Home.SearchQuery | js/main.js:14-16 | a search term contributes `search=<encoded>&` at the front; a category other than "All" contributes `category=<encoded>` at the end, even when empty; with neither the query is empty; the query's length is the sum of those pieces, so nothing else is written |
| Home.SearchUrl | js/main.js:14-18 | the search link opens `browse.html`, and what follows its `?` is exactly the home search query |
| Home.ParseAssignment | js/main.js:15-16 | `name=<encoded value>` with a plain name has no `&` and parses back to its name and value |
| Home.ParseTwoPieces | js/main.js:15-16 | two such pieces joined by `&` parse to their two pairs |
| Home.ParseTrailingSeparator | js/main.js:15 | the trailing `&` after the search term adds no pair |
| Home.ParseSearchQuery | js/main.js:14-16 | the browse page parses the home query to the search pair (when searched) then the category pair (unless "All") |
| Home.SearchQueryReachesBrowse | js/main.js:14-16 | reading the home search query sets the search box to the term (when given) and the category (unless "All"), and leaves the price inputs untouched |
| Home.HomeSearchReachesBrowse | js/main.js:10-19 | following the home search link, the browse page reads its query and ends with the search box set to the term (when given), the category set (unless "All"), and the price inputs untouched |
| Home.HomeAsksLikeUnfilteredBrowse | js/main.js:26 | the home page requests what the browse page requests with all filters blank |
| Home.BlankQuery | js/browse.js:45-49 | with all filters blank the browse query is exactly `status=available` |
| Home.BlankFiltersAppendStatusOnly | js/browse.js:45-49 | with all filters blank only status is appended |
| Home.CardOf | js/main.js:43-55 | 80 characters of description and "...", and "Sold by" the seller's year or "Student" |
| Home.Capped | js/main.js:31 | cutting the list changes neither the reply's outcome nor whether it carries a list |
| Home.LatestListings | js/main.js:22-39 | cards for the first min(8, n) listings of a successful non-empty reply, in order; otherwise the "No listings yet" text or the error |
| Theme.CurrentTheme | js/theme.js:5-7 | the stored theme when it is a non-empty string, otherwise "light"; never empty |
| Theme.Opposite | js/theme.js:19 | "dark" exactly from "light"; "light" from anything else |
| Theme.Icon | js/theme.js:24-30 | a moon exactly for light, a sun otherwise; the label names the opposite mode |
| Theme.SetTheme | js/theme.js:10-14 | the attribute and the stored theme become the new theme; no other stored key changes; the button, when present, follows |
| Theme.ToggleTheme | js/theme.js:17-21 | the new current theme is the opposite of the old one |
| Theme.InitTheme | js/theme.js:33-36 | the current theme is unchanged; storage is untouched when a theme was stored, else "light" is stored |
| Theme.SetThenGet | js/theme.js:10-14 | a theme that was set reads back, except the empty string, which reads back as "light" |
| Theme.ToggleTwice | js/theme.js:17-21 | toggling twice returns to "light" or "dark"; any other stored value ends at "dark" |
| Theme.ToggleLandsOnKnownTheme | js/theme.js:17-21 | after a toggle the theme is "light" or "dark" |
| Theme.LabelNamesNextTheme | js/theme.js:27-28 | the button's label names the theme the next toggle applies |
| Theme.InitTwice | js/theme.js:33-36 | loading a second page applies the same theme and stores nothing new |

## Left out

- Requests, JSON parsing, `alert`, `confirm` and navigation are not performed. A reply is a parameter of the operation that awaits it, and the page's actions are returned as effects.
- The DOM and HTML templating are left out: markup, CSS classes, images, scroll position, `switchTab`'s class toggling, and the quoting of titles in the administrator's `onclick` attributes. Only the decisions the templates make are modelled.
- Dates are left out: `toLocaleDateString` and `toLocaleTimeString` are locale-dependent.
- Timing and concurrency are left out: the 3-second interval period, the 500 ms delayed auto-select on the chat page, `Promise.all` in the page loaders, and overlapping in-flight polls.
- Chat.SelectConversation: the selection is one atomic step. In the browser the message load is awaited (js/chat.js:74) before the old interval is cleared and the new one set (js/chat.js:77-78). So the old interval can fire once more while the load is pending.
- Chat.SelectConversation: two quick selections, A then B, can also leave the page polling the wrong conversation for good. Suppose B's load resolves first: B's continuation installs an interval for B, then A's continuation clears it and installs one for A. The current conversation stays B (js/chat.js:60), so B's header shows A's messages every 3 seconds while sends go to B. Only "at most one live interval" survives the interleaving, because each clear-and-set pair runs without interruption. Chat.RunPreserves, Chat.SelectTwice and Chat.PollFetchesCurrent are statements about the sequential model only.
- Chat.LoadMessages: a successful reply without a `messages` field sets the list to `undefined` in the browser, and the next render throws. The model keeps the previous messages.
- Web.TypeErrorMessage: the text of a `TypeError` depends on the JavaScript engine, so it is one fixed placeholder.
- Strings are sequences of Unicode scalar values. JavaScript strings are sequences of UTF-16 code units, which may also hold lone surrogates. A Dafny `char` cannot represent those. Three members are affected:
  - Js.Ellipsis counts scalar values, where `substring` counts code units; the two differ for characters outside the Basic Multilingual Plane.
  - Home.SearchQuery and Uri.Encode never fail. `encodeURIComponent` throws a URIError on a lone surrogate (js/main.js:15-16), so in the browser such a search navigates nowhere.
  - Uri.Serialize has no case for lone surrogates, which `URLSearchParams` serialization writes as U+FFFD (js/browse.js:52).
- Browse.FiltersFromUrl: a query whose percent-escapes are not valid UTF-8 is treated as unreadable, and the filters are kept. The browser instead substitutes U+FFFD and applies the filters.
- The sign-in helpers (`getUser`, `isLoggedIn`, `protectPage`, `updateNavbar`, `authenticatedFetch`) are not part of this model; the signed-in user and whether a request carries credentials are parameters.
- js/sell.js (the listing form) and js/config.js (endpoint constants) are not part of this model. The API paths are constants of `Web`.
- Dashboard.LoadMyListings, Dashboard.LoadBuyOrders, Dashboard.LoadSellOrders, Admin.LoadStats, Admin.LoadUsers, Admin.LoadListings and Admin.LoadOrders take the reply as a parameter and do not return the request that produced it. These requests are fixed authenticated GETs: all listings (js/dashboard.js:22), the orders with `?role=buyer` or `?role=seller` (js/dashboard.js:67, js/dashboard.js:110), and the four admin routes (js/admin.js:20, js/admin.js:37, js/admin.js:63, js/admin.js:93). The role query decides whose orders a panel shows, so the model relies on the server to answer each role with the right orders.
- `loadDashboard`, `loadAdminData`, `applyFilters` and `updateStats` only call the modelled loaders, or do nothing, so they have no rows of their own.
- Dashboard.BuyCardOf, Dashboard.SellCardOf and Admin.OrderRowOf render the corrected status table of the Findings row (Dashboard.OrderStatusColor). For a status named like an inherited object member, the browser renders the as-written lookup instead (js/dashboard.js:80, js/dashboard.js:122, js/admin.js:102).
- Dashboard.OrderStatusColorAsWritten: the inherited members are the properties of `Object.prototype` named in ECMA-262. Their rendered text is the usual engine output; only "not a badge colour" is stated about it.
- Where the code's behaviour may surprise, the model follows the code:
  - a refused conversation list shows "No conversations yet", not an error (js/chat.js:28-32);
  - a refused message send is silent (js/chat.js:138-141);
  - the "my listings" loader ignores the reply's `success` flag (js/dashboard.js:23-28).

## Findings

| source | as written | input that shows it | evidently intended | confidence | as-written member | corrected member |
|---|---|---|---|---|---|---|
| js/dashboard.js:150 | `colors[status] \|\| 'primary'` also finds members every object inherits from `Object.prototype`; they are truthy, so they are returned as the badge colour (js/admin.js:122 repeats the lookup) | an order whose status is `"toString"` gets the class `badge-function toString() { [native code] }` | only the four own keys of the table, and "primary" for every other status | not executed | Dashboard.OrderStatusColorAsWritten, Dashboard.InheritedStatusEscapesDefault | Dashboard.OrderStatusColor |

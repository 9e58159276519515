/** What the pages exchange with the outside world: the replies of the REST
    API, the requests they issue, and the navigations, alerts and panel
    reloads they cause. The HTTP client itself is not modelled: a reply is
    a parameter of the operation that awaits it. */
module Web {
  import opened Js

  /** A reply as a page sees it after `await response.json()`: the `success`
      flag and the one payload field the page reads (absent when the server
      left it out), or the exception the fetch or the JSON parse raised. */
  datatype Reply<T> = Answer(success: bool, payload: Option<T>) | Thrown(message: string) {
    predicate Succeeded() {
      Answer? && success
    }
  }

  /** Stands for the engine's message of a `TypeError` raised by reading a
      property of `undefined` or `null`; its wording is engine specific. */
  const TypeErrorMessage := "TypeError"

  datatype Method = Get | Post | Put | Delete

  /** A request: HTTP method, path below the API base URL, whether the bearer
      credential is attached (`authenticatedFetch` rather than `fetch`), and the
      JSON body as its list of string fields. */
  datatype Request = Request(verb: Method, path: string, authenticated: bool, body: seq<(string, string)>)

  datatype Effect =
    | Send(request: Request)
    | Navigate(url: string)
    | Alert(text: string)
    | Reload(panel: string)

  predicate NoRequest(effects: seq<Effect>) {
    forall i :: 0 <= i < |effects| ==> !effects[i].Send?
  }

  const ListingsPath := "/api/listings"
  const OrdersPath := "/api/orders"
  const ChatsPath := "/api/chats"
  const AdminPath := "/api/admin"

  /** A list container: one entry per record, or a single notice. */
  datatype Panel<R> = Rows(rows: seq<R>) | Notice(text: string) | ErrorNotice(text: string) {
    function RowCount(): nat {
      if Rows? then |rows| else 1
    }
  }

  /** The shape most list loaders share: one entry per record of a
      successful, non-empty reply; the `empty` notice for a refusal or an
      empty list; the `failure` notice when the request throws or a
      successful reply lacks the list. */
  function LoadPanel<T, R>(reply: Reply<seq<T>>, row: T -> R, empty: string, failure: string): (t: Panel<R>)
    ensures t.RowCount() >= 1
    ensures t.Rows? <==> reply.Succeeded() && reply.payload.Some? && |reply.payload.value| > 0
    ensures t.Rows? ==>
      |t.rows| == |reply.payload.value|
      && forall i :: 0 <= i < |t.rows| ==> t.rows[i] == row(reply.payload.value[i])
    ensures t.ErrorNotice? <==> reply.Thrown? || (reply.Succeeded() && reply.payload.None?)
    ensures t.ErrorNotice? ==> t.text == failure
    ensures t.Notice? ==> t.text == empty
  {
    match reply
    case Thrown(_) => ErrorNotice(failure)
    case Answer(ok, records) =>
      if ok && records.None? then ErrorNotice(failure)
      else if ok && |records.value| > 0 then
        Rows(seq(|records.value|, i requires 0 <= i < |records.value| => row(records.value[i])))
      else Notice(empty)
  }
}

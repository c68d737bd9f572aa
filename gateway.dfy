/** The gateway's routing: a request for `/<path>` from a user with a valid
    token cookie goes to the first service, in table order, whose key is a
    prefix of the path, with the full path kept in the forwarded URL. */
module Gateway {
  import opened Wrappers

  const CarServiceUrl: string := "localhost:7774"
  const OfficeServiceUrl: string := "localhost:7775"
  const PaymentServiceUrl: string := "localhost:7776"
  const BookingServiceUrl: string := "localhost:7777"
  const StatisticsServiceUrl: string := "localhost:7778"

  /** The routing dictionary as (prefix, service address) pairs, in the
      order the dictionary iterates them (insertion order). */
  const RoutingTable: seq<(string, string)> := [
    ("cars", CarServiceUrl),
    ("offices", OfficeServiceUrl),
    ("payment", PaymentServiceUrl),
    ("booking", BookingServiceUrl),
    ("reports", StatisticsServiceUrl)
  ]

  /** The `token` cookie as the gateway sees it after trying to decode it. */
  datatype Cookie =
    | NoCookie              // no cookie: the handler answers "bad token"
    | Undecodable           // decoding raised a JWT error: the error handler answers
    | Decoded(user: string) // a valid token naming the user

  datatype RouteResult =
    | BadToken                              // 401 {"error": "bad token"}
    | TokenError                            // 401 with the decoder's message
    | Forward(service: string, url: string) // proxied; the reply is the service's
    | NoRoute                               // 400 {"error": "No route from gateway"}

  /** Status code of the gateway's reply, given the code the forwarded
      request came back with. */
  function RouteCode(r: RouteResult, forwardedCode: int): (code: int)
    ensures r.Forward? ==> code == forwardedCode
    ensures r.BadToken? || r.TokenError? ==> code == 401
    ensures r.NoRoute? ==> code == 400
  {
    match r
    case BadToken => 401
    case TokenError => 401
    case Forward(_, _) => forwardedCode
    case NoRoute => 400
  }

  /** Index of the first entry whose key is a prefix of path (`startswith`). */
  function FirstMatch(table: seq<(string, string)>, path: string): (r: Option<nat>)
    ensures r.Some? ==> r.value < |table| && table[r.value].0 <= path
    ensures r.Some? ==> forall j :: 0 <= j < r.value ==> !(table[j].0 <= path)
    ensures r.None? <==> forall j :: 0 <= j < |table| ==> !(table[j].0 <= path)
  {
    if table == [] then None
    else if table[0].0 <= path then Some(0)
    else
      match FirstMatch(table[1..], path)
      case None => None
      case Some(k) => Some(k + 1)
  }

  /** The catch-all view for `/<path>`. */
  function Route(path: string, cookie: Cookie): (r: RouteResult)
    ensures cookie.NoCookie? ==> r == BadToken
    ensures cookie.Undecodable? ==> r == TokenError
    ensures cookie.Decoded? ==> !r.BadToken? && !r.TokenError?
    ensures cookie.Decoded? ==>
      (r == NoRoute <==> forall j :: 0 <= j < |RoutingTable| ==> !(RoutingTable[j].0 <= path))
    ensures r.Forward? ==> cookie.Decoded? && exists i ::
      && 0 <= i < |RoutingTable|
      && RoutingTable[i].0 <= path
      && (forall j :: 0 <= j < i ==> !(RoutingTable[j].0 <= path))
      && r.service == RoutingTable[i].1
      && r.url == "http://" + RoutingTable[i].1 + "/" + path
  {
    match cookie
    case NoCookie => BadToken
    case Undecodable => TokenError
    case Decoded(_) =>
      match FirstMatch(RoutingTable, path)
      case None => NoRoute
      case Some(i) => Forward(RoutingTable[i].1, "http://" + RoutingTable[i].1 + "/" + path)
  }

  /** The keys start with five different letters, so for a path that starts
      with key i no earlier key matches: the path goes to service i, whatever
      follows the key. */
  lemma {:induction false} KeyRoutesToItsService(i: nat, rest: string, user: string)
    requires i < |RoutingTable|
    ensures var path := RoutingTable[i].0 + rest;
      Route(path, Decoded(user)) == Forward(RoutingTable[i].1, "http://" + RoutingTable[i].1 + "/" + path)
  {
    var path := RoutingTable[i].0 + rest;
    assert RoutingTable[i].0 <= path;
    forall j | 0 <= j < i
      ensures !(RoutingTable[j].0 <= path)
    {
      assert RoutingTable[j].0[0] != RoutingTable[i].0[0];
      assert path[0] == RoutingTable[i].0[0];
    }
    assert FirstMatch(RoutingTable, path) == Some(i);
  }

  /** The match is on the raw prefix: `carsX/1` reaches the car service. */
  lemma PrefixIsNotASegment()
    ensures Route("carsX/1", Decoded("u")) == Forward(CarServiceUrl, "http://" + CarServiceUrl + "/carsX/1")
  {
    var path := "carsX/1";
    assert RoutingTable[0].0 <= path;
    assert FirstMatch(RoutingTable, path) == Some(0);
  }

  /** A path under no key is refused with 400. */
  lemma UnknownPrefixIsRefused()
    ensures Route("users/1", Decoded("u")) == NoRoute
    ensures RouteCode(Route("users/1", Decoded("u")), 200) == 400
  {
    var path := "users/1";
    forall j | 0 <= j < |RoutingTable|
      ensures !(RoutingTable[j].0 <= path)
    {
      assert RoutingTable[j].0[0] != path[0];
    }
  }
}

/** The gateway's booking command: the time-range pre-check before a booking
    is forwarded, and the choice of URI template and parameters for the two
    listings. The HTTP calls themselves are represented by the request value
    they would send. */
module GatewayBooking {
  import opened Common
  import SortTypes
  import Paging

  /** A piece of a Spring URI template: literal text or a `{name}` variable. */
  datatype Segment = Lit(text: string) | Var(name: string)

  datatype ParamValue = Text(s: string) | Number(n: int)

  /** A `get(path, userId, parameters)` call: the template appended to the
      base URL, the user id header and the parameter map. */
  datatype GetCall = GetCall(template: seq<Segment>, userId: int, params: map<string, ParamValue>)

  /** The variable names a template mentions. */
  function Vars(t: seq<Segment>): (r: set<string>)
    ensures forall n :: n in r <==> exists i :: 0 <= i < |t| && t[i] == Var(n)
  {
    if t == [] then {}
    else
      var rest := Vars(t[1..]);
      assert forall n :: (exists i :: 1 <= i < |t| && t[i] == Var(n)) <==> n in rest by {
        forall n ensures (exists i :: 1 <= i < |t| && t[i] == Var(n)) <==> n in rest {
          if n in rest {
            var j :| 0 <= j < |t[1..]| && t[1..][j] == Var(n);
            assert t[j + 1] == Var(n);
          }
        }
      }
      match t[0]
      case Lit(_) => rest
      case Var(n) => {n} + rest
  }

  /** Start equal to end and start after end are both refused with a
      `ValidationException`; only then is the booking posted. */
  function AddBookingCheck(start: int, end: int): (r: Outcome)
    ensures r == Pass <==> start < end
    ensures r.Fail? ==> r.error == ValidationFailed
  {
    if start == end then Fail(ValidationFailed)
    else if start > end then Fail(ValidationFailed)
    else Pass
  }

  /** The listing call under `prefix` ("" for the booker, "/owner" for the
      owner): state, from and size when both from and size are given,
      otherwise state alone. */
  function ListingCall(prefix: string, userId: int, state: string, from: Option<int>, size: Option<int>): (r: GetCall)
    ensures r.userId == userId
    ensures |r.template| >= 2 && r.template[0] == Lit(prefix + "?state=") && r.template[1] == Var("state")
    ensures "state" in r.params && r.params["state"] == Text(state)
    ensures from.Some? && size.Some? <==> r.params.Keys == {"state", "from", "size"}
    ensures from.Some? && size.Some? ==> r.params["from"] == Number(from.value) && r.params["size"] == Number(size.value)
    ensures !(from.Some? && size.Some?) <==> r.params.Keys == {"state"}
  {
    if from.Some? && size.Some? then
      GetCall([Lit(prefix + "?state="), Var("state"), Lit("&from="), Var("from"), Lit("&size="), Var("size")],
              userId,
              map["state" := Text(state), "from" := Number(from.value), "size" := Number(size.value)])
    else
      GetCall([Lit(prefix + "?state="), Var("state")], userId, map["state" := Text(state)])
  }

  /** `getAllByBookerId`. */
  function GetAllByBookerId(bookerId: int, state: string, from: Option<int>, size: Option<int>): GetCall
  {
    ListingCall("", bookerId, state, from, size)
  }

  /** `getAllByBookerItems`. */
  function GetAllByBookerItems(ownerId: int, state: string, from: Option<int>, size: Option<int>): GetCall
  {
    ListingCall("/owner", ownerId, state, from, size)
  }

  /** Every template variable is bound by the parameter map and no parameter
      is left unused, in both branches and under both prefixes. */
  lemma ListingTemplateMatchesParams(prefix: string, userId: int, state: string, from: Option<int>, size: Option<int>)
    ensures Vars(ListingCall(prefix, userId, state, from, size).template)
         == ListingCall(prefix, userId, state, from, size).params.Keys
  {
    var c := ListingCall(prefix, userId, state, from, size);
    var t := c.template;
    forall n ensures n in Vars(t) <==> n in c.params.Keys {
      if n in Vars(t) {
        var i :| 0 <= i < |t| && t[i] == Var(n);
        assert i == 1 || i == 3 || i == 5;
      }
      if n in c.params.Keys {
        if n == "state" {
          assert t[1] == Var(n);
        } else if n == "from" {
          assert t[3] == Var(n);
        } else {
          assert t[5] == Var(n);
        }
      }
    }
  }

  /** The owner listing differs from the booker listing only in the "/owner"
      prefix of the first literal. */
  lemma OwnerListingOnlyAddsPrefix(userId: int, state: string, from: Option<int>, size: Option<int>)
    ensures GetAllByBookerItems(userId, state, from, size).params == GetAllByBookerId(userId, state, from, size).params
    ensures GetAllByBookerItems(userId, state, from, size).template[1..]
         == GetAllByBookerId(userId, state, from, size).template[1..]
    ensures GetAllByBookerItems(userId, state, from, size).template[0] == Lit("/owner?state=")
    ensures GetAllByBookerId(userId, state, from, size).template[0] == Lit("?state=")
  {
  }

  /** The controller path. The class is `@Validated`, so `from` must be at
      least 0 and `size` at least 1 before the method runs; then the state
      token is parsed, and the listing is forwarded with `from`, `size`
      (which carry defaults, so are never null) and the token's canonical
      name. */
  function ControllerListing(owner: bool, userId: int, stateParam: string, from: int, size: int): (r: Result<GetCall>)
    ensures r.Ok? <==> from >= 0 && size >= 1 && SortTypes.ResolveState(stateParam).Ok?
    ensures from < 0 || size < 1 ==> r == Err(ConstraintViolation)
    ensures from >= 0 && size >= 1 && SortTypes.ResolveState(stateParam).Err?
            ==> r == Err(IllegalArgument("Unknown state: " + stateParam))
  {
    if from < 0 || size < 1 then Err(ConstraintViolation)
    else match SortTypes.ResolveState(stateParam)
      case Err(e) => Err(e)
      case Ok(t) =>
        if owner then Ok(GetAllByBookerItems(userId, SortTypes.Name(t), Some(from), Some(size)))
        else Ok(GetAllByBookerId(userId, SortTypes.Name(t), Some(from), Some(size)))
  }

  /** A negative `from`, a zero `size` and a negative `size` are refused for
      both listings, whatever the state, before anything is forwarded. */
  lemma BadPagingIsRefused(owner: bool, userId: int, stateParam: string)
    ensures ControllerListing(owner, userId, stateParam, -1, 10) == Err(ConstraintViolation)
    ensures ControllerListing(owner, userId, stateParam, 0, 0) == Err(ConstraintViolation)
    ensures ControllerListing(owner, userId, stateParam, 0, -1) == Err(ConstraintViolation)
  {
  }

  /** Through the controller the three-parameter form is always chosen, the
      forwarded state is one the server's exact `valueOf` accepts, and the
      forwarded window is one the server's page request accepts. */
  lemma ControllerAlwaysSendsPaging(owner: bool, userId: int, stateParam: string, from: int, size: int)
    requires ControllerListing(owner, userId, stateParam, from, size).Ok?
    ensures var c := ControllerListing(owner, userId, stateParam, from, size).value;
            c.params.Keys == {"state", "from", "size"}
            && c.params["from"] == Number(from) && c.params["size"] == Number(size)
            && exists t: SortTypes.SortType :: c.params["state"] == Text(SortTypes.Name(t))
                 && SortTypes.ParseState(SortTypes.Name(t)) == SortTypes.ResolveState(stateParam)
    ensures Paging.CreatePageRequest(from, size).Ok?
  {
    var t := SortTypes.ResolveState(stateParam).value;
    SortTypes.GatewayTokenAcceptedByServer(stateParam);
    assert ControllerListing(owner, userId, stateParam, from, size).value.params["state"] == Text(SortTypes.Name(t));
  }
}

/** The six booking-state tokens, the gateway's case-insensitive parser
    `SortType.from`, the gateway controller's use of it, and the exact-name
    `valueOf` the two server versions dispatch on. */
module SortTypes {
  import opened Common

  datatype SortType = ALL | CURRENT | PAST | FUTURE | WAITING | REJECTED

  /** `values()`, in declaration order. */
  const Values: seq<SortType> := [ALL, CURRENT, PAST, FUTURE, WAITING, REJECTED]

  /** The state the gateway assumes when the request has no `state` parameter. */
  const DefaultState: string := "all"

  function Name(t: SortType): string
  {
    match t
    case ALL => "ALL"
    case CURRENT => "CURRENT"
    case PAST => "PAST"
    case FUTURE => "FUTURE"
    case WAITING => "WAITING"
    case REJECTED => "REJECTED"
  }

  /** There are exactly six tokens, each listed once. */
  lemma ValuesEnumerate(t: SortType)
    ensures |Values| == 6
    ensures t in Values
    ensures forall i, j :: 0 <= i < j < |Values| ==> Values[i] != Values[j]
  {
  }

  /** Every name is already in upper case. */
  lemma NameIsUpper(t: SortType)
    ensures forall i :: 0 <= i < |Name(t)| ==> UpperChar(Name(t)[i]) == Name(t)[i]
  {
  }

  /** The loop of `from` from index `i` of `values()` on: the first constant
      whose name equals `s` ignoring case, or none. */
  function FromIn(s: string, i: nat): (r: Option<SortType>)
    requires i <= |Values|
    decreases |Values| - i
    ensures r.Some? ==> EqualsIgnoreCase(Name(r.value), s)
    ensures r.Some? ==> exists j :: i <= j < |Values| && Values[j] == r.value
    ensures r.None? <==> forall j :: i <= j < |Values| ==> !EqualsIgnoreCase(Name(Values[j]), s)
  {
    if i == |Values| then None
    else if EqualsIgnoreCase(Name(Values[i]), s) then Some(Values[i])
    else FromIn(s, i + 1)
  }

  /** `SortType.from`. */
  function From(s: string): (r: Option<SortType>)
    ensures r.Some? ==> EqualsIgnoreCase(Name(r.value), s)
    ensures r.None? <==> forall t: SortType :: !EqualsIgnoreCase(Name(t), s)
  {
    var r := FromIn(s, 0);
    assert forall t: SortType :: t == Values[Index(t)];
    r
  }

  function Index(t: SortType): (i: nat)
    ensures i < |Values| && Values[i] == t
  {
    match t
    case ALL => 0
    case CURRENT => 1
    case PAST => 2
    case FUTURE => 3
    case WAITING => 4
    case REJECTED => 5
  }

  /** No two names are equal ignoring case, so `from(s)` is `t` exactly when
      `s` spells t's name in any case. */
  lemma FromExact(s: string, t: SortType)
    ensures From(s) == Some(t) <==> EqualsIgnoreCase(Name(t), s)
  {
    if EqualsIgnoreCase(Name(t), s) {
      var u := From(s).value;
      NameIsUpper(t);
      NameIsUpper(u);
      assert |Name(u)| == |Name(t)|;
      forall i | 0 <= i < |Name(t)| ensures Name(u)[i] == Name(t)[i] {
        assert UpperChar(Name(u)[i]) == UpperChar(s[i]) == UpperChar(Name(t)[i]);
      }
      assert Name(u) == Name(t);
    }
  }

  /** Round trip: every constant's own name parses back to it. */
  lemma FromName(t: SortType)
    ensures From(Name(t)) == Some(t)
  {
    FromExact(Name(t), t);
  }

  /** The parser ignores case: inputs equal up to case parse alike. */
  lemma FromIgnoresCase(s: string, s': string)
    requires EqualsIgnoreCase(s, s')
    ensures From(s) == From(s')
  {
    if From(s).Some? {
      var t := From(s).value;
      assert EqualsIgnoreCase(Name(t), s');
      FromExact(s', t);
    } else if From(s').Some? {
      var t := From(s').value;
      assert EqualsIgnoreCase(Name(t), s);
    }
  }

  /** `valueOf` on the server's enum: only the exact name is accepted. */
  function ValueOf(s: string): (r: Option<SortType>)
    ensures forall t: SortType :: r == Some(t) <==> Name(t) == s
  {
    if s == "ALL" then Some(ALL)
    else if s == "CURRENT" then Some(CURRENT)
    else if s == "PAST" then Some(PAST)
    else if s == "FUTURE" then Some(FUTURE)
    else if s == "WAITING" then Some(WAITING)
    else if s == "REJECTED" then Some(REJECTED)
    else None
  }

  /** `SortType.valueOf` as a call that can fail: the built-in enum
      `valueOf` throws `IllegalArgumentException` on an unknown name. */
  function ParseState(s: string): (r: Result<SortType>)
    ensures r.Ok? <==> ValueOf(s).Some?
    ensures r.Ok? ==> Name(r.value) == s
    ensures r.Err? ==> r.error == NoEnumConstant(s)
  {
    match ValueOf(s)
    case Some(t) => Ok(t)
    case None => Err(NoEnumConstant(s))
  }

  /** The gateway controller: parse with `from`, or fail with
      `IllegalArgumentException("Unknown state: " + s)`. */
  function ResolveState(s: string): (r: Result<SortType>)
    ensures r.Ok? <==> exists t: SortType :: EqualsIgnoreCase(Name(t), s)
    ensures r.Ok? ==> EqualsIgnoreCase(Name(r.value), s)
    ensures r.Err? ==> r.error == IllegalArgument("Unknown state: " + s)
  {
    match From(s)
    case Some(t) => Ok(t)
    case None => Err(IllegalArgument("Unknown state: " + s))
  }

  /** A missing `state` parameter means ALL. */
  lemma DefaultStateIsAll()
    ensures ResolveState(DefaultState) == Ok(ALL)
  {
    FromExact(DefaultState, ALL);
  }

  /** What the gateway forwards, `String.valueOf(state)`, is always a token
      the server's exact `valueOf` accepts, and it denotes the same state. */
  lemma GatewayTokenAcceptedByServer(s: string)
    requires ResolveState(s).Ok?
    ensures ParseState(Name(ResolveState(s).value)) == ResolveState(s)
  {
  }

  /** A lower-case spelling passes the gateway but not the server's `valueOf`. */
  lemma LowerCaseOnlyPassesGateway()
    ensures ResolveState("future") == Ok(FUTURE)
    ensures ParseState("future").Err?
  {
    var s := "future";
    assert s[0] == 'f' && s[1] == 'u' && s[2] == 't' && s[3] == 'u' && s[4] == 'r' && s[5] == 'e';
    assert EqualsIgnoreCase(Name(FUTURE), s);
    FromExact(s, FUTURE);
    assert s != "FUTURE" && s != "ALL";
  }
}

/** Reading Proxy-Authenticate challenges and choosing a scheme (`src/server.rs`, `src/auth.rs`). */
module Challenges {
  import opened Wire
  import opened Messages

  datatype AuthScheme = Negotiate | Ntlm

  datatype AuthMode = Auto | NegotiateOnly | NtlmOnly | NoAuth

  datatype Challenge = Challenge(token: Option<Bytes>)

  datatype ChoiceError = AuthenticationRequired | SchemeMissing

  function SchemeName(s: AuthScheme): Bytes {
    match s
    case Negotiate => Ascii("Negotiate")
    case Ntlm => Ascii("NTLM")
  }

  /** All Proxy-Authenticate values of a response. */
  function Offered(head: ResponseHead): seq<Bytes> {
    Values(head.headers, Ascii("proxy-authenticate"))
  }

  /** The comma-separated items of a value, none if the value is not readable text. */
  function ItemsOf(value: Bytes): seq<Bytes> { if Utf8(value) then Split(44, value) else [] }

  /** The items of all values, in order. */
  function Items(values: seq<Bytes>): seq<Bytes> {
    if values == [] then [] else ItemsOf(values[0]) + Items(values[1..])
  }

  /** Whether an item names a scheme in its first field. */
  predicate Names(item: Bytes, scheme: AuthScheme) {
    Fields(item) != [] && EqIgnoreCase(Fields(item)[0], SchemeName(scheme))
  }

  /** The challenge an item carries: its second field, if any. */
  function ChallengeOf(item: Bytes): Challenge {
    Challenge(if |Fields(item)| > 1 then Some(Fields(item)[1]) else None)
  }

  /** The challenge of the first item that names the scheme. */
  function FirstNaming(items: seq<Bytes>, scheme: AuthScheme): Option<Challenge> {
    if items == [] then None
    else if Names(items[0], scheme) then Some(ChallengeOf(items[0]))
    else FirstNaming(items[1..], scheme)
  }

  function FindChallenge(head: ResponseHead, scheme: AuthScheme): Option<Challenge> {
    FirstNaming(Items(Offered(head)), scheme)
  }

  /** Item `i` is the first to name the scheme. */
  ghost predicate FirstAt(items: seq<Bytes>, scheme: AuthScheme, i: int) {
    0 <= i < |items| && Names(items[i], scheme) && forall j | 0 <= j < i :: !Names(items[j], scheme)
  }

  lemma FirstAtLater(items: seq<Bytes>, scheme: AuthScheme, i: int)
    requires items != [] && !Names(items[0], scheme) && FirstAt(items[1..], scheme, i)
    ensures FirstAt(items, scheme, i + 1) && items[i + 1] == items[1..][i]
  {
    assert forall j | 0 < j < |items| :: items[j] == items[1..][j - 1];
  }

  /** The item found is the first of its scheme, and none is found only if no item names it. */
  lemma {:induction false} FirstNamingMeaning(items: seq<Bytes>, scheme: AuthScheme)
    ensures FirstNaming(items, scheme).None? <==> forall i | 0 <= i < |items| :: !Names(items[i], scheme)
    ensures FirstNaming(items, scheme).Some? ==>
              exists i :: FirstAt(items, scheme, i) && FirstNaming(items, scheme).value == ChallengeOf(items[i])
  {
    if items != [] && Names(items[0], scheme) {
      assert FirstAt(items, scheme, 0);
    } else if items != [] {
      var rest := items[1..];
      FirstNamingMeaning(rest, scheme);
      if FirstNaming(rest, scheme).Some? {
        var i :| FirstAt(rest, scheme, i) && FirstNaming(rest, scheme).value == ChallengeOf(rest[i]);
        FirstAtLater(items, scheme, i);
      } else {
        assert forall i | 0 < i < |items| :: items[i] == rest[i - 1];
      }
    }
  }

  lemma {:induction false} FirstNamingSkips(front: seq<Bytes>, items: seq<Bytes>, scheme: AuthScheme)
    ensures FirstNaming(front, scheme).Some? ==> FirstNaming(front + items, scheme) == FirstNaming(front, scheme)
    ensures FirstNaming(front, scheme).None? ==> FirstNaming(front + items, scheme) == FirstNaming(items, scheme)
  {
    if front == [] {
      assert front + items == items;
    } else {
      assert (front + items)[1..] == front[1..] + items;
      FirstNamingSkips(front[1..], items, scheme);
    }
  }

  /** The inner loop of `find_challenge`: the items of one value. */
  method SearchItems(items: seq<Bytes>, scheme: AuthScheme) returns (r: Option<Challenge>)
    ensures r == FirstNaming(items, scheme)
  {
    var j := 0;
    while j < |items|
      invariant 0 <= j <= |items|
      invariant FirstNaming(items, scheme) == FirstNaming(items[j..], scheme)
    {
      if Names(items[j], scheme) {
        return Some(ChallengeOf(items[j]));
      }
      assert items[j..][1..] == items[j + 1..];
      j := j + 1;
    }
    r := None;
  }

  /** One turn of the outer loop: the challenge is in this value or in the ones after it. */
  lemma NextValue(values: seq<Bytes>, i: nat, scheme: AuthScheme)
    requires i < |values|
    ensures var here := FirstNaming(ItemsOf(values[i]), scheme);
            FirstNaming(Items(values[i..]), scheme) ==
            if here.Some? then here else FirstNaming(Items(values[i + 1..]), scheme)
    ensures !Utf8(values[i]) ==> FirstNaming(ItemsOf(values[i]), scheme).None?
  {
    assert values[i..][1..] == values[i + 1..];
    FirstNamingSkips(ItemsOf(values[i]), Items(values[i + 1..]), scheme);
  }

  /** `find_challenge`: the search over header values and their items. */
  method SearchChallenge(head: ResponseHead, scheme: AuthScheme) returns (r: Option<Challenge>)
    ensures r == FindChallenge(head, scheme)
  {
    var values := Offered(head);
    var i := 0;
    while i < |values|
      invariant 0 <= i <= |values|
      invariant FirstNaming(Items(values), scheme) == FirstNaming(Items(values[i..]), scheme)
    {
      NextValue(values, i, scheme);
      if Utf8(values[i]) {
        r := SearchItems(Split(44, values[i]), scheme);
        if r.Some? {
          return;
        }
      }
      i := i + 1;
    }
    r := None;
  }

  function Candidates(mode: AuthMode): seq<AuthScheme> {
    match mode
    case Auto => [Negotiate, Ntlm]
    case NegotiateOnly => [Negotiate]
    case NtlmOnly => [Ntlm]
    case NoAuth => []
  }

  /** The first of these schemes that is found, with its challenge. */
  function FirstFound(schemes: seq<AuthScheme>, find: AuthScheme -> Option<Challenge>)
      : Result<(AuthScheme, Challenge), ChoiceError> {
    if schemes == [] then Err(SchemeMissing)
    else
      match find(schemes[0])
      case Some(c) => Ok((schemes[0], c))
      case None => FirstFound(schemes[1..], find)
  }

  function ChooseBy(mode: AuthMode, find: AuthScheme -> Option<Challenge>)
      : Result<(AuthScheme, Challenge), ChoiceError> {
    if mode == NoAuth then Err(AuthenticationRequired) else FirstFound(Candidates(mode), find)
  }

  /** `choose_scheme`. */
  function ChooseScheme(head: ResponseHead, mode: AuthMode): Result<(AuthScheme, Challenge), ChoiceError> {
    ChooseBy(mode, (scheme: AuthScheme) => FindChallenge(head, scheme))
  }

  // ---------------------------------------------------------------------------------------------
  // What the headers offer

  /** Header `i` is a Proxy-Authenticate header, in any case, with a readable value whose comma-separated item `j`
      has this word, in any case, for its first field. */
  ghost predicate ItemAt(head: ResponseHead, i: int, j: int, word: Bytes) {
    && 0 <= i < |head.headers| && EqIgnoreCase(head.headers[i].name, Ascii("proxy-authenticate"))
    && Utf8(head.headers[i].value)
    && 0 <= j < |Split(',' as int, head.headers[i].value)|
    && var fields := Fields(Split(',' as int, head.headers[i].value)[j]);
       fields != [] && EqIgnoreCase(fields[0], word)
  }

  /** The same for the names of the two schemes. */
  ghost predicate OffersAt(head: ResponseHead, i: int, j: int, scheme: AuthScheme) {
    match scheme
    case Negotiate => ItemAt(head, i, j, Ascii("Negotiate"))
    case Ntlm => ItemAt(head, i, j, Ascii("NTLM"))
  }

  ghost predicate Offers(head: ResponseHead, scheme: AuthScheme) {
    exists i, j :: OffersAt(head, i, j, scheme)
  }

  /** The fields of an item. */
  ghost function FieldsAt(head: ResponseHead, i: int, j: int): seq<Bytes>
    requires 0 <= i < |head.headers| && 0 <= j < |Split(',' as int, head.headers[i].value)|
  {
    Fields(Split(',' as int, head.headers[i].value)[j])
  }

  /** No item before item `j` of header `i` offers the scheme. */
  ghost predicate FirstOffer(head: ResponseHead, i: int, j: int, scheme: AuthScheme) {
    && OffersAt(head, i, j, scheme)
    && forall i', j' | OffersAt(head, i', j', scheme) :: i < i' || (i == i' && j <= j')
  }

  /** The response without its first header. */
  function Rest(head: ResponseHead): ResponseHead
    requires head.headers != []
  {
    head.(headers := head.headers[1..])
  }

  lemma OffersLater(head: ResponseHead, i: int, j: int, scheme: AuthScheme)
    requires head.headers != [] && 0 < i
    ensures OffersAt(head, i, j, scheme) <==> OffersAt(Rest(head), i - 1, j, scheme)
    ensures OffersAt(head, i, j, scheme) ==> FieldsAt(head, i, j) == FieldsAt(Rest(head), i - 1, j)
  {
  }

  /** The items of the first header, as far as they count. */
  function FirstItems(head: ResponseHead): seq<Bytes>
    requires head.headers != []
  {
    if EqIgnoreCase(head.headers[0].name, Ascii("proxy-authenticate")) then ItemsOf(head.headers[0].value) else []
  }

  lemma FindInFirstHeader(head: ResponseHead, scheme: AuthScheme)
    requires head.headers != []
    ensures var here := FirstNaming(FirstItems(head), scheme);
            FindChallenge(head, scheme) == if here.Some? then here else FindChallenge(Rest(head), scheme)
  {
    var values := Offered(Rest(head));
    FirstNamingSkips(FirstItems(head), Items(values), scheme);
    assert ([head.headers[0].value] + values)[1..] == values && [] + values == values;
    assert Items(Offered(head)) == FirstItems(head) + Items(values);
  }

  lemma OffersFirst(head: ResponseHead, j: int, scheme: AuthScheme)
    requires head.headers != []
    ensures OffersAt(head, 0, j, scheme) <==> 0 <= j < |FirstItems(head)| && Names(FirstItems(head)[j], scheme)
    ensures OffersAt(head, 0, j, scheme) ==> ChallengeOf(FirstItems(head)[j]) == ChallengeIn(FieldsAt(head, 0, j))
  {
  }

  /** The challenge in the fields of an item: the second of them, if there is one. */
  ghost function ChallengeIn(fields: seq<Bytes>): Challenge {
    Challenge(if |fields| > 1 then Some(fields[1]) else None)
  }

  /** `find_challenge`, from the text of the headers: the challenge found is in the first item that offers the scheme,
      and none is found only if no item does. */
  lemma {:induction false} FindChallengeMeaning(head: ResponseHead, scheme: AuthScheme)
    ensures FindChallenge(head, scheme).Some? <==> Offers(head, scheme)
    ensures FindChallenge(head, scheme).Some? ==>
              exists i, j :: FirstOffer(head, i, j, scheme)
                             && FindChallenge(head, scheme).value == ChallengeIn(FieldsAt(head, i, j))
    decreases |head.headers|
  {
    if head.headers == [] {
      assert Items([]) == [];
    } else {
      FindInFirstHeader(head, scheme);
      if FirstNaming(FirstItems(head), scheme).Some? {
        FoundInFirst(head, scheme);
      } else {
        FindChallengeMeaning(Rest(head), scheme);
        FoundLater(head, scheme);
      }
    }
  }

  lemma FoundInFirst(head: ResponseHead, scheme: AuthScheme)
    requires head.headers != [] && FirstNaming(FirstItems(head), scheme).Some?
    ensures exists i, j :: FirstOffer(head, i, j, scheme)
                           && FirstNaming(FirstItems(head), scheme).value == ChallengeIn(FieldsAt(head, i, j))
  {
    var items := FirstItems(head);
    FirstNamingMeaning(items, scheme);
    var j :| FirstAt(items, scheme, j) && FirstNaming(items, scheme).value == ChallengeOf(items[j]);
    OffersFirst(head, j, scheme);
    forall i', j' | OffersAt(head, i', j', scheme) ensures 0 < i' || (i' == 0 && j <= j') {
      OffersFirst(head, j', scheme);
    }
    assert FirstOffer(head, 0, j, scheme);
  }

  lemma FoundLater(head: ResponseHead, scheme: AuthScheme)
    requires head.headers != [] && FirstNaming(FirstItems(head), scheme).None?
    ensures Offers(head, scheme) <==> Offers(Rest(head), scheme)
    ensures forall i, j | FirstOffer(Rest(head), i, j, scheme) ::
              FirstOffer(head, i + 1, j, scheme) && FieldsAt(head, i + 1, j) == FieldsAt(Rest(head), i, j)
  {
    FirstNamingMeaning(FirstItems(head), scheme);
    forall i, j | OffersAt(head, i, j, scheme) ensures 0 < i && OffersAt(Rest(head), i - 1, j, scheme) {
      OffersFirst(head, j, scheme);
      if 0 < i {
        OffersLater(head, i, j, scheme);
      }
    }
    forall i, j | OffersAt(Rest(head), i, j, scheme) ensures OffersAt(head, i + 1, j, scheme) {
      OffersLater(head, i + 1, j, scheme);
    }
    forall i, j | FirstOffer(Rest(head), i, j, scheme)
      ensures FirstOffer(head, i + 1, j, scheme) && FieldsAt(head, i + 1, j) == FieldsAt(Rest(head), i, j)
    {
      OffersLater(head, i + 1, j, scheme);
    }
  }

  lemma FoundIfOffered(head: ResponseHead, scheme: AuthScheme)
    ensures FindChallenge(head, scheme).Some? <==> Offers(head, scheme)
  {
    FindChallengeMeaning(head, scheme);
  }

  /** Which schemes a mode permits. */
  predicate Permits(mode: AuthMode, scheme: AuthScheme) {
    mode == Auto || (mode == NegotiateOnly && scheme == Negotiate) || (mode == NtlmOnly && scheme == Ntlm)
  }

  lemma FirstFoundUnrolled(a: AuthScheme, b: AuthScheme, find: AuthScheme -> Option<Challenge>)
    ensures FirstFound([a], find) == if find(a).Some? then Ok((a, find(a).value)) else Err(SchemeMissing)
    ensures FirstFound([a, b], find) == if find(a).Some? then Ok((a, find(a).value)) else FirstFound([b], find)
  {
    assert [a][1..] == [] && [a, b][1..] == [b];
  }

  lemma ChooseByMeaning(mode: AuthMode, find: AuthScheme -> Option<Challenge>)
    ensures var r := ChooseBy(mode, find);
            && (r.Ok? ==> Permits(mode, r.value.0) && find(r.value.0) == Some(r.value.1))
            && (r.Ok? && mode == Auto ==> (r.value.0 == Ntlm <==> find(Negotiate).None?))
            && (r.Ok? <==>
                  (Permits(mode, Negotiate) && find(Negotiate).Some?) || (Permits(mode, Ntlm) && find(Ntlm).Some?))
            && (r == Err(AuthenticationRequired) <==> mode == NoAuth)
  {
    FirstFoundUnrolled(Negotiate, Ntlm, find);
    FirstFoundUnrolled(Ntlm, Ntlm, find);
  }

  /** The scheme chosen is permitted by the mode and offered; automatically NTLM is chosen only when
      no item offers Negotiate; and a choice fails only when nothing permitted is offered. */
  lemma ChoiceMeaning(head: ResponseHead, mode: AuthMode)
    ensures var r := ChooseScheme(head, mode);
            && (r.Ok? ==> Permits(mode, r.value.0) && FindChallenge(head, r.value.0) == Some(r.value.1))
            && (r.Ok? ==> Offers(head, r.value.0))
            && (r.Ok? && mode == Auto ==> (r.value.0 == Ntlm <==> !Offers(head, Negotiate)))
            && (r.Ok? <==> exists s :: Permits(mode, s) && Offers(head, s))
            && (r == Err(AuthenticationRequired) <==> mode == NoAuth)
  {
    FoundIfOffered(head, Negotiate);
    FoundIfOffered(head, Ntlm);
    ChooseByMeaning(mode, (scheme: AuthScheme) => FindChallenge(head, scheme));
  }

  /** `decode_challenge`: no token is fine, an undecodable one is an error (`None`). */
  function DecodeChallenge(c: Challenge, decode: Bytes -> Option<Bytes>): Option<Option<Bytes>> {
    match c.token
    case None => Some(None)
    case Some(text) =>
      match decode(text)
      case None => None
      case Some(bytes) => Some(Some(bytes))
  }

  /** The token that the fields of an item carry: none if there is only one field, otherwise the decoded second. */
  ghost predicate Carries(fields: seq<Bytes>, decode: Bytes -> Option<Bytes>, token: Option<Bytes>) {
    if |fields| == 1 then token == None else |fields| > 1 && token.Some? && decode(fields[1]) == token
  }

  lemma DecodeMeaning(fields: seq<Bytes>, decode: Bytes -> Option<Bytes>, token: Option<Bytes>)
    requires fields != []
    ensures DecodeChallenge(ChallengeIn(fields), decode) == Some(token) <==> Carries(fields, decode, token)
  {
  }
}

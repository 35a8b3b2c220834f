/** The route handlers of the message API that query the static fixture. Each handler is a
    pure function of the fixture and the request parameter; the fixture is an immutable
    value, so no handler can change what later requests see. */
module Server {
  import opened Outcomes
  import opened JsNumber
  import opened Subsequences
  import opened Messages

  /** `if (hearts)` on a query-string value: present and not the empty string. The
      string "0" is truthy. */
  predicate Truthy(q: Option<string>) {
    q.Some? && |q.value| > 0
  }

  /** GET /message/id/:id — the first record whose `_id` is `id`, or 404. */
  function MessageById(data: seq<Msg>, id: string): (r: Outcome<Msg>)
    ensures r.NotFound? <==> forall i :: 0 <= i < |data| ==> data[i].id != id
    ensures r.Ok? ==>
      exists i :: && 0 <= i < |data| && data[i] == r.value && data[i].id == id
                  && forall j :: 0 <= j < i ==> data[j].id != id
  {
    match Find(data, IdIs(id))
    case None => NotFound
    case Some(m) => Ok(m)
  }

  /** GET /messages?hearts=N — with a truthy query, the records whose hearts are
      `=== Number(hearts)`, or 404 when there are none; otherwise the whole fixture. */
  function MessagesByHearts(data: seq<Msg>, hearts: Option<string>, toNumber: string -> Number)
    : (r: Outcome<seq<Msg>>)
    ensures !Truthy(hearts) ==> r == Ok(data)
    ensures Truthy(hearts) ==>
      (r.NotFound? <==> forall i :: 0 <= i < |data| ==> !StrictEquals(data[i].hearts, toNumber(hearts.value)))
    ensures Truthy(hearts) && r.Ok? ==> SelectionOf(r.value, data, HeartsEqual(toNumber(hearts.value)))
    ensures Truthy(hearts) && toNumber(hearts.value).NaN? ==> r.NotFound?
  {
    if Truthy(hearts) then
      var selected := Filter(data, HeartsEqual(toNumber(hearts.value)));
      FilterIsSelection(data, HeartsEqual(toNumber(hearts.value)));
      if |selected| == 0 then NotFound else Ok(selected)
    else
      Ok(data)
  }

  /** GET /messages/hearts/:hearts — the first record whose hearts are `=== Number(hearts)`,
      or 404. A path parameter is always present, so there is no truthiness test. */
  function MessageWithHearts(data: seq<Msg>, hearts: string, toNumber: string -> Number): (r: Outcome<Msg>)
    ensures r.NotFound? <==> forall i :: 0 <= i < |data| ==> !StrictEquals(data[i].hearts, toNumber(hearts))
    ensures r.Ok? ==>
      exists i :: && 0 <= i < |data| && data[i] == r.value && StrictEquals(data[i].hearts, toNumber(hearts))
                  && forall j :: 0 <= j < i ==> !StrictEquals(data[j].hearts, toNumber(hearts))
  {
    match Find(data, HeartsEqual(toNumber(hearts)))
    case None => NotFound
    case Some(m) => Ok(m)
  }

  /** GET /messages/more-hearts?hearts=N — with a truthy query, the records whose hearts are
      `>= Number(hearts)`, or 404 when there are none; otherwise the whole fixture. */
  function MessagesWithMoreHearts(data: seq<Msg>, hearts: Option<string>, toNumber: string -> Number)
    : (r: Outcome<seq<Msg>>)
    ensures !Truthy(hearts) ==> r == Ok(data)
    ensures Truthy(hearts) ==>
      (r.NotFound? <==> forall i :: 0 <= i < |data| ==> !AtLeast(data[i].hearts, toNumber(hearts.value)))
    ensures Truthy(hearts) && r.Ok? ==> SelectionOf(r.value, data, HeartsAtLeast(toNumber(hearts.value)))
    ensures Truthy(hearts) && toNumber(hearts.value).NaN? ==> r.NotFound?
  {
    if Truthy(hearts) then
      var popular := Filter(data, HeartsAtLeast(toNumber(hearts.value)));
      FilterIsSelection(data, HeartsAtLeast(toNumber(hearts.value)));
      if |popular| == 0 then NotFound else Ok(popular)
    else
      Ok(data)
  }

  /** For the same query, the exact-hearts answer is a subsequence of the more-hearts answer,
      and the latter is never a 404 when the former is not. */
  lemma ExactWithinMoreHearts(data: seq<Msg>, hearts: Option<string>, toNumber: string -> Number)
    ensures MessagesByHearts(data, hearts, toNumber).Ok? ==>
      && MessagesWithMoreHearts(data, hearts, toNumber).Ok?
      && IsSubseq(MessagesByHearts(data, hearts, toNumber).value,
                  MessagesWithMoreHearts(data, hearts, toNumber).value)
  {
    if Truthy(hearts) {
      var n := toNumber(hearts.value);
      ExactFilterWithinAtLeastFilter(data, n);
    } else {
      SubseqReflexive(data);
    }
  }

  /** The single-record route answers with the first record the list route would return for
      the same (non-empty) text, and 404s exactly when the list route does. */
  lemma SingleIsFirstOfList(data: seq<Msg>, hearts: string, toNumber: string -> Number)
    requires |hearts| > 0
    ensures MessageWithHearts(data, hearts, toNumber).NotFound?
      <==> MessagesByHearts(data, Some(hearts), toNumber).NotFound?
    ensures MessagesByHearts(data, Some(hearts), toNumber).Ok? ==>
      MessageWithHearts(data, hearts, toNumber) == Ok(MessagesByHearts(data, Some(hearts), toNumber).value[0])
  {
    var c := HeartsEqual(toNumber(hearts));
    match FindIndex(data, c)
    case None =>
    case Some(i) =>
      FirstMatchHeadsFilter(data, c, i);
  }

  /** With `Number` on plain decimal text: "0" is a truthy query, so it filters for records
      with no hearts instead of returning the whole fixture. */
  lemma ZeroQueryFilters(data: seq<Msg>)
    ensures MessagesByHearts(data, Some("0"), FromDecimal).NotFound?
      <==> forall i :: 0 <= i < |data| ==> data[i].hearts != 0
  {
  }

  /** A character that occurs in no text JavaScript's `Number()` reads as a number: not a
      digit, sign, point or white space, not part of an exponent, a hex, octal or binary prefix
      or digit, and not a letter of "Infinity". */
  predicate NeverNumeric(c: char) {
    || ('g' <= c <= 'h') || ('j' <= c <= 'm') || ('p' <= c <= 's') || ('u' <= c <= 'w') || c == 'z'
    || ('G' <= c <= 'H') || ('J' <= c <= 'N') || ('P' <= c <= 'W') || c == 'Y' || c == 'Z'
  }

  /** With `Number` on plain decimal text: a query holding a character no numeric text can hold
      is NaN, and always gives 404, even on a fixture where every record would otherwise qualify. */
  lemma NonNumericQueryNotFound(data: seq<Msg>, s: string, i: nat)
    requires i < |s| && NeverNumeric(s[i])
    ensures FromDecimal(s) == NaN
    ensures MessagesByHearts(data, Some(s), FromDecimal) == NotFound
    ensures MessagesWithMoreHearts(data, Some(s), FromDecimal) == NotFound
  {
  }
}

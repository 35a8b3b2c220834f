# Message query handlers of a small Express API, modelled in Dafny

The server keeps a static array of message records loaded from a JSON fixture. Four of its
routes query that array:

- `GET /message/id/:id` finds the first record whose `_id` equals the path parameter.
- `GET /messages?hearts=N` filters for records whose `hearts` are exactly `Number(N)`.
- `GET /messages/hearts/:hearts` finds the first record whose `hearts` are exactly `Number(:hearts)`.
- `GET /messages/more-hearts?hearts=N` filters for records whose `hearts` are at least `Number(N)`.

The two filter routes apply their filter only when the query value is truthy. A truthy value is
present and not the empty string, so `"0"` counts as truthy. Without a truthy value they answer
with the whole fixture. With one, they answer 404 when nothing matches. The two find routes answer
404 when no record matches.

The model is made of five modules:

- `Outcomes` defines `Option` and `Outcome`. `Outcome` is `Ok(body)` or `NotFound`.
- `JsNumber` defines the JavaScript number values `Number(text)` can give, as far as a comparison
  with an integer can tell them apart: `NaN`, the two infinities and finite reals. It also defines
  `===` and `>=` against an integer heart count. `FromDecimal` is a concrete `Number` for signed
  decimal text.
- `Subsequences` defines order-preserving subsequences.
- `Messages` defines the record `Msg`, the handlers' predicates as a `Criterion`, and
  `Array.prototype.find` / `filter` as `Find` / `Filter`. `SelectionOf` is an independent
  description of a filter's result: an order-preserving subsequence of the input that holds only
  matching records, and holds each matching record as often as the input does. `Filter` meets it,
  and `SelectionIsUnique` proves that nothing else does.
- `Server` holds the four handlers.

`Number()` is a parameter `toNumber: string -> Number` of the three hearts handlers. It is not fixed to one
definition, because JavaScript's string-to-number conversion is large: it trims whitespace, reads
hex and exponents, and rounds to a double. The fixture is also a parameter (`data: seq<Msg>`).
Reading it from disk is not modelled.

The fixture is never changed, and in this model that holds by construction: the fixture is an
immutable `seq` value, filtering builds a new sequence and lookups only read it. What the
contracts do state is that a filter route with a falsy query answers with the fixture itself
(`!Truthy(hearts) ==> r == Ok(data)` on both filter handlers).

Later versions of the repository keep messages in a database. There the list routes sort
newest-first, and the minimum-hearts route sorts by hearts, descending. The code modelled here
is the fixture version. It sorts nothing: every answer keeps the fixture's order. The model follows the code.

## Model

| member | source | states |
|---|---|---|
| Messages.FindIndex | server.js:31 | `find` stops at the first matching position; when no record matches there is no position |
| Messages.Find | server.js:82-84 | `find` gives `undefined` exactly when no record matches; otherwise it gives the record at the first matching position |
| Messages.Filter | server.js:65-67 | `filter` gives an empty sequence exactly when no record of the data matches |
| Messages.FilterIsSelection | server.js:65-67 | `filter` gives an order-preserving subsequence of the data. Every record in it matches, and every matching record is kept as often as it occurs in the data |
| Messages.SelectionIsUnique | server.js:104 | any sequence that is an in-order selection of exactly the matching records is the filter's result, so `SelectionOf` fully specifies `filter` |
| Messages.FirstMatchHeadsFilter | server.js:82-84 | the record at the first matching position is the first element of the filtered sequence |
| Messages.ExactFilterWithinAtLeastFilter | server.js:104 | for any number `n`, filtering for hearts `=== n` gives a subsequence of filtering for hearts `>= n` |
| Server.MessageById | server.js:28-40 | 404 exactly when no record has the requested `_id`; otherwise the first record with that `_id` |
| Server.MessagesByHearts | server.js:55-77 | a falsy query gives the whole fixture unchanged and never 404. A truthy query gives exactly the records whose hearts `===` the parsed number, in order. It is 404 exactly when there are none, and always 404 for NaN |
| Server.MessageWithHearts | server.js:80-93 | one record, not a list: the first whose hearts `===` the parsed parameter. 404 exactly when none does |
| Server.MessagesWithMoreHearts | server.js:96-113 | a falsy query gives the whole fixture. A truthy query gives exactly the records whose hearts are `>=` the parsed number, in order. It is 404 exactly when there are none, and always 404 for NaN |
| Server.ExactWithinMoreHearts | server.js:64-67 | for the same query, the exact-hearts answer is a subsequence of the minimum-hearts answer, and the minimum-hearts route is never 404 when the exact one is not |
| Server.SingleIsFirstOfList | server.js:79-92 | the single-record hearts route gives the first record of the list route's answer for the same text, and is 404 exactly when the list route is |
| Server.ZeroQueryFilters | server.js:64-67 | with decimal parsing, `?hearts=0` is truthy and filters: it is 404 exactly when no record has zero hearts |
| Server.NonNumericQueryNotFound | server.js:58-73 | a query holding a character that no text `Number()` reads as a number can hold (such as `g` or `q`) is NaN and makes both filter routes 404, whatever the fixture |
| JsNumber.FromDecimalOfDecimalString | server.js:58 | `FromDecimal` reads the decimal text of every integer back as that integer |

## Left out

- Routing of a request path to its handler: Express wiring, so each handler is modelled on its own.
- Express setup, CORS, the JSON body parser, `app.listen` and its logging (server.js:9-13, 116-118): framework wiring and I/O.
- The endpoint listing at `/` (server.js:16-20): it is a call into `express-list-endpoints`, which is not part of this model.
- The raw `/data` route (server.js:23-25): it returns the fixture and has no logic.
- The commented-out year, month and sort routes (server.js:43-52): they are not implemented.
- Loading the fixture from `data.json` (server.js:3): the fixture is a parameter. Its other fields are opaque strings in `Msg`.
- HTTP status codes and the 404 message texts: only `Ok` versus `NotFound` is modelled. The `console.log` at server.js:60 is left out too.
- Query values that Express parses into arrays or objects (`?hearts=1&hearts=2`): the query is modelled as an absent or string value only.
- JsNumber.FromDecimal: a partial model of `Number()` for signed decimal digits and the Infinity spellings only. It does not model whitespace trimming, the empty or blank string becoming 0, hex, binary and octal prefixes, fractions, exponents, or rounding to a double above 2^53. The handlers take the conversion as a parameter, so their contracts hold for any conversion.
- The `Number()` applied to a record's own `hearts` at server.js:83: the fixture's heart counts are modelled as integers, and `Number` of a number is that number.

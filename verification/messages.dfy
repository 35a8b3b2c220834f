/** The records of the JSON fixture, and the two array operations the handlers are built
    from: `Array.prototype.find` and `Array.prototype.filter` with the handlers' predicates. */
module Messages {
  import opened Outcomes
  import opened JsNumber
  import opened Subsequences

  /** One record of the fixture. Only `id` (the `_id` field) and `hearts` influence any
      handler; the other fields are carried along unchanged. */
  datatype Msg = Msg(id: string, message: string, hearts: int, createdAt: string)

  /** The predicates the handlers pass to `find` and `filter`. */
  datatype Criterion =
    | IdIs(id: string)          // item._id === id
    | HeartsEqual(n: Number)    // item.hearts === n
    | HeartsAtLeast(n: Number)  // item.hearts >= n

  predicate Matches(c: Criterion, m: Msg) {
    match c
    case IdIs(id) => m.id == id
    case HeartsEqual(n) => StrictEquals(m.hearts, n)
    case HeartsAtLeast(n) => AtLeast(m.hearts, n)
  }

  /** `i` is the position of the first record of `s` that satisfies `c`. */
  predicate IsFirstMatch(s: seq<Msg>, c: Criterion, i: int) {
    && 0 <= i < |s|
    && Matches(c, s[i])
    && forall j :: 0 <= j < i ==> !Matches(c, s[j])
  }

  /** The index `find` stops at, if any. */
  function FindIndex(s: seq<Msg>, c: Criterion): (r: Option<nat>)
    ensures r.Some? ==> IsFirstMatch(s, c, r.value)
    ensures r.None? ==> forall i :: 0 <= i < |s| ==> !Matches(c, s[i])
  {
    if |s| == 0 then None
    else if Matches(c, s[0]) then Some(0)
    else
      match FindIndex(s[1..], c)
      case None => None
      case Some(k) => Some(k + 1)
  }

  /** `s.find(c)`: the first record satisfying `c`, or `undefined`. */
  function Find(s: seq<Msg>, c: Criterion): (r: Option<Msg>)
    ensures r.None? <==> forall i :: 0 <= i < |s| ==> !Matches(c, s[i])
    ensures r.Some? ==> exists i :: IsFirstMatch(s, c, i) && s[i] == r.value
  {
    match FindIndex(s, c)
    case None => None
    case Some(i) => Some(s[i])
  }

  /** `r` is what filtering `s` by `c` must give: an order-preserving subsequence of `s`
      made only of records satisfying `c`, holding every such record of `s` as often as `s` does. */
  ghost predicate SelectionOf(r: seq<Msg>, s: seq<Msg>, c: Criterion) {
    && IsSubseq(r, s)
    && (forall i :: 0 <= i < |r| ==> Matches(c, r[i]))
    && (forall m :: Matches(c, m) ==> multiset(r)[m] == multiset(s)[m])
  }

  /** `s.filter(c)`: a new sequence; `s` itself is an immutable value and is left as it was. */
  function Filter(s: seq<Msg>, c: Criterion): (r: seq<Msg>)
    ensures |r| == 0 <==> forall i :: 0 <= i < |s| ==> !Matches(c, s[i])
  {
    if |s| == 0 then []
    else if Matches(c, s[0]) then [s[0]] + Filter(s[1..], c)
    else Filter(s[1..], c)
  }

  /** What `filter` gives is the selection of the matching records, in order. */
  lemma {:induction false} FilterIsSelection(s: seq<Msg>, c: Criterion)
    ensures SelectionOf(Filter(s, c), s, c)
    decreases |s|
  {
    if |s| > 0 {
      assert s == [s[0]] + s[1..];
      FilterIsSelection(s[1..], c);
      if Matches(c, s[0]) {
        SelectionExtend(Filter(s[1..], c), s[0], s[1..], c);
      } else {
        SelectionSkip(Filter(s[1..], c), s[0], s[1..], c);
      }
    }
  }

  /** A matching record in front of the input is kept in front of the selection. */
  lemma SelectionExtend(r: seq<Msg>, h: Msg, t: seq<Msg>, c: Criterion)
    requires SelectionOf(r, t, c) && Matches(c, h)
    ensures SelectionOf([h] + r, [h] + t, c)
  {
  }

  /** A non-matching record in front of the input is dropped. */
  lemma SelectionSkip(r: seq<Msg>, h: Msg, t: seq<Msg>, c: Criterion)
    requires SelectionOf(r, t, c) && !Matches(c, h)
    ensures SelectionOf(r, [h] + t, c)
  {
  }

  /** The selection is unique: any sequence meeting `SelectionOf` is the filter's result. */
  lemma {:induction false} SelectionIsUnique(r: seq<Msg>, s: seq<Msg>, c: Criterion)
    requires SelectionOf(r, s, c)
    ensures r == Filter(s, c)
    decreases |s|
  {
    if |s| == 0 {
      assert |r| == 0;
    } else {
      var h, t := s[0], s[1..];
      assert s == [h] + t;
      if Matches(c, h) {
        assert multiset(r)[h] == multiset(s)[h] > 0;
        assert |r| > 0;
        if r[0] == h && IsSubseq(r[1..], t) {
          assert r == [h] + r[1..];
          forall m | Matches(c, m)
            ensures multiset(r[1..])[m] == multiset(t)[m]
          {
            assert multiset(r)[m] == multiset(r[1..])[m] + (if m == h then 1 else 0);
          }
          assert forall i :: 0 <= i < |r[1..]| ==> r[1..][i] == r[i + 1];
          SelectionIsUnique(r[1..], t, c);
        } else {
          assert IsSubseq(r, t);
          SubseqMultiset(r, t);
          assert false;
        }
      } else {
        assert |r| > 0 ==> r[0] != h;
        assert IsSubseq(r, t);
        forall m | Matches(c, m)
          ensures multiset(r)[m] == multiset(t)[m]
        {
          assert m != h;
        }
        SelectionIsUnique(r, t, c);
      }
    }
  }

  /** The record `find` stops at is the one `filter` puts first. */
  lemma {:induction false} FirstMatchHeadsFilter(s: seq<Msg>, c: Criterion, i: nat)
    requires IsFirstMatch(s, c, i)
    ensures |Filter(s, c)| > 0 && Filter(s, c)[0] == s[i]
    decreases i
  {
    if i > 0 {
      assert Filter(s, c) == Filter(s[1..], c);
      FirstMatchHeadsFilter(s[1..], c, i - 1);
    }
  }

  /** Every record with exactly `n` hearts has at least `n`, so the exact-hearts filter
      gives a subsequence of the at-least filter. */
  lemma {:induction false} ExactFilterWithinAtLeastFilter(s: seq<Msg>, n: Number)
    ensures IsSubseq(Filter(s, HeartsEqual(n)), Filter(s, HeartsAtLeast(n)))
    decreases |s|
  {
    if |s| > 0 {
      var a, b := Filter(s[1..], HeartsEqual(n)), Filter(s[1..], HeartsAtLeast(n));
      ExactFilterWithinAtLeastFilter(s[1..], n);
      if Matches(HeartsEqual(n), s[0]) {
        assert Matches(HeartsAtLeast(n), s[0]);
        assert ([s[0]] + a)[1..] == a;
        assert ([s[0]] + b)[1..] == b;
      } else if Matches(HeartsAtLeast(n), s[0]) {
        assert ([s[0]] + b)[1..] == b;
      }
    }
  }
}

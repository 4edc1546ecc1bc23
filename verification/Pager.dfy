/** Listing resource bundles page by page (pkg/client/cloudevents/grpcsource/pager.go), against a
    server that holds a list in a fixed order and cuts it by offset and size
    (pkg/services/generic.go, pkg/dao/generic.go). */
module Pager {
  import opened Wrappers
  import Division
  import SequenceIds

  function Min(a: int, b: int): int { if a < b then a else b }

  /** The server's answer: an offset that is not positive is no offset at all. */
  function Cut<T>(list: seq<T>, offset: int, size: nat): seq<T>
  {
    var from := Min(if offset < 0 then 0 else offset, |list|);
    list[from..Min(from + size, |list|)]
  }

  function Offset(page: nat, size: nat): (offset: int)
    ensures if page == 0 then offset == -1 * size else offset >= 0
  {
    if page == 0 then -1 * size else Offset(page - 1, size) + size
  }

  lemma {:induction false} OffsetOfPage(page: nat, size: nat)
    ensures Offset(page, size) == (page - 1) * size
  {
    if page > 0 { OffsetOfPage(page - 1, size); }
  }

  method Fetch<T>(serve: int -> seq<T>, page: nat, size: nat) returns (got: seq<T>)
    ensures got == serve(Offset(page, size))
  {
    OffsetOfPage(page, size);
    got := serve((page - 1) * size);
  }

  function PageSize(limit: nat, max: nat): nat
  {
    if limit > max || limit == 0 then max else limit
  }

  function PageNumber(token: string): Result<nat>
  {
    if token == "" then Ok(1)
    else
      match SequenceIds.Parse(token)
      case Some(n) => if n < 0 then Err else Ok(n)
      case None => Err
  }

  /** A page number written into a continue token is read back from it. */
  lemma TokenRoundTrip(n: nat)
    requires n <= SequenceIds.INT64_MAX
    ensures PageNumber(SequenceIds.Decimal(n)) == Ok(n)
  {
    SequenceIds.DecimalDigits(n);
    assert '0' <= SequenceIds.Decimal(n)[0] <= '9';
  }

  /** The page number of a token: the first page without one, what a number that is not negative says,
      and an error otherwise. */
  lemma PageNumberIff(token: string, n: nat)
    ensures PageNumber(token) == Ok(n) <==>
            if token == "" then n == 1 else SequenceIds.Parse(token) == Some(n)
    ensures PageNumber(token) == Err <==>
            token != "" && (SequenceIds.Parse(token) == None || SequenceIds.Parse(token).value < 0)
  {}

  // What a listing from a page on is: the list from the start of that page, up to the limit when
  // the limit is a whole number of pages, and to the end otherwise.

  predicate IsWhole(limit: nat, size: nat)
    requires size > 0
  {
    limit != 0 && limit % size == 0
  }

  function Start(page: nat, size: nat, n: nat): nat
    requires page > 0
  {
    Min((page - 1) * size, n)
  }

  function Stretch<T>(list: seq<T>, page: nat, limit: nat, size: nat): seq<T>
    requires page > 0 && size > 0
  {
    var from := Start(page, size, |list|);
    list[from..if IsWhole(limit, size) then Min(from + limit, |list|) else |list|]
  }

  function Following<T>(list: seq<T>, page: nat, limit: nat, size: nat): Option<nat>
    requires page > 0 && size > 0
  {
    if IsWhole(limit, size) && (page - 1) * size + limit < |list| then Some(page + limit / size) else None
  }

  /** Page zero is the first page, and the first page comes after it once more. */
  function FromZero<T>(list: seq<T>, limit: nat, size: nat): seq<T>
    requires size > 0 && (limit == 0 || size <= limit)
  {
    if |list| < size then list
    else if limit == size then list[..size]
    else list[..size] + list[..if IsWhole(limit, size) then Min(limit - size, |list|) else |list|]
  }

  // What the loop collects, request after request, from an offset on. `total` items are there
  // already, and the listing began at offset `first`.

  /** A server of so many items: a full page ends within them. */
  ghost predicate IsServer<T>(serve: int -> seq<T>, n: nat, size: nat)
  {
    forall offset :: |serve(offset)| >= size ==> |serve(offset)| == size && offset + size <= n
  }

  function Requests<T>(serve: int -> seq<T>, n: nat,
                       offset: int, total: nat, first: int, limit: nat, size: nat)
    : (seq<T>, Option<nat>)
    requires size > 0 && IsServer(serve, n, size)
    decreases n - offset
  {
    var got := serve(offset);
    if |got| < size then (got, None)
    else if limit != 0 && total + size == limit then
      (got, if limit + first < n then Some(limit) else None)
    else
      var rest := Requests(serve, n, offset + size, total + size, first, limit, size);
      (got + rest.0, rest.1)
  }

  function Server<T>(list: seq<T>, size: nat): (serve: int -> seq<T>)
    requires size > 0
    ensures IsServer(serve, |list|, size)
  {
    offset => Cut(list, offset, size)
  }

  /** The same with the server of a list. */
  function Listing<T>(list: seq<T>, offset: int, total: nat, first: int, limit: nat, size: nat)
    : (seq<T>, Option<nat>)
    requires size > 0
    decreases |list| - offset
  {
    var got := Cut(list, offset, size);
    if |got| < size then (got, None)
    else if limit != 0 && total + size == limit then
      (got, if limit + first < |list| then Some(limit) else None)
    else
      var rest := Listing(list, offset + size, total + size, first, limit, size);
      (got + rest.0, rest.1)
  }

  lemma {:induction false} RequestsAreListing<T>(list: seq<T>, offset: int, total: nat, first: int,
                                                 limit: nat, size: nat)
    requires size > 0
    ensures Requests(Server(list, size), |list|, offset, total, first, limit, size)
         == Listing(list, offset, total, first, limit, size)
    decreases |list| - offset
  {
    var got := Server(list, size)(offset);
    if |got| >= size {
      RequestsAreListing(list, offset + size, total + size, first, limit, size);
    }
  }

  /** The limit is met after some more full pages. */
  predicate Meets(total: nat, limit: nat, size: nat)
    requires size > 0
    decreases limit - total
  {
    total < limit && (total + size == limit || Meets(total + size, limit, size))
  }

  lemma OnePageLess(x: nat, size: nat)
    requires 0 < size <= x
    ensures x % size == (x - size) % size
  {
    var q := (x - size) / size;
    Division.QuotientIsUnique(x, size, q + 1, (x - size) % size);
  }

  lemma {:induction false} MeetsIff(total: nat, limit: nat, size: nat)
    requires size > 0
    ensures Meets(total, limit, size) <==> total < limit && (limit - total) % size == 0
    decreases limit - total
  {
    if total + size <= limit {
      OnePageLess(limit - total, size);
      MeetsIff(total + size, limit, size);
    } else if total < limit {
      Division.QuotientIsUnique(limit - total, size, 0, limit - total);
    }
  }

  /** The requests run to the end of the list, or to the limit where they meet it. */
  lemma {:induction false} ListingIsStretch<T>(list: seq<T>, offset: nat, total: nat, first: int,
                                               limit: nat, size: nat)
    requires size > 0
    ensures Listing(list, offset, total, first, limit, size).0
         == list[Min(offset, |list|)..
                 if Meets(total, limit, size) then Min(offset + limit - total, |list|) else |list|]
    ensures Listing(list, offset, total, first, limit, size).1
         == if Meets(total, limit, size) && offset + limit - total <= |list| && limit + first < |list|
            then Some(limit) else None
    decreases |list| - offset
  {
    if offset + size <= |list| && total + size != limit {
      ListingIsStretch(list, offset + size, total + size, first, limit, size);
    }
  }

  /** What is collected, and then what the further requests collect. */
  ghost predicate Leads<T>(all: (seq<T>, Option<nat>), items: seq<T>, rest: (seq<T>, Option<nat>))
  {
    all.0 == items + rest.0 && all.1 == rest.1
  }

  lemma LeadsOn<T>(all: (seq<T>, Option<nat>), items: seq<T>, serve: int -> seq<T>, n: nat,
                   offset: int, total: nat, first: int, limit: nat, size: nat)
    requires size > 0 && IsServer(serve, n, size)
    requires Leads(all, items, Requests(serve, n, offset, total, first, limit, size))
    ensures var got := serve(offset);
            if |got| < size then all == (items + got, None)
            else if limit != 0 && total + size == limit then
              all == (items + got, if limit + first < n then Some(limit) else None)
            else
              Leads(all, items + got, Requests(serve, n, offset + size, total + size, first, limit, size))
  {
    var got := serve(offset);
    if |got| >= size && !(limit != 0 && total + size == limit) {
      var after := Requests(serve, n, offset + size, total + size, first, limit, size).0;
      assert items + (got + after) == (items + got) + after;
    }
  }

  /** The loop of PageList: one request per page, until a short page or the limit. */
  method Collect<T>(serve: int -> seq<T>, n: nat, from: nat, limit: nat, size: nat)
    returns (items: seq<T>, next: Option<nat>)
    requires size > 0 && IsServer(serve, n, size)
    ensures var all := Requests(serve, n, Offset(from, size), 0, Offset(from, size), limit, size);
            && items == all.0 && (next.Some? <==> all.1.Some?)
    ensures next.Some? ==> Offset(next.value, size) == Offset(from, size) + limit
  {
    items, next := [], None;
    var page, total: nat := from, 0;
    var offset := Offset(from, size);
    ghost var all := Requests(serve, n, offset, 0, offset, limit, size);
    while true
      invariant Offset(page, size) == offset + total && next.None?
      invariant Leads(all, items, Requests(serve, n, offset + total, total, offset, limit, size))
      decreases n - offset - total
    {
      LeadsOn(all, items, serve, n, offset + total, total, offset, limit, size);
      var got := Fetch(serve, page, size);
      items := items + got;
      total := total + |got|;
      page := page + 1;
      if |got| < size { break; }
      if limit == 0 { continue; }
      if total == limit {
        if total + offset < n { next := Some(page); }
        break;
      }
    }
  }

  lemma PagesOn(page: nat, next: nat, limit: nat, size: nat)
    requires size > 0 && Offset(next, size) == Offset(page, size) + limit
    ensures next == page + limit / size
  {
    OffsetOfPage(page, size);
    OffsetOfPage(next, size);
    assert (next - page) * size == limit;
    Division.QuotientIsUnique(limit, size, next - page, 0);
  }

  lemma ListingFromPage<T>(list: seq<T>, page: nat, limit: nat, size: nat)
    requires size > 0 && page > 0
    ensures var all := Listing(list, Offset(page, size), 0, Offset(page, size), limit, size);
            && all.0 == Stretch(list, page, limit, size)
            && (all.1.Some? <==> Following(list, page, limit, size).Some?)
  {
    OffsetOfPage(page, size);
    MeetsIff(0, limit, size);
    ListingIsStretch(list, Offset(page, size), 0, Offset(page, size), limit, size);
  }

  lemma ListingFromZero<T>(list: seq<T>, limit: nat, size: nat)
    requires size > 0 && (limit == 0 || size <= limit)
    ensures var all := Listing(list, -1 * size, 0, -1 * size, limit, size);
            && all.0 == FromZero(list, limit, size)
            && (all.1.Some? <==> IsWhole(limit, size) && size <= |list| && limit - size < |list|)
  {
    MeetsFromZero(limit, size);
    assert Cut(list, -1 * size, size) == list[..Min(size, |list|)];
    if |list| >= size && limit != size {
      ListingIsStretch(list, 0, size, -1 * size, limit, size);
    }
  }

  lemma MeetsFromZero(limit: nat, size: nat)
    requires size > 0 && (limit == 0 || size <= limit)
    ensures IsWhole(limit, size) <==> limit == size || Meets(size, limit, size)
  {
    MeetsIff(size, limit, size);
    if limit != 0 { OnePageLess(limit, size); }
  }

  /** Without a token and without a limit the first listing is all there is; with a limit of at most
      one page it is the first items, and a token when there are more. */
  lemma FirstListing<T>(list: seq<T>, limit: nat, max: nat)
    requires limit <= max && max > 0
    ensures limit == 0 ==>
              && Stretch(list, 1, limit, PageSize(limit, max)) == list
              && Following(list, 1, limit, PageSize(limit, max)) == None
    ensures limit > 0 ==>
              && Stretch(list, 1, limit, PageSize(limit, max)) == list[..Min(limit, |list|)]
              && Following(list, 1, limit, PageSize(limit, max)) == if limit < |list| then Some(2) else None
  {
    assert 0 * PageSize(limit, max) == 0;
    if limit > 0 { Division.QuotientIsUnique(limit, limit, 1, 0); }
  }

  /** PageList: from the page of the token on. */
  method PageList<T>(list: seq<T>, token: string, limit: int, max: nat)
    returns (r: Result<(seq<T>, string)>)
    requires max > 0
    ensures r.Err? <==> PageNumber(token).Err? || limit < 0
    ensures r.Ok? && PageNumber(token).value > 0 ==>
              var size := PageSize(limit, max);
              && r.value.0 == Stretch(list, PageNumber(token).value, limit, size)
              && r.value.1 == match Following(list, PageNumber(token).value, limit, size)
                              case Some(page) => SequenceIds.Decimal(page)
                              case None => ""
    ensures r.Ok? && PageNumber(token).value == 0 ==>
              var size := PageSize(limit, max);
              && r.value.0 == FromZero(list, limit, size)
              && r.value.1 == if IsWhole(limit, size) && size <= |list| && limit - size < |list|
                              then SequenceIds.Decimal(limit / size) else ""
    ensures token == "" && limit == 0 ==> r == Ok((list, ""))
    ensures token == "" && 0 < limit <= max ==>
              r == Ok((list[..Min(limit, |list|)], if limit < |list| then SequenceIds.Decimal(2) else ""))
  {
    if 0 <= limit <= max { FirstListing(list, limit, max); }
    var number := PageNumber(token);
    if number.Err? || limit < 0 { return Err; }
    var page, size := number.value, PageSize(limit, max);
    var items, next := Collect(Server(list, size), |list|, page, limit, size);
    RequestsAreListing(list, Offset(page, size), 0, Offset(page, size), limit, size);
    if page > 0 {
      ListingFromPage(list, page, limit, size);
    } else {
      ListingFromZero(list, limit, size);
    }
    if next.Some? {
      PagesOn(page, next.value, limit, size);
      return Ok((items, SequenceIds.Decimal(next.value)));
    }
    return Ok((items, ""));
  }

  /** All that a client gets by following the continue tokens from a page on. */
  function Follow<T>(list: seq<T>, page: nat, limit: nat, size: nat): seq<T>
    requires page > 0 && size > 0
    decreases |list| - (page - 1) * size
  {
    if Following(list, page, limit, size).None? then Stretch(list, page, limit, size)
    else
      Skip(page, limit, size);
      Stretch(list, page, limit, size) + Follow(list, page + limit / size, limit, size)
  }

  lemma Skip(page: nat, limit: nat, size: nat)
    requires page > 0 && size > 0 && IsWhole(limit, size)
    ensures (page + limit / size - 1) * size == (page - 1) * size + limit
    ensures limit > 0
  {
    assert limit == (limit / size) * size;
    assert (page - 1 + limit / size) * size == (page - 1) * size + (limit / size) * size;
  }

  /** Following the tokens gives every item from the first page on, once and in order. */
  lemma {:induction false} FollowIsComplete<T>(list: seq<T>, page: nat, limit: nat, size: nat)
    requires page > 0 && size > 0
    ensures Follow(list, page, limit, size) == list[Start(page, size, |list|)..]
    decreases |list| - (page - 1) * size
  {
    var next := Following(list, page, limit, size);
    if next.Some? {
      Skip(page, limit, size);
      FollowIsComplete(list, next.value, limit, size);
    }
  }

  /** A listing keeps to its limit if and only if the limit is at most one page or a whole number
      of pages, or no more than that is left. */
  lemma WithinLimitIff<T>(list: seq<T>, page: nat, limit: nat, max: nat)
    requires page > 0 && limit > 0 && max > 0
    ensures |Stretch(list, page, limit, PageSize(limit, max))| <= limit <==>
            || limit <= max || limit % max == 0
            || |list| - Start(page, max, |list|) <= limit
  {
    if limit <= max { Division.QuotientIsUnique(limit, limit, 1, 0); }
  }
}

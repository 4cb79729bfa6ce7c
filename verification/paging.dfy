/** The page arithmetic of ListStorage: page size, offset and next-page token.
    The service computes in 32-bit integers, so every sum and product wraps
    around as two's complement; the model writes that out with `Wrap32`. */
module Paging {
  import opened Inventory

  predicate InInt32(x: int) {
    -0x8000_0000 <= x <= 0x7fff_ffff
  }

  type Int32 = x: int | InInt32(x)

  const DefaultPageSize: Int32 := 100

  /** The limit handed to the repository: the requested page size, or the
      default size when 0 was requested. */
  function Limit(pageSize: Int32): Int32 {
    if pageSize == 0 then DefaultPageSize else pageSize
  }

  /** The int32 value of an integer result: equal to it modulo 2^32. */
  function Wrap32(x: int): (r: Int32)
    ensures (r - x) % 0x1_0000_0000 == 0
    ensures InInt32(x) ==> r == x
  {
    (x + 0x8000_0000) % 0x1_0000_0000 - 0x8000_0000
  }

  /** The page a listing request is served: the limit and offset handed to the
      repository, and the token of the next page (none means the empty
      token). */
  datatype Page = Page(limit: Int32, offset: Int32, nextPageToken: Option<Int32>)

  /** ListStorage. `parsedToken` is what the service parses out of a non-empty
      page token as a 32-bit decimal number (0 when it does not parse, the
      nearest int32 bound when it is out of range); an
      empty token parses to 0 whatever `parsedToken` says. `listing` is the
      repository's answer, the total number of storages, or its error. A page
      size of 0 asks for the default size. The offset is token times limit
      when a token was sent, else 0. A next-page token, one past the current
      one, is returned when the total exceeds offset plus limit. */
  function ListStorage(pageToken: string, parsedToken: Int32, pageSize: Int32, listing: Lookup<Int32>): (r: Result<Page>)
    ensures r.Err? <==> listing.LookupFailed?
    ensures r.Err? ==> r.error == ListFailed
    ensures r.Ok? ==> r.value.limit != 0
    ensures r.Ok? && |pageToken| == 0 ==> r.value.offset == 0
    ensures r.Ok? && |pageToken| == 0 ==>
      (r.value.nextPageToken.Some? <==> listing.value > r.value.limit)
    ensures r.Ok? && |pageToken| == 0 && r.value.nextPageToken.Some? ==> r.value.nextPageToken.value == 1
  {
    var token := if |pageToken| > 0 then parsedToken else 0;
    var limit := Limit(pageSize);
    var offset := if |pageToken| > 0 then Wrap32(token * limit) else 0;
    match listing
    case LookupFailed => Err(ListFailed)
    case Found(totalSize) =>
      var next := if totalSize > Wrap32(offset + limit) then Some(Wrap32(token + 1)) else None;
      Ok(Page(limit, offset, next))
  }

  /** Without wrap-around, the page is the plain arithmetic: limit is the page
      size or 100, offset is token times limit, and there is a next token,
      token + 1, exactly when the total exceeds offset plus limit. The first
      page is the one asked for with the empty token, which stands for 0. */
  lemma ListStoragePage(pageToken: string, parsedToken: Int32, pageSize: Int32, totalSize: Int32)
    requires |pageToken| > 0 || parsedToken == 0
    requires InInt32(parsedToken * Limit(pageSize)) && InInt32(parsedToken * Limit(pageSize) + Limit(pageSize))
    requires InInt32(parsedToken + 1)
    ensures var r := ListStorage(pageToken, parsedToken, pageSize, Found(totalSize));
      var limit := Limit(pageSize);
      && r.Ok?
      && r.value.limit == (if pageSize == 0 then DefaultPageSize else pageSize)
      && r.value.offset == parsedToken * limit
      && (r.value.nextPageToken.Some? <==> totalSize > parsedToken * limit + limit)
      && (r.value.nextPageToken.Some? ==> r.value.nextPageToken.value == parsedToken + 1)
  {
  }

  /** Pages follow on from each other: without wrap-around, the page named by
      the next-page token starts where the current page ends, and a page with
      no next token reaches the end of the listing. This holds from the first
      page, asked for with the empty token, on. */
  lemma NextPageFollows(pageToken: string, parsedToken: Int32, pageSize: Int32, totalSize: Int32, nextToken: string)
    requires |pageToken| > 0 || parsedToken == 0
    requires |nextToken| > 0
    requires var limit := Limit(pageSize);
      && InInt32(parsedToken * limit) && InInt32(parsedToken * limit + limit)
      && InInt32(parsedToken + 1) && InInt32((parsedToken + 1) * limit)
    ensures var r := ListStorage(pageToken, parsedToken, pageSize, Found(totalSize));
      && r.Ok?
      && (r.value.nextPageToken.Some? ==>
            ListStorage(nextToken, r.value.nextPageToken.value, pageSize, Found(totalSize)).value.offset
              == r.value.offset + r.value.limit)
      && (r.value.nextPageToken.None? ==> totalSize <= r.value.offset + r.value.limit)
  {
    var limit := Limit(pageSize);
    assert (parsedToken + 1) * limit == parsedToken * limit + limit;
  }

  /** An empty token names the first page whatever number the caller's parse
      produced: the service parses "" to 0. */
  lemma EmptyTokenIsFirstPage(parsedToken: Int32, pageSize: Int32, listing: Lookup<Int32>)
    ensures ListStorage("", parsedToken, pageSize, listing) == ListStorage("", 0, pageSize, listing)
  {
  }

  /** With a large token the offset wraps around: token 21474837 with the
      default page size gives a negative offset. */
  lemma OffsetWrapsAround()
    ensures ListStorage("21474837", 21474837, 0, Found(0)).value.offset == -2147483596
  {
  }
}

/** Cursors and pages: the cursor text of src/tools.rs and the paging of `run_read_query` in
    src/tools/query_surface.rs. The signature is a function parameter. */
module Pagination {
  import opened Text

  datatype Scope = ExecuteSql | ListObjects

  function ScopeText(scope: Scope): string {
    match scope
    case ExecuteSql => "execute_sql"
    case ListObjects => "list_objects"
  }

  const CURSOR_PREFIX: string := "v3"
  const SIGNATURE_LENGTH: nat := 64
  const HASH_LENGTH: nat := 16

  /** The keyed digest of a payload. */
  type Signer = string -> string

  predicate IsHexDigit(c: char) {
    IsDigit(c) || 'a' <= c <= 'f' || 'A' <= c <= 'F'
  }

  predicate IsLowerHex(c: char) {
    IsDigit(c) || 'a' <= c <= 'f'
  }

  /** A digest is printed as 64 lower-case hexadecimal digits. */
  ghost predicate PrintsDigests(sign: Signer) {
    forall payload :: |sign(payload)| == SIGNATURE_LENGTH && forall i :: 0 <= i < SIGNATURE_LENGTH ==>
        IsLowerHex(sign(payload)[i])
  }

  // ---- The cursor text ----

  /** `splitn(n, ':')`: at most `n` parts, the last one unsplit. */
  function SplitN(s: string, n: nat): (parts: seq<string>)
    requires n >= 1
    decreases n
  {
    var i := ColonAt(s);
    if n == 1 || i == |s| then [s] else [s[..i]] + SplitN(s[i + 1..], n - 1)
  }

  function ColonAt(s: string): (i: nat)
    ensures i <= |s| && (i < |s| ==> s[i] == ':') && forall j :: 0 <= j < i ==> s[j] != ':'
  {
    if s == "" || s[0] == ':' then 0
    else
      var i := ColonAt(s[1..]);
      assert forall j :: 0 < j < i + 1 ==> s[j] == s[1..][j - 1];
      i + 1
  }

  function Payload(scope: Scope, hash: string, offset: nat, expires: nat): string {
    CURSOR_PREFIX + ":" + (ScopeText(scope) + ":" + (hash + ":" + (Decimal(offset) + ":" + Decimal(expires))))
  }

  function Lifetime(ttl: nat): nat {
    if ttl > 1 then ttl else 1
  }

  /** `now` is the clock in seconds; the lifetime is at least one second. */
  function Encode(sign: Signer, ttl: nat, now: nat, scope: Scope, hash: string, offset: nat): string {
    var expires := now + Lifetime(ttl);
    var payload := Payload(scope, hash, offset, expires);
    payload + ":" + sign(payload)
  }

  datatype Cursor = Cursor(hash: string, offset: nat, expires: nat)

  datatype DecodeError = Invalid | QueryMismatch | Expired

  function Decode(sign: Signer, now: nat, scope: Scope, expectedHash: string, cursor: string)
    : Result<Cursor, DecodeError>
  {
    var parts := SplitN(cursor, 6);
    if |parts| != 6 || parts[0] != CURSOR_PREFIX || parts[1] != ScopeText(scope) || |parts[2]| != HASH_LENGTH
        then Err(Invalid)
    else
      match (ParseU64(parts[3]), ParseU64(parts[4]))
      case (Some(offset), Some(expires)) =>
        var signature := ToAsciiLowercase(parts[5]);
        if |signature| != SIGNATURE_LENGTH || !(forall i :: 0 <= i < |signature| ==> IsHexDigit(signature[i]))
            then Err(Invalid)
        else if signature != sign(Payload(scope, parts[2], offset, expires)) then Err(Invalid)
        else if parts[2] != expectedHash then Err(QueryMismatch)
        else if now > expires then Err(Expired)
        else Ok(Cursor(parts[2], offset, expires))
      case _ => Err(Invalid)
  }

  predicate NoColon(s: string) {
    forall i :: 0 <= i < |s| ==> s[i] != ':'
  }

  lemma SplitFirst(head: string, rest: string, n: nat)
    requires NoColon(head) && n >= 2
    ensures SplitN(head + ":" + rest, n) == [head] + SplitN(rest, n - 1)
  {
    var s := head + ":" + rest;
    assert s[|head|] == ':';
    assert forall j :: 0 <= j < |head| ==> s[j] == head[j];
    assert ColonAt(s) == |head|;
    assert s[..|head|] == head && s[|head| + 1..] == rest;
  }

  lemma SplitLast(s: string)
    ensures SplitN(s, 1) == [s]
  {
  }

  lemma DecimalHasNoColon(n: nat)
    ensures NoColon(Decimal(n))
  {
  }

  lemma ScopeHasNoColon(scope: Scope)
    ensures NoColon(ScopeText(scope)) && NoColon(CURSOR_PREFIX)
  {
  }

  lemma SplitOfCursor(scope: Scope, hash: string, offset: nat, expires: nat, signature: string)
    requires NoColon(hash)
    ensures SplitN(Payload(scope, hash, offset, expires) + ":" + signature, 6)
         == [CURSOR_PREFIX, ScopeText(scope), hash, Decimal(offset), Decimal(expires), signature]
  {
    hide SplitN, ScopeText;
    ScopeHasNoColon(scope);
    DecimalHasNoColon(offset);
    DecimalHasNoColon(expires);
    var t4 := Decimal(expires) + ":" + signature;
    var t3 := Decimal(offset) + ":" + t4;
    var t2 := hash + ":" + t3;
    var t1 := ScopeText(scope) + ":" + t2;
    assert Payload(scope, hash, offset, expires) + ":" + signature == CURSOR_PREFIX + ":" + t1;
    SplitFirst(CURSOR_PREFIX, t1, 6);
    SplitFirst(ScopeText(scope), t2, 5);
    SplitFirst(hash, t3, 4);
    SplitFirst(Decimal(offset), t4, 3);
    SplitFirst(Decimal(expires), signature, 2);
    SplitLast(signature);
  }

  lemma LowerHexIsLower(s: string)
    requires forall i :: 0 <= i < |s| ==> IsLowerHex(s[i])
    ensures ToAsciiLowercase(s) == s
  {
  }

  /** What decoding makes of a cursor this server has issued, whenever and for whatever it is
      presented: another scope is invalid, another query a mismatch, a late one expired, and
      otherwise the page offset comes back. */
  lemma DecodeOfEncode(sign: Signer, ttl: nat, issued: nat, scope: Scope, hash: string, offset: nat,
                       now: nat, forScope: Scope, expectedHash: string)
    requires PrintsDigests(sign) && NoColon(hash) && |hash| == HASH_LENGTH
    requires offset < U64_BOUND && issued + ttl + 1 < U64_BOUND
    ensures Decode(sign, now, forScope, expectedHash, Encode(sign, ttl, issued, scope, hash, offset))
         == (if forScope != scope then Err(Invalid)
             else if expectedHash != hash then Err(QueryMismatch)
             else if now > issued + Lifetime(ttl) then Err(Expired)
             else Ok(Cursor(hash, offset, issued + Lifetime(ttl))))
  {
    hide SplitN, Payload, Decimal, ParseU64;
    var expires := issued + Lifetime(ttl);
    var payload := Payload(scope, hash, offset, expires);
    SplitOfCursor(scope, hash, offset, expires, sign(payload));
    ParseOfDecimal(offset);
    ParseOfDecimal(expires);
    LowerHexIsLower(sign(payload));
    ScopesDiffer(scope, forScope);
  }

  lemma ScopesDiffer(a: Scope, b: Scope)
    ensures ScopeText(a) == ScopeText(b) <==> a == b
  {
  }

  /** Nothing is accepted whose fields are not the ones that were signed: an accepted cursor carries
      the digest of exactly the offset and expiry it yields, for this scope and this query. */
  lemma DecodeIsAuthentic(sign: Signer, now: nat, scope: Scope, expectedHash: string, cursor: string)
    ensures var parts := SplitN(cursor, 6);
            Decode(sign, now, scope, expectedHash, cursor).Ok? ==>
              && |parts| == 6
              && var c := Decode(sign, now, scope, expectedHash, cursor).value;
                 && ToAsciiLowercase(parts[5]) == sign(Payload(scope, expectedHash, c.offset, c.expires))
                 && c.hash == expectedHash && now <= c.expires
                 && ParseU64(parts[3]) == Some(c.offset) && ParseU64(parts[4]) == Some(c.expires)
  {
  }

  lemma {:induction false} PartsHaveNoColon(s: string, n: nat)
    requires n >= 1
    ensures forall i :: 0 <= i < |SplitN(s, n)| && i < n - 1 && i < |SplitN(s, n)| - 1 ==> NoColon(SplitN(s, n)[i])
    decreases n
  {
    var i := ColonAt(s);
    if n > 1 && i < |s| {
      PartsHaveNoColon(s[i + 1..], n - 1);
    }
  }

  /** The text that is signed says what it was made of. */
  lemma PayloadIsInjective(scope: Scope, hash: string, offset: nat, expires: nat,
                           scope': Scope, hash': string, offset': nat, expires': nat)
    requires NoColon(hash) && NoColon(hash')
    requires Payload(scope, hash, offset, expires) == Payload(scope', hash', offset', expires')
    ensures scope == scope' && hash == hash' && offset == offset' && expires == expires'
  {
    hide SplitN, Payload, Decimal, ScopeText;
    SplitOfCursor(scope, hash, offset, expires, "");
    SplitOfCursor(scope', hash', offset', expires', "");
    var parts := [CURSOR_PREFIX, ScopeText(scope), hash, Decimal(offset), Decimal(expires), ""];
    assert parts[1] == ScopeText(scope') && parts[2] == hash' && parts[3] == Decimal(offset')
        && parts[4] == Decimal(expires');
    ScopesDiffer(scope, scope');
    DecimalInjective(offset, offset');
    DecimalInjective(expires, expires');
  }

  /** No other text has the digest of this one. */
  ghost predicate HasNoCollision(sign: Signer, payload: string) {
    forall other :: sign(other) == sign(payload) ==> other == payload
  }

  /** The signature a cursor bears. */
  function SignatureOf(cursor: string): string {
    ToAsciiLowercase(SplitN(cursor, 6)[|SplitN(cursor, 6)| - 1])
  }

  /** A cursor that bears an issued signature, one whose digest has no collision, is accepted only as
      what was issued: for the issued scope and query, and with the issued offset and expiry. No part of a
      cursor can be exchanged under its signature. */
  lemma AcceptedCursorIsWhatWasIssued(sign: Signer, now: nat, scope: Scope, expectedHash: string, cursor: string,
                                      issuedScope: Scope, hash: string, offset: nat, expires: nat)
    requires HasNoCollision(sign, Payload(issuedScope, hash, offset, expires)) && NoColon(hash)
    requires SignatureOf(cursor) == sign(Payload(issuedScope, hash, offset, expires))
    requires Decode(sign, now, scope, expectedHash, cursor).Ok?
    ensures scope == issuedScope && expectedHash == hash && now <= expires
    ensures Decode(sign, now, scope, expectedHash, cursor) == Ok(Cursor(hash, offset, expires))
  {
    var c := Decode(sign, now, scope, expectedHash, cursor).value;
    DecodeIsAuthentic(sign, now, scope, expectedHash, cursor);
    PartsHaveNoColon(cursor, 6);
    assert SplitN(cursor, 6)[2] == expectedHash;
    hide SplitN, Payload;
    PayloadIsInjective(scope, expectedHash, c.offset, c.expires, issuedScope, hash, offset, expires);
  }

  // ---- Pages ----

  datatype PageError = CursorNotSupported | BadCursor(error: DecodeError)

  datatype Page<R> = Page(rows: seq<R>, nextCursor: Option<string>)

  function PageSize(defaultSize: nat, requested: Option<nat>): (n: nat)
    ensures n >= 1
  {
    var size := if requested.Some? then requested.value else defaultSize;
    if size < 1 then 1 else size
  }

  /** The rows of LIMIT `limit` OFFSET `offset`. */
  function LimitOffset<R>(rows: seq<R>, limit: nat, offset: nat): (r: seq<R>)
    ensures |r| == if offset >= |rows| then 0 else if |rows| - offset < limit then |rows| - offset else limit
  {
    if offset >= |rows| then [] else if |rows| - offset < limit then rows[offset..] else rows[offset..offset + limit]
  }

  /** `clip_output_in_place`. */
  method ClipRows<R>(rows: seq<R>, clip: R -> R) returns (output: seq<R>)
    ensures output == Mapped(rows, clip)
  {
    output := rows;
    for i := 0 to |rows|
      invariant |output| == |rows|
      invariant forall k :: 0 <= k < |rows| ==> output[k] == if k < i then clip(rows[k]) else rows[k]
    {
      output := output[i := clip(output[i])];
    }
  }

  /** Fetching one row more than the page holds tells whether rows remain behind it. */
  lemma OneRowMore<R>(rows: seq<R>, size: nat, offset: nat, clip: R -> R)
    ensures var fetched, page := LimitOffset(rows, size + 1, offset), LimitOffset(rows, size, offset);
            && (|fetched| > size <==> offset + size < |rows|)
            && Mapped(page, clip) == if |fetched| > size then Mapped(fetched, clip)[..size] else Mapped(fetched, clip)
  {
    var fetched, page := LimitOffset(rows, size + 1, offset), LimitOffset(rows, size, offset);
    if |fetched| > size {
      assert fetched[..size] == page;
    } else {
      assert fetched == page;
    }
  }

  /** One call of `run_read_query` on a query whose result is `rows`: `paginates` says whether the
      statement is select-like, `clip` is the cell clipping, and `hash` the hash of the request. */
  method RunReadQuery<R>(sign: Signer, ttl: nat, now: nat, hash: string, rows: seq<R>, paginates: bool,
                         cursor: Option<string>, defaultSize: nat, requested: Option<nat>, clip: R -> R)
    returns (r: Result<Page<R>, PageError>)
    ensures r == PageOf(sign, ttl, now, hash, rows, paginates, cursor, PageSize(defaultSize, requested), clip)
    ensures !paginates && cursor.Some? ==> r == Err(CursorNotSupported)
    ensures !paginates && cursor.None? ==>
              && r.Ok? && r.value.nextCursor == None && |r.value.rows| == |rows|
              && forall k :: 0 <= k < |rows| ==> r.value.rows[k] == clip(rows[k])
    ensures paginates && cursor.Some? ==>
              var decoded := Decode(sign, now, ExecuteSql, hash, cursor.value);
              if decoded.Err? then r == Err(BadCursor(decoded.error)) else r.Ok?
    ensures paginates && cursor.None? ==> r.Ok?
    ensures paginates && r.Ok? ==>
              var offset := if cursor.Some? then Decode(sign, now, ExecuteSql, hash, cursor.value).value.offset else 0;
              var wanted := if requested.Some? then requested.value else defaultSize;
              var size := if wanted == 0 then 1 else wanted;
              && |r.value.rows| == (if offset >= |rows| then 0 else if |rows| - offset < size then |rows| - offset
                                    else size)
              && (forall k :: 0 <= k < |r.value.rows| ==> r.value.rows[k] == clip(rows[offset + k]))
              && r.value.nextCursor == if offset + size < |rows|
                                       then Some(Encode(sign, ttl, now, ExecuteSql, hash, offset + size)) else None
  {
    hide Mapped, Encode, Decode;
    var pageSize := PageSize(defaultSize, requested);
    var offset := 0;
    if cursor.Some? {
      if !paginates {
        return Err(CursorNotSupported);
      }
      match Decode(sign, now, ExecuteSql, hash, cursor.value)
      case Ok(decoded) => offset := decoded.offset;
      case Err(error) => return Err(BadCursor(error));
    }
    OneRowMore(rows, pageSize, offset, clip);
    var output := ClipRows(if paginates then LimitOffset(rows, pageSize + 1, offset) else rows, clip);
    var nextCursor: Option<string> := None;
    if paginates && |output| > pageSize {
      output := output[..pageSize];
      nextCursor := Some(Encode(sign, ttl, now, ExecuteSql, hash, offset + pageSize));
    }
    r := Ok(Page(output, nextCursor));
  }

  /** The page at an offset, and a cursor exactly if rows remain behind it. */
  function PageOf<R>(sign: Signer, ttl: nat, now: nat, hash: string, rows: seq<R>, paginates: bool,
                     cursor: Option<string>, pageSize: nat, clip: R -> R): Result<Page<R>, PageError>
  {
    if !paginates then
      if cursor.Some? then Err(CursorNotSupported) else Ok(Page(Mapped(rows, clip), None))
    else
      match (if cursor.Some? then OffsetOf(Decode(sign, now, ExecuteSql, hash, cursor.value)) else Ok(0))
      case Err(error) => Err(BadCursor(error))
      case Ok(offset) =>
        Ok(Page(Mapped(LimitOffset(rows, pageSize, offset), clip),
                if offset + pageSize < |rows| then Some(Encode(sign, ttl, now, ExecuteSql, hash, offset + pageSize))
                    else None))
  }

  function OffsetOf(r: Result<Cursor, DecodeError>): Result<nat, DecodeError> {
    match r
    case Ok(cursor) => Ok(cursor.offset)
    case Err(error) => Err(error)
  }

  /** An issued cursor with a query that has pages: one of another scope, of another query or past its
      expiry is refused, each with its own error, and any other gives the page at its offset. */
  lemma IssuedCursorExactly<R>(sign: Signer, ttl: nat, issued: nat, scope: Scope, hash: string, offset: nat,
                               now: nat, other: string, rows: seq<R>, size: nat, clip: R -> R)
    requires PrintsDigests(sign) && NoColon(hash) && |hash| == HASH_LENGTH
    requires offset < U64_BOUND && issued + ttl + 1 < U64_BOUND
    ensures var r := PageOf(sign, ttl, now, other, rows, true, Some(Encode(sign, ttl, issued, scope, hash, offset)),
                            size, clip);
            if scope != ExecuteSql then r == Err(BadCursor(Invalid))
            else if hash != other then r == Err(BadCursor(QueryMismatch))
            else if now > issued + (if ttl == 0 then 1 else ttl) then r == Err(BadCursor(Expired))
            else
              && r.Ok? && (r.value.nextCursor.Some? <==> offset + size < |rows|)
              && |r.value.rows| == (if offset >= |rows| then 0 else if |rows| - offset < size then |rows| - offset
                                    else size)
              && forall k :: 0 <= k < |r.value.rows| ==> r.value.rows[k] == clip(rows[offset + k])
  {
    hide Encode, Decode;
    DecodeOfEncode(sign, ttl, issued, scope, hash, offset, now, ExecuteSql, other);
  }

  // ---- Following the cursors ----

  /** One call of a client: when it is made, and the page size it asks for. */
  datatype Call = Call(now: nat, pageSize: nat)

  /** Following `next_cursor` from `cursor` on, one call after the other: the pages' rows so far, and
      whether the last page was reached. A call that is refused ends the walk. */
  function Walk<R>(sign: Signer, ttl: nat, hash: string, rows: seq<R>, clip: R -> R, cursor: Option<string>,
                   calls: seq<Call>)
    : (seq<seq<R>>, bool)
    decreases |calls|
  {
    if calls == [] then ([], false)
    else
      match PageOf(sign, ttl, calls[0].now, hash, rows, true, cursor, calls[0].pageSize, clip)
      case Err(_) => ([], false)
      case Ok(page) =>
        if page.nextCursor.None? then ([page.rows], true)
        else
          var (rest, ended) := Walk(sign, ttl, hash, rows, clip, page.nextCursor, calls[1..]);
          ([page.rows] + rest, ended)
  }

  function Concat<R>(pages: seq<seq<R>>): seq<R> {
    if pages == [] then [] else pages[0] + Concat(pages[1..])
  }

  /** Each call asks for at least one row, and is made while the previous call's cursor is alive. */
  ghost predicate Patient(ttl: nat, calls: seq<Call>) {
    && (forall i :: 0 <= i < |calls| ==> calls[i].pageSize >= 1 && calls[i].now + ttl + 1 < U64_BOUND)
    && (forall i :: 0 < i < |calls| ==> calls[i].now <= calls[i - 1].now + Lifetime(ttl))
  }

  function TotalSize(calls: seq<Call>): nat {
    if calls == [] then 0 else calls[0].pageSize + TotalSize(calls[1..])
  }

  /** The cursor that leads to an offset: none for the first page. */
  function CursorTo(sign: Signer, ttl: nat, issued: nat, hash: string, offset: nat): Option<string> {
    if offset == 0 then None else Some(Encode(sign, ttl, issued, ExecuteSql, hash, offset))
  }

  lemma {:induction false} WalkFrom<R>(sign: Signer, ttl: nat, hash: string, rows: seq<R>, clip: R -> R,
                                       offset: nat, issued: nat, calls: seq<Call>)
    requires PrintsDigests(sign) && NoColon(hash) && |hash| == HASH_LENGTH && |rows| < U64_BOUND
    requires Patient(ttl, calls) && (offset < |rows| || offset == 0)
    requires offset > 0 ==> issued + ttl + 1 < U64_BOUND && (calls != [] ==> calls[0].now <= issued + Lifetime(ttl))
    ensures var (pages, ended) := Walk(sign, ttl, hash, rows, clip, CursorTo(sign, ttl, issued, hash, offset), calls);
            && Concat(pages) <= Mapped(rows[offset..], clip)
            && (ended ==> Concat(pages) == Mapped(rows[offset..], clip))
            && (ended <==> calls != [] && offset + TotalSize(calls) >= |rows|)
    decreases |calls|
  {
    hide PageOf, CursorTo, Lifetime;
    if calls != [] {
      var now, size := calls[0].now, calls[0].pageSize;
      var here := Mapped(LimitOffset(rows, size, offset), clip);
      PageAt(sign, ttl, hash, rows, clip, offset, issued, now, size);
      if offset + size < |rows| {
        WalkFrom(sign, ttl, hash, rows, clip, offset + size, now, calls[1..]);
        ClippedSplits(rows, clip, offset, size);
        assert calls[1..] == [] ==> TotalSize(calls[1..]) == 0;
        ConcatFront(here, Walk(sign, ttl, hash, rows, clip, CursorTo(sign, ttl, now, hash, offset + size),
            calls[1..]).0);
      } else {
        ConcatFront(here, []);
        assert LimitOffset(rows, size, offset) == rows[offset..];
      }
    }
  }

  lemma ConcatFront<R>(first: seq<R>, rest: seq<seq<R>>)
    ensures Concat([first] + rest) == first + Concat(rest)
    ensures rest == [] ==> Concat([first]) == first
  {
  }

  lemma ClippedSplits<R>(rows: seq<R>, clip: R -> R, offset: nat, size: nat)
    requires offset + size < |rows|
    ensures Mapped(rows[offset..], clip)
        == Mapped(LimitOffset(rows, size, offset), clip) + Mapped(rows[offset + size..], clip)
  {
  }

  /** A cursor that was issued for an offset leads to the page at that offset while it is alive. */
  lemma PageAt<R>(sign: Signer, ttl: nat, hash: string, rows: seq<R>, clip: R -> R, offset: nat, issued: nat, now: nat,
                  size: nat)
    requires PrintsDigests(sign) && NoColon(hash) && |hash| == HASH_LENGTH && offset < U64_BOUND && size >= 1
    requires offset > 0 ==> issued + ttl + 1 < U64_BOUND && now <= issued + Lifetime(ttl)
    ensures PageOf(sign, ttl, now, hash, rows, true, CursorTo(sign, ttl, issued, hash, offset), size, clip)
         == Ok(Page(Mapped(LimitOffset(rows, size, offset), clip),
                    if offset + size < |rows| then CursorTo(sign, ttl, now, hash, offset + size) else None))
    ensures CursorTo(sign, ttl, now, hash, offset + size).Some?
  {
    hide Encode, Decode;
    if offset > 0 {
      DecodeOfEncode(sign, ttl, issued, ExecuteSql, hash, offset, now, ExecuteSql, hash);
    }
  }

  lemma {:induction false} TotalSizeIsLarge(calls: seq<Call>)
    requires forall i :: 0 <= i < |calls| ==> calls[i].pageSize >= 1
    ensures TotalSize(calls) >= |calls|
  {
    if calls != [] {
      TotalSizeIsLarge(calls[1..]);
    }
  }

  /** The pages are a partition of the result: with any page sizes, following the cursors yields the
      rows in order, none twice and none missing, and the walk ends exactly when the page sizes add
      up to the whole result. */
  lemma CursorWalkIsAPartition<R>(sign: Signer, ttl: nat, hash: string, rows: seq<R>, clip: R -> R, calls: seq<Call>)
    requires PrintsDigests(sign) && NoColon(hash) && |hash| == HASH_LENGTH && |rows| < U64_BOUND
    requires Patient(ttl, calls)
    ensures var (pages, ended) := Walk(sign, ttl, hash, rows, clip, None, calls);
            && Concat(pages) <= Mapped(rows, clip)
            && (ended ==> Concat(pages) == Mapped(rows, clip))
            && (ended <==> calls != [] && TotalSize(calls) >= |rows|)
            && (|calls| > |rows| ==> ended)
  {
    TotalSizeIsLarge(calls);
    WalkFrom(sign, ttl, hash, rows, clip, 0, 0, calls);
    assert rows[0..] == rows;
  }

  /** What any text made of a cursor's fields is: invalid unless scope, version, hash length, numbers and
      signature are right, and then as the query and the time say. */
  lemma DecodeOfFields(sign: Signer, now: nat, scope: Scope, expectedHash: string, forScope: Scope, hash: string,
                       offset: nat, expires: nat, signature: string)
    requires NoColon(hash)
    ensures var text := Payload(forScope, hash, offset, expires) + ":" + signature;
            var digest := ToAsciiLowercase(signature);
            Decode(sign, now, scope, expectedHash, text)
            == if scope != forScope || |hash| != 16 || offset >= U64_BOUND || expires >= U64_BOUND
                  || |digest| != 64 || (exists c :: c in digest && !('0' <= c <= '9' || 'a' <= c <= 'f'))
                  || digest != sign(Payload(scope, hash, offset, expires)) then Err(Invalid)
               else if hash != expectedHash then Err(QueryMismatch)
               else if now > expires then Err(Expired)
               else Ok(Cursor(hash, offset, expires))
  {
    hide SplitN, Payload, Decimal, ParseU64;
    SplitOfCursor(forScope, hash, offset, expires, signature);
    ParseOfDecimal(offset);
    ParseOfDecimal(expires);
    ScopesDiffer(scope, forScope);
    var digest := ToAsciiLowercase(signature);
    assert forall c :: c in digest ==> !('A' <= c <= 'F');
    assert forall i :: 0 <= i < |digest| ==> digest[i] in digest;
  }

  /** A text that does not begin with the version mark is invalid, whatever follows. */
  lemma OtherVersionIsInvalid(sign: Signer, now: nat, scope: Scope, expectedHash: string, version: string, rest: string)
    requires NoColon(version) && version != "v3"
    ensures Decode(sign, now, scope, expectedHash, version + ":" + rest) == Err(Invalid)
  {
    SplitFirst(version, rest, 6);
    hide SplitN, ParseU64, Payload;
  }
}

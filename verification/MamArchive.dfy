/**
  One archive and the pages a server gives out (XEP-0313, with the result sets of XEP-0059).

  An archive only grows, so an entry is the position it stands at. A server may give fewer entries
  than were asked for; `size` is how many it allows. What a page holds is delivered before its reply.
 */
module MamArchive {
  import opened Wrappers

  const PAGE: nat := 50
  const CONVERSATION_PAGES: nat := 100
  const ACCOUNT_PAGES: nat := 200

  /** `seen` is the length of the archive when the reply was made; it is not part of the reply. */
  datatype Page = Page(first: Option<nat>, last: Option<nat>, complete: bool, seen: nat)

  function Min(a: nat, b: nat): nat {
    if a <= b then a else b
  }

  function Allowed(size: nat): (k: nat)
    ensures 1 <= k <= PAGE
  {
    if size == 0 then 1 else Min(size, PAGE)
  }

  /** `<before>`: the entries up to a cursor, or the latest ones. */
  function PageBefore(n: nat, cursor: Option<nat>, size: nat): Page {
    var end := match cursor case Some(c) => Min(c, n) case None => n;
    var start := if end <= Allowed(size) then 0 else end - Allowed(size);
    if start == end then Page(None, None, true, n) else Page(Some(start), Some(end - 1), start == 0, n)
  }

  /** `<after>`: the entries that follow a cursor. */
  function PageAfter(n: nat, after: nat, size: nat): Page {
    var end := Min(n, after + 1 + Allowed(size));
    if after + 1 >= end then Page(None, None, true, n) else Page(Some(after + 1), Some(end - 1), end == n, n)
  }

  /** A page forward begins right after its cursor; it is empty at the end of the archive, complete when it
      reaches it, and full otherwise. */
  lemma PageAfterGoesOn(n: nat, after: nat, size: nat)
    ensures var p := PageAfter(n, after, size);
            && (p.last.None? <==> n <= after + 1) && (p.last.None? ==> p.first.None? && p.complete)
            && (p.last.Some? ==>
                  && p.first == Some(after + 1) && after < p.last.value < n
                  && (p.complete <==> p.last.value + 1 == n)
                  && (size >= 50 && !p.complete ==> p.last.value == after + 50))
            && forall e :: e in Entries(p) <==> p.last.Some? && after < e <= p.last.value
  {
  }

  predicate Between(entry: nat, from: nat, upTo: nat) {
    from <= entry <= upTo
  }

  /** What a page delivers. */
  function Entries(p: Page): set<nat> {
    if p.first.Some? && p.last.Some? then
      set e: nat | 0 <= e <= p.last.value && Between(e, p.first.value, p.last.value)
    else {}
  }

  /** Every entry from one position on, before another, has been delivered. */
  ghost predicate Gapless(delivered: set<nat>, from: nat, end: nat) {
    forall e :: from <= e < end ==> e in delivered
  }

  /** The stored cursor row. A value that a reply does not have leaves the old one in place. */
  datatype Cursor = Cursor(first: Option<nat>, last: Option<nat>, complete: bool)

  function Coalesce(a: Option<nat>, b: Option<nat>): Option<nat> {
    if a.Some? then a else b
  }

  function SetCursor(c: Cursor, first: Option<nat>, last: Option<nat>, complete: bool): Cursor {
    Cursor(Coalesce(first, c.first), Coalesce(last, c.last), complete)
  }

  /** Nothing between the two stored ids is missing. */
  ghost predicate Covered(delivered: set<nat>, c: Cursor) {
    c.first.Some? && c.last.Some? ==> Gapless(delivered, c.first.value, c.last.value + 1)
  }
}

/** The paging loops, run one at a time while the archive grows. */
module MamClient {
  import opened Wrappers
  import opened MamArchive

  /** The server while one operation runs: its archive's length and page limit at each request. */
  datatype Server = Server(length: nat -> nat, size: nat -> nat)

  ghost predicate Grows(s: Server) {
    forall i: nat, j: nat :: i <= j ==> s.length(i) <= s.length(j)
  }

  ghost predicate GivesFullPages(s: Server) {
    forall i: nat :: s.size(i) >= 50
  }

  class Client {
    var cursor: Cursor
    ghost var delivered: set<nat>

    constructor ()
      ensures cursor == Cursor(None, None, false) && delivered == {} && Valid(0)
    {
      cursor := Cursor(None, None, false);
      delivered := {};
    }

    /** What is stored belongs to an archive of this length, and there is no gap in it. */
    ghost predicate Valid(n: nat)
      reads this
    {
      && Covered(delivered, cursor)
      && (cursor.first.Some? ==> cursor.first.value < n && cursor.last.Some?)
      && (cursor.last.Some? ==> cursor.last.value < n)
    }

    /** One page backwards. Whatever `before` is, the ids that are stored then have no gap between
        them, and nothing delivered is lost. */
    method LoadPage(n: nat, size: nat, before: Option<nat>)
      requires Valid(n)
      modifies this
      ensures Valid(n)
      ensures var page := PageBefore(n, if before.Some? then before else old(cursor).first, size);
              && cursor.first == (if page.first.Some? then page.first else old(cursor).first)
              && cursor.last == (if page.last.Some? then page.last else old(cursor).last)
              && cursor.complete == page.complete
              && delivered == old(delivered) + Entries(page)
    {
      var asked := if before.Some? then before else cursor.first;
      var page := PageBefore(n, asked, size);
      delivered := delivered + Entries(page);
      cursor := SetCursor(cursor, page.first, page.last, page.complete);
    }

    /** Page forward from `from`, the newest id, until the server says that this is all, at most
        `limit` times. Ending with `done`, everything after `from`, and everything from the oldest id
        on, up to the end of the archive at the last request has been delivered; otherwise the limit
        was reached, and a server that gives full pages has moved the newest id by `limit` of them. */
    method Follow(server: Server, limit: nat, from: nat) returns (done: bool, requests: nat)
      requires limit > 0 && Grows(server) && Valid(server.length(0)) && cursor.last == Some(from)
      modifies this
      ensures 1 <= requests <= limit && Valid(server.length(requests - 1))
      ensures old(delivered) <= delivered && cursor.first == old(cursor).first && cursor.last.Some?
      ensures done ==> Gapless(delivered, from + 1, server.length(requests - 1))
      ensures done && cursor.first.Some? ==>
                Gapless(delivered, cursor.first.value, server.length(requests - 1))
      ensures !done ==> requests == limit && cursor.last.value >= from + limit
      ensures !done && GivesFullPages(server) ==> cursor.last.value == from + limit * 50
      ensures done ==> cursor.last == Some(server.length(requests - 1) - 1)
    {
      hide PageAfter, Entries;
      var after := from;
      done := false;
      requests := 0;
      while requests < limit
        invariant 0 <= requests <= limit && !done
        invariant Valid(server.length(if requests == 0 then 0 else requests - 1))
        invariant cursor.last == Some(after) && cursor.first == old(cursor).first
        invariant old(delivered) <= delivered
        invariant after >= from + requests && (GivesFullPages(server) ==> after == from + requests * PAGE)
        invariant Gapless(delivered, from + 1, after + 1)
      {
        var n := server.length(requests);
        assert requests > 0 ==> server.length(requests - 1) <= n;
        var page := PageAfter(n, after, server.size(requests));
        PageAfterGoesOn(n, after, server.size(requests));
        delivered := delivered + Entries(page);
        requests := requests + 1;
        if page.last.None? {
          done := true;
          break;
        }
        cursor := SetCursor(cursor, None, page.last, page.complete);
        after := page.last.value;
        if page.complete {
          done := true;
          break;
        }
      }
    }

    /** Catch up on one conversation's archive; with no newest id, load the latest page. */
    method CatchUp(server: Server) returns (done: bool, requests: nat)
      requires Grows(server) && Valid(server.length(0))
      modifies this
      ensures 1 <= requests <= 100 && Valid(server.length(requests - 1))
      ensures old(delivered) <= delivered
      ensures done && cursor.first.Some? ==>
                Gapless(delivered, cursor.first.value, server.length(requests - 1))
      ensures !done ==> old(cursor).last.Some? && cursor.last.Some?
      ensures !done ==> requests == 100 && cursor.last.value >= old(cursor).last.value + 100
      ensures done && old(cursor).last.Some? ==> cursor.last == Some(server.length(requests - 1) - 1)
      ensures old(cursor).last.None? && server.length(0) > 0 ==> cursor.last == Some(server.length(0) - 1) && cursor.first.Some?
    {
      if cursor.last.Some? {
        done, requests := Follow(server, CONVERSATION_PAGES, cursor.last.value);
      } else {
        LoadPage(server.length(0), server.size(0), None);
        done, requests := true, 1;
      }
    }

    /** Catch up on the account's archive, which has no oldest id: the first time, only record where
        the archive ends. */
    method CatchUpAccount(server: Server) returns (done: bool, requests: nat)
      requires Grows(server) && Valid(server.length(0)) && cursor.first.None?
      modifies this
      ensures 1 <= requests <= 200 && Valid(server.length(requests - 1)) && cursor.first.None?
      ensures old(delivered) <= delivered
      ensures done && old(cursor).last.Some? ==>
                Gapless(delivered, old(cursor).last.value + 1, server.length(requests - 1))
      ensures old(cursor).last.None? && server.length(0) > 0 ==> cursor.last == Some(server.length(0) - 1)
      ensures !done ==> old(cursor).last.Some? && cursor.last.Some?
      ensures !done ==> requests == 200 && cursor.last.value >= old(cursor).last.value + 200
      ensures done && old(cursor).last.Some? ==> cursor.last == Some(server.length(requests - 1) - 1)
    {
      if cursor.last.Some? {
        done, requests := Follow(server, ACCOUNT_PAGES, cursor.last.value);
      } else {
        var page := PageBefore(server.length(0), None, server.size(0));
        delivered := delivered + Entries(page);
        if page.last.Some? {
          cursor := SetCursor(cursor, None, page.last, page.complete);
        }
        done, requests := true, 1;
      }
    }
  }
}

/**
  The newest messages of a conversation, and how many of them it takes to reach a given one.

  Time stamps are compared as the database compares their text; here they are numbers in that order.
 */
module RecentMessages {
  import opened Wrappers
  import opened Messages

  const INITIAL_LIMIT: int := 40

  /** `ORDER BY timestamp DESC, id DESC`: `a` comes before `b`. */
  predicate Newer(a: Row, b: Row) {
    a.time > b.time || (a.time == b.time && a.id > b.id)
  }

  predicate NewestFirst(rows: seq<Row>) {
    forall i, j :: 0 <= i < j < |rows| ==> Newer(rows[i], rows[j])
  }

  predicate DistinctIds(rows: seq<Row>) {
    forall i, j :: 0 <= i < j < |rows| ==> rows[i].id != rows[j].id
  }

  function OfConversation(rows: seq<Row>, conversation: int): seq<Row> {
    if rows == [] then []
    else
      OfConversation(rows[..|rows| - 1], conversation)
      + (if rows[|rows| - 1].conversation == conversation then [rows[|rows| - 1]] else [])
  }

  /** `r` put in its place among rows that are newest first. */
  function Placed(r: Row, rows: seq<Row>): seq<Row> {
    if rows == [] then [r]
    else if Newer(r, rows[0]) then [r] + rows
    else [rows[0]] + Placed(r, rows[1..])
  }

  function Ordered(rows: seq<Row>): seq<Row> {
    if rows == [] then [] else Placed(rows[|rows| - 1], Ordered(rows[..|rows| - 1]))
  }

  /** `LIMIT`: a negative one is no limit. */
  function Limited(rows: seq<Row>, limit: int): seq<Row> {
    if limit < 0 || limit >= |rows| then rows else rows[..limit]
  }

  function Reversed(rows: seq<Row>): (r: seq<Row>)
    ensures |r| == |rows| && forall i :: 0 <= i < |rows| ==> r[i] == rows[|rows| - 1 - i]
  {
    seq(|rows|, i requires 0 <= i < |rows| => rows[|rows| - 1 - i])
  }

  /** What the query gives out, newest first. */
  function Fetched(rows: seq<Row>, conversation: int, limit: int): seq<Row> {
    Limited(Ordered(OfConversation(rows, conversation)), limit)
  }

  method RecentMessages(rows: seq<Row>, conversation: int, limit: int) returns (r: array<Row>)
    ensures fresh(r) && r[..] == Reversed(Fetched(rows, conversation, limit))
  {
    hide Fetched;
    var fetched := Fetched(rows, conversation, limit);
    r := new Row[|fetched|](i requires 0 <= i < |fetched| => fetched[i]);
    var i, n := 0, r.Length;
    while i < n / 2
      invariant 0 <= i <= n / 2
      invariant forall k :: 0 <= k < i ==> r[k] == fetched[n - 1 - k] && r[n - 1 - k] == fetched[k]
      invariant forall k :: i <= k < n - i ==> r[k] == fetched[k]
    {
      r[i], r[n - 1 - i] := r[n - 1 - i], r[i];
      i := i + 1;
    }
  }

  /** Rows at least as recent as `t`. */
  predicate Since(r: Row, t: Row) {
    r.time > t.time || (r.time == t.time && r.id >= t.id)
  }

  function CountSinceRow(rows: seq<Row>, conversation: int, t: Row): nat {
    if rows == [] then 0
    else
      CountSinceRow(rows[..|rows| - 1], conversation, t)
      + if rows[|rows| - 1].conversation == conversation && Since(rows[|rows| - 1], t) then 1 else 0
  }

  function RowWithId(rows: seq<Row>, id: nat): Option<Row> {
    if rows == [] then None
    else if rows[|rows| - 1].id == id then Some(rows[|rows| - 1])
    else RowWithId(rows[..|rows| - 1], id)
  }

  /** `count_since`: the join finds nothing when there is no such message. */
  function CountSince(rows: seq<Row>, conversation: int, id: nat): nat {
    match RowWithId(rows, id)
    case Some(t) => CountSinceRow(rows, conversation, t)
    case None => 0
  }

  // ---- ordering ----------------------------------------------------------

  /** How many of the rows are at least as recent as `t`. */
  function Rank(rows: seq<Row>, t: Row): nat {
    if rows == [] then 0 else (if Since(rows[0], t) then 1 else 0) + Rank(rows[1..], t)
  }

  lemma {:induction false} RankAppended(a: seq<Row>, b: seq<Row>, t: Row)
    ensures Rank(a + b, t) == Rank(a, t) + Rank(b, t)
  {
    if a == [] {
      assert a + b == b;
    } else {
      assert (a + b)[1..] == a[1..] + b;
      RankAppended(a[1..], b, t);
    }
  }

  lemma {:induction false} PlacedKeepsRank(r: Row, rows: seq<Row>, t: Row)
    ensures Rank(Placed(r, rows), t) == Rank(rows, t) + if Since(r, t) then 1 else 0
  {
    if rows == [] {
      assert [r][1..] == [];
    } else if Newer(r, rows[0]) {
      assert ([r] + rows)[1..] == rows;
    } else {
      PlacedKeepsRank(r, rows[1..], t);
      assert ([rows[0]] + Placed(r, rows[1..]))[1..] == Placed(r, rows[1..]);
    }
  }

  lemma {:induction false} OrderedKeepsRank(rows: seq<Row>, conversation: int, t: Row)
    ensures Rank(Ordered(OfConversation(rows, conversation)), t) == CountSinceRow(rows, conversation, t)
  {
    if rows != [] {
      var front, r := rows[..|rows| - 1], rows[|rows| - 1];
      OrderedKeepsRank(front, conversation, t);
      if r.conversation == conversation {
        var all := OfConversation(rows, conversation);
        assert all[..|all| - 1] == OfConversation(front, conversation);
        PlacedKeepsRank(r, Ordered(OfConversation(front, conversation)), t);
      } else {
        assert OfConversation(front, conversation) + [] == OfConversation(front, conversation);
      }
    }
  }

  lemma {:induction false} PlacedMembers(r: Row, rows: seq<Row>)
    ensures forall x :: x in Placed(r, rows) <==> x == r || x in rows
  {
    if rows != [] && !Newer(r, rows[0]) {
      PlacedMembers(r, rows[1..]);
      assert rows == [rows[0]] + rows[1..];
    }
  }

  lemma {:induction false} OrderedMembers(rows: seq<Row>)
    ensures forall x :: x in Ordered(rows) <==> x in rows
  {
    if rows != [] {
      OrderedMembers(rows[..|rows| - 1]);
      PlacedMembers(rows[|rows| - 1], Ordered(rows[..|rows| - 1]));
      assert rows == rows[..|rows| - 1] + [rows[|rows| - 1]];
    }
  }

  lemma {:induction false} ConversationMembers(rows: seq<Row>, conversation: int)
    ensures forall x :: x in OfConversation(rows, conversation) <==> x in rows && x.conversation == conversation
  {
    if rows != [] {
      ConversationMembers(rows[..|rows| - 1], conversation);
      assert rows == rows[..|rows| - 1] + [rows[|rows| - 1]];
    }
  }

  lemma {:induction false} PlacedStaysOrdered(r: Row, rows: seq<Row>)
    requires NewestFirst(rows) && forall x :: x in rows ==> x.id != r.id
    ensures NewestFirst(Placed(r, rows))
  {
    if rows == [] {
    } else if Newer(r, rows[0]) {
      var all := [r] + rows;
      forall i, j | 0 <= i < j < |all| ensures Newer(all[i], all[j]) {
        if i == 0 && j > 1 {
          assert Newer(rows[0], rows[j - 1]);
        }
      }
    } else {
      PlacedStaysOrdered(r, rows[1..]);
      PlacedMembers(r, rows[1..]);
      var rest := Placed(r, rows[1..]);
      forall j | 0 <= j < |rest| ensures Newer(rows[0], rest[j]) {
        assert rest[j] in rest;
        if rest[j] != r {
          var k :| 0 <= k < |rows[1..]| && rows[1..][k] == rest[j];
          assert Newer(rows[0], rows[k + 1]);
        } else {
          assert rows[0] in rows;
        }
      }
    }
  }

  lemma {:induction false} OrderedIsNewestFirst(rows: seq<Row>)
    requires DistinctIds(rows)
    ensures NewestFirst(Ordered(rows))
  {
    if rows != [] {
      var k := |rows| - 1;
      OrderedIsNewestFirst(rows[..k]);
      OrderedMembers(rows[..k]);
      forall x | x in Ordered(rows[..k]) ensures x.id != rows[k].id {
        var i :| 0 <= i < k && rows[..k][i] == x;
      }
      PlacedStaysOrdered(rows[k], Ordered(rows[..k]));
    }
  }

  lemma {:induction false} ConversationIdsAreDistinct(rows: seq<Row>, conversation: int)
    requires DistinctIds(rows)
    ensures DistinctIds(OfConversation(rows, conversation))
  {
    if rows != [] {
      var k := |rows| - 1;
      var front := OfConversation(rows[..k], conversation);
      ConversationIdsAreDistinct(rows[..k], conversation);
      ConversationMembers(rows[..k], conversation);
      forall i | 0 <= i < |front| ensures front[i].id != rows[k].id {
        assert front[i] in front;
        var j :| 0 <= j < k && rows[..k][j] == front[i];
      }
    }
  }

  // ---- rank and position -------------------------------------------------

  lemma {:induction false} AllSince(rows: seq<Row>, t: Row)
    requires forall i :: 0 <= i < |rows| ==> Since(rows[i], t)
    ensures Rank(rows, t) == |rows|
  {
    if rows != [] {
      assert Since(rows[0], t);
      AllSince(rows[1..], t);
    }
  }

  lemma {:induction false} NoneSince(rows: seq<Row>, t: Row)
    requires forall i :: 0 <= i < |rows| ==> !Since(rows[i], t)
    ensures Rank(rows, t) == 0
  {
    if rows != [] {
      assert !Since(rows[0], t);
      NoneSince(rows[1..], t);
    }
  }

  /** Among rows that are newest first, the one at `i` has `i + 1` rows at least as recent. */
  lemma RankIsPosition(rows: seq<Row>, i: nat)
    requires NewestFirst(rows) && i < |rows|
    ensures Rank(rows, rows[i]) == i + 1
  {
    hide Rank;
    var t := rows[i];
    var upTo, rest := rows[..i + 1], rows[i + 1..];
    assert rows == upTo + rest;
    RankAppended(upTo, rest, t);
    forall k | 0 <= k < |upTo| ensures Since(upTo[k], t) {
      if k < i {
        assert Newer(rows[k], rows[i]);
      }
    }
    AllSince(upTo, t);
    forall k | 0 <= k < |rest| ensures !Since(rest[k], t) {
      assert Newer(rows[i], rows[i + 1 + k]);
    }
    NoneSince(rest, t);
  }

  lemma {:induction false} FoundById(rows: seq<Row>, m: Row)
    requires DistinctIds(rows) && m in rows
    ensures RowWithId(rows, m.id) == Some(m)
  {
    var k := |rows| - 1;
    if rows[k] != m {
      var i :| 0 <= i < |rows| && rows[i] == m;
      assert rows[..k][i] == m;
      assert rows[i].id != rows[k].id;
      FoundById(rows[..k], m);
    }
  }

  /** Main result: the newest `limit` messages of a conversation contain one of its messages exactly
      when the limit is at least the count since that message, or there is no limit; at equality it is
      the oldest of them, which comes first. */
  lemma LimitReachesMessageIff(rows: seq<Row>, conversation: int, limit: int, m: Row)
    requires DistinctIds(rows) && m in rows && m.conversation == conversation
    ensures var shown := Reversed(Fetched(rows, conversation, limit));
            var count := CountSince(rows, conversation, m.id);
            && count >= 1
            && (m in shown <==> limit < 0 || limit >= count)
            && (limit == count ==> |shown| == count && shown[0] == m)
  {
    var ordered := Ordered(OfConversation(rows, conversation));
    ConversationMembers(rows, conversation);
    ConversationIdsAreDistinct(rows, conversation);
    OrderedMembers(OfConversation(rows, conversation));
    OrderedIsNewestFirst(OfConversation(rows, conversation));
    var i :| 0 <= i < |ordered| && ordered[i] == m;
    RankIsPosition(ordered, i);
    OrderedKeepsRank(rows, conversation, m);
    FoundById(rows, m);
    ShownIff(ordered, limit, i);
  }

  lemma ShownIff(ordered: seq<Row>, limit: int, i: nat)
    requires NewestFirst(ordered) && i < |ordered|
    ensures var shown := Reversed(Limited(ordered, limit));
            && (ordered[i] in shown <==> limit < 0 || limit >= i + 1)
            && (limit == i + 1 ==> |shown| == i + 1 && shown[0] == ordered[i])
  {
    var limited := Limited(ordered, limit);
    var shown := Reversed(limited);
    if limit < 0 || limit >= i + 1 {
      assert shown[|limited| - 1 - i] == ordered[i];
    } else {
      forall k | 0 <= k < |shown| ensures shown[k] != ordered[i] {
        assert Newer(ordered[|limited| - 1 - k], ordered[i]);
      }
    }
  }

  /** `a` was sent before `b`, or at the same time and stored before it. */
  predicate Before(a: Row, b: Row) {
    a.time < b.time || (a.time == b.time && a.id < b.id)
  }

  /** Main result: what is shown of a conversation is its newest messages, as many as the limit allows or
      there are, and the oldest of them comes first. */
  lemma ShownAreTheNewest(rows: seq<Row>, conversation: int, limit: int)
    requires DistinctIds(rows)
    ensures var shown := Reversed(Fetched(rows, conversation, limit));
            && (forall i, j :: 0 <= i < j < |shown| ==> Before(shown[i], shown[j]))
            && (forall r :: r in shown ==> r in rows && r.conversation == conversation)
            && (forall r, x :: r in rows && r.conversation == conversation && r !in shown && x in shown ==> Before(r, x))
            && (limit >= 0 ==> |shown| <= limit)
            && (limit < 0 || |shown| < limit ==>
                  forall r :: r in rows && r.conversation == conversation ==> r in shown)
  {
    var ordered := Ordered(OfConversation(rows, conversation));
    ConversationMembers(rows, conversation);
    ConversationIdsAreDistinct(rows, conversation);
    OrderedMembers(OfConversation(rows, conversation));
    OrderedIsNewestFirst(OfConversation(rows, conversation));
    var limited := Limited(ordered, limit);
    var shown := Reversed(limited);
    hide Ordered, OfConversation;
    forall i, j | 0 <= i < j < |shown| ensures Before(shown[i], shown[j]) {
      assert Newer(ordered[|limited| - 1 - j], ordered[|limited| - 1 - i]);
    }
    ReversedMembers(limited);
    forall r, x | r in ordered && r !in shown && x in shown ensures Before(r, x) {
      var k :| 0 <= k < |ordered| && ordered[k] == r;
      var i :| 0 <= i < |limited| && limited[i] == x;
      assert forall j :: 0 <= j < |limited| ==> ordered[j] in limited;
      assert k >= |limited|;
      assert Newer(ordered[i], ordered[k]);
    }
  }

  lemma ReversedMembers(rows: seq<Row>)
    ensures forall r :: r in Reversed(rows) <==> r in rows
  {
    forall r | r in rows ensures r in Reversed(rows) {
      var i :| 0 <= i < |rows| && rows[i] == r;
      assert Reversed(rows)[|rows| - 1 - i] == r;
    }
  }

  function SinceIn(rows: seq<Row>, conversation: int, m: Row): set<Row> {
    set r | r in rows && r.conversation == conversation && (r.time > m.time || (r.time == m.time && r.id >= m.id))
  }

  /** The count is how many messages of the conversation are at least as recent. */
  lemma {:induction false} CountIsHowMany(rows: seq<Row>, conversation: int, m: Row)
    requires DistinctIds(rows)
    ensures CountSinceRow(rows, conversation, m) == |SinceIn(rows, conversation, m)|
  {
    if rows != [] {
      var front, r := rows[..|rows| - 1], rows[|rows| - 1];
      CountIsHowMany(front, conversation, m);
      assert rows == front + [r];
      assert forall i :: 0 <= i < |front| ==> front[i] == rows[i] && front[i].id != r.id;
      assert r !in front;
      SinceOneMore(front, r, conversation, m);
    }
  }

  /** Nothing is at least as recent as a message that is not there. */
  lemma {:induction false} CountOfAMissingRow(rows: seq<Row>, conversation: int, id: nat)
    requires forall i :: 0 <= i < |rows| ==> rows[i].id != id
    ensures RowWithId(rows, id) == None && CountSince(rows, conversation, id) == 0
  {
    if rows != [] {
      CountOfAMissingRow(rows[..|rows| - 1], conversation, id);
    }
  }

  lemma SinceOneMore(front: seq<Row>, r: Row, conversation: int, m: Row)
    requires r !in front
    ensures |SinceIn(front + [r], conversation, m)|
              == |SinceIn(front, conversation, m)| + if r.conversation == conversation && Since(r, m) then 1 else 0
  {
    var more := if r.conversation == conversation && Since(r, m) then {r} else {};
    assert SinceIn(front + [r], conversation, m) == SinceIn(front, conversation, m) + more;
  }

  /** `load_messages_around`: as many as it takes, and a first page more. */
  function LimitAround(count: int): int {
    if count + INITIAL_LIMIT < INITIAL_LIMIT then INITIAL_LIMIT else count + INITIAL_LIMIT
  }

  lemma {:induction false} CountAppended(rows: seq<Row>, more: seq<Row>, conversation: int, t: Row)
    ensures CountSinceRow(rows + more, conversation, t)
              == CountSinceRow(rows, conversation, t) + CountSinceRow(more, conversation, t)
    decreases |more|
  {
    var all := rows + more;
    if more == [] {
      assert all == rows;
    } else {
      assert all[..|all| - 1] == rows + more[..|more| - 1];
      CountAppended(rows, more[..|more| - 1], conversation, t);
    }
  }

  /** Filling in ids moves no row. */
  lemma {:induction false} CountFilled(rows: seq<Row>, later: seq<Row>, conversation: int, t: Row, u: Row)
    requires OnlyFilled(rows, later) && |rows| == |later| && t.time == u.time && t.id == u.id
    ensures CountSinceRow(rows, conversation, t) == CountSinceRow(later, conversation, u)
    decreases |rows|
  {
    if rows != [] {
      CountFilled(rows[..|rows| - 1], later[..|rows| - 1], conversation, t, u);
    }
  }

  lemma CountLater(rows: seq<Row>, later: seq<Row>, conversation: int, k: nat)
    requires DistinctIds(rows) && DistinctIds(later) && OnlyFilled(rows, later) && k < |rows|
    ensures CountSince(later, conversation, rows[k].id)
              == CountSince(rows, conversation, rows[k].id) + CountSinceRow(later[|rows|..], conversation, rows[k])
  {
    var n := |rows|;
    assert later == later[..n] + later[n..];
    FoundById(rows, rows[k]);
    FoundById(later, later[k]);
    CountAppended(later[..n], later[n..], conversation, later[k]);
    CountFilled(rows, later[..n], conversation, rows[k], later[k]);
    SameTimeAndId(later[n..], conversation, rows[k], later[k]);
  }

  lemma {:induction false} SameTimeAndId(rows: seq<Row>, conversation: int, t: Row, u: Row)
    requires t.time == u.time && t.id == u.id
    ensures CountSinceRow(rows, conversation, t) == CountSinceRow(rows, conversation, u)
  {
    if rows != [] {
      SameTimeAndId(rows[..|rows| - 1], conversation, t, u);
    }
  }

  /** Main result: the rows are counted first and fetched later, and deliveries may come in between. The
      message jumped to is loaded exactly while at most forty of its conversation that came in meanwhile
      are at least as recent; then it has as many of the forty older ones before it as were not taken
      by those, unless the whole conversation is shown. */
  lemma JumpTargetIsLoadedIff(rows: seq<Row>, later: seq<Row>, conversation: int, k: nat)
    requires DistinctIds(rows) && DistinctIds(later) && OnlyFilled(rows, later)
    requires k < |rows| && rows[k].conversation == conversation
    ensures var m := later[k];
            var limit := LimitAround(CountSince(rows, conversation, rows[k].id));
            var arrived := CountSinceRow(later[|rows|..], conversation, rows[k]);
            var shown := Reversed(Fetched(later, conversation, limit));
            && limit > 40
            && (m in shown <==> arrived <= 40)
            && (arrived <= 40 ==>
                  exists i :: 0 <= i < |shown| && shown[i] == m
                    && (i == 40 - arrived || |shown| == |OfConversation(later, conversation)|))
  {
    hide Fetched, CountSince, CountSinceRow;
    var m := later[k];
    var limit := LimitAround(CountSince(rows, conversation, rows[k].id));
    var arrived := CountSinceRow(later[|rows|..], conversation, rows[k]);
    CountLater(rows, later, conversation, k);
    LimitReachesMessageIff(rows, conversation, 0, rows[k]);
    LimitReachesMessageIff(later, conversation, limit, m);
    if arrived <= INITIAL_LIMIT {
      FromTheEnd(later, conversation, limit, m);
    }
  }

  /** A loaded message stands at its count from the end. */
  lemma FromTheEnd(rows: seq<Row>, conversation: int, limit: int, m: Row)
    requires DistinctIds(rows) && m in rows && m.conversation == conversation
    requires limit >= CountSince(rows, conversation, m.id)
    ensures var shown := Reversed(Fetched(rows, conversation, limit));
            var i := |shown| - CountSince(rows, conversation, m.id);
            && 0 <= i < |shown| && shown[i] == m
            && (|shown| == limit || |shown| == |OfConversation(rows, conversation)|)
  {
    var count := CountSince(rows, conversation, m.id);
    LimitReachesMessageIff(rows, conversation, count, m);
    var ordered := Ordered(OfConversation(rows, conversation));
    OrderedLength(OfConversation(rows, conversation));
    assert Reversed(Fetched(rows, conversation, count))[0] == ordered[count - 1];
  }

  lemma {:induction false} OrderedLength(rows: seq<Row>)
    ensures |Ordered(rows)| == |rows|
  {
    if rows != [] {
      OrderedLength(rows[..|rows| - 1]);
      PlacedLength(rows[|rows| - 1], Ordered(rows[..|rows| - 1]));
    }
  }

  lemma {:induction false} PlacedLength(r: Row, rows: seq<Row>)
    ensures |Placed(r, rows)| == |rows| + 1
  {
    if rows != [] && !Newer(r, rows[0]) {
      PlacedLength(r, rows[1..]);
    }
  }
}

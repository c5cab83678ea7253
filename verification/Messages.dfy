/**
  The message table: inserting without duplicates, and filling in ids that were not known at first.

  `rows` is the table in insertion order. The query that looks for a stored copy takes any one of the
  rows that match; which one is not fixed, so what holds here holds whichever it takes.
 */
module Messages {
  import opened Wrappers

  datatype Row = Row(id: nat, conversation: int, stanza: Option<string>, origin: Option<string>,
                     occupant: Option<string>, time: int)

  datatype NewMessage = NewMessage(conversation: int, stanza: Option<string>, origin: Option<string>,
                                   occupant: Option<string>, time: int)

  /** A stored copy: the same conversation, and an id that is there and the same. */
  predicate Matches(r: Row, m: NewMessage) {
    && r.conversation == m.conversation
    && ((r.stanza.Some? && r.stanza == m.stanza) || (r.origin.Some? && r.origin == m.origin))
  }

  function Coalesce(a: Option<string>, b: Option<string>): Option<string> {
    if a.Some? then a else b
  }

  function Filled(r: Row, stanza: Option<string>, occupant: Option<string>): Row {
    r.(stanza := Coalesce(r.stanza, stanza), occupant := Coalesce(r.occupant, occupant))
  }

  function RowOf(m: NewMessage, id: nat): Row {
    Row(id, m.conversation, m.stanza, m.origin, m.occupant, m.time)
  }

  predicate IsStored(rows: seq<Row>, m: NewMessage) {
    exists k :: 0 <= k < |rows| && Matches(rows[k], m)
  }

  /** `after` is the table after the delivery of `m`: a new last row if there is no copy; otherwise one
      copy has its missing ids filled in. */
  ghost predicate Delivered(before: seq<Row>, after: seq<Row>, m: NewMessage) {
    if IsStored(before, m) then
      exists k :: 0 <= k < |before| && Matches(before[k], m) && after == before[k := Filled(before[k], m.stanza, m.occupant)]
    else after == before + [RowOf(m, |before| + 1)]
  }

  /** The table after the room's own ids were filled in for the rows with this origin id. */
  function Backfilled(rows: seq<Row>, conversation: int, origin: string, stanza: string, occupant: Option<string>)
    : (r: seq<Row>)
    ensures |r| == |rows|
    ensures forall k :: 0 <= k < |rows| ==>
              r[k] == if rows[k].conversation == conversation && rows[k].origin == Some(origin)
                      then Filled(rows[k], Some(stanza), occupant) else rows[k]
  {
    seq(|rows|, k requires 0 <= k < |rows| =>
      if rows[k].conversation == conversation && rows[k].origin == Some(origin)
      then Filled(rows[k], Some(stanza), occupant) else rows[k])
  }

  class Store {
    var rows: seq<Row>
    var nextId: nat

    constructor ()
      ensures rows == [] && nextId == 1 && Valid()
    {
      rows, nextId := [], 1;
    }

    /** Rows are numbered in turn, and no two rows of a conversation share an origin id. */
    predicate Valid()
      reads this
    {
      nextId == |rows| + 1 && Numbered(rows) && UniqueOrigins(rows)
    }

    /** Returns the new row's id, or nothing for a copy. */
    method InsertMessage(m: NewMessage) returns (id: Option<nat>)
      requires Valid()
      modifies this
      ensures Valid() && Delivered(old(rows), rows, m) && OnlyFilled(old(rows), rows)
      ensures id == if IsStored(old(rows), m) then None else Some(old(nextId))
      ensures KnownByStanza(old(rows), m) || KnownByOrigin(old(rows), m) ==> id == None && |rows| == |old(rows)|
      ensures !KnownByStanza(old(rows), m) && !KnownByOrigin(old(rows), m) ==>
                && id == Some(|old(rows)| + 1)
                && rows == old(rows) + [Row(|old(rows)| + 1, m.conversation, m.stanza, m.origin, m.occupant, m.time)]
      ensures exists k :: 0 <= k < |rows| && SamePlace(rows[k], m)
    {
      KnownMeansStored(rows, m);
      ghost var before := rows;
      if m.stanza.Some? || m.origin.Some? {
        if k :| 0 <= k < |rows| && Matches(rows[k], m) {
          rows := rows[k := Filled(rows[k], m.stanza, m.occupant)];
          DeliveryOnlyFills(before, rows, m);
          DeliveryKeepsOriginsUnique(before, rows, m);
          assert SamePlace(rows[k], m);
          return None;
        }
      }
      rows := rows + [RowOf(m, nextId)];
      id := Some(nextId);
      nextId := nextId + 1;
      DeliveryOnlyFills(before, rows, m);
      DeliveryKeepsOriginsUnique(before, rows, m);
      assert SamePlace(rows[|before|], m);
    }

    method BackfillStanzaId(conversation: int, origin: string, stanza: string, occupant: Option<string>)
      requires Valid()
      modifies this
      ensures Valid() && rows == Backfilled(old(rows), conversation, origin, stanza, occupant)
      ensures OnlyFilled(old(rows), rows) && nextId == old(nextId)
    {
      rows := Backfilled(rows, conversation, origin, stanza, occupant);
    }
  }

  predicate Numbered(rows: seq<Row>) {
    forall i :: 0 <= i < |rows| ==> rows[i].id == i + 1
  }

  // ---- what a delivery does, spelled out ---------------------------------

  /** A row of the conversation has the stanza id of the message. */
  predicate KnownByStanza(rows: seq<Row>, m: NewMessage) {
    exists k :: 0 <= k < |rows| && rows[k].conversation == m.conversation && rows[k].stanza.Some? && rows[k].stanza == m.stanza
  }

  predicate KnownByOrigin(rows: seq<Row>, m: NewMessage) {
    exists k :: 0 <= k < |rows| && rows[k].conversation == m.conversation && rows[k].origin.Some? && rows[k].origin == m.origin
  }

  lemma KnownMeansStored(rows: seq<Row>, m: NewMessage)
    ensures IsStored(rows, m) <==> KnownByStanza(rows, m) || KnownByOrigin(rows, m)
  {
    if k :| 0 <= k < |rows| && rows[k].conversation == m.conversation && rows[k].stanza.Some? && rows[k].stanza == m.stanza {
      assert Matches(rows[k], m);
    } else if k :| 0 <= k < |rows| && rows[k].conversation == m.conversation
                   && rows[k].origin.Some? && rows[k].origin == m.origin {
      assert Matches(rows[k], m);
    }
  }

  /** `b` is `a` with the message's stanza and occupant ids where it had none of its own. */
  predicate TakesMissing(a: Row, b: Row, m: NewMessage) {
    && b.stanza == (if a.stanza.None? then m.stanza else a.stanza)
    && b.occupant == (if a.occupant.None? then m.occupant else a.occupant)
    && b.id == a.id && b.conversation == a.conversation && b.origin == a.origin && b.time == a.time
  }

  /** Main result: a message that is known by one of its ids adds no row; one row that has this id takes
      the ids it was missing and the others stay. Any other message is added as it is. */
  lemma DeliveredIff(before: seq<Row>, after: seq<Row>, m: NewMessage)
    ensures Delivered(before, after, m) <==>
              if KnownByStanza(before, m) || KnownByOrigin(before, m) then
                && |after| == |before|
                && exists k :: 0 <= k < |before| && TookMissing(before, after, m, k)
              else
                && |after| == |before| + 1 && after[..|before|] == before
                && after[|before|] == Row(|before| + 1, m.conversation, m.stanza, m.origin, m.occupant, m.time)
  {
    KnownMeansStored(before, m);
    if IsStored(before, m) {
      if Delivered(before, after, m) {
        var k := StoredCopy(before, after, m);
        assert TookMissing(before, after, m, k);
      }
      if |after| == |before| {
        if k :| 0 <= k < |before| && TookMissing(before, after, m, k) {
          assert after[k] == Filled(before[k], m.stanza, m.occupant);
          assert after == before[k := after[k]];
          assert Matches(before[k], m);
        }
      }
    } else {
      assert |after| == |before| + 1 ==> after == after[..|before|] + [after[|before|]];
    }
  }

  predicate TookMissing(before: seq<Row>, after: seq<Row>, m: NewMessage, k: nat)
    requires k < |before| == |after|
  {
    && before[k].conversation == m.conversation
    && ((before[k].stanza.Some? && before[k].stanza == m.stanza) || (before[k].origin.Some? && before[k].origin == m.origin))
    && TakesMissing(before[k], after[k], m)
    && forall i :: 0 <= i < |before| && i != k ==> after[i] == before[i]
  }

  /** What a message leaves behind is known from then on. */
  lemma KnownAfterDelivery(before: seq<Row>, after: seq<Row>, m: NewMessage)
    requires Delivered(before, after, m) && (m.stanza.Some? || m.origin.Some?)
    ensures KnownByStanza(after, m) || KnownByOrigin(after, m)
  {
    if IsStored(before, m) {
      var k := StoredCopy(before, after, m);
      assert Matches(after[k], m);
    } else {
      assert Matches(after[|before|], m);
    }
    KnownMeansStored(after, m);
  }

  lemma KnownStays(before: seq<Row>, after: seq<Row>, m: NewMessage)
    requires OnlyFilled(before, after) && (KnownByStanza(before, m) || KnownByOrigin(before, m))
    ensures KnownByStanza(after, m) || KnownByOrigin(after, m)
  {
    KnownMeansStored(before, m);
    var k :| 0 <= k < |before| && Matches(before[k], m);
    assert Matches(after[k], m);
    KnownMeansStored(after, m);
  }

  lemma {:induction false} KnownFromThenOn(tables: seq<seq<Row>>, ms: seq<NewMessage>, i: nat, j: nat)
    requires IsRun(tables, ms) && i < j <= |ms| && (ms[i].stanza.Some? || ms[i].origin.Some?)
    ensures KnownByStanza(tables[j], ms[i]) || KnownByOrigin(tables[j], ms[i])
    decreases j
  {
    hide Delivered, KnownByStanza, KnownByOrigin, OnlyFilled;
    assert Delivered(tables[j - 1], tables[j], ms[j - 1]);
    if i == j - 1 {
      KnownAfterDelivery(tables[i], tables[j], ms[i]);
    } else {
      KnownFromThenOn(tables, ms, i, j - 1);
      DeliveryOnlyFills(tables[j - 1], tables[j], ms[j - 1]);
      KnownStays(tables[j - 1], tables[j], ms[i]);
    }
  }

  /** Main result: in every run, a message with a stanza id or an origin id that is delivered again, live
      or from the archive, never adds a row, whatever was delivered in between. */
  lemma NothingIsStoredTwice(tables: seq<seq<Row>>, ms: seq<NewMessage>, i: nat, j: nat)
    requires IsRun(tables, ms) && i < j < |ms| && (ms[i].stanza.Some? || ms[i].origin.Some?)
    requires ms[j].conversation == ms[i].conversation && ms[j].stanza == ms[i].stanza && ms[j].origin == ms[i].origin
    ensures |tables[j + 1]| == |tables[j]|
  {
    hide Delivered;
    KnownFromThenOn(tables, ms, i, j);
    assert KnownByStanza(tables[j], ms[j]) || KnownByOrigin(tables[j], ms[j]) by {
      SameIdsKnown(tables[j], ms[i], ms[j]);
    }
    assert Delivered(tables[j], tables[j + 1], ms[j]);
    DeliveredIff(tables[j], tables[j + 1], ms[j]);
  }

  lemma SameIdsKnown(rows: seq<Row>, m: NewMessage, n: NewMessage)
    requires m.conversation == n.conversation && m.stanza == n.stanza && m.origin == n.origin
    ensures KnownByStanza(rows, m) <==> KnownByStanza(rows, n)
    ensures KnownByOrigin(rows, m) <==> KnownByOrigin(rows, n)
  {
  }

  // ---- what no step breaks -----------------------------------------------

  predicate SameOrigin(a: Row, b: Row) {
    a.conversation == b.conversation && a.origin.Some? && a.origin == b.origin
  }

  predicate SameStanza(a: Row, b: Row) {
    a.conversation == b.conversation && a.stanza.Some? && a.stanza == b.stanza
  }

  predicate UniqueOrigins(rows: seq<Row>) {
    forall i, j :: 0 <= i < j < |rows| ==> !SameOrigin(rows[i], rows[j])
  }

  predicate UniqueStanzas(rows: seq<Row>) {
    forall i, j :: 0 <= i < j < |rows| ==> !SameStanza(rows[i], rows[j])
  }

  /** Where a delivered message is found afterwards: under one of its ids, or as its own row. */
  predicate SamePlace(r: Row, m: NewMessage) {
    && r.conversation == m.conversation
    && (Matches(r, m) || (r.stanza == m.stanza && r.origin == m.origin))
  }

  /** No row is lost or moved; ids, origin ids and times stay; an id that is set never changes. */
  predicate OnlyFilled(before: seq<Row>, after: seq<Row>) {
    && |before| <= |after|
    && forall k :: 0 <= k < |before| ==>
         && after[k] == before[k].(stanza := after[k].stanza, occupant := after[k].occupant)
         && (before[k].stanza.Some? ==> after[k].stanza == before[k].stanza)
         && (before[k].occupant.Some? ==> after[k].occupant == before[k].occupant)
  }

  lemma DeliveryOnlyFills(before: seq<Row>, after: seq<Row>, m: NewMessage)
    requires Delivered(before, after, m)
    ensures OnlyFilled(before, after)
  {
  }

  lemma DeliveryKeepsOriginsUnique(before: seq<Row>, after: seq<Row>, m: NewMessage)
    requires UniqueOrigins(before) && Delivered(before, after, m)
    ensures UniqueOrigins(after)
  {
    DeliveryOnlyFills(before, after, m);
    forall i, j | 0 <= i < j < |after| ensures !SameOrigin(after[i], after[j]) {
      if j < |before| {
        assert !SameOrigin(before[i], before[j]);
      } else {
        assert !Matches(before[i], m);
      }
    }
  }

  /** Stanza ids are another matter. Filling one in keeps them unique exactly when the row already has
      one, or no other row of the conversation has the id that is filled in. */
  lemma FillingKeepsStanzasUniqueIff(rows: seq<Row>, k: nat, stanza: Option<string>, occupant: Option<string>)
    requires UniqueStanzas(rows) && k < |rows|
    ensures UniqueStanzas(rows[k := Filled(rows[k], stanza, occupant)]) <==>
              || rows[k].stanza.Some?
              || stanza.None?
              || forall i :: 0 <= i < |rows| && i != k ==>
                   rows[i].conversation == rows[k].conversation ==> rows[i].stanza != stanza
  {
    var after := rows[k := Filled(rows[k], stanza, occupant)];
    if rows[k].stanza.None? && stanza.Some? {
      if i :| 0 <= i < |rows| && i != k && rows[i].conversation == rows[k].conversation && rows[i].stanza == stanza {
        assert SameStanza(after[i], after[k]) && SameStanza(after[k], after[i]);
      }
    }
    forall i, j | 0 <= i < j < |rows| && i != k && j != k ensures !SameStanza(after[i], after[j]) {
      assert !SameStanza(rows[i], rows[j]);
    }
    forall i | 0 <= i < |rows| && i != k ensures !SameStanza(rows[i], rows[k]) && !SameStanza(rows[k], rows[i]) {
      if i < k {
        assert !SameStanza(rows[i], rows[k]);
      } else {
        assert !SameStanza(rows[k], rows[i]);
      }
    }
  }

  /** Three deliveries are enough: the first copy without its stanza id, another message under that
      id, then the first one again, with it. */
  lemma StanzaIdsCanRepeat(time: int)
    ensures var first := NewMessage(1, None, Some("a"), None, time);
            var other := NewMessage(1, Some("s"), Some("b"), None, time);
            var again := first.(stanza := Some("s"));
            var a, b := RowOf(first, 1), RowOf(other, 2);
            var last := [RowOf(again, 1), b];
            && IsRun([[], [a], [a, b], last], [first, other, again])
            && UniqueStanzas([a, b]) && !UniqueStanzas(last)
  {
    var first := NewMessage(1, None, Some("a"), None, time);
    var other := NewMessage(1, Some("s"), Some("b"), None, time);
    var again := first.(stanza := Some("s"));
    var a, b := RowOf(first, 1), RowOf(other, 2);
    var last := [RowOf(again, 1), b];
    assert "a"[0] != "b"[0];
    assert Delivered([], [a], first);
    assert [a] + [b] == [a, b];
    assert !IsStored([a], other) && Delivered([a], [a, b], other);
    assert Matches([a, b][0], again) && [a, b][0 := Filled(a, again.stanza, again.occupant)] == last;
    assert Delivered([a, b], last, again);
    assert SameStanza(last[0], last[1]);
    var tables, ms := [[], [a], [a, b], last], [first, other, again];
    forall k | 0 <= k < 3 ensures Delivered(tables[k], tables[k + 1], ms[k]) {}
  }

  // ---- order and repetition ----------------------------------------------

  /** A delivery as far as ids go: conversation, origin id, and stanza id if it carries one. */
  datatype Ids = Ids(conversation: int, origin: string, stanza: Option<string>)

  function IdsOf(m: NewMessage): Ids
    requires m.origin.Some?
  {
    Ids(m.conversation, m.origin.value, m.stanza)
  }

  /** A run of deliveries from an empty table. */
  ghost predicate IsRun(tables: seq<seq<Row>>, ms: seq<NewMessage>) {
    && |tables| == |ms| + 1 && tables[0] == []
    && forall k :: 0 <= k < |ms| ==> Delivered(tables[k], tables[k + 1], ms[k])
  }

  function Seen(ms: seq<NewMessage>): set<Ids>
    requires forall k :: 0 <= k < |ms| ==> ms[k].origin.Some?
  {
    set k | 0 <= k < |ms| :: IdsOf(ms[k])
  }

  /** Within a conversation, one origin id goes with one stanza id and the other way round. */
  ghost predicate OneToOne(seen: set<Ids>) {
    forall a, b :: a in seen && b in seen && a.conversation == b.conversation && a.stanza.Some? && b.stanza.Some? ==>
      (a.origin == b.origin <==> a.stanza == b.stanza)
  }

  /** A row is what the deliveries say of its origin id. */
  ghost predicate RowSettled(r: Row, seen: set<Ids>) {
    && r.origin.Some?
    && (exists d :: d in seen && d.conversation == r.conversation && d.origin == r.origin.value)
    && (forall s :: Ids(r.conversation, r.origin.value, Some(s)) in seen <==> r.stanza == Some(s))
  }

  predicate HasRow(rows: seq<Row>, d: Ids) {
    exists k :: 0 <= k < |rows| && rows[k].conversation == d.conversation && rows[k].origin == Some(d.origin)
  }

  ghost predicate Settled(rows: seq<Row>, seen: set<Ids>) {
    && UniqueOrigins(rows)
    && (forall k :: 0 <= k < |rows| ==> RowSettled(rows[k], seen))
    && (forall d :: d in seen ==> HasRow(rows, d))
  }

  lemma RowStaysSettled(r: Row, seen: set<Ids>, m: NewMessage)
    requires RowSettled(r, seen) && m.origin.Some?
    requires r.conversation != m.conversation || r.origin != m.origin
    ensures RowSettled(r, seen + {IdsOf(m)})
  {
  }

  lemma FilledRowIsSettled(r: Row, seen: set<Ids>, m: NewMessage)
    requires RowSettled(r, seen) && m.origin.Some? && OneToOne(seen + {IdsOf(m)})
    requires r.conversation == m.conversation && r.origin == m.origin
    ensures RowSettled(Filled(r, m.stanza, m.occupant), seen + {IdsOf(m)})
  {
    var all := seen + {IdsOf(m)};
    var f := Filled(r, m.stanza, m.occupant);
    forall s ensures Ids(r.conversation, r.origin.value, Some(s)) in all <==> f.stanza == Some(s) {
      if m.stanza.Some? && r.stanza.Some? {
        assert Ids(r.conversation, r.origin.value, r.stanza) in seen;
        assert m.stanza == r.stanza;
      }
    }
  }

  lemma RowGivesIds(r: Row, seen: set<Ids>)
    requires RowSettled(r, seen) && r.stanza.Some?
    ensures Ids(r.conversation, r.origin.value, r.stanza) in seen
  {
    assert r.stanza == Some(r.stanza.value);
  }

  /** A copy found by its stanza id has the same origin id. */
  lemma MatchIsTheSameMessage(r: Row, seen: set<Ids>, m: NewMessage)
    requires RowSettled(r, seen) && m.origin.Some? && OneToOne(seen + {IdsOf(m)}) && Matches(r, m)
    ensures r.origin == m.origin
  {
    if r.stanza.Some? && r.stanza == m.stanza {
      RowGivesIds(r, seen);
      assert Ids(r.conversation, r.origin.value, r.stanza) in seen + {IdsOf(m)} && IdsOf(m) in seen + {IdsOf(m)};
    }
  }

  /** What a delivery does: one row takes its ids, which is the only one to change. */
  ghost predicate TookIds(before: seq<Row>, after: seq<Row>, m: NewMessage, place: nat) {
    && place < |after| && |before| <= |after|
    && after[place].conversation == m.conversation && after[place].origin == m.origin
    && forall i :: 0 <= i < |after| && i != place ==> i < |before| && after[i] == before[i]
  }

  lemma CopyTakesIds(before: seq<Row>, seen: set<Ids>, m: NewMessage, k: nat)
    requires k < |before| && Matches(before[k], m) && RowSettled(before[k], seen)
    requires m.origin.Some? && OneToOne(seen + {IdsOf(m)})
    ensures var after := before[k := Filled(before[k], m.stanza, m.occupant)];
            TookIds(before, after, m, k) && RowSettled(after[k], seen + {IdsOf(m)})
  {
    hide RowSettled, OneToOne, Matches;
    MatchIsTheSameMessage(before[k], seen, m);
    SameConversation(before[k], m);
    FilledRowIsSettled(before[k], seen, m);
  }

  lemma NewRowTakesIds(before: seq<Row>, seen: set<Ids>, m: NewMessage)
    requires Settled(before, seen) && !IsStored(before, m) && m.origin.Some?
    ensures var after := before + [RowOf(m, |before| + 1)];
            TookIds(before, after, m, |before|) && RowSettled(after[|before|], seen + {IdsOf(m)})
  {
    NewRowIsSettled(before, seen, m, |before| + 1);
    hide RowSettled, Settled, IsStored;
  }

  lemma StoredCopy(before: seq<Row>, after: seq<Row>, m: NewMessage) returns (k: nat)
    requires Delivered(before, after, m) && IsStored(before, m)
    ensures k < |before| && Matches(before[k], m) && after == before[k := Filled(before[k], m.stanza, m.occupant)]
  {
    k :| 0 <= k < |before| && Matches(before[k], m) && after == before[k := Filled(before[k], m.stanza, m.occupant)];
  }

  /** The row a delivery ends up in. */
  lemma SettledPlace(before: seq<Row>, after: seq<Row>, seen: set<Ids>, m: NewMessage) returns (place: nat)
    requires Settled(before, seen) && Delivered(before, after, m)
    requires m.origin.Some? && OneToOne(seen + {IdsOf(m)})
    ensures TookIds(before, after, m, place) && RowSettled(after[place], seen + {IdsOf(m)})
  {
    hide RowSettled, UniqueOrigins, OneToOne, HasRow, Matches, TookIds, IsStored, Filled, RowOf;
    if IsStored(before, m) {
      place := StoredCopy(before, after, m);
      CopyTakesIds(before, seen, m, place);
    } else {
      place := |before|;
      NewRowTakesIds(before, seen, m);
    }
  }

  lemma SameConversation(r: Row, m: NewMessage)
    requires Matches(r, m)
    ensures r.conversation == m.conversation
  {
  }

  lemma SeenMeansStored(rows: seq<Row>, seen: set<Ids>, m: NewMessage, s: string)
    requires Settled(rows, seen) && m.origin.Some?
    ensures Ids(m.conversation, m.origin.value, Some(s)) in seen ==> IsStored(rows, m)
  {
    var d := Ids(m.conversation, m.origin.value, Some(s));
    if d in seen {
      assert HasRow(rows, d);
      var k :| 0 <= k < |rows| && rows[k].conversation == m.conversation && rows[k].origin == m.origin;
      assert Matches(rows[k], m);
    }
  }

  lemma NewRowIsSettled(rows: seq<Row>, seen: set<Ids>, m: NewMessage, id: nat)
    requires Settled(rows, seen) && m.origin.Some? && !IsStored(rows, m)
    ensures RowSettled(RowOf(m, id), seen + {IdsOf(m)})
  {
    hide Settled, IsStored;
    assert IdsOf(m) in seen + {IdsOf(m)};
    forall s ensures Ids(m.conversation, m.origin.value, Some(s)) !in seen {
      SeenMeansStored(rows, seen, m, s);
    }
  }

  lemma OthersStaySettled(before: seq<Row>, after: seq<Row>, seen: set<Ids>, m: NewMessage, place: nat, i: nat)
    requires UniqueOrigins(after) && TookIds(before, after, m, place) && m.origin.Some?
    requires i < |before| && i != place && RowSettled(before[i], seen)
    ensures RowSettled(after[i], seen + {IdsOf(m)})
  {
    assert if i < place then !SameOrigin(after[i], after[place]) else !SameOrigin(after[place], after[i]);
    RowStaysSettled(before[i], seen, m);
  }

  lemma RowsAreKept(before: seq<Row>, after: seq<Row>, m: NewMessage, place: nat, d: Ids)
    requires OnlyFilled(before, after) && HasRow(before, d)
    ensures HasRow(after, d)
  {
    var k :| 0 <= k < |before| && before[k].conversation == d.conversation && before[k].origin == Some(d.origin);
    assert after[k].conversation == d.conversation && after[k].origin == Some(d.origin);
  }

  lemma AllStaySettled(before: seq<Row>, after: seq<Row>, seen: set<Ids>, m: NewMessage, place: nat)
    requires Settled(before, seen) && UniqueOrigins(after) && TookIds(before, after, m, place) && m.origin.Some?
    requires RowSettled(after[place], seen + {IdsOf(m)})
    ensures forall i :: 0 <= i < |after| ==> RowSettled(after[i], seen + {IdsOf(m)})
  {
    hide RowSettled, UniqueOrigins, HasRow;
    forall i | 0 <= i < |after| ensures RowSettled(after[i], seen + {IdsOf(m)}) {
      var r := after[i];
      if i != place {
        assert r == before[i] && RowSettled(before[i], seen);
        OthersStaySettled(before, after, seen, m, place, i);
      }
    }
  }

  lemma AllHaveRows(before: seq<Row>, after: seq<Row>, seen: set<Ids>, m: NewMessage, place: nat)
    requires Settled(before, seen) && OnlyFilled(before, after) && TookIds(before, after, m, place) && m.origin.Some?
    ensures forall d :: d in seen + {IdsOf(m)} ==> HasRow(after, d)
  {
    hide RowSettled, UniqueOrigins, OnlyFilled;
    assert HasRow(after, IdsOf(m));
    hide HasRow, TookIds;
    forall d | d in seen + {IdsOf(m)} ensures HasRow(after, d) {
      if d in seen {
        RowsAreKept(before, after, m, place, d);
      }
    }
  }

  lemma DeliveryKeepsSettled(before: seq<Row>, after: seq<Row>, seen: set<Ids>, m: NewMessage)
    requires Settled(before, seen) && Delivered(before, after, m)
    requires m.origin.Some? && OneToOne(seen + {IdsOf(m)})
    ensures Settled(after, seen + {IdsOf(m)})
  {
    hide RowSettled, OneToOne, Delivered, UniqueOrigins, OnlyFilled, HasRow, TookIds;
    DeliveryKeepsOriginsUnique(before, after, m);
    DeliveryOnlyFills(before, after, m);
    var place := SettledPlace(before, after, seen, m);
    AllStaySettled(before, after, seen, m, place);
    AllHaveRows(before, after, seen, m, place);
  }

  lemma {:induction false} RunIsSettled(tables: seq<seq<Row>>, ms: seq<NewMessage>)
    requires IsRun(tables, ms)
    requires (forall k :: 0 <= k < |ms| ==> ms[k].origin.Some?) && OneToOne(Seen(ms))
    ensures Settled(tables[|ms|], Seen(ms))
  {
    hide Settled, Delivered, OneToOne;
    if ms == [] {
      assert Seen(ms) == {};
      NothingIsSettled();
    } else {
      var n := |ms| - 1;
      var front, m := ms[..n], ms[n];
      assert ms == front + [m];
      SeenOneMore(front, m);
      OneToOneFewer(Seen(front), IdsOf(m));
      RunIsSettled(tables[..n + 1], front);
      DeliveryKeepsSettled(tables[n], tables[n + 1], Seen(front), m);
    }
  }

  lemma NothingIsSettled()
    ensures Settled([], {})
  {
  }

  lemma OneToOneFewer(seen: set<Ids>, d: Ids)
    requires OneToOne(seen + {d})
    ensures OneToOne(seen)
  {
    forall a, b | a in seen && b in seen && a.conversation == b.conversation && a.stanza.Some? && b.stanza.Some?
      ensures a.origin == b.origin <==> a.stanza == b.stanza
    {
      assert a in seen + {d} && b in seen + {d};
    }
  }

  lemma SeenOneMore(ms: seq<NewMessage>, m: NewMessage)
    requires m.origin.Some? && forall k :: 0 <= k < |ms| ==> ms[k].origin.Some?
    ensures Seen(ms + [m]) == Seen(ms) + {IdsOf(m)}
  {
    var all := ms + [m];
    assert all[|ms|] == m;
    forall d | d in Seen(ms) ensures d in Seen(all) {
      var k :| 0 <= k < |ms| && d == IdsOf(ms[k]);
      assert all[k] == ms[k];
    }
  }

  /** The (origin id, stanza id) pairs of a table, per conversation. */
  function PairsOf(rows: seq<Row>): set<(int, Option<string>, Option<string>)> {
    set k | 0 <= k < |rows| :: (rows[k].conversation, rows[k].origin, rows[k].stanza)
  }

  lemma RowWith(rows: seq<Row>, seen: set<Ids>, r: Row) returns (j: nat)
    requires Settled(rows, seen) && RowSettled(r, seen)
    ensures j < |rows| && rows[j].conversation == r.conversation && rows[j].origin == r.origin
  {
    var d :| d in seen && d.conversation == r.conversation && d.origin == r.origin.value;
    assert HasRow(rows, d);
    j :| 0 <= j < |rows| && rows[j].conversation == d.conversation && rows[j].origin == Some(d.origin);
  }

  lemma SettledPair(a: seq<Row>, b: seq<Row>, seen: set<Ids>, k: nat)
    requires Settled(a, seen) && Settled(b, seen) && k < |a|
    ensures (a[k].conversation, a[k].origin, a[k].stanza) in PairsOf(b)
  {
    hide RowSettled, UniqueOrigins, HasRow;
    assert RowSettled(a[k], seen);
    var j := RowWith(b, seen, a[k]);
    assert RowSettled(b[j], seen);
    SameRowSettled(a[k], b[j], seen);
  }

  lemma SettledPairs(a: seq<Row>, b: seq<Row>, seen: set<Ids>)
    requires Settled(a, seen) && Settled(b, seen)
    ensures PairsOf(a) <= PairsOf(b)
  {
    hide Settled;
    forall k | 0 <= k < |a| ensures (a[k].conversation, a[k].origin, a[k].stanza) in PairsOf(b) {
      SettledPair(a, b, seen, k);
    }
  }

  lemma SameRowSettled(a: Row, b: Row, seen: set<Ids>)
    requires RowSettled(a, seen) && RowSettled(b, seen) && a.conversation == b.conversation && a.origin == b.origin
    ensures a.stanza == b.stanza
  {
    if a.stanza.Some? {
      assert Ids(a.conversation, a.origin.value, Some(a.stanza.value)) in seen;
    } else if b.stanza.Some? {
      assert Ids(b.conversation, b.origin.value, Some(b.stanza.value)) in seen;
    }
  }

  /** Main result: when every delivery carries an origin id, and origin ids and stanza ids go together
      one to one, the pairs in the table depend on which deliveries there were, and not on their order
      or on how often each came. */
  lemma OrderAndRepetitionDoNotMatter(t1: seq<seq<Row>>, ms1: seq<NewMessage>, t2: seq<seq<Row>>, ms2: seq<NewMessage>)
    requires IsRun(t1, ms1) && IsRun(t2, ms2)
    requires forall k :: 0 <= k < |ms1| ==> ms1[k].origin.Some?
    requires forall k :: 0 <= k < |ms2| ==> ms2[k].origin.Some?
    requires Seen(ms1) == Seen(ms2) && OneToOne(Seen(ms1))
    ensures PairsOf(t1[|ms1|]) == PairsOf(t2[|ms2|])
    ensures UniqueOrigins(t1[|ms1|])
  {
    RunIsSettled(t1, ms1);
    RunIsSettled(t2, ms2);
    SettledPairs(t1[|ms1|], t2[|ms2|], Seen(ms1));
    SettledPairs(t2[|ms2|], t1[|ms1|], Seen(ms1));
  }
}

/** Row ids of a table: largest, smallest, and in ascending order. */
module IdSets {

  ghost predicate IsLeast(s: set<nat>, m: nat) {
    m in s && forall x :: x in s ==> m <= x
  }

  ghost predicate IsGreatest(s: set<nat>, m: nat) {
    m in s && forall x :: x in s ==> x <= m
  }

  lemma {:induction false} LeastExists(s: set<nat>)
    requires s != {}
    ensures exists m :: IsLeast(s, m)
  {
    var m :| m in s;
    var rest := s - {m};
    assert s == rest + {m};
    if rest == {} {
      assert IsLeast(s, m);
    } else {
      LeastExists(rest);
      var k :| IsLeast(rest, k);
      assert IsLeast(s, if k <= m then k else m);
    }
  }

  lemma {:induction false} GreatestExists(s: set<nat>)
    requires s != {}
    ensures exists m :: IsGreatest(s, m)
  {
    var m :| m in s;
    var rest := s - {m};
    assert s == rest + {m};
    if rest == {} {
      assert IsGreatest(s, m);
    } else {
      GreatestExists(rest);
      var k :| IsGreatest(rest, k);
      assert IsGreatest(s, if m <= k then k else m);
    }
  }

  ghost function MinOf(s: set<nat>): (m: nat)
    requires s != {}
    ensures IsLeast(s, m)
  {
    LeastExists(s);
    var m :| IsLeast(s, m);
    m
  }

  /** `SELECT COALESCE(MAX(id), 0)`. */
  function MaxOf(s: set<nat>): (m: nat)
    ensures forall x :: x in s ==> x <= m
    ensures m in s || (s == {} && m == 0)
  {
    if s == {} then 0
    else
      GreatestExists(s);
      assert exists m :: m in s && forall x :: x in s ==> x <= m by {
        var m :| IsGreatest(s, m);
      }
      var m :| m in s && forall x :: x in s ==> x <= m;
      m
  }

  ghost predicate InOrder(s: set<nat>, r: seq<nat>) {
    && (forall x :: x in s <==> x in r)
    && (forall i, j :: 0 <= i < j < |r| ==> r[i] < r[j])
  }

  /** The result of `ORDER BY id`: the ids of `s`, each once, ascending. */
  method SelectInOrder(s: set<nat>) returns (r: seq<nat>)
    ensures r == Ascending(s)
  {
    r := [];
    var todo := s;
    while todo != {}
      invariant todo <= s && InOrder(s - todo, r)
      invariant forall x, y :: x in r && y in todo ==> x < y
      decreases |todo|
    {
      LeastExists(todo);
      var m :| m in todo && forall x :: x in todo ==> m <= x by {
        var l :| IsLeast(todo, l);
      }
      ghost var done := s - todo;
      var longer := r + [m];
      todo := todo - {m};
      forall x ensures x in s - todo <==> x in longer {
        assert x in longer <==> x in r || x == m;
        assert x in s - todo <==> x in done || x == m;
      }
      forall i, j | 0 <= i < j < |longer| ensures longer[i] < longer[j] {
        if j == |r| { assert r[i] in r; }
      }
      r := longer;
    }
    assert s - {} == s;
    OnlyOneOrder(s, r, Ascending(s));
  }

  lemma {:induction false} OrderExists(s: set<nat>)
    ensures exists r :: InOrder(s, r)
  {
    if s == {} {
      assert InOrder(s, []);
    } else {
      var m := MaxOf(s);
      OrderExists(s - {m});
      var r :| InOrder(s - {m}, r);
      forall x ensures x in s <==> x in r + [m] {
        assert x in s <==> x in s - {m} || x == m;
      }
      forall i, j | 0 <= i < j < |r + [m]| ensures (r + [m])[i] < (r + [m])[j] {
        if j == |r| { assert r[i] in s - {m}; }
      }
      assert InOrder(s, r + [m]);
    }
  }

  ghost function Ascending(s: set<nat>): (r: seq<nat>)
    ensures InOrder(s, r) && |r| == |s|
  {
    OrderExists(s);
    var r :| InOrder(s, r);
    OnlyOneOrder(s, r, r);
    r
  }

  lemma SomethingIn(r: seq<nat>)
    ensures r != [] ==> exists x :: x in r
  {
    if r != [] { assert r[0] in r; }
  }

  lemma {:induction false} OnlyOneOrder(s: set<nat>, q: seq<nat>, r: seq<nat>)
    requires InOrder(s, q) && InOrder(s, r)
    ensures q == r && |q| == |s|
  {
    if s == {} {
      SomethingIn(q);
      SomethingIn(r);
    } else {
      var m := MinOf(s);
      var q' := TailInOrder(s, q);
      var r' := TailInOrder(s, r);
      OnlyOneOrder(s - {m}, q', r');
    }
  }

  lemma TailInOrder(s: set<nat>, r: seq<nat>) returns (tail: seq<nat>)
    requires s != {} && InOrder(s, r)
    ensures r == [MinOf(s)] + tail && InOrder(s - {MinOf(s)}, tail)
  {
    var m := MinOf(s);
    assert m in r;
    assert r[0] in s;
    tail := r[1..];
    assert r == [r[0]] + tail;
    forall x ensures x in s - {m} <==> x in tail {
      assert x in r <==> x == r[0] || x in tail;
      if x in tail { var i :| 0 <= i < |tail| && tail[i] == x; assert r[i + 1] == x; }
    }
  }

  /** The `n` ids from `first` on. */
  function Range(first: nat, n: nat): (r: seq<nat>)
    ensures |r| == n
    ensures forall i :: 0 <= i < n ==> r[i] == first + i
  {
    seq(n, i => first + i)
  }

  lemma RangeInOrder(s: set<nat>, first: nat, n: nat)
    requires forall x :: x in s <==> first <= x < first + n
    ensures Ascending(s) == Range(first, n) && |s| == n
  {
    forall x ensures x in s <==> x in Range(first, n) {
      if x in s { assert Range(first, n)[x - first] == x; }
    }
    OnlyOneOrder(s, Range(first, n), Ascending(s));
  }
}

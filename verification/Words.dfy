/** Words separated by white space, and trimming from the end. */
module Words {
  import opened Text

  function WordLength(s: string): (n: nat)
    ensures n <= |s|
    ensures forall i :: 0 <= i < n ==> !IsWhitespace(s[i])
    ensures n < |s| ==> IsWhitespace(s[n])
  {
    if s == "" || IsWhitespace(s[0]) then 0 else 1 + WordLength(s[1..])
  }

  /** `split_whitespace`. */
  function WordsOf(s: string): seq<string>
    decreases |s|
  {
    var t := TrimStart(s);
    if t == "" then [] else [t[..WordLength(t)]] + WordsOf(t[WordLength(t)..])
  }

  predicate IsWord(w: string) {
    w != "" && forall i :: 0 <= i < |w| ==> !IsWhitespace(w[i])
  }

  predicate AllWords(ws: seq<string>) {
    forall i :: 0 <= i < |ws| ==> IsWord(ws[i])
  }

  lemma {:induction false} WordsAreWords(s: string)
    ensures AllWords(WordsOf(s))
    decreases |s|
  {
    var t := TrimStart(s);
    if t != "" {
      WordsAreWords(t[WordLength(t)..]);
    }
  }

  lemma WordLengthAt(w: string, rest: string)
    requires IsWord(w)
    ensures WordLength(w) == |w| && WordLength(w + " " + rest) == |w|
  {
    var s := w + " " + rest;
    assert s[|w|] == ' ';
    assert forall i :: 0 <= i < |w| ==> s[i] == w[i];
  }

  lemma WordsOfSpaceThen(rest: string)
    ensures WordsOf(" " + rest) == WordsOf(rest)
  {
    var s := " " + rest;
    assert s[1..] == rest;
    assert TrimStart(s) == TrimStart(rest);
  }

  lemma FirstWord(w: string, rest: string)
    requires IsWord(w)
    ensures WordsOf(w + " " + rest) == [w] + WordsOf(rest)
  {
    var s := w + " " + rest;
    assert s[0] == w[0];
    WordLengthAt(w, rest);
    assert s[..|w|] == w && s[|w|..] == " " + rest;
    WordsOfSpaceThen(rest);
  }

  lemma OneWord(w: string)
    requires IsWord(w)
    ensures WordsOf(w) == [w]
  {
    WordLengthAt(w, "");
    assert w[..|w|] == w && w[|w|..] == "";
  }

  lemma {:induction false} WordsOfJoined(ws: seq<string>)
    requires AllWords(ws)
    ensures WordsOf(Join(ws, " ")) == ws
  {
    if ws == [] {
    } else if |ws| == 1 {
      OneWord(ws[0]);
    } else {
      var rest := ws[1..];
      WordsOfJoined(rest);
      FirstWord(ws[0], Join(rest, " "));
      assert [ws[0]] + rest == ws;
    }
  }

  // ---- the end of a string -----------------------------------------------

  /** Ends in something to see. */
  predicate Ends(s: string) {
    s != "" && !IsWhitespace(s[|s| - 1])
  }

  lemma {:induction false} TrimEndAfter(a: string, b: string)
    requires Ends(a) || TrimEnd(b) != ""
    ensures TrimEnd(a + b) == a + TrimEnd(b)
    decreases |b|
  {
    if b == "" {
      assert a + b == a;
    } else if IsWhitespace(b[|b| - 1]) {
      var front := b[..|b| - 1];
      assert (a + b)[..|a + b| - 1] == a + front;
      TrimEndAfter(a, front);
    }
  }

  lemma TrimEndOfSpaced(s: string, c: char)
    requires IsWhitespace(c)
    ensures TrimEnd(s + [c]) == TrimEnd(s)
  {
    assert (s + [c])[..|s|] == s;
  }

  lemma {:induction false} JoinedWordsEnd(ws: seq<string>)
    requires AllWords(ws) && ws != []
    ensures Ends(Join(ws, " ")) && TrimEnd(Join(ws, " ")) == Join(ws, " ")
  {
    if |ws| > 1 {
      JoinedWordsEnd(ws[1..]);
    }
  }

  /** A newline is white space, so it is in no word. */
  lemma {:induction false} JoinedAvoids(ws: seq<string>, separator: string, c: char)
    requires c !in separator && forall i :: 0 <= i < |ws| ==> c !in ws[i]
    ensures c !in Join(ws, separator)
  {
    if |ws| > 1 {
      JoinedAvoids(ws[1..], separator, c);
    }
  }
}

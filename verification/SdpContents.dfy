/** The Jingle contents made from parsed media sections can all be written and read back. */
module SdpContents {
  import opened Wrappers
  import opened Text
  import opened Words
  import opened Sdp
  import opened SdpParsed
  import opened SdpNormal

  /** Lower-casing a word gives a word, and doing it twice changes nothing. */
  ghost predicate LowerLaw(lower: Lower) {
    forall w :: IsWord(w) ==> IsWord(lower(w)) && lower(lower(w)) == lower(w)
  }

  // ---- format parameters -------------------------------------------------

  /** A `name=value` text as it stands between the semicolons. */
  predicate IsParam(t: string) {
    t != "" && Trimmed(t) && ';' !in t && '=' in t && OnOneLine(t)
  }

  predicate AllParams(ts: seq<string>) {
    forall i :: 0 <= i < |ts| ==> IsParam(ts[i])
  }

  lemma {:induction false} TrimStartIsSuffix(s: string)
    ensures |TrimStart(s)| <= |s| && TrimStart(s) == s[|s| - |TrimStart(s)|..]
  {
    if s != "" && IsWhitespace(s[0]) {
      TrimStartIsSuffix(s[1..]);
      assert s[1..][|s| - 1 - |TrimStart(s)|..] == s[|s| - |TrimStart(s)|..];
    }
  }

  lemma TrimIsInside(s: string)
    ensures Trimmed(Trim(s)) && forall i :: 0 <= i < |Trim(s)| ==> Trim(s)[i] in s
  {
    TrimStartIsSuffix(s);
    var t := TrimStart(s);
    var u := TrimEnd(t);
    assert forall i :: 0 <= i < |u| ==> u[i] == t[i] && t[i] in s;
  }

  lemma SplitAtEquals(t: string)
    ensures SplitOnce(t, '=').Some? ==> '=' in t && SplitOnce(t, '=').value.0 + "=" + SplitOnce(t, '=').value.1 == t
    ensures SplitOnce(t, '=').None? ==> '=' !in t
  {
    var n := Before(t, '=');
    if n == |t| {
      assert t[..n] == t;
    } else {
      assert t[n] == '=';
      assert t[..n] + "=" + t[n + 1..] == t;
    }
  }

  predicate IsPart(s: string) {
    ';' !in s && OnOneLine(s)
  }

  lemma {:induction false} ParameterTextsAreParams(parts: seq<string>)
    requires forall i :: 0 <= i < |parts| ==> IsPart(parts[i])
    ensures AllParams(ParameterTexts(ParametersIn(parts)))
  {
    hide Trim, Trimmed, SplitOnce;
    if parts != [] {
      ParameterTextsAreParams(parts[1..]);
      var t := Trim(parts[0]);
      TrimIsInside(parts[0]);
      SplitAtEquals(t);
      assert IsPart(parts[0]);
      TextsOfFirst(parts);
    }
  }

  lemma TextsOfFirst(parts: seq<string>)
    requires parts != []
    ensures ParameterTexts(ParametersIn(parts)) ==
              (match SplitOnce(Trim(parts[0]), '=') case Some((k, v)) => [k + "=" + v] case None => [])
              + ParameterTexts(ParametersIn(parts[1..]))
  {
    hide Trim, SplitOnce;
    var rest := ParametersIn(parts[1..]);
    match SplitOnce(Trim(parts[0]), '=')
    case Some((k, v)) =>
      var p := Parameter(Some(k), Some(v));
      assert ([p] + rest)[1..] == rest;
    case None =>
      assert [] + rest == rest;
      assert [] + ParameterTexts(rest) == ParameterTexts(rest);
  }

  /** Parameter texts that were written are read back as they are. */
  lemma {:induction false} ParamsAreStable(ts: seq<string>)
    requires AllParams(ts)
    ensures ParameterTexts(ParametersIn(ts)) == ts
  {
    hide Trim, SplitOnce;
    if ts != [] {
      ParamsAreStable(ts[1..]);
      TextsOfFirst(ts);
      assert IsParam(ts[0]);
      TrimOfTrimmed(ts[0]);
      SplitAtEquals(ts[0]);
      assert [ts[0]] + ts[1..] == ts;
    }
  }

  lemma {:induction false} ParamsEnd(ts: seq<string>)
    requires AllParams(ts) && ts != []
    ensures Ends(Join(ts, ";"))
  {
    assert IsParam(ts[0]);
    if |ts| > 1 {
      ParamsEnd(ts[1..]);
    }
  }

  lemma SplitParts(params: string)
    requires OnOneLine(params)
    ensures forall i :: 0 <= i < |Split(params, ';')| ==> IsPart(Split(params, ';')[i])
  {
    SplitHasNoSeparator(params, ';');
    SplitIsInside(params, ';', '\n');
  }

  lemma {:induction false} SplitIsInside(s: string, c: char, avoided: char)
    requires avoided !in s
    ensures forall i :: 0 <= i < |Split(s, c)| ==> avoided !in Split(s, c)[i]
    decreases |s|
  {
    var n := Before(s, c);
    assert forall i :: 0 <= i < |s[..n]| ==> s[..n][i] in s;
    if n < |s| {
      var rest := s[n + 1..];
      assert forall i :: 0 <= i < |rest| ==> rest[i] in s;
      SplitIsInside(rest, c, avoided);
    } else {
      assert s[..n] == s;
    }
  }

  // ---- entries of one payload --------------------------------------------

  lemma {:induction false} FirstForIsValue(es: seq<Entry>, id: string)
    requires AllEntries(es)
    ensures match FirstFor(es, id) case Some(v) => IsValue(v) case None => true
  {
    if es != [] {
      assert IsEntry(es[0]);
      FirstForIsValue(es[1..], id);
    }
  }

  lemma {:induction false} AllForAreValues(es: seq<Entry>, id: string)
    requires AllEntries(es)
    ensures forall i :: 0 <= i < |AllFor(es, id)| ==> IsValue(AllFor(es, id)[i])
  {
    if es != [] {
      assert IsEntry(es[0]);
      AllForAreValues(es[1..], id);
    }
  }

  lemma {:induction false} SomethingToSee(s: string)
    requires Ends(s)
    ensures WordsOf(s) != []
  {
    TrimStartKeepsEnd(s);
  }

  lemma {:induction false} TrimStartKeepsEnd(s: string)
    requires Ends(s)
    ensures TrimStart(s) != ""
  {
    if IsWhitespace(s[0]) {
      assert |s| > 1;
      assert Ends(s[1..]);
      TrimStartKeepsEnd(s[1..]);
    }
  }

  /** A feedback value comes down to its first word or two, which are read back as they are. */
  lemma FeedbackIsStable(value: string)
    requires Ends(value)
    ensures Ends(FbText(FeedbackOf(value)))
    ensures OnOneLine(value) ==> OnOneLine(FbText(FeedbackOf(value)))
    ensures FeedbackOf(FbText(FeedbackOf(value))) == FeedbackOf(value)
  {
    hide WordsOf;
    SomethingToSee(value);
    WordsAreWords(value);
    var words := WordsOf(value);
    var f := FeedbackOf(value);
    assert IsWord(words[0]);
    if |words| >= 2 {
      assert IsWord(words[1]);
      FirstWord(words[0], words[1]);
      OneWord(words[1]);
      assert FbText(f) == words[0] + " " + words[1];
    } else {
      OneWord(words[0]);
      assert FbText(f) == words[0];
    }
  }

  /** The parameter texts of the payloads with this id. */
  function ParamsFor(m: Media, id: string): seq<string> {
    ParameterTexts(match FirstFor(m.fmtp, id) case Some(params) => ParametersIn(Split(params, ';')) case None => [])
  }

  lemma ParamsForAreParams(m: Media, id: string)
    requires WellFormed(m)
    ensures AllParams(ParamsFor(m, id))
  {
    hide IsParam, Split;
    FirstForIsValue(m.fmtp, id);
    match FirstFor(m.fmtp, id)
    case Some(params) =>
      SplitParts(params);
      ParameterTextsAreParams(Split(params, ';'));
    case None =>
  }

  lemma {:induction false} AllFeedbackAt(values: seq<string>)
    ensures forall i :: 0 <= i < |values| ==> AllFeedback(values)[i] == FeedbackOf(values[i])
  {
    hide FeedbackOf;
    if values != [] {
      AllFeedbackAt(values[1..]);
    }
  }

  lemma PayloadIsReadable(m: Media, e: Entry)
    requires WellFormed(m) && IsEntry(e)
    ensures Readable(PayloadOf(m, e))
  {
    hide Ends, FeedbackOf, FbText, Split, ParametersIn, ParameterTexts, AllFor, FirstFor, IsParam, IsValue;
    var p := PayloadOf(m, e);
    ParamsForAreParams(m, e.0);
    assert ParameterTexts(p.parameters) == ParamsFor(m, e.0);
    if ParameterTexts(p.parameters) != [] {
      ParamsEnd(ParameterTexts(p.parameters));
    }
    var values := AllFor(m.rtcpFb, e.0);
    AllForAreValues(m.rtcpFb, e.0);
    AllFeedbackAt(values);
    forall i | 0 <= i < |p.feedback| ensures Ends(FbText(p.feedback[i])) {
      ValueEnds(values[i]);
      FeedbackIsStable(values[i]);
    }
  }

  lemma ValueEnds(s: string)
    requires IsValue(s)
    ensures Ends(s)
  {
  }

  // ---- candidates --------------------------------------------------------

  lemma {:induction false} ExtraIsWord(words: seq<string>, i: nat, name: string)
    requires AllWords(words)
    ensures match ExtraOf(words, i, name) case Some(v) => IsWord(v) case None => true
    decreases |words| - i
  {
    if i + 1 < |words| {
      ExtraIsWord(words, i + 2, name);
    }
  }

  lemma WordsTogether(a: seq<string>, b: seq<string>)
    requires AllWords(a) && AllWords(b)
    ensures AllWords(a + b)
  {
    hide IsWord;
  }

  lemma PairIsWords(name: string, value: Option<string>)
    requires IsWord(name) && (value.Some? ==> IsWord(value.value))
    ensures AllWords(Pair(name, value))
  {
    hide IsWord;
  }

  predicate OptionalWord(o: Option<string>) {
    o.Some? ==> IsWord(o.value)
  }

  lemma FieldsMakeWords(c: Candidate)
    requires c.foundation.Some? && c.component.Some? && c.protocol.Some? && c.priority.Some? && c.ip.Some? && c.port.Some?
    requires IsWord(c.foundation.value) && IsWord(c.component.value) && IsWord(c.protocol.value)
    requires IsWord(c.priority.value) && IsWord(c.ip.value) && IsWord(c.port.value)
    requires OptionalWord(c.kind) && OptionalWord(c.relAddr) && OptionalWord(c.relPort) && OptionalWord(c.generation)
    ensures CandidateWords(c).Some? && AllWords(CandidateWords(c).value)
  {
    assert IsWord("typ") && IsWord("raddr") && IsWord("rport") && IsWord("generation") && IsWord("0");
    hide IsWord;
    var first := [c.foundation.value, c.component.value, c.protocol.value, c.priority.value, c.ip.value, c.port.value];
    PairIsWords("typ", c.kind);
    PairIsWords("raddr", c.relAddr);
    PairIsWords("rport", c.relPort);
    hide Pair;
    var last := ["generation", Or(c.generation, "0")];
    WordsTogether(first, Pair("typ", c.kind));
    WordsTogether(first + Pair("typ", c.kind), Pair("raddr", c.relAddr));
    WordsTogether(first + Pair("typ", c.kind) + Pair("raddr", c.relAddr), Pair("rport", c.relPort));
    WordsTogether(first + Pair("typ", c.kind) + Pair("raddr", c.relAddr) + Pair("rport", c.relPort), last);
  }

  lemma CandidateHasWords(lower: Lower, value: string)
    requires LowerLaw(lower)
    ensures match CandidateFrom(lower, value) case Some(c) => HasWords(c) && CandidateWords(c).Some? case None => true
  {
    hide WordsOf, ExtraOf, CandidateWords, IsWord;
    var w := WordsOf(value);
    WordsAreWords(value);
    ExtraIsWord(w, 6, "typ");
    ExtraIsWord(w, 6, "raddr");
    ExtraIsWord(w, 6, "rport");
    ExtraIsWord(w, 6, "generation");
    if |w| >= 6 {
      assert IsWord(w[0]) && IsWord(w[1]) && IsWord(w[2]) && IsWord(w[3]) && IsWord(w[4]) && IsWord(w[5]);
      FieldsMakeWords(CandidateFrom(lower, value).value);
    }
  }

  lemma {:induction false} CandidatesHaveWords(lower: Lower, values: seq<string>)
    requires LowerLaw(lower)
    ensures forall i :: 0 <= i < |CandidatesFrom(lower, values)| ==>
              HasWords(CandidatesFrom(lower, values)[i]) && CandidateWords(CandidatesFrom(lower, values)[i]).Some?
  {
    hide HasWords, CandidateWords, CandidateFrom;
    if values != [] {
      CandidatesHaveWords(lower, values[1..]);
      CandidateHasWords(lower, values[0]);
    }
  }

  // ---- contents ----------------------------------------------------------

  lemma ContentIsReadable(lower: Lower, m: Media)
    requires LowerLaw(lower) && WellFormed(m)
    ensures ContentReadable(ContentOf(lower, m))
  {
    hide Readable, HasWords, CandidatesFrom, PayloadOf, LowerLaw, IsEntry;
    forall i | 0 <= i < |m.rtpmap| ensures Readable(PayloadsOf(m, m.rtpmap)[i]) {
      PayloadIsReadable(m, m.rtpmap[i]);
    }
    CandidatesHaveWords(lower, m.candidates);
    KindIsField(m.kind);
  }

  lemma KindIsField(kind: string)
    requires IsKind(kind)
    ensures Field(kind)
  {
    assert IsWhitespace('\n');
  }

  lemma {:induction false} BundleIsReadable(lower: Lower, ms: seq<Media>)
    requires AllWellFormed(ms)
    ensures BundleReadable(BundleOf(ContentsOf(lower, ms)))
  {
    hide PayloadsOf, CandidatesFrom;
    if ms != [] {
      assert WellFormed(ms[0]);
      assert ContentsOf(lower, ms)[1..] == ContentsOf(lower, ms[1..]);
      BundleIsReadable(lower, ms[1..]);
    }
  }

  lemma ContentsAreReadable(lower: Lower, ms: seq<Media>)
    requires LowerLaw(lower) && AllWellFormed(ms)
    ensures AllContentsReadable(ContentsOf(lower, ms)) && BundleReadable(BundleOf(ContentsOf(lower, ms)))
  {
    hide ContentReadable, WellFormed, ContentOf, BundleReadable, BundleOf, LowerLaw;
    forall i | 0 <= i < |ms| ensures ContentReadable(ContentsOf(lower, ms)[i]) {
      ContentIsReadable(lower, ms[i]);
    }
    BundleIsReadable(lower, ms);
  }
}

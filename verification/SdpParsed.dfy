/** What parsing an SDP can and cannot put into a media section. */
module SdpParsed {
  import opened Text
  import opened Words
  import opened Sdp

  predicate OnOneLine(s: string) {
    '\n' !in s
  }

  /** The rest of a trimmed line. */
  predicate Field(s: string) {
    OnOneLine(s) && (s == "" || Ends(s))
  }

  predicate IsId(s: string) {
    OnOneLine(s) && ' ' !in s
  }

  predicate IsValue(s: string) {
    OnOneLine(s) && Ends(s)
  }

  predicate IsEntry(e: Entry) {
    IsId(e.0) && IsValue(e.1)
  }

  predicate AllEntries(es: seq<Entry>) {
    forall i :: 0 <= i < |es| ==> IsEntry(es[i])
  }

  predicate IsKind(s: string) {
    s == "" || IsWord(s)
  }

  predicate WellFormed(m: Media) {
    && IsKind(m.kind) && Field(m.mid) && Field(m.ufrag) && Field(m.pwd) && Field(m.setup)
    && IsId(m.fingerprintHash) && Field(m.fingerprint)
    && AllEntries(m.rtpmap) && AllEntries(m.fmtp) && AllEntries(m.rtcpFb)
    && (m.ssrc.Some? ==> IsId(m.ssrc.value)) && (m.cname.Some? ==> Field(m.cname.value))
    && (forall i :: 0 <= i < |m.candidates| ==> OnOneLine(m.candidates[i]))
  }

  predicate AllWellFormed(ms: seq<Media>) {
    forall i :: 0 <= i < |ms| ==> WellFormed(ms[i])
  }

  predicate LineIsGood(l: Line) {
    match l
    case MediaLine(kind) => IsKind(kind)
    case Mid(v) => Field(v)
    case Ufrag(v) => Field(v)
    case Pwd(v) => Field(v)
    case Setup(v) => Field(v)
    case FingerprintOf(hash, v) => IsId(hash) && IsValue(v)
    case Rtpmap(id, v) => IsId(id) && IsValue(v)
    case Fmtp(id, v) => IsId(id) && IsValue(v)
    case RtcpFb(id, v) => IsId(id) && IsValue(v)
    case Ssrc(id, v) => IsId(id) && IsValue(v)
    case CandidateOf(v) => OnOneLine(v)
    case OtherLine => true
  }

  lemma SuffixOfField(s: string, n: nat)
    requires Field(s) && n <= |s|
    ensures Field(s[n..])
  {
    assert forall i :: 0 <= i < |s[n..]| ==> s[n..][i] in s;
  }

  lemma EntryOfField(value: string)
    requires Field(value)
    ensures match SplitOnce(value, ' ') case Some(e) => IsEntry(e) case None => true
  {
    var n := Before(value, ' ');
    if n < |value| {
      SuffixOfField(value, n + 1);
      assert forall i :: 0 <= i < n ==> value[..n][i] in value;
    }
  }

  lemma AttributeLineIsGood(key: string, value: string)
    requires Field(value)
    ensures LineIsGood(AttributeLine(key, value)) && !AttributeLine(key, value).MediaLine?
  {
    EntryOfField(value);
  }

  lemma AttributeIsGood(attribute: string)
    requires Field(attribute)
    ensures LineIsGood(AttributeOf(attribute)) && !AttributeOf(attribute).MediaLine?
  {
    var n := Before(attribute, ':');
    if n < |attribute| {
      SuffixOfField(attribute, n + 1);
      AttributeLineIsGood(attribute[..n], attribute[n + 1..]);
    } else {
      AttributeLineIsGood(attribute, "");
    }
  }

  lemma ReadIsGood(raw: string)
    requires OnOneLine(raw)
    ensures LineIsGood(ReadLine(raw))
  {
    var line := TrimEnd(raw);
    assert forall i :: 0 <= i < |line| ==> line[i] == raw[i];
    assert Field(line);
    if "m=" <= line {
      WordsAreWords(line[2..]);
    } else if "a=" <= line {
      SuffixOfField(line, 2);
      AttributeIsGood(line[2..]);
    }
  }

  lemma CnameIsField(v: string)
    requires IsValue(v)
    ensures match StripPrefix(v, "cname:") case Some(c) => Field(c) case None => true
  {
    if "cname:" <= v {
      SuffixOfField(v, 6);
    }
  }

  lemma UpdateKeepsWellFormed(m: Media, l: Line)
    requires WellFormed(m) && LineIsGood(l)
    ensures WellFormed(Update(m, l))
  {
    if l.Ssrc? {
      CnameIsField(l.value);
    }
  }

  lemma {:induction false} AddAllIsWellFormed(lines: seq<string>)
    requires forall i :: 0 <= i < |lines| ==> OnOneLine(lines[i])
    ensures AllWellFormed(AddAll([], lines))
  {
    if lines != [] {
      var n := |lines| - 1;
      AddAllIsWellFormed(lines[..n]);
      ReadIsGood(lines[n]);
      var ms, l := AddAll([], lines[..n]), ReadLine(lines[n]);
      if ms != [] && !l.MediaLine? {
        UpdateKeepsWellFormed(ms[|ms| - 1], l);
      }
    }
  }

  /** Everything parsed from an SDP is on one line and trimmed as far as the line went. */
  lemma ParsedIsWellFormed(sdp: string)
    ensures AllWellFormed(AddAll([], Lines(sdp)))
  {
    SplitHasNoSeparator(sdp, '\n');
    AddAllIsWellFormed(Lines(sdp));
  }
}

/** Reading back a verification URI, for every JID and every list of fingerprints. */
module UriRoundTrip {
  import opened Wrappers
  import opened OmemoTypes
  import opened Text
  import opened Decimal
  import opened Hex
  import opened Uri

  predicate IsAscii(s: string) {
    forall i :: 0 <= i < |s| ==> s[i] as int < 0x80
  }

  /** The conversion to text leaves ASCII alone. */
  ghost predicate LossyLaw(lossy: Lossy) {
    forall s :: IsAscii(s) ==> lossy(s) == s
  }

  /** A JID is text: whole characters, which the conversion to text leaves alone. */
  ghost predicate IsText(lossy: Lossy, s: string) {
    IsBytes(s) && OnBoundaries(s) && lossy(s) == s
  }

  /** The hex form of a 32-byte key, and a device id that is one. */
  predicate IsKeyEntry(fp: UriFingerprint) {
    && 0 <= fp.deviceId <= I64_MAX
    && |fp.hex| == 64
    && forall i :: 0 <= i < 64 ==> IsLowerHex(fp.hex[i])
  }

  predicate SameParameter(a: UriFingerprint, b: UriFingerprint) {
    a.kind == b.kind && a.deviceId == b.deviceId
  }

  predicate Listed(fps: seq<UriFingerprint>, fp: UriFingerprint) {
    exists i :: 0 <= i < |fps| && SameParameter(fps[i], fp)
  }

  predicate Distinct(fps: seq<UriFingerprint>) {
    forall i, j :: 0 <= i < j < |fps| ==> !SameParameter(fps[i], fps[j])
  }

  /** The first entry of each parameter, until the list is full. */
  function FirstOfEach(kept: seq<UriFingerprint>, fps: seq<UriFingerprint>): (r: seq<UriFingerprint>)
    requires Distinct(kept) && |kept| <= MAX_URI_FINGERPRINTS
    ensures Distinct(r) && |r| <= MAX_URI_FINGERPRINTS
    decreases |fps|
  {
    if fps == [] || |kept| >= MAX_URI_FINGERPRINTS then kept
    else if Listed(kept, fps[0]) then FirstOfEach(kept, fps[1..])
    else FirstOfEach(kept + [fps[0]], fps[1..])
  }

  lemma {:induction false} NothingToDrop(kept: seq<UriFingerprint>, fps: seq<UriFingerprint>)
    requires Distinct(kept + fps) && |kept| + |fps| <= MAX_URI_FINGERPRINTS && Distinct(kept)
    ensures FirstOfEach(kept, fps) == kept + fps
    decreases |fps|
  {
    if fps != [] {
      assert kept + [fps[0]] + fps[1..] == kept + fps;
      assert !Listed(kept, fps[0]) by {
        forall i | 0 <= i < |kept| ensures !SameParameter(kept[i], fps[0]) {
          assert (kept + fps)[i] == kept[i] && (kept + fps)[|kept|] == fps[0];
        }
      }
      forall i, j | 0 <= i < j < |kept| + 1
        ensures !SameParameter((kept + [fps[0]])[i], (kept + [fps[0]])[j])
      {
        assert (kept + fps)[i] == (kept + [fps[0]])[i] && (kept + fps)[j] == (kept + [fps[0]])[j];
      }
      NothingToDrop(kept + [fps[0]], fps[1..]);
    } else {
      assert kept + fps == kept;
    }
  }

  // ---- one parameter -----------------------------------------------------

  predicate IsKeyChar(c: char) {
    IsDigit(c) || 'a' <= c <= 'z' || c == '-'
  }

  predicate IsKeyText(s: string) {
    forall i :: 0 <= i < |s| ==> IsKeyChar(s[i])
  }

  lemma KeyIsPlain(fp: UriFingerprint)
    requires fp.deviceId >= 0
    ensures IsKeyText(Key(fp))
  {
    assert IsKeyText(OMEMO_PARAM) && IsKeyText(OMEMO_PQ_PARAM);
  }

  lemma PlainTextIsUnchanged(lossy: Lossy, s: string)
    requires LossyLaw(lossy) && IsKeyText(s)
    ensures '%' !in s && '=' !in s && ';' !in s && '&' !in s
    ensures Decoded(lossy, s) == Some(s) && Lower(s) == s
  {
    DecodingPlainText(s);
    assert IsAscii(s);
  }

  lemma KindOfKey(fp: UriFingerprint)
    requires fp.deviceId >= 0
    ensures KindOf(Key(fp)) == Some((fp.kind, Print(fp.deviceId)))
  {
    var k := Key(fp);
    match fp.kind
    case OmemoPq =>
      assert k[|OMEMO_PQ_PARAM|..] == Print(fp.deviceId);
    case Omemo =>
      assert k[6] == OMEMO_PARAM[6] && OMEMO_PARAM[6] != OMEMO_PQ_PARAM[6];
      assert k[|OMEMO_PARAM|..] == Print(fp.deviceId);
  }

  lemma KeysAreInjective(a: UriFingerprint, b: UriFingerprint)
    requires a.deviceId >= 0 && b.deviceId >= 0
    ensures Key(a) == Key(b) <==> SameParameter(a, b)
  {
    if Key(a) == Key(b) {
      KindOfKey(a);
      KindOfKey(b);
      PrintIsInjective(a.deviceId, b.deviceId);
    }
  }

  lemma {:induction false} NoSpacesInHex(s: string)
    requires forall i :: 0 <= i < |s| ==> IsLowerHex(s[i])
    ensures DropSpaces(s) == s
  {
    if s != "" {
      assert SpaceAtStart(s) == 0;
      NoSpacesInHex(s[1..]);
      assert [s[0]] + s[1..] == s;
    }
  }

  lemma NormalForm(lossy: Lossy, fp: UriFingerprint)
    requires LossyLaw(lossy) && IsKeyEntry(fp)
    ensures Decoded(lossy, fp.hex) == Some(fp.hex)
    ensures NormalizedFingerprint(fp.hex) == Some(fp.hex)
  {
    PlainTextIsUnchanged(lossy, fp.hex);
    NoSpacesInHex(fp.hex);
  }

  function Keys(fps: seq<UriFingerprint>): (r: seq<string>)
    ensures |r| == |fps| && forall i :: 0 <= i < |fps| ==> r[i] == Key(fps[i])
  {
    seq(|fps|, i requires 0 <= i < |fps| => Key(fps[i]))
  }

  ghost predicate AllEntries(fps: seq<UriFingerprint>) {
    forall i :: 0 <= i < |fps| ==> IsKeyEntry(fps[i])
  }

  lemma SeenIffListed(kept: seq<UriFingerprint>, fp: UriFingerprint)
    requires AllEntries(kept) && IsKeyEntry(fp)
    ensures Key(fp) in Keys(kept) <==> Listed(kept, fp)
  {
    forall i | 0 <= i < |kept| ensures Keys(kept)[i] == Key(fp) <==> SameParameter(kept[i], fp) {
      assert IsKeyEntry(kept[i]);
      KeysAreInjective(kept[i], fp);
    }
  }

  /** A printed entry is taken exactly when no earlier one had its parameter. */
  lemma TakePrintedPair(lossy: Lossy, kept: seq<UriFingerprint>, fp: UriFingerprint)
    requires LossyLaw(lossy) && AllEntries(kept) && IsKeyEntry(fp)
    ensures var g := Gathered(Keys(kept), kept);
            TakePair(lossy, g, Pair(fp)) ==
              Some(if Listed(kept, fp) then g else Gathered(Keys(kept + [fp]), kept + [fp]))
  {
    KeyIsPlain(fp);
    PlainTextIsUnchanged(lossy, Key(fp));
    assert Pair(fp) == Key(fp) + ['='] + fp.hex;
    SplitOnceAt(Key(fp), '=', fp.hex);
    SeenIffListed(kept, fp);
    KindOfKey(fp);
    PrintedI64(fp.deviceId);
    NormalForm(lossy, fp);
    assert Keys(kept + [fp]) == Keys(kept) + [Key(fp)];
  }

  lemma {:induction false} TakePrintedPairs(lossy: Lossy, kept: seq<UriFingerprint>, fps: seq<UriFingerprint>)
    requires LossyLaw(lossy) && AllEntries(kept) && AllEntries(fps)
    requires Distinct(kept) && |kept| <= MAX_URI_FINGERPRINTS
    ensures var r := FirstOfEach(kept, fps);
            TakePairs(lossy, Gathered(Keys(kept), kept), Pairs(fps)) == Some(Gathered(Keys(r), r))
    decreases |fps|
  {
    if fps != [] && |kept| < MAX_URI_FINGERPRINTS {
      assert IsKeyEntry(fps[0]);
      TakePrintedPair(lossy, kept, fps[0]);
      assert Pairs(fps)[1..] == Pairs(fps[1..]);
      TakePrintedPairs(lossy, if Listed(kept, fps[0]) then kept else kept + [fps[0]], fps[1..]);
    }
  }

  // ---- the whole URI -----------------------------------------------------

  lemma {:induction false} NoMarkInEncoded(s: string)
    ensures '?' !in Encoded(s)
  {
    if s != "" {
      NoMarkInEncoded(s[1..]);
      assert '?' !in EncodedByte(s[0]);
    }
  }

  lemma {:induction false} EncodedOneMore(s: string, c: char)
    ensures Encoded(s + [c]) == Encoded(s) + EncodedByte(c)
  {
    if s == "" {
      assert s + [c] == [c] && [c][1..] == "";
      assert Encoded([c]) == EncodedByte(c) + "";
    } else {
      assert (s + [c])[1..] == s[1..] + [c];
      EncodedOneMore(s[1..], c);
    }
  }

  /** A last byte that is ASCII and no space ends no white-space character. */
  lemma PlainEnd(t: string)
    requires t != "" && 0x21 <= t[|t| - 1] as int < 0x80
    ensures SpaceAtEnd(t) == 0
  {
  }

  /** The `k`-th byte from the end; '@' where the string is shorter. No space has an '@' in it. */
  function FromEnd(s: string, k: nat): char
    requires k >= 1
  {
    if |s| >= k then s[|s| - k] else '@'
  }

  predicate EndsInSpace(c3: char, c2: char, c1: char) {
    OneByteSpace(c1) || TwoByteSpace(c2, c1) || ThreeByteSpace(c3, c2, c1)
  }

  lemma SpaceAtEndIff(s: string)
    ensures SpaceAtEnd(s) == 0 <==> !EndsInSpace(FromEnd(s, 3), FromEnd(s, 2), FromEnd(s, 1))
  {
  }

  /** The `k`-th byte from the end is the original's, or one that is in no space. */
  predicate SameOrPlain(encoded: char, original: char) {
    encoded == original || 0x21 <= encoded as int < 0x80
  }

  lemma EndOfLonger(s: string, c: char, k: nat)
    requires k >= 1
    ensures FromEnd(s + [c], 1) == c && FromEnd(s + [c], k + 1) == FromEnd(s, k)
  {
  }

  lemma EndOfAppended(s: string, tail: string)
    requires tail != ""
    ensures FromEnd(s + tail, 1) == tail[|tail| - 1]
  {
  }

  predicate PlainEnded(head: string) {
    head != "" && 0x21 <= head[|head| - 1] as int < 0x80
  }

  lemma EncodedEnd(head: string, s: string) returns (front: string, c: char)
    requires s != ""
    ensures s == front + [c]
    ensures head + Encoded(s) == head + Encoded(front) + EncodedByte(c)
  {
    c := s[|s| - 1];
    front := s[..|s| - 1];
    EncodedOneMore(front, c);
    assert front + [c] == s;
    assert head + (Encoded(front) + EncodedByte(c)) == head + Encoded(front) + EncodedByte(c);
  }

  lemma LastOfEncodedByte(c: char)
    ensures EncodedByte(c) != "" && SameOrPlain(EncodedByte(c)[|EncodedByte(c)| - 1], c)
    ensures EncodedByte(c)[|EncodedByte(c)| - 1] as int >= 0x80 ==> EncodedByte(c) == [c]
  {
  }

  lemma LastByte(head: string, s: string)
    requires PlainEnded(head)
    ensures SameOrPlain(FromEnd(head + Encoded(s), 1), FromEnd(s, 1))
    ensures s == "" ==> head + Encoded(s) == head
  {
    if s == "" {
      assert head + "" == head;
    } else {
      var front, c := EncodedEnd(head, s);
      LastOfEncodedByte(c);
      EndOfAppended(head + Encoded(front), EncodedByte(c));
    }
  }

  /** Before a last byte that is not ASCII, the same holds one byte further in. */
  lemma Shorter(head: string, s: string) returns (front: string, c: char)
    requires PlainEnded(head) && FromEnd(head + Encoded(s), 1) as int >= 0x80
    ensures s == front + [c]
    ensures head + Encoded(s) == head + Encoded(front) + [c]
  {
    LastByte(head, s);
    front, c := EncodedEnd(head, s);
    LastOfEncodedByte(c);
    EndOfAppended(head + Encoded(front), EncodedByte(c));
  }

  lemma NoSpaceAfter(head: string, s: string)
    requires PlainEnded(head) && SpaceAtEnd(s) == 0
    ensures SpaceAtEnd(head + Encoded(s)) == 0
  {
    var t := head + Encoded(s);
    SpaceAtEndIff(s);
    SpaceAtEndIff(t);
    LastByte(head, s);
    if FromEnd(t, 1) as int >= 0x80 {
      var s1, c1 := Shorter(head, s);
      LastByte(head, s1);
      EndOfLonger(head + Encoded(s1), c1, 1);
      EndOfLonger(s1, c1, 1);
      if FromEnd(head + Encoded(s1), 1) as int >= 0x80 {
        var s2, c2 := Shorter(head, s1);
        LastByte(head, s2);
        EndOfLonger(head + Encoded(s1), c1, 2);
        EndOfLonger(s1, c1, 2);
        EndOfLonger(head + Encoded(s2), c2, 1);
        EndOfLonger(s2, c2, 1);
      }
    }
  }

  lemma TrimKeeps(s: string)
    requires NoOuterSpace(s)
    ensures TrimUtf8(s) == s
  {
  }

  lemma PrintedEnd(jid: string, fps: seq<UriFingerprint>)
    requires SpaceAtEnd(jid) == 0 && AllEntries(fps)
    ensures SpaceAtEnd(Printed(jid, fps)) == 0
  {
    if fps == [] {
      assert Printed(jid, fps) == "xmpp:" + Encoded(jid);
      NoSpaceAfter("xmpp:", jid);
    } else {
      var k := |fps| - 1;
      assert fps[..k] + [fps[k]] == fps && IsKeyEntry(fps[k]);
      QueryOneMore(fps[..k], fps[k]);
      var s := Printed(jid, fps);
      assert s[|s| - 1] == fps[k].hex[63];
      PlainEnd(s);
    }
  }

  /** Nothing around a printed URI is trimmed. */
  lemma PrintedIsTrimmed(jid: string, fps: seq<UriFingerprint>)
    requires NoOuterSpace(jid) && AllEntries(fps)
    ensures TrimUtf8(Printed(jid, fps)) == Printed(jid, fps)
  {
    var s := Printed(jid, fps);
    assert s[0] == 'x';
    PrintedEnd(jid, fps);
    TrimKeeps(s);
  }

  lemma JidIsReadBack(lossy: Lossy, jid: string)
    requires IsText(lossy, jid)
    ensures Decoded(lossy, Encoded(jid)) == Some(jid)
  {
    DecodingUndoesEncoding(jid);
  }

  lemma FinishedPrinted(lossy: Lossy, jid: string, fps: seq<UriFingerprint>, separator: char)
    requires LossyLaw(lossy) && IsText(lossy, jid) && NoOuterSpace(jid) && '@' in jid && AllEntries(fps)
    requires separator == ';' || separator == '&'
    ensures Finished(lossy, Encoded(jid), if fps == [] then None else Some(Join(Pairs(fps), [separator])), separator)
              == Found(ParsedUri(jid, FirstOfEach([], fps)))
  {
    JidIsReadBack(lossy, jid);
    TrimKeeps(jid);
    if fps == [] {
      SplitNone("", separator);
      SplitOnceNone("", '=');
      assert [""][1..] == [];
    } else {
      forall i | 0 <= i < |fps| ensures separator !in Pairs(fps)[i] {
        assert IsKeyEntry(fps[i]);
        KeyIsPlain(fps[i]);
        PlainTextIsUnchanged(lossy, Key(fps[i]));
        PlainTextIsUnchanged(lossy, fps[i].hex);
      }
      SplitUndoesJoin(Pairs(fps), separator);
      assert Keys([]) == [];
      TakePrintedPairs(lossy, [], fps);
    }
  }

  lemma SchemeIsSeen(rest: string)
    ensures "xmpp:" <= Lower("xmpp:" + rest) && ("xmpp:" + rest)[5..] == rest
  {
    var s := "xmpp:" + rest;
    forall i | 0 <= i < 5 ensures Lower(s)[i] == "xmpp:"[i] {
      assert s[i] == "xmpp:"[i];
    }
  }

  lemma PrintedAfterScheme(jid: string, fps: seq<UriFingerprint>)
    ensures Printed(jid, fps) == "xmpp:" + (Encoded(jid) + Query(fps))
    ensures fps == [] ==> Encoded(jid) + Query(fps) == Encoded(jid)
  {
  }

  lemma ParsedXmpp(lossy: Lossy, rest: string)
    requires TrimUtf8("xmpp:" + rest) == "xmpp:" + rest
    ensures Parsed(lossy, "xmpp:" + rest) ==
              match SplitOnce(rest, '?')
              case Some((jid, query)) => Finished(lossy, jid, Some(query), ';')
              case None => Finished(lossy, rest, None, ';')
  {
    SchemeIsSeen(rest);
  }

  lemma SplitOfPrinted(jid: string, fps: seq<UriFingerprint>)
    ensures SplitOnce(Encoded(jid) + Query(fps), '?') ==
              if fps == [] then None else Some((Encoded(jid), Join(Pairs(fps), ";")))
  {
    NoMarkInEncoded(jid);
    var e := Encoded(jid);
    if fps == [] {
      assert e + "" == e;
      SplitOnceNone(e, '?');
    } else {
      var q := Join(Pairs(fps), ";");
      assert e + ("?" + q) == e + ['?'] + q;
      SplitOnceAt(e, '?', q);
    }
  }

  /** What a printed URI is read back as. */
  lemma PrintedUriIsRead(lossy: Lossy, jid: string, fps: seq<UriFingerprint>)
    requires LossyLaw(lossy) && IsText(lossy, jid) && NoOuterSpace(jid) && '@' in jid && AllEntries(fps)
    ensures Parsed(lossy, Printed(jid, fps)) == Found(ParsedUri(jid, FirstOfEach([], fps)))
  {
    PrintedIsTrimmed(jid, fps);
    PrintedAfterScheme(jid, fps);
    ParsedXmpp(lossy, Encoded(jid) + Query(fps));
    SplitOfPrinted(jid, fps);
    FinishedPrinted(lossy, jid, fps, ';');
    assert [';'] == ";";
  }

  // ---- what every accepted URI looks like --------------------------------

  lemma {:induction false} TrimEndEnds(s: string)
    ensures TrimEndUtf8(s) <= s && SpaceAtEnd(TrimEndUtf8(s)) == 0
  {
    if SpaceAtEnd(s) != 0 {
      TrimEndEnds(s[..|s| - SpaceAtEnd(s)]);
    }
  }

  lemma {:induction false} TrimStartEnds(s: string)
    ensures SpaceAtStart(TrimStartUtf8(s)) == 0
  {
    if SpaceAtStart(s) != 0 {
      TrimStartEnds(s[SpaceAtStart(s)..]);
    }
  }

  lemma TrimmedHasNoOuterSpace(s: string)
    ensures NoOuterSpace(TrimUtf8(s))
  {
    TrimStartEnds(s);
    var t := TrimStartUtf8(s);
    TrimEndEnds(t);
    var u := TrimEndUtf8(t);
  }

  lemma NormalizedIsKeyHex(value: string)
    ensures var r := NormalizedFingerprint(value);
            r.Some? ==> |r.value| == 64 && forall i :: 0 <= i < 64 ==> IsLowerHex(r.value[i])
  {
  }

  lemma TakenPairIsAnEntry(lossy: Lossy, g: Gathered, pair: string)
    requires AllEntries(g.fingerprints)
    ensures var r := TakePair(lossy, g, pair);
            r.Some? ==> AllEntries(r.value.fingerprints) && |r.value.fingerprints| <= |g.fingerprints| + 1
  {
    var split := SplitOnce(pair, '=');
    if split.Some? && Decoded(lossy, split.value.1).Some? {
      NormalizedIsKeyHex(Decoded(lossy, split.value.1).value);
    }
  }

  lemma {:induction false} TakenPairsAreEntries(lossy: Lossy, g: Gathered, pairs: seq<string>)
    requires AllEntries(g.fingerprints) && |g.fingerprints| <= MAX_URI_FINGERPRINTS
    ensures var r := TakePairs(lossy, g, pairs);
            r.Some? ==> AllEntries(r.value.fingerprints) && |r.value.fingerprints| <= MAX_URI_FINGERPRINTS
    decreases |pairs|
  {
    if pairs != [] && |g.fingerprints| < MAX_URI_FINGERPRINTS {
      TakenPairIsAnEntry(lossy, g, pairs[0]);
      var next := TakePair(lossy, g, pairs[0]);
      if next.Some? {
        TakenPairsAreEntries(lossy, next.value, pairs[1..]);
      }
    }
  }

  lemma FinishedIsWellFormed(lossy: Lossy, jidPart: string, query: Option<string>, separator: char)
    ensures var r := Finished(lossy, jidPart, query, separator);
            r.Found? ==>
              && '@' in r.uri.jid && NoOuterSpace(r.uri.jid)
              && AllEntries(r.uri.fingerprints) && |r.uri.fingerprints| <= MAX_URI_FINGERPRINTS
  {
    var decoded := Decoded(lossy, jidPart);
    if decoded.Some? {
      TrimmedHasNoOuterSpace(decoded.value);
      TakenPairsAreEntries(lossy, Gathered([], []), Split(match query case Some(q) => q case None => "", separator));
    }
  }

  /** Whatever text is scanned: an accepted code names a JID with an '@' and no white space around
      it, and at most 64 entries, each a device id and the lower-case hex of a 32-byte key. */
  lemma EveryFoundUriIsWellFormed(lossy: Lossy, text: string)
    ensures var r := Parsed(lossy, text);
            r.Found? ==>
              && '@' in r.uri.jid && NoOuterSpace(r.uri.jid)
              && AllEntries(r.uri.fingerprints) && |r.uri.fingerprints| <= MAX_URI_FINGERPRINTS
  {
    var input := TrimUtf8(text);
    if "xmpp:" <= Lower(input) {
      match SplitOnce(input[5..], '?')
      case Some((jid, query)) => FinishedIsWellFormed(lossy, jid, Some(query), ';');
      case None => FinishedIsWellFormed(lossy, input[5..], None, ';');
    } else if Parsed(lossy, text).Found? {
      var rest := SplitOnce(AfterDoubleSlash(input).value, '/').value.1;
      match SplitOnce(rest, '?')
      case Some((path, query)) => FinishedIsWellFormed(lossy, InviteJid(path).value, Some(query), '&');
      case None => FinishedIsWellFormed(lossy, InviteJid(rest).value, None, '&');
    }
  }

  /** Main result, for every JID and every list of entries: the printed code is read back exactly as
      it was given if and only if the JID has an '@' and no white space around it, and the entries
      are at most 64, well-formed, and no two share stack and device id. */
  lemma RoundTripIff(lossy: Lossy, jid: string, fps: seq<UriFingerprint>)
    requires LossyLaw(lossy) && IsText(lossy, jid)
    ensures Parsed(lossy, Printed(jid, fps)) == Found(ParsedUri(jid, fps)) <==>
              && '@' in jid && NoOuterSpace(jid)
              && AllEntries(fps) && |fps| <= 64 && Distinct(fps)
  {
    EveryFoundUriIsWellFormed(lossy, Printed(jid, fps));
    if '@' in jid && NoOuterSpace(jid) && AllEntries(fps) {
      PrintedUriIsRead(lossy, jid, fps);
      if |fps| <= MAX_URI_FINGERPRINTS && Distinct(fps) {
        assert [] + fps == fps;
        NothingToDrop([], fps);
      }
    }
  }

  /** `from_identity_key`: an entry for a serialized identity key, with or without its type byte. */
  function FromIdentityKey(kind: FingerprintKind, deviceId: int, identityKey: Bytes): UriFingerprint {
    UriFingerprint(kind, deviceId, HexOf(EcRaw(identityKey)))
  }

  /** Codes made from identity keys are readable, and tell any two keys apart. */
  lemma IdentityKeysMakeEntries(kind: FingerprintKind, deviceId: int, a: CurveKey, b: CurveKey)
    requires 0 <= deviceId <= I64_MAX
    ensures IsKeyEntry(FromIdentityKey(kind, deviceId, a))
    ensures FromIdentityKey(kind, deviceId, a) == FromIdentityKey(kind, deviceId, b) <==> a == b
  {
    if HexOf(EcRaw(a)) == HexOf(EcRaw(b)) {
      HexIsInjective(EcRaw(a), EcRaw(b));
      assert a == [a[0]] + a[1..] && b == [b[0]] + b[1..];
    }
  }
}

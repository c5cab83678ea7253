/** The other forms a verification code can have, and what the byte tables of the parser stand for. */
module UriForms {
  import opened Wrappers
  import opened Text
  import opened Decimal
  import opened Hex
  import opened Uri
  import opened UriRoundTrip

  // ---- bytes and characters ------------------------------------------------

  /** The UTF-8 form of a character of the basic plane. */
  function Utf8(c: nat): string
    requires c < 0x1_0000
  {
    if c < 0x80 then [c as char]
    else if c < 0x800 then [(0xC0 + c / 64) as char, (0x80 + c % 64) as char]
    else [(0xE0 + c / 4096) as char, (0x80 + c / 64 % 64) as char, (0x80 + c % 64) as char]
  }

  predicate IsCharacter(c: nat) {
    c < 0xD800 || 0xE000 <= c < 0x1_0000
  }

  /** What is taken for white space at the start of a string is just the characters that are. */
  lemma SpaceIsWhiteSpace(c: nat, rest: string)
    requires IsCharacter(c)
    ensures SpaceAtStart(Utf8(c) + rest) == if IsWhitespace(c as char) then |Utf8(c)| else 0
  {
    var s := Utf8(c) + rest;
    if c < 0x80 {
      assert s[0] == c as char;
    } else if c < 0x800 {
      assert s[0] as int == 0xC0 + c / 64 && s[1] as int == 0x80 + c % 64;
    } else {
      assert s[0] as int == 0xE0 + c / 4096 && s[1] as int == 0x80 + c / 64 % 64 && s[2] as int == 0x80 + c % 64;
    }
  }

  /** Every byte of a character but the first continues it. */
  lemma ContinuationBytes(c: nat)
    requires IsCharacter(c)
    ensures forall i :: 0 <= i < |Utf8(c)| ==> (IsContinuation(Utf8(c)[i]) <==> i > 0)
    ensures OnBoundaries(Utf8(c))
  {
  }

  /** All 64 values a continuation byte can have do occur, and no others. */
  lemma EveryContinuationByte(b: nat)
    requires b < 0x100
    ensures IsContinuation(b as char) <==> exists c :: 0x80 <= c < 0x800 && Utf8(c)[1] == b as char
  {
    if 0x80 <= b < 0xC0 {
      assert Utf8(b)[1] == b as char;
    }
  }

  /** The 26 capital letters of ASCII are 65 to 90, the small ones 97 to 122. */
  lemma LowerCase(c: char)
    ensures LowerChar(c) as int == if 65 <= c as int <= 90 then c as int + 32 else c as int
  {
  }

  lemma HexDigits(i: nat)
    requires i < 16
    ensures HexValue("0123456789abcdef"[i]) == Some(i) && HexValue("0123456789ABCDEF"[i]) == Some(i)
  {
  }

  lemma EscapeIsDecoded(a: char, b: char, v: nat, rest: string)
    requires HexByte(a, b) == Some(v) && v < 256 && (rest != "" ==> !IsContinuation(rest[0]))
    ensures DecodedBytes(['%', a, b] + rest) == Prepend([v as char], DecodedBytes(rest))
  {
    hide HexByte;
    var s := ['%', a, b] + rest;
    assert s[0] == '%' && s[1] == a && s[2] == b && s[3..] == rest;
    assert |s| > 3 ==> s[3] == rest[0];
  }

  function DigitIn(upper: bool, i: nat): char
    requires i < 16
  {
    if upper then "0123456789ABCDEF"[i] else "0123456789abcdef"[i]
  }

  /** An escape is read with its digits in either case. */
  lemma EscapesInEitherCase(high: nat, low: nat, upperHigh: bool, upperLow: bool, rest: string)
    requires high < 16 && low < 16 && (rest != "" ==> !IsContinuation(rest[0]))
    ensures DecodedBytes(['%', DigitIn(upperHigh, high), DigitIn(upperLow, low)] + rest)
              == Prepend([(16 * high + low) as char], DecodedBytes(rest))
  {
    hide HexValue, DecodedBytes, IsContinuation;
    HexDigits(high);
    HexDigits(low);
    NoPlusDigit(high);
    EscapeIsDecoded(DigitIn(upperHigh, high), DigitIn(upperLow, low), 16 * high + low, rest);
  }

  lemma NoPlusDigit(i: nat)
    requires i < 16
    ensures "0123456789ABCDEF"[i] != '+' && "0123456789abcdef"[i] != '+'
  {
  }

  /** Nothing that would end the JID, or a parameter, is left in it, and the other bytes stay as they are. */
  lemma {:induction false} ReservedIsEscaped(s: string)
    ensures '?' !in Encoded(s) && ';' !in Encoded(s) && '#' !in Encoded(s) && ' ' !in Encoded(s)
    ensures (forall i :: 0 <= i < |s| ==> s[i] !in "?;#% ") ==> Encoded(s) == s
  {
    if s != "" {
      ReservedIsEscaped(s[1..]);
      EscapedIsPlain(s[0]);
      assert [s[0]] + s[1..] == s;
    }
  }

  lemma EscapedIsPlain(c: char)
    ensures var e := EncodedByte(c); '?' !in e && ';' !in e && '#' !in e && ' ' !in e
    ensures c !in "?;#% " ==> EncodedByte(c) == [c]
  {
    if NeedsEscape(c) {
      EscapeIsRead(c);
    }
  }

  /** A parameter is named after the stack and the device id in decimal. */
  lemma ParameterNames(n: nat, hex: string)
    ensures Pair(UriFingerprint(Omemo, n, hex)) == "omemo-sid-" + Print(n) + "=" + hex
    ensures Pair(UriFingerprint(OmemoPq, n, hex)) == "omemo-pq-sid-" + Print(n) + "=" + hex
    ensures n > 0 ==> Pair(UriFingerprint(Omemo, 0 - n, hex)) == "omemo-sid-" + ("-" + Print(n)) + "=" + hex
  {
  }

  // ---- no panic ------------------------------------------------------------

  /** Percent-decoding stops only at a character that is not ASCII. */
  lemma {:induction false} AsciiDecodes(s: string)
    requires IsAscii(s)
    ensures DecodedBytes(s).Some?
    decreases |s|
  {
    if s != "" {
      AsciiDecodes(s[1..]);
      if |s| >= 3 {
        AsciiDecodes(s[3..]);
      }
    }
  }

  lemma {:induction false} AsciiPairsAreTaken(lossy: Lossy, g: Gathered, pairs: seq<string>)
    requires forall i :: 0 <= i < |pairs| ==> IsAscii(pairs[i])
    ensures TakePairs(lossy, g, pairs).Some?
    decreases |pairs|
  {
    if pairs != [] {
      AsciiPairIsTaken(lossy, g, pairs[0]);
      AsciiPairsAreTaken(lossy, TakePair(lossy, g, pairs[0]).value, pairs[1..]);
    }
  }

  lemma AsciiPairIsTaken(lossy: Lossy, g: Gathered, pair: string)
    requires IsAscii(pair)
    ensures TakePair(lossy, g, pair).Some?
  {
    match SplitOnce(pair, '=')
    case Some((key, value)) =>
      AsciiDecodes(key);
      AsciiDecodes(value);
    case None =>
  }

  lemma {:induction false} AsciiSplits(s: string, c: char)
    requires IsAscii(s)
    ensures forall i :: 0 <= i < |Split(s, c)| ==> IsAscii(Split(s, c)[i])
    decreases |s|
  {
    var n := Before(s, c);
    if n < |s| {
      AsciiSplits(s[n + 1..], c);
    }
  }

  lemma AsciiFinishes(lossy: Lossy, jidPart: string, query: Option<string>, separator: char)
    requires IsAscii(jidPart) && (query.Some? ==> IsAscii(query.value))
    ensures Finished(lossy, jidPart, query, separator) != Panics
  {
    AsciiDecodes(jidPart);
    var q := match query case Some(q) => q case None => "";
    AsciiSplits(q, separator);
    AsciiPairsAreTaken(lossy, Gathered([], []), Split(q, separator));
  }

  lemma {:induction false} AsciiTrimEnd(s: string)
    requires IsAscii(s)
    ensures IsAscii(TrimEndUtf8(s))
  {
    if SpaceAtEnd(s) > 0 {
      AsciiTrimEnd(s[..|s| - SpaceAtEnd(s)]);
    }
  }

  lemma {:induction false} AsciiTrimStart(s: string)
    requires IsAscii(s)
    ensures IsAscii(TrimStartUtf8(s))
  {
    if SpaceAtStart(s) > 0 {
      AsciiTrimStart(s[SpaceAtStart(s)..]);
    }
  }

  lemma {:induction false} AsciiAfterDoubleSlash(s: string)
    requires IsAscii(s)
    ensures AfterDoubleSlash(s).Some? ==> IsAscii(AfterDoubleSlash(s).value)
  {
    if |s| >= 2 && !(s[0] == '/' && s[1] == '/') {
      AsciiAfterDoubleSlash(s[1..]);
    }
  }

  lemma {:induction false} AsciiSegments(segments: seq<string>)
    requires forall i :: 0 <= i < |segments| ==> IsAscii(segments[i])
    ensures forall i :: 0 <= i < |NonEmptySegments(segments)| ==> IsAscii(NonEmptySegments(segments)[i])
  {
    if segments != [] {
      AsciiSegments(segments[1..]);
    }
  }

  lemma AsciiInvite(lossy: Lossy, input: string)
    requires IsAscii(input)
    ensures ParsedInvite(lossy, input) != Panics
  {
    hide Finished, DecodedBytes, Split, NonEmptySegments, AfterDoubleSlash;
    AsciiAfterDoubleSlash(input);
    if AfterDoubleSlash(input).Some? && SplitOnce(AfterDoubleSlash(input).value, '/').Some? {
      var rest := SplitOnce(AfterDoubleSlash(input).value, '/').value.1;
      var (path, query) := match SplitOnce(rest, '?') case Some((p, q)) => (p, Some(q)) case None => (rest, None);
      AsciiSplits(path, '/');
      AsciiSegments(Split(path, '/'));
      if InviteJid(path).Some? {
        AsciiFinishes(lossy, InviteJid(path).value, query, '&');
      }
    }
  }

  /** Main result: no ASCII text makes the parser panic; what it cannot use is skipped or refused. */
  lemma AsciiNeverPanics(lossy: Lossy, text: string)
    requires IsAscii(text)
    ensures Parsed(lossy, text) != Panics
  {
    AsciiTrimStart(text);
    AsciiTrimEnd(TrimStartUtf8(text));
    var input := TrimUtf8(text);
    if "xmpp:" <= Lower(input) {
      match SplitOnce(input[5..], '?')
      case Some((jid, query)) => AsciiFinishes(lossy, jid, Some(query), ';');
      case None => AsciiFinishes(lossy, input[5..], None, ';');
    } else {
      AsciiInvite(lossy, input);
    }
  }

  // ---- fingerprints in other forms -----------------------------------------

  lemma {:induction false} DropSpacesAppends(a: string, b: string)
    requires IsAscii(a)
    ensures DropSpaces(a + b) == DropSpaces(a) + DropSpaces(b)
  {
    if a == "" {
      assert a + b == b;
    } else {
      assert (a + b)[1..] == a[1..] + b && (a + b)[0] == a[0];
      AsciiSpaceAtStart(a);
      AsciiSpaceAtStart(a + b);
      DropSpacesAppends(a[1..], b);
    }
  }

  lemma AsciiSpaceAtStart(s: string)
    requires s != "" && s[0] as int < 0x80
    ensures SpaceAtStart(s) == if OneByteSpace(s[0]) then 1 else 0
  {
  }

  lemma OneSpaceIsDropped(a: string, b: string)
    requires IsAscii(a)
    ensures DropSpaces(a + " " + b) == DropSpaces(a + b)
  {
    DropSpacesAppends(a, " " + b);
    DropSpacesAppends(a, b);
    DropSpacesAppends(" ", b);
    NothingInASpace();
    hide DropSpaces;
    assert a + " " + b == a + (" " + b) && "" + DropSpaces(b) == DropSpaces(b);
  }

  lemma NothingInASpace()
    ensures DropSpaces(" ") == ""
  {
    assert " "[1..] == "";
  }

  /** Spaces that group the digits make no difference. */
  lemma GroupingIsIgnored(a: string, b: string)
    requires IsAscii(a)
    ensures NormalizedFingerprint(a + " " + b) == NormalizedFingerprint(a + b)
  {
    hide DropSpaces, Lower;
    OneSpaceIsDropped(a, b);
  }

  lemma {:induction false} LowerTwice(s: string)
    ensures Lower(Lower(s)) == Lower(s)
  {
    assert forall i :: 0 <= i < |s| ==> Lower(Lower(s))[i] == Lower(s)[i];
  }

  lemma {:induction false} LowerDropsTheSame(s: string)
    requires IsAscii(s)
    ensures Lower(DropSpaces(s)) == Lower(DropSpaces(Lower(s)))
  {
    if s != "" {
      LowerDropsTheSame(s[1..]);
      assert Lower(s)[1..] == Lower(s[1..]);
      AsciiSpaceAtStart(s);
      AsciiSpaceAtStart(Lower(s));
      if !OneByteSpace(s[0]) {
        assert ([s[0]] + DropSpaces(s[1..]))[1..] == DropSpaces(s[1..]);
        var l := Lower(s);
        assert ([l[0]] + DropSpaces(l[1..]))[1..] == DropSpaces(l[1..]);
      }
    }
  }

  /** Upper-case digits are read like lower-case ones. */
  lemma CaseIsIgnored(s: string)
    requires IsAscii(s)
    ensures NormalizedFingerprint(Lower(s)) == NormalizedFingerprint(s)
  {
    LowerDropsTheSame(s);
  }

  lemma {:induction false} LowerHexStays(s: string)
    requires forall i :: 0 <= i < |s| ==> IsLowerHex(s[i])
    ensures DropSpaces(s) == s && Lower(s) == s
  {
    NoSpacesInHex(s);
    assert forall i :: 0 <= i < |s| ==> Lower(s)[i] == s[i];
  }

  /** A key is accepted with its type byte 05 in front or without, and nothing of another length is. */
  lemma KeyLengths(s: string)
    requires forall i :: 0 <= i < |s| ==> IsLowerHex(s[i])
    ensures |s| == 64 ==> NormalizedFingerprint(s) == Some(s) && NormalizedFingerprint("05" + s) == Some(s)
    ensures |s| == 66 && (s[0] != '0' || s[1] != '5') ==> NormalizedFingerprint(s) == None
    ensures |s| != 64 && |s| != 66 ==> NormalizedFingerprint(s) == None
  {
    LowerHexStays(s);
    var t := "05" + s;
    LowerHexStays(t);
    assert t[2..] == s && "05" <= t;
    assert "05" <= s ==> s[0] == '0' && s[1] == '5';
  }

  // ---- invite links --------------------------------------------------------

  function InviteQuery(fps: seq<UriFingerprint>): string {
    if fps == [] then "" else "?" + Join(Pairs(fps), "&")
  }

  /** An invite link names the JID in its path and separates the parameters by ampersands. */
  function InviteLink(secure: bool, host: string, path: string, fps: seq<UriFingerprint>): string {
    (if secure then "https://" else "http://") + (host + "/i/" + (path + InviteQuery(fps)))
  }

  lemma LowerScheme(scheme: string, rest: string)
    requires forall i :: 0 <= i < |scheme| ==> LowerChar(scheme[i]) == scheme[i]
    ensures scheme <= Lower(scheme + rest) && (scheme != "" ==> Lower(scheme + rest)[0] == scheme[0])
  {
    var s := scheme + rest;
    assert forall i :: 0 <= i < |scheme| ==> s[i] == scheme[i];
  }

  lemma SchemeAndSlashes(secure: bool, rest: string)
    ensures var s := (if secure then "https://" else "http://") + rest;
            && AfterDoubleSlash(s) == Some(rest)
            && !("xmpp:" <= Lower(s)) && ("https://" <= Lower(s) || "http://" <= Lower(s))
            && s[0] == 'h'
  {
    hide AfterDoubleSlash, Lower;
    assert "https://"[0] == 'h' && "http://"[0] == 'h' && "xmpp:"[0] == 'x';
    if secure {
      SlashesAfter("https:", rest);
      LowerScheme("https://", rest);
      assert "https:" + "//" == "https://";
    } else {
      SlashesAfter("http:", rest);
      LowerScheme("http://", rest);
      assert "http:" + "//" == "http://";
    }
  }

  lemma {:induction false} SlashesAfter(head: string, rest: string)
    requires '/' !in head
    ensures AfterDoubleSlash(head + "//" + rest) == Some(rest)
  {
    var s := head + "//" + rest;
    if head == "" {
      assert s == "//" + rest && s[2..] == rest;
    } else {
      assert s[0] == head[0] && s[1..] == head[1..] + "//" + rest;
      SlashesAfter(head[1..], rest);
    }
  }

  lemma NoSlashInEncoded(s: string)
    requires '/' !in s
    ensures '/' !in Encoded(s)
  {
    if s != "" {
      NoSlashInEncoded(s[1..]);
      assert '/' !in EncodedByte(s[0]);
    }
  }

  lemma {:induction false} EncodedAppends(a: string, b: string)
    ensures Encoded(a + b) == Encoded(a) + Encoded(b)
  {
    if a == "" {
      assert a + b == b;
    } else {
      assert (a + b)[1..] == a[1..] + b;
      EncodedAppends(a[1..], b);
      assert EncodedByte(a[0]) + (Encoded(a[1..]) + Encoded(b)) == EncodedByte(a[0]) + Encoded(a[1..]) + Encoded(b);
    }
  }

  lemma EncodedIsSomething(s: string)
    requires s != ""
    ensures Encoded(s) != ""
  {
  }

  lemma SegmentsOfPath(first: string)
    requires '/' !in first && first != ""
    ensures InviteJid("i/" + first) == Some(first)
  {
    assert "i/" + first == "i" + ['/'] + first;
    SplitAt("i", '/', first);
    SplitNone(first, '/');
    TwoSegments("i", first);
  }

  lemma TwoSegments(a: string, b: string)
    requires a != "" && b != ""
    ensures NonEmptySegments([a] + [b]) == [a, b]
  {
    var s := [a] + [b];
    assert s[0] == a && s[1..] == [b] && [b][1..] == [];
    assert NonEmptySegments([b]) == [b];
    assert NonEmptySegments(s) == [a] + NonEmptySegments(s[1..]);
  }

  lemma SegmentsOfOldPath(user: string, domain: string)
    requires '/' !in user && user != "" && '@' !in user && '/' !in domain && domain != ""
    ensures InviteJid("i/" + user + "/" + domain) == Some(user + "@" + domain)
  {
    var tail := user + ['/'] + domain;
    assert "i/" + user + "/" + domain == "i" + ['/'] + tail;
    SplitAt("i", '/', tail);
    SplitAt(user, '/', domain);
    SplitNone(domain, '/');
    assert ([user] + [domain])[1..] == [domain];
    TwoSegments(user, domain);
    assert (["i"] + ([user] + [domain]))[1..] == [user] + [domain];
  }

  /** Slashes that follow each other count as one. */
  lemma EmptySegmentsAreSkipped(a: string, b: string)
    ensures InviteJid(a + "//" + b) == InviteJid(a + "/" + b)
  {
    hide Split, NonEmptySegments;
    SplitTwice(a, "/" + b);
    SplitTwice(a, b);
    SplitAt("", '/', b);
    assert "/" + b == "" + ['/'] + b;
    SegmentsAppend(Split(a, '/'), [""] + Split(b, '/'));
    SegmentsAppend(Split(a, '/'), Split(b, '/'));
    SkippedSegment(Split(b, '/'));
    assert a + "//" + b == a + ['/'] + ("/" + b) && a + "/" + b == a + ['/'] + b;
  }

  lemma SkippedSegment(segments: seq<string>)
    ensures NonEmptySegments([""] + segments) == NonEmptySegments(segments)
  {
    assert ([""] + segments)[1..] == segments;
  }

  lemma {:induction false} SegmentsAppend(a: seq<string>, b: seq<string>)
    ensures NonEmptySegments(a + b) == NonEmptySegments(a) + NonEmptySegments(b)
  {
    if a == [] {
      assert a + b == b;
    } else {
      assert (a + b)[1..] == a[1..] + b;
      SegmentsAppend(a[1..], b);
    }
  }

  lemma {:induction false} SplitTwice(a: string, b: string)
    ensures Split(a + ['/'] + b, '/') == Split(a, '/') + Split(b, '/')
    decreases |a|
  {
    hide Split;
    var n := Before(a, '/');
    if n == |a| {
      assert a[..n] == a;
      SplitNone(a, '/');
      SplitAt(a, '/', b);
    } else {
      var head, rest := a[..n], a[n + 1..];
      assert a == head + ['/'] + rest;
      SplitAt(head, '/', rest);
      assert a + ['/'] + b == head + ['/'] + (rest + ['/'] + b);
      SplitAt(head, '/', rest + ['/'] + b);
      SplitTwice(rest, b);
    }
  }

  lemma InvitePathAndQuery(path: string, fps: seq<UriFingerprint>)
    requires '?' !in path
    ensures SplitOnce(path + InviteQuery(fps), '?') == if fps == [] then None else Some((path, Join(Pairs(fps), "&")))
  {
    if fps == [] {
      assert path + "" == path;
      SplitOnceNone(path, '?');
    } else {
      var q := Join(Pairs(fps), "&");
      assert path + ("?" + q) == path + ['?'] + q;
      SplitOnceAt(path, '?', q);
    }
  }

  lemma InviteIsParsed(lossy: Lossy, secure: bool, host: string, path: string, fps: seq<UriFingerprint>)
    requires '/' !in host && '?' !in path
    requires TrimUtf8(InviteLink(secure, host, path, fps)) == InviteLink(secure, host, path, fps)
    ensures Parsed(lossy, InviteLink(secure, host, path, fps)) ==
              match InviteJid("i/" + path)
              case Some(jid) => Finished(lossy, jid, if fps == [] then None else Some(Join(Pairs(fps), "&")), '&')
              case None => NoUri
  {
    hide Finished, InviteJid, TrimUtf8, Lower, AfterDoubleSlash, InviteQuery, SplitOnce, Before;
    var tail := "i/" + path + InviteQuery(fps);
    var rest := host + ['/'] + tail;
    assert host + "/i/" + (path + InviteQuery(fps)) == rest;
    SchemeAndSlashes(secure, rest);
    SplitOnceAt(host, '/', tail);
    assert '?' !in "i/" + path;
    InvitePathAndQuery("i/" + path, fps);
    var input := InviteLink(secure, host, path, fps);
    assert AfterDoubleSlash(input) == Some(rest) && SplitOnce(rest, '/') == Some((host, tail));
    assert Parsed(lossy, input) == ParsedInvite(lossy, input);
    if fps == [] {
      assert "i/" + path + InviteQuery(fps) == "i/" + path by {
        NoQuery("i/" + path, fps);
      }
    }
  }

  lemma NoQuery(path: string, fps: seq<UriFingerprint>)
    requires fps == []
    ensures path + InviteQuery(fps) == path
  {
    assert path + "" == path;
  }

  lemma InviteEnd(front: string, jid: string, fps: seq<UriFingerprint>)
    requires SpaceAtEnd(jid) == 0 && jid != "" && AllEntries(fps) && PlainEnded(front)
    ensures SpaceAtEnd(front + Encoded(jid) + InviteQuery(fps)) == 0
  {
    hide InviteQuery, Encoded, SpaceAtEnd, PlainEnded, AllEntries;
    if fps == [] {
      NoQuery(front + Encoded(jid), fps);
      NoSpaceAfter(front, jid);
    } else {
      QueryEnd(fps);
      var s := front + Encoded(jid) + InviteQuery(fps);
      assert s[|s| - 1] == InviteQuery(fps)[|InviteQuery(fps)| - 1];
      PlainEnd(s);
    }
  }

  lemma QueryEnd(fps: seq<UriFingerprint>)
    requires fps != [] && AllEntries(fps)
    ensures var q := InviteQuery(fps); q != "" && 0x21 <= q[|q| - 1] as int < 0x80
  {
    hide Key, Join;
    var k := |fps| - 1;
    assert IsKeyEntry(fps[k]) && Pairs(fps)[k] == Pair(fps[k]);
    JoinEndsInLast(Pairs(fps), "&");
    assert Pair(fps[k])[|Pair(fps[k])| - 1] == fps[k].hex[63];
  }

  lemma {:induction false} JoinEndsInLast(parts: seq<string>, separator: string)
    requires parts != [] && parts[|parts| - 1] != ""
    ensures var j, last := Join(parts, separator), parts[|parts| - 1];
            j != "" && j[|j| - 1] == last[|last| - 1]
  {
    if |parts| > 1 {
      JoinEndsInLast(parts[1..], separator);
    }
  }

  lemma InviteIsTrimmed(secure: bool, host: string, front: string, jid: string, fps: seq<UriFingerprint>)
    requires SpaceAtEnd(jid) == 0 && jid != "" && AllEntries(fps) && PlainEnded("/i/" + front)
    ensures var link := InviteLink(secure, host, front + Encoded(jid), fps); TrimUtf8(link) == link
  {
    hide InviteQuery, TrimUtf8, Encoded, AllEntries, SpaceAtEnd;
    var scheme := if secure then "https://" else "http://";
    var link := InviteLink(secure, host, front + Encoded(jid), fps);
    var head := scheme + host + ("/i/" + front);
    assert head[|head| - 1] == ("/i/" + front)[|"/i/" + front| - 1];
    hide PlainEnded;
    RegroupLink(scheme, host, "/i/", front, Encoded(jid), InviteQuery(fps));
    InviteEnd(head, jid, fps);
    StartsPlain(scheme, host + "/i/" + (front + Encoded(jid) + InviteQuery(fps)));
    TrimKeeps(link);
  }

  lemma RegroupLink(a: string, b: string, c: string, d: string, e: string, f: string)
    ensures a + (b + c + (d + e + f)) == a + b + (c + d) + e + f
  {
  }

  lemma StartsPlain(scheme: string, rest: string)
    requires scheme == "https://" || scheme == "http://"
    ensures SpaceAtStart(scheme + rest) == 0
  {
    assert (scheme + rest)[0] == 'h';
  }

  /** Main result: an invite link is read as the JID in its path and the first entry of each parameter,
      just as a code with the same JID and entries is. */
  lemma InviteLinkIsRead(lossy: Lossy, secure: bool, host: string, jid: string, fps: seq<UriFingerprint>)
    requires LossyLaw(lossy) && IsText(lossy, jid) && NoOuterSpace(jid) && '@' in jid && '/' !in jid && AllEntries(fps)
    requires '/' !in host
    ensures Parsed(lossy, InviteLink(secure, host, Encoded(jid), fps)) == Found(ParsedUri(jid, FirstOfEach([], fps)))
    ensures Parsed(lossy, InviteLink(secure, host, Encoded(jid), fps)) == Parsed(lossy, Printed(jid, fps))
  {
    hide InviteLink, TrimUtf8, Finished, Parsed, InviteJid, FirstOfEach;
    InviteIsTrimmed(secure, host, "", jid, fps);
    assert "" + Encoded(jid) == Encoded(jid);
    NoMarkInEncoded(jid);
    NoSlashInEncoded(jid);
    EncodedIsSomething(jid);
    InviteIsParsed(lossy, secure, host, Encoded(jid), fps);
    SegmentsOfPath(Encoded(jid));
    FinishedPrinted(lossy, jid, fps, '&');
    assert ['&'] == "&";
    PrintedUriIsRead(lossy, jid, fps);
  }

  lemma NoAtInEncoded(s: string)
    requires '@' !in s
    ensures '@' !in Encoded(s)
  {
    if s != "" {
      NoAtInEncoded(s[1..]);
      assert '@' !in EncodedByte(s[0]);
    }
  }

  lemma EncodedAddress(user: string, domain: string)
    ensures Encoded(user + "@" + domain) == Encoded(user) + "@" + Encoded(domain)
  {
    EncodedAppends(user + "@", domain);
    EncodedAppends(user, "@");
    assert Encoded("@") == "@" by {
      assert "@"[1..] == "";
      assert Encoded("@") == EncodedByte('@') + "";
    }
  }

  lemma AddressParts(user: string, domain: string)
    requires '/' !in user + "@" + domain
    ensures '/' !in user && '/' !in domain && '@' in user + "@" + domain
  {
    var jid := user + "@" + domain;
    assert forall i :: 0 <= i < |user| ==> jid[i] == user[i];
    assert forall i :: 0 <= i < |domain| ==> jid[|user| + 1 + i] == domain[i];
    assert jid[|user|] == '@';
  }

  /** The older form of a link has user and domain in two segments. */
  lemma OldInviteLinkIsRead(lossy: Lossy, secure: bool, host: string, user: string, domain: string, fps: seq<UriFingerprint>)
    requires var jid := user + "@" + domain; LossyLaw(lossy) && IsText(lossy, jid) && NoOuterSpace(jid) && '/' !in jid
    requires user != "" && domain != "" && '@' !in user && AllEntries(fps) && '/' !in host && SpaceAtEnd(domain) == 0
    ensures Parsed(lossy, InviteLink(secure, host, Encoded(user) + "/" + Encoded(domain), fps))
              == Found(ParsedUri(user + "@" + domain, FirstOfEach([], fps)))
  {
    hide InviteLink, TrimUtf8, Finished, Parsed, InviteJid, FirstOfEach, Encoded, SpaceAtEnd, SpaceAtStart, AllEntries, IsText;
    hide LossyLaw;
    var jid := user + "@" + domain;
    AddressParts(user, domain);
    InviteIsTrimmed(secure, host, Encoded(user) + "/", domain, fps);
    NoMarkInEncoded(user);
    NoMarkInEncoded(domain);
    NoSlashInEncoded(user);
    NoSlashInEncoded(domain);
    NoAtInEncoded(user);
    EncodedIsSomething(user);
    EncodedIsSomething(domain);
    var path := Encoded(user) + "/" + Encoded(domain);
    InviteIsParsed(lossy, secure, host, path, fps);
    assert "i/" + path == "i/" + Encoded(user) + "/" + Encoded(domain);
    SegmentsOfOldPath(Encoded(user), Encoded(domain));
    EncodedAddress(user, domain);
    FinishedPrinted(lossy, jid, fps, '&');
    assert ['&'] == "&";
  }
}

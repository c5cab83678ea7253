/**
  Verification URIs: `xmpp:<jid>?omemo-sid-<device>=<fingerprint>;...`.

  A string here is its UTF-8 bytes, one `char` below 256 for each byte, because percent-decoding and
  slicing work on bytes. `lossy` stands for the conversion of decoded bytes to text; it leaves valid
  UTF-8 alone. A slice that does not fall on a character boundary panics, which is `None` below.
 */
module Uri {
  import opened Wrappers
  import opened Text
  import opened Decimal
  import opened Hex

  datatype FingerprintKind = Omemo | OmemoPq
  datatype UriFingerprint = UriFingerprint(kind: FingerprintKind, deviceId: int, hex: string)
  datatype ParsedUri = ParsedUri(jid: string, fingerprints: seq<UriFingerprint>)

  const OMEMO_PARAM: string := "omemo-sid-"
  const OMEMO_PQ_PARAM: string := "omemo-pq-sid-"
  const MAX_URI_FINGERPRINTS: nat := 64

  type Lossy = string -> string

  // ---- bytes -------------------------------------------------------------

  predicate IsContinuation(c: char) {
    0x80 <= c as int < 0xC0
  }

  /** A continuation byte never follows an ASCII byte, as in all valid UTF-8. */
  predicate OnBoundaries(s: string) {
    forall i :: 0 <= i < |s| && IsContinuation(s[i]) ==> i > 0 && s[i - 1] as int >= 0x80
  }

  // The UTF-8 forms of the white-space characters, by length.

  predicate OneByteSpace(a: char) {
    9 <= a as int <= 13 || a == ' '
  }

  predicate TwoByteSpace(a: char, b: char) {
    a as int == 0xC2 && (b as int == 0x85 || b as int == 0xA0)
  }

  predicate ThreeByteSpace(a: char, b: char, c: char) {
    var z := c as int;
    || (a as int == 0xE1 && b as int == 0x9A && z == 0x80)
    || (a as int == 0xE2 && b as int == 0x80 && (0x80 <= z <= 0x8A || z == 0xA8 || z == 0xA9 || z == 0xAF))
    || (a as int == 0xE2 && b as int == 0x81 && z == 0x9F)
    || (a as int == 0xE3 && b as int == 0x80 && z == 0x80)
  }

  /** Length of the white-space character `s` starts with, or 0. */
  function SpaceAtStart(s: string): (n: nat)
    ensures n <= |s| && n <= 3
  {
    if |s| >= 1 && OneByteSpace(s[0]) then 1
    else if |s| >= 2 && TwoByteSpace(s[0], s[1]) then 2
    else if |s| >= 3 && ThreeByteSpace(s[0], s[1], s[2]) then 3
    else 0
  }

  /** Length of the white-space character `s` ends with, or 0. */
  function SpaceAtEnd(s: string): (n: nat)
    ensures n <= |s| && n <= 3
  {
    var k := |s|;
    if k >= 1 && OneByteSpace(s[k - 1]) then 1
    else if k >= 2 && TwoByteSpace(s[k - 2], s[k - 1]) then 2
    else if k >= 3 && ThreeByteSpace(s[k - 3], s[k - 2], s[k - 1]) then 3
    else 0
  }

  function TrimStartUtf8(s: string): string {
    var n := SpaceAtStart(s);
    if n == 0 then s else TrimStartUtf8(s[n..])
  }

  function TrimEndUtf8(s: string): string {
    var n := SpaceAtEnd(s);
    if n == 0 then s else TrimEndUtf8(s[..|s| - n])
  }

  function TrimUtf8(s: string): string {
    TrimEndUtf8(TrimStartUtf8(s))
  }

  predicate NoOuterSpace(s: string) {
    SpaceAtStart(s) == 0 && SpaceAtEnd(s) == 0
  }

  function LowerChar(c: char): char {
    if 'A' <= c <= 'Z' then c - 'A' + 'a' else c
  }

  function Lower(s: string): (r: string)
    ensures |r| == |s| && forall i :: 0 <= i < |s| ==> r[i] == LowerChar(s[i])
  {
    if s == "" then "" else [LowerChar(s[0])] + Lower(s[1..])
  }

  // ---- percent encoding --------------------------------------------------

  predicate NeedsEscape(c: char) {
    c == '?' || c == ';' || c == '#' || c == '%' || c == ' '
  }

  const UPPER_DIGITS: string := "0123456789ABCDEF"

  function Escaped(c: char): string
    requires c as int < 256
  {
    ['%', UPPER_DIGITS[c as int / 16], UPPER_DIGITS[c as int % 16]]
  }

  predicate IsBytes(s: string) {
    forall i :: 0 <= i < |s| ==> s[i] as int < 256
  }

  function EncodedByte(c: char): string {
    if NeedsEscape(c) then Escaped(c) else [c]
  }

  function Encoded(s: string): string
  {
    if s == "" then "" else EncodedByte(s[0]) + Encoded(s[1..])
  }

  method EncodeJid(jid: string) returns (out: string)
    ensures out == Encoded(jid)
  {
    out := "";
    for i := 0 to |jid|
      invariant Encoded(jid) == out + Encoded(jid[i..])
    {
      ghost var rest := jid[i + 1..];
      assert jid[i..][1..] == rest;
      assert out + (EncodedByte(jid[i]) + Encoded(rest)) == out + EncodedByte(jid[i]) + Encoded(rest);
      if NeedsEscape(jid[i]) {
        out := out + Escaped(jid[i]);
      } else {
        out := out + [jid[i]];
      }
    }
  }

  function HexValue(c: char): Option<nat> {
    if '0' <= c <= '9' then Some((c - '0') as nat)
    else if 'a' <= c <= 'f' then Some((c - 'a') as nat + 10)
    else if 'A' <= c <= 'F' then Some((c - 'A') as nat + 10)
    else None
  }

  /** `u8::from_str_radix(_, 16)` of two bytes; a leading plus sign is allowed. */
  function HexByte(a: char, b: char): Option<nat> {
    match HexValue(b)
    case None => None
    case Some(low) =>
      if a == '+' then Some(low)
      else
        match HexValue(a)
        case Some(high) => Some(16 * high + low)
        case None => None
  }

  lemma HexByteIsByte(a: char, b: char)
    ensures HexByte(a, b).Some? ==> HexByte(a, b).value < 256
  {
  }

  function Prepend(head: string, rest: Option<string>): Option<string> {
    match rest
    case Some(r) => Some(head + r)
    case None => None
  }

  lemma PrependTwice(a: string, b: string, r: Option<string>)
    ensures Prepend(a, Prepend(b, r)) == Prepend(a + b, r)
    ensures Prepend("", r) == r
  {
    if r.Some? {
      assert a + (b + r.value) == a + b + r.value && "" + r.value == r.value;
    }
  }

  predicate AtEscape(s: string) {
    |s| >= 3 && s[0] == '%'
  }

  /** Percent-decoding, up to the conversion to text. */
  function DecodedBytes(s: string): Option<string>
    decreases |s|
  {
    if s == "" then Some("")
    else if AtEscape(s) && |s| > 3 && IsContinuation(s[3]) then None
    else if AtEscape(s) && HexByte(s[1], s[2]).Some? then
      HexByteIsByte(s[1], s[2]);
      Prepend([HexByte(s[1], s[2]).value as char], DecodedBytes(s[3..]))
    else
      Prepend([s[0]], DecodedBytes(s[1..]))
  }

  function Decoded(lossy: Lossy, s: string): Option<string> {
    match DecodedBytes(s)
    case Some(bytes) => Some(lossy(bytes))
    case None => None
  }

  method PercentDecode(lossy: Lossy, value: string) returns (r: Option<string>)
    ensures r == Decoded(lossy, value)
  {
    var out := "";
    var i := 0;
    PrependTwice("", "", DecodedBytes(value));
    assert value[0..] == value;
    while i < |value|
      invariant 0 <= i <= |value|
      invariant DecodedBytes(value) == Prepend(out, DecodedBytes(value[i..]))
    {
      ghost var s := value[i..];
      assert s[1..] == value[i + 1..];
      if value[i] == '%' && i + 2 < |value| {
        assert AtEscape(s) && s[3..] == value[i + 3..];
        if i + 3 < |value| && IsContinuation(value[i + 3]) {
          return None;
        }
        var byte := HexByte(value[i + 1], value[i + 2]);
        if byte.Some? {
          HexByteIsByte(value[i + 1], value[i + 2]);
          PrependTwice(out, [byte.value as char], DecodedBytes(s[3..]));
          out := out + [byte.value as char];
          i := i + 3;
          continue;
        }
      }
      PrependTwice(out, [value[i]], DecodedBytes(s[1..]));
      out := out + [value[i]];
      i := i + 1;
    }
    assert value[|value|..] == "";
    assert out + "" == out;
    r := Some(lossy(out));
  }

  lemma EscapeIsRead(c: char)
    requires NeedsEscape(c)
    ensures Escaped(c)[0] == '%' && HexByte(Escaped(c)[1], Escaped(c)[2]) == Some(c as nat)
  {
    if c == '?' {
      assert Escaped(c) == "%3F";
    } else if c == ';' {
      assert Escaped(c) == "%3B";
    } else if c == '#' {
      assert Escaped(c) == "%23";
    } else if c == '%' {
      assert Escaped(c) == "%25";
    } else {
      assert Escaped(c) == "%20";
    }
  }

  lemma EscapeDecodes(c: char, rest: string)
    requires NeedsEscape(c) && (rest != "" ==> !IsContinuation(rest[0]))
    ensures DecodedBytes(Escaped(c) + rest) == Prepend([c], DecodedBytes(rest))
  {
    EscapeIsRead(c);
    var e := Escaped(c);
    assert |e| == 3;
    var s := e + rest;
    assert s[0] == e[0] && s[1] == e[1] && s[2] == e[2] && s[3..] == rest;
    assert |s| > 3 ==> s[3] == rest[0];
  }

  /** The first byte of an encoded string is a continuation byte only if the first byte was. */
  lemma EncodedStart(s: string)
    ensures s != "" && !IsContinuation(s[0]) ==> !IsContinuation(Encoded(s)[0])
    ensures s != "" ==> Encoded(s) != ""
  {
  }

  lemma {:induction false} DecodingUndoesEncoding(s: string)
    requires forall i :: 1 <= i < |s| && IsContinuation(s[i]) ==> s[i - 1] as int >= 0x80
    ensures DecodedBytes(Encoded(s)) == Some(s)
  {
    if s != "" {
      DecodingUndoesEncoding(s[1..]);
      EncodedStart(s[1..]);
      if NeedsEscape(s[0]) {
        assert s[0] as int < 0x80;
        EscapeDecodes(s[0], Encoded(s[1..]));
      } else {
        assert Encoded(s)[1..] == Encoded(s[1..]) && Encoded(s)[0] == s[0];
        assert !AtEscape(Encoded(s));
      }
      assert [s[0]] + s[1..] == s;
    }
  }

  lemma {:induction false} DecodingPlainText(s: string)
    requires '%' !in s
    ensures DecodedBytes(s) == Some(s)
  {
    if s != "" {
      DecodingPlainText(s[1..]);
      assert [s[0]] + s[1..] == s;
    }
  }

  // ---- printing a URI ----------------------------------------------------

  function Parameter(kind: FingerprintKind): string {
    match kind
    case Omemo => OMEMO_PARAM
    case OmemoPq => OMEMO_PQ_PARAM
  }

  function PrintInt(n: int): string {
    if n < 0 then "-" + Print(-n) else Print(n)
  }

  function Key(fp: UriFingerprint): string {
    Parameter(fp.kind) + PrintInt(fp.deviceId)
  }

  function Pair(fp: UriFingerprint): string {
    Key(fp) + "=" + fp.hex
  }

  function Pairs(fps: seq<UriFingerprint>): (r: seq<string>)
    ensures |r| == |fps| && forall i :: 0 <= i < |fps| ==> r[i] == Pair(fps[i])
  {
    seq(|fps|, i requires 0 <= i < |fps| => Pair(fps[i]))
  }

  function Query(fps: seq<UriFingerprint>): string {
    if fps == [] then "" else "?" + Join(Pairs(fps), ";")
  }

  function Printed(jid: string, fps: seq<UriFingerprint>): string {
    "xmpp:" + Encoded(jid) + Query(fps)
  }

  lemma {:induction false} JoinOneMore(parts: seq<string>, last: string, separator: string)
    requires parts != []
    ensures Join(parts + [last], separator) == Join(parts, separator) + separator + last
  {
    var all := parts + [last];
    assert all[1..] == parts[1..] + [last];
    if |parts| > 1 {
      JoinOneMore(parts[1..], last, separator);
    }
  }

  lemma QueryOneMore(fps: seq<UriFingerprint>, fp: UriFingerprint)
    ensures Query(fps + [fp]) == Query(fps) + (if fps == [] then "?" else ";") + Pair(fp)
  {
    assert Pairs(fps + [fp]) == Pairs(fps) + [Pair(fp)];
    if fps != [] {
      JoinOneMore(Pairs(fps), Pair(fp), ";");
    }
  }

  lemma QueryGrows(fps: seq<UriFingerprint>, i: nat)
    requires i < |fps|
    ensures Query(fps[..i + 1]) == Query(fps[..i]) + (if i == 0 then "?" else ";") + Pair(fps[i])
  {
    QueryOneMore(fps[..i], fps[i]);
    assert fps[..i + 1] == fps[..i] + [fps[i]];
  }

  method PushPair(out: string, separator: string, fp: UriFingerprint) returns (r: string)
    ensures r == out + (separator + Pair(fp))
  {
    var tail := separator;
    tail := tail + Parameter(fp.kind);
    tail := tail + PrintInt(fp.deviceId);
    tail := tail + "=";
    tail := tail + fp.hex;
    assert tail == separator + Pair(fp);
    r := out + tail;
  }

  lemma Associate(a: string, b: string, c: string, d: string)
    ensures a + b + (c + d) == a + (b + c + d)
  {
  }

  method VerificationUri(bareJid: string, fps: seq<UriFingerprint>) returns (out: string)
    ensures out == Printed(bareJid, fps)
  {
    var encoded := EncodeJid(bareJid);
    out := "xmpp:" + encoded;
    ghost var head := out;
    assert head + Query(fps[..0]) == head;
    for i := 0 to |fps|
      invariant out == head + Query(fps[..i])
    {
      var separator := if i == 0 then "?" else ";";
      QueryGrows(fps, i);
      Associate(head, Query(fps[..i]), separator, Pair(fps[i]));
      out := PushPair(out, separator, fps[i]);
    }
    assert fps[..|fps|] == fps;
  }

  // ---- parsing a URI -----------------------------------------------------

  datatype Outcome = Panics | NoUri | Found(uri: ParsedUri)

  function DropSpaces(s: string): string {
    if s == "" then ""
    else if SpaceAtStart(s) > 0 then DropSpaces(s[SpaceAtStart(s)..])
    else [s[0]] + DropSpaces(s[1..])
  }

  /** The lower-case hex of a 32-byte key, with or without its type byte. */
  function NormalizedFingerprint(value: string): Option<string> {
    var hex := Lower(DropSpaces(value));
    if exists i :: 0 <= i < |hex| && !IsLowerHex(hex[i]) then None
    else if |hex| == 64 then Some(hex)
    else if |hex| == 66 && "05" <= hex then Some(hex[2..])
    else None
  }

  function KindOf(key: string): Option<(FingerprintKind, string)> {
    match StripPrefix(key, OMEMO_PQ_PARAM)
    case Some(id) => Some((OmemoPq, id))
    case None =>
      match StripPrefix(key, OMEMO_PARAM)
      case Some(id) => Some((Omemo, id))
      case None => None
  }

  datatype Gathered = Gathered(seen: seq<string>, fingerprints: seq<UriFingerprint>)

  /** One query parameter. `None` is a panic. */
  function TakePair(lossy: Lossy, g: Gathered, pair: string): Option<Gathered> {
    match SplitOnce(pair, '=')
    case None => Some(g)
    case Some((rawKey, rawValue)) =>
      match Decoded(lossy, rawKey)
      case None => None
      case Some(decodedKey) =>
        var key := Lower(decodedKey);
        if key in g.seen then Some(g)
        else
          var g' := g.(seen := g.seen + [key]);
          match KindOf(key)
          case None => Some(g')
          case Some((kind, suffix)) =>
            match ParseI64(suffix)
            case None => Some(g')
            case Some(id) =>
              if id < 0 then Some(g')
              else
                match Decoded(lossy, rawValue)
                case None => None
                case Some(value) =>
                  match NormalizedFingerprint(value)
                  case None => Some(g')
                  case Some(hex) => Some(g'.(fingerprints := g.fingerprints + [UriFingerprint(kind, id, hex)]))
  }

  function TakePairs(lossy: Lossy, g: Gathered, pairs: seq<string>): Option<Gathered>
    decreases |pairs|
  {
    if pairs == [] || |g.fingerprints| >= MAX_URI_FINGERPRINTS then Some(g)
    else
      match TakePair(lossy, g, pairs[0])
      case None => None
      case Some(next) => TakePairs(lossy, next, pairs[1..])
  }

  function Finished(lossy: Lossy, jidPart: string, query: Option<string>, separator: char): Outcome {
    match Decoded(lossy, jidPart)
    case None => Panics
    case Some(decoded) =>
      var jid := TrimUtf8(decoded);
      if '@' !in jid then NoUri
      else
        var pairs := Split(match query case Some(q) => q case None => "", separator);
        match TakePairs(lossy, Gathered([], []), pairs)
        case None => Panics
        case Some(g) => Found(ParsedUri(jid, g.fingerprints))
  }

  method Finish(lossy: Lossy, jidPart: string, query: Option<string>, separator: char) returns (r: Outcome)
    ensures r == Finished(lossy, jidPart, query, separator)
  {
    var decoded := PercentDecode(lossy, jidPart);
    if decoded.None? {
      return Panics;
    }
    var jid := TrimUtf8(decoded.value);
    if jid == "" || '@' !in jid {
      return NoUri;
    }
    var pairs := Split(match query case Some(q) => q case None => "", separator);
    var seen: seq<string> := [];
    var fingerprints: seq<UriFingerprint> := [];
    var i := 0;
    assert pairs[0..] == pairs;
    while i < |pairs|
      invariant 0 <= i <= |pairs| && |fingerprints| < MAX_URI_FINGERPRINTS
      invariant TakePairs(lossy, Gathered([], []), pairs) == TakePairs(lossy, Gathered(seen, fingerprints), pairs[i..])
    {
      assert pairs[i..][1..] == pairs[i + 1..] && pairs[i..][0] == pairs[i];
      ghost var g := Gathered(seen, fingerprints);
      ghost var next := TakePair(lossy, g, pairs[i]);
      var split := SplitOnce(pairs[i], '=');
      i := i + 1;
      if split.None? {
        continue;
      }
      var decodedKey := PercentDecode(lossy, split.value.0);
      if decodedKey.None? {
        return Panics;
      }
      var key := Lower(decodedKey.value);
      if key in seen {
        continue;
      }
      seen := seen + [key];
      var kind := KindOf(key);
      if kind.None? {
        continue;
      }
      var id := ParseI64(kind.value.1);
      if id.None? || id.value < 0 {
        continue;
      }
      var value := PercentDecode(lossy, split.value.1);
      if value.None? {
        return Panics;
      }
      var hex := NormalizedFingerprint(value.value);
      if hex.None? {
        continue;
      }
      fingerprints := fingerprints + [UriFingerprint(kind.value.0, id.value, hex.value)];
      assert next == Some(Gathered(seen, fingerprints));
      if |fingerprints| >= MAX_URI_FINGERPRINTS {
        break;
      }
    }
    r := Found(ParsedUri(jid, fingerprints));
  }

  /** The path of an invite link: the first segment has to be "i", then a JID, or user and domain. */
  function InviteJid(path: string): Option<string> {
    var segments := NonEmptySegments(Split(path, '/'));
    if |segments| < 2 || segments[0] != "i" then None
    else if |segments| >= 3 && '@' !in segments[1] then Some(segments[1] + "@" + segments[2])
    else Some(segments[1])
  }

  function NonEmptySegments(segments: seq<string>): seq<string> {
    if segments == [] then []
    else (if segments[0] == "" then [] else [segments[0]]) + NonEmptySegments(segments[1..])
  }

  function AfterDoubleSlash(s: string): Option<string> {
    if |s| < 2 then None
    else if s[0] == '/' && s[1] == '/' then Some(s[2..])
    else AfterDoubleSlash(s[1..])
  }

  function ParsedInvite(lossy: Lossy, input: string): Outcome {
    match AfterDoubleSlash(input)
    case None => NoUri
    case Some(rest) =>
      match SplitOnce(rest, '/')
      case None => NoUri
      case Some((_, pathAndQuery)) =>
        var (path, query) := match SplitOnce(pathAndQuery, '?')
                             case Some((p, q)) => (p, Some(q))
                             case None => (pathAndQuery, None);
        match InviteJid(path)
        case None => NoUri
        case Some(jid) => Finished(lossy, jid, query, '&')
  }

  function Parsed(lossy: Lossy, text: string): Outcome {
    var input := TrimUtf8(text);
    var lower := Lower(input);
    if "xmpp:" <= lower then
      var rest := input[5..];
      match SplitOnce(rest, '?')
      case Some((jid, query)) => Finished(lossy, jid, Some(query), ';')
      case None => Finished(lossy, rest, None, ';')
    else if "https://" <= lower || "http://" <= lower then ParsedInvite(lossy, input)
    else NoUri
  }
}

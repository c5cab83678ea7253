/**
  The `<bundle>` element: printing it and parsing it. XML is the list of events a reader produces
  with text trimming on, so an element without text has no text event. Base64 is an invertible
  codec (RFC 4648, section 4) whose output has no outer white space.
 */
module BundleXml {
  import opened Wrappers
  import opened OmemoTypes
  import opened Text
  import opened Decimal

  const NS_OMEMO2: string := "urn:monocles:omemo-pq:1"

  type Attributes = seq<(string, string)>

  datatype Event =
    | Start(name: string, attributes: Attributes)
    | Empty(name: string, attributes: Attributes)
    | Text(text: string)
    | End(name: string)
    | Malformed          // the reader or the unescaping reports an error here
    | Other

  datatype Base64 = Base64(encode: Bytes -> string, decode: string -> Option<Bytes>)

  ghost predicate Lawful(c: Base64) {
    forall b: Bytes ::
      && c.decode(c.encode(b)) == Some(b)
      && Trimmed(c.encode(b))
      && (c.encode(b) == "" <==> b == [])
  }

  function Decode(c: Base64, s: string): Option<Bytes> {
    c.decode(Trim(s))
  }

  lemma DecodeUndoesEncode(c: Base64, b: Bytes)
    requires Lawful(c)
    ensures Decode(c, c.encode(b)) == Some(b)
  {
    TrimOfTrimmed(c.encode(b));
  }

  // ---- printing ----------------------------------------------------------

  function Element(name: string, attributes: Attributes, text: string): seq<Event> {
    [Start(name, attributes)] + (if text == "" then [] else [Text(text)]) + [End(name)]
  }

  function PreKeyElement(c: Base64, k: (u32, Bytes)): seq<Event> {
    Element("pk", [("id", Print(k.0))], c.encode(k.1))
  }

  function KemElement(c: Base64, k: KemPreKey): seq<Event> {
    Element("kem-pk", [("id", Print(k.id)), ("sig", c.encode(k.sig))], c.encode(k.key))
  }

  function PreKeyElements(c: Base64, keys: seq<(u32, Bytes)>): seq<Event> {
    if keys == [] then [] else PreKeyElements(c, keys[..|keys| - 1]) + PreKeyElement(c, keys[|keys| - 1])
  }

  function KemElements(c: Base64, keys: seq<KemPreKey>): seq<Event> {
    if keys == [] then [] else KemElements(c, keys[..|keys| - 1]) + KemElement(c, keys[|keys| - 1])
  }

  /** Up to and including the opening of the EC pre-key list. */
  function PrintedSigned(c: Base64, b: Bundle): seq<Event> {
    [Start("bundle", [("xmlns", NS_OMEMO2)])]
    + Element("spk", [("id", Print(b.spkId))], c.encode(b.spk))
    + Element("spks", [], c.encode(b.spkSig))
    + Element("ik", [], c.encode(b.ik))
    + [Start("prekeys", [])]
  }

  /** From the end of the EC pre-key list to the opening of the KEM pre-key list. */
  function PrintedKemSigned(c: Base64, b: Bundle): seq<Event> {
    [End("prekeys")]
    + Element("kem-spk", [("id", Print(b.kemSpkId))], c.encode(b.kemSpk))
    + Element("kem-spks", [], c.encode(b.kemSpkSig))
    + [Start("kem-prekeys", [])]
  }

  function PrintedIdentity(c: Base64, b: Bundle): seq<Event> {
    if b.HasPqIdentity() then
      [End("kem-prekeys")]
      + Element("pq-ik", [("type", "ML-DSA-87")], c.encode(b.pqIk))
      + Element("pq-sig", [], c.encode(b.pqSig))
      + [End("bundle")]
    else
      [End("kem-prekeys")] + [End("bundle")]
  }

  function Printed(c: Base64, b: Bundle): seq<Event> {
    PrintedSigned(c, b) + PreKeyElements(c, b.prekeys)
    + PrintedKemSigned(c, b) + KemElements(c, b.kemPrekeys) + PrintedIdentity(c, b)
  }

  method PushPreKeys(c: Base64, keys: seq<(u32, Bytes)>, out: seq<Event>) returns (s: seq<Event>)
    ensures s == out + PreKeyElements(c, keys)
  {
    s := out;
    for i := 0 to |keys|
      invariant s == out + PreKeyElements(c, keys[..i])
    {
      assert keys[..i + 1][..i] == keys[..i];
      s := s + PreKeyElement(c, keys[i]);
    }
    assert keys[..|keys|] == keys;
  }

  method PushKemPreKeys(c: Base64, keys: seq<KemPreKey>, out: seq<Event>) returns (s: seq<Event>)
    ensures s == out + KemElements(c, keys)
  {
    s := out;
    for i := 0 to |keys|
      invariant s == out + KemElements(c, keys[..i])
    {
      assert keys[..i + 1][..i] == keys[..i];
      s := s + KemElement(c, keys[i]);
    }
    assert keys[..|keys|] == keys;
  }

  method ToXml(c: Base64, b: Bundle) returns (s: seq<Event>)
    ensures s == Printed(c, b)
  {
    s := [Start("bundle", [("xmlns", NS_OMEMO2)])];
    s := s + Element("spk", [("id", Print(b.spkId))], c.encode(b.spk));
    s := s + Element("spks", [], c.encode(b.spkSig));
    s := s + Element("ik", [], c.encode(b.ik));
    s := s + [Start("prekeys", [])];
    s := PushPreKeys(c, b.prekeys, s);
    var middle := [End("prekeys")];
    middle := middle + Element("kem-spk", [("id", Print(b.kemSpkId))], c.encode(b.kemSpk));
    middle := middle + Element("kem-spks", [], c.encode(b.kemSpkSig));
    middle := middle + [Start("kem-prekeys", [])];
    s := PushKemPreKeys(c, b.kemPrekeys, s + middle);
    var tail := [End("kem-prekeys")];
    if b.HasPqIdentity() {
      tail := tail + Element("pq-ik", [("type", "ML-DSA-87")], c.encode(b.pqIk));
      tail := tail + Element("pq-sig", [], c.encode(b.pqSig));
    }
    s := s + (tail + [End("bundle")]);
  }

  // ---- parsing -----------------------------------------------------------

  /** What the parser has gathered, and the element it is in. `current` outlives the element's end. */
  datatype Parser = Parser(bundle: Bundle, current: string, id: Option<nat>, sig: Option<Bytes>)

  const BLANK: Bundle := Bundle(0, [], [], [], [], 0, [], [], [], [], [])

  function Attribute(a: Attributes, key: string): Option<string> {
    if a == [] then None else if a[0].0 == key then Some(a[0].1) else Attribute(a[1..], key)
  }

  function IdAttribute(a: Attributes): Option<nat> {
    match Attribute(a, "id")
    case Some(s) => ParseU32(s)
    case None => None
  }

  /** A missing signature is fine, one that is not base64 is an error. */
  function SigAttribute(c: Base64, a: Attributes): Result<Option<Bytes>, OmemoError> {
    match Attribute(a, "sig")
    case None => Ok(None)
    case Some(s) =>
      match Decode(c, s)
      case Some(raw) => Ok(Some(raw))
      case None => Err(OmemoError.Base64)
  }

  function IdOrZero(id: Option<nat>): u32 {
    match id
    case Some(n) => if n <= U32_MAX then n else 0
    case None => 0
  }

  function Collect(p: Parser, raw: Bytes): Bundle {
    var b := p.bundle;
    match p.current
    case "spk" => b.(spk := raw, spkId := IdOrZero(p.id))
    case "spks" => b.(spkSig := raw)
    case "ik" => b.(ik := raw)
    case "pk" => b.(prekeys := b.prekeys + [(IdOrZero(p.id), raw)])
    case "kem-spk" => b.(kemSpk := raw, kemSpkId := IdOrZero(p.id))
    case "kem-spks" => b.(kemSpkSig := raw)
    case "kem-pk" =>
      if IsMlKem1024(raw) then
        b.(kemPrekeys := b.kemPrekeys +
             [KemPreKey(IdOrZero(p.id), raw, match p.sig case Some(s) => s case None => [])])
      else b
    case "pq-ik" => b.(pqIk := raw)
    case "pq-sig" => b.(pqSig := raw)
    case _ => b
  }

  function Take(c: Base64, p: Parser, e: Event): Result<Parser, OmemoError> {
    match e
    case Start(name, attributes) =>
      (match SigAttribute(c, attributes)
       case Ok(sig) => Ok(Parser(p.bundle, name, IdAttribute(attributes), sig))
       case Err(error) => Err(error))
    case Text(text) =>
      (match Decode(c, text)
       case Some(raw) => Ok(p.(bundle := Collect(p, raw)))
       case None => Err(OmemoError.Base64))
    case Malformed => Err(BundleParse)
    case Empty(_, _) => Ok(p)
    case End(_) => Ok(p)
    case Other => Ok(p)
  }

  function TakeAll(c: Base64, p: Parser, events: seq<Event>): Result<Parser, OmemoError>
    decreases |events|
  {
    if events == [] then Ok(p)
    else
      match Take(c, p, events[0])
      case Ok(q) => TakeAll(c, q, events[1..])
      case Err(error) => Err(error)
  }

  /** The checks after the last event, in the order the errors are reported. */
  function Accept(b: Bundle): Result<Bundle, OmemoError> {
    if b.ik == [] || b.spk == [] then Err(BundleParse)
    else if !b.SupportsPqxdh() then Err(NoPqxdh)
    else if !IsMlKem1024(b.kemSpk) then Err(BundleParse)
    else if !b.HasPqIdentity() then Err(NoPqIdentity)
    else Ok(b)
  }

  function Parsed(c: Base64, events: seq<Event>): Result<Bundle, OmemoError> {
    match TakeAll(c, Parser(BLANK, "", None, None), events)
    case Ok(p) => Accept(p.bundle)
    case Err(error) => Err(error)
  }

  method FromXml(c: Base64, events: seq<Event>) returns (r: Result<Bundle, OmemoError>)
    ensures r == Parsed(c, events)
  {
    var b := BLANK;
    var current := "";
    var id: Option<nat> := None;
    var sig: Option<Bytes> := None;
    for i := 0 to |events|
      invariant TakeAll(c, Parser(BLANK, "", None, None), events) == TakeAll(c, Parser(b, current, id, sig), events[i..])
    {
      assert events[i..][1..] == events[i + 1..];
      match events[i] {
        case Start(name, attributes) =>
          var read := SigAttribute(c, attributes);
          if read.Err? {
            return Err(read.error);
          }
          current, id, sig := name, IdAttribute(attributes), read.value;
        case Text(text) =>
          var raw := Decode(c, text);
          if raw.None? {
            return Err(OmemoError.Base64);
          }
          b := Collect(Parser(b, current, id, sig), raw.value);
        case Malformed =>
          return Err(BundleParse);
        case Empty(_, _) =>
        case End(_) =>
        case Other =>
      }
    }
    r := Accept(b);
  }

  // ---- round trip --------------------------------------------------------

  lemma {:induction false} TakeAllAppends(c: Base64, p: Parser, xs: seq<Event>, ys: seq<Event>)
    ensures TakeAll(c, p, xs + ys) ==
              match TakeAll(c, p, xs)
              case Ok(q) => TakeAll(c, q, ys)
              case Err(e) => Err(e)
    decreases |xs|
  {
    if xs == [] {
      assert xs + ys == ys;
    } else {
      assert (xs + ys)[1..] == xs[1..] + ys;
      match Take(c, p, xs[0])
      case Ok(q) => TakeAllAppends(c, q, xs[1..], ys);
      case Err(_) =>
    }
  }

  /** Reading one printed element: its value goes where its name says, and an empty one is skipped. */
  lemma TakeElement(c: Base64, p: Parser, name: string, attributes: Attributes, value: Bytes)
    requires Lawful(c) && SigAttribute(c, attributes).Ok?
    ensures var q := Parser(p.bundle, name, IdAttribute(attributes), SigAttribute(c, attributes).value);
            TakeAll(c, p, Element(name, attributes, c.encode(value))) ==
              Ok(if value == [] then q else q.(bundle := Collect(q, value)))
  {
    DecodeUndoesEncode(c, value);
    var q := Parser(p.bundle, name, IdAttribute(attributes), SigAttribute(c, attributes).value);
    var e := Element(name, attributes, c.encode(value));
    assert e[0] == Start(name, attributes);
    if value != [] {
      assert e[1..] == [Text(c.encode(value)), End(name)] && e[2..] == [End(name)] && e[1..][1..] == e[2..];
      assert TakeAll(c, p, e) == TakeAll(c, q, e[1..]);
      assert TakeAll(c, q, e[1..]) == TakeAll(c, q.(bundle := Collect(q, value)), e[2..]);
      TakeEnd(c, q.(bundle := Collect(q, value)), name);
    } else {
      assert e[1..] == [End(name)];
      TakeEnd(c, q, name);
    }
  }

  lemma TakeEnd(c: Base64, p: Parser, name: string)
    ensures TakeAll(c, p, [End(name)]) == Ok(p)
  {
    assert [End(name)][1..] == [];
  }

  lemma IdOnly(c: Base64, n: u32)
    ensures var a := [("id", Print(n))]; IdAttribute(a) == Some(n) && SigAttribute(c, a) == Ok(None)
  {
    var a := [("id", Print(n))];
    assert |"id"| != |"sig"|;
    assert Attribute(a, "sig") == Attribute(a[1..], "sig");
    PrintedU32(n);
  }

  lemma IdAndSig(c: Base64, n: u32, sig: Bytes)
    requires Lawful(c)
    ensures var a := [("id", Print(n)), ("sig", c.encode(sig))];
            IdAttribute(a) == Some(n) && SigAttribute(c, a) == Ok(Some(sig))
  {
    var a := [("id", Print(n)), ("sig", c.encode(sig))];
    assert |"id"| != |"sig"|;
    assert Attribute(a, "sig") == Attribute(a[1..], "sig") == Some(c.encode(sig));
    PrintedU32(n);
    DecodeUndoesEncode(c, sig);
  }

  /** The EC pre-keys that have a key at all; an entry without one leaves no text to read. */
  function NonEmpty(keys: seq<(u32, Bytes)>): seq<(u32, Bytes)> {
    if keys == [] then []
    else NonEmpty(keys[..|keys| - 1]) + (if keys[|keys| - 1].1 == [] then [] else [keys[|keys| - 1]])
  }

  function Fips203Only(keys: seq<KemPreKey>): seq<KemPreKey> {
    if keys == [] then []
    else Fips203Only(keys[..|keys| - 1]) + (if IsMlKem1024(keys[|keys| - 1].key) then [keys[|keys| - 1]] else [])
  }

  lemma {:induction false} TakePreKeys(c: Base64, p: Parser, keys: seq<(u32, Bytes)>)
    requires Lawful(c)
    ensures var r := TakeAll(c, p, PreKeyElements(c, keys));
            r.Ok? && r.value.bundle == p.bundle.(prekeys := p.bundle.prekeys + NonEmpty(keys))
  {
    if keys != [] {
      var front, k := keys[..|keys| - 1], keys[|keys| - 1];
      TakePreKeys(c, p, front);
      var q := TakeAll(c, p, PreKeyElements(c, front)).value;
      TakeAllAppends(c, p, PreKeyElements(c, front), PreKeyElement(c, k));
      IdOnly(c, k.0);
      TakeElement(c, q, "pk", [("id", Print(k.0))], k.1);
    }
  }

  lemma {:induction false} TakeKemPreKeys(c: Base64, p: Parser, keys: seq<KemPreKey>)
    requires Lawful(c)
    ensures var r := TakeAll(c, p, KemElements(c, keys));
            r.Ok? && r.value.bundle == p.bundle.(kemPrekeys := p.bundle.kemPrekeys + Fips203Only(keys))
  {
    if keys != [] {
      var front, k := keys[..|keys| - 1], keys[|keys| - 1];
      TakeKemPreKeys(c, p, front);
      var q := TakeAll(c, p, KemElements(c, front)).value;
      TakeAllAppends(c, p, KemElements(c, front), KemElement(c, k));
      TakeKemElement(c, q, k);
    }
  }

  lemma TakeKemElement(c: Base64, p: Parser, k: KemPreKey)
    requires Lawful(c)
    ensures var r := TakeAll(c, p, KemElement(c, k));
            r.Ok? && r.value.bundle ==
              if IsMlKem1024(k.key) then p.bundle.(kemPrekeys := p.bundle.kemPrekeys + [k]) else p.bundle
  {
    var attributes := [("id", Print(k.id)), ("sig", c.encode(k.sig))];
    IdAndSig(c, k.id, k.sig);
    TakeElement(c, p, "kem-pk", attributes, k.key);
  }

  lemma TakeSigned(c: Base64, p: Parser, b: Bundle)
    requires Lawful(c) && p.bundle == BLANK
    ensures var r := TakeAll(c, p, PrintedSigned(c, b));
            && r.Ok?
            && r.value.bundle == BLANK.(spk := b.spk, spkId := if b.spk == [] then 0 else b.spkId,
                                        spkSig := b.spkSig, ik := b.ik)
  {
    var e0 := [Start("bundle", [("xmlns", NS_OMEMO2)])];
    var e1 := e0 + Element("spk", [("id", Print(b.spkId))], c.encode(b.spk));
    var e2 := e1 + Element("spks", [], c.encode(b.spkSig));
    var e3 := e2 + Element("ik", [], c.encode(b.ik));
    var p0 := TakeStart(c, p, "bundle", [("xmlns", NS_OMEMO2)]);
    IdOnly(c, b.spkId);
    TakeAllAppends(c, p, e0, Element("spk", [("id", Print(b.spkId))], c.encode(b.spk)));
    TakeElement(c, p0, "spk", [("id", Print(b.spkId))], b.spk);
    var p1 := TakeAll(c, p, e1).value;
    TakeAllAppends(c, p, e1, Element("spks", [], c.encode(b.spkSig)));
    TakeElement(c, p1, "spks", [], b.spkSig);
    var p2 := TakeAll(c, p, e2).value;
    TakeAllAppends(c, p, e2, Element("ik", [], c.encode(b.ik)));
    TakeElement(c, p2, "ik", [], b.ik);
    var p3 := TakeAll(c, p, e3).value;
    TakeAllAppends(c, p, e3, [Start("prekeys", [])]);
    var p4 := TakeStart(c, p3, "prekeys", []);
  }

  lemma TakeStart(c: Base64, p: Parser, name: string, attributes: Attributes) returns (q: Parser)
    requires Attribute(attributes, "sig") == None
    ensures q == Parser(p.bundle, name, IdAttribute(attributes), None)
    ensures TakeAll(c, p, [Start(name, attributes)]) == Ok(q)
  {
    q := Parser(p.bundle, name, IdAttribute(attributes), None);
    assert [Start(name, attributes)][1..] == [];
  }

  lemma TakeKemSigned(c: Base64, p: Parser, b: Bundle)
    requires Lawful(c) && p.bundle.kemSpk == [] && p.bundle.kemSpkSig == [] && p.bundle.kemSpkId == 0
    ensures var r := TakeAll(c, p, PrintedKemSigned(c, b));
            && r.Ok?
            && r.value.bundle == p.bundle.(kemSpk := b.kemSpk, kemSpkId := if b.kemSpk == [] then 0 else b.kemSpkId,
                                           kemSpkSig := b.kemSpkSig)
  {
    var e0 := [End("prekeys")];
    var e1 := e0 + Element("kem-spk", [("id", Print(b.kemSpkId))], c.encode(b.kemSpk));
    var e2 := e1 + Element("kem-spks", [], c.encode(b.kemSpkSig));
    TakeEnd(c, p, "prekeys");
    IdOnly(c, b.kemSpkId);
    TakeAllAppends(c, p, e0, Element("kem-spk", [("id", Print(b.kemSpkId))], c.encode(b.kemSpk)));
    TakeElement(c, p, "kem-spk", [("id", Print(b.kemSpkId))], b.kemSpk);
    var p1 := TakeAll(c, p, e1).value;
    TakeAllAppends(c, p, e1, Element("kem-spks", [], c.encode(b.kemSpkSig)));
    TakeElement(c, p1, "kem-spks", [], b.kemSpkSig);
    var p2 := TakeAll(c, p, e2).value;
    TakeAllAppends(c, p, e2, [Start("kem-prekeys", [])]);
    var p3 := TakeStart(c, p2, "kem-prekeys", []);
  }

  lemma TakeIdentity(c: Base64, p: Parser, b: Bundle)
    requires Lawful(c) && p.bundle.pqIk == [] && p.bundle.pqSig == []
    ensures var r := TakeAll(c, p, PrintedIdentity(c, b));
            && r.Ok?
            && r.value.bundle == if b.HasPqIdentity() then p.bundle.(pqIk := b.pqIk, pqSig := b.pqSig) else p.bundle
  {
    var e0 := [End("kem-prekeys")];
    TakeEnd(c, p, "kem-prekeys");
    if b.HasPqIdentity() {
      var kind := [("type", "ML-DSA-87")];
      assert Attribute(kind, "sig") == Attribute(kind[1..], "sig") == None;
      var e1 := e0 + Element("pq-ik", kind, c.encode(b.pqIk));
      var e2 := e1 + Element("pq-sig", [], c.encode(b.pqSig));
      TakeAllAppends(c, p, e0, Element("pq-ik", kind, c.encode(b.pqIk)));
      TakeElement(c, p, "pq-ik", kind, b.pqIk);
      var p1 := TakeAll(c, p, e1).value;
      TakeAllAppends(c, p, e1, Element("pq-sig", [], c.encode(b.pqSig)));
      TakeElement(c, p1, "pq-sig", [], b.pqSig);
      var p2 := TakeAll(c, p, e2).value;
      TakeAllAppends(c, p, e2, [End("bundle")]);
      TakeEnd(c, p2, "bundle");
    } else {
      TakeAllAppends(c, p, e0, [End("bundle")]);
      TakeEnd(c, p, "bundle");
    }
  }

  /** What is left of a bundle on the wire: entries without a key are gone, and so is every one-time
      KEM key that is not ML-KEM-1024. */
  function OnTheWire(b: Bundle): Bundle {
    b.(prekeys := NonEmpty(b.prekeys), kemPrekeys := Fips203Only(b.kemPrekeys))
  }

  /** What the parser has gathered at the end of a printed bundle. */
  lemma TakePrinted(c: Base64, b: Bundle)
    requires Lawful(c)
    ensures var r := TakeAll(c, Parser(BLANK, "", None, None), Printed(c, b));
            && r.Ok?
            && r.value.bundle == OnTheWire(b).(
                 spkId := if b.spk == [] then 0 else b.spkId,
                 kemSpkId := if b.kemSpk == [] then 0 else b.kemSpkId,
                 pqIk := if b.HasPqIdentity() then b.pqIk else [],
                 pqSig := if b.HasPqIdentity() then b.pqSig else [])
  {
    var p := Parser(BLANK, "", None, None);
    var e1 := PrintedSigned(c, b);
    var e2 := e1 + PreKeyElements(c, b.prekeys);
    var e3 := e2 + PrintedKemSigned(c, b);
    var e4 := e3 + KemElements(c, b.kemPrekeys);
    TakeSigned(c, p, b);
    var p1 := TakeAll(c, p, e1).value;
    TakeAllAppends(c, p, e1, PreKeyElements(c, b.prekeys));
    TakePreKeys(c, p1, b.prekeys);
    var p2 := TakeAll(c, p, e2).value;
    TakeAllAppends(c, p, e2, PrintedKemSigned(c, b));
    TakeKemSigned(c, p2, b);
    var p3 := TakeAll(c, p, e3).value;
    TakeAllAppends(c, p, e3, KemElements(c, b.kemPrekeys));
    TakeKemPreKeys(c, p3, b.kemPrekeys);
    var p4 := TakeAll(c, p, e4).value;
    TakeAllAppends(c, p, e4, PrintedIdentity(c, b));
    TakeIdentity(c, p4, b);
  }

  /** Main result, for every bundle: parsing what was printed gives the bundle as far as the wire
      carries it, and succeeds exactly when identity key and signed pre-key are there, the signed
      KEM key is there and is ML-KEM-1024, and the post-quantum identity is complete. The error is
      the first of these that fails. */
  lemma PrintedBundleParses(c: Base64, b: Bundle)
    requires Lawful(c)
    ensures Parsed(c, Printed(c, b)) ==
              if b.ik == [] || b.spk == [] then Err(BundleParse)
              else if b.kemSpk == [] then Err(NoPqxdh)
              else if !IsMlKem1024(b.kemSpk) then Err(BundleParse)
              else if b.pqIk == [] || b.pqSig == [] then Err(NoPqIdentity)
              else Ok(OnTheWire(b))
  {
    TakePrinted(c, b);
  }

  lemma {:induction false} KeptEntirely(b: Bundle)
    requires forall i :: 0 <= i < |b.prekeys| ==> b.prekeys[i].1 != []
    requires forall i :: 0 <= i < |b.kemPrekeys| ==> IsMlKem1024(b.kemPrekeys[i].key)
    ensures OnTheWire(b) == b
    decreases |b.prekeys| + |b.kemPrekeys|
  {
    if b.prekeys != [] {
      KeptEntirely(b.(prekeys := b.prekeys[..|b.prekeys| - 1]));
    } else if b.kemPrekeys != [] {
      KeptEntirely(b.(kemPrekeys := b.kemPrekeys[..|b.kemPrekeys| - 1]));
    }
    if b.kemPrekeys != [] && b.prekeys != [] {
      KeptEntirely(b.(kemPrekeys := b.kemPrekeys[..|b.kemPrekeys| - 1]));
    }
  }

  /** The KEM binding digest of a bundle that lost a one-time key on the way is computed from another
      input than the signed one. */
  lemma DroppingAKeyChangesTheBindingInput(b: Bundle)
    requires OnTheWire(b).kemPrekeys != b.kemPrekeys
    ensures OneTimeKeys(OnTheWire(b).kemPrekeys) != OneTimeKeys(b.kemPrekeys)
  {
    Fips203OnlyShrinks(b.kemPrekeys);
  }

  lemma {:induction false} Fips203OnlyShrinks(keys: seq<KemPreKey>)
    ensures |Fips203Only(keys)| <= |keys|
    ensures |Fips203Only(keys)| == |keys| ==> Fips203Only(keys) == keys
  {
    if keys != [] {
      Fips203OnlyShrinks(keys[..|keys| - 1]);
    }
  }

  // ---- bundles from elsewhere ---------------------------------------------

  /** The first byte of a FIPS 203 ML-KEM-1024 key is ten; Round-3 Kyber keys have eight there. */
  predicate StartsWithTen(key: Bytes) {
    key != [] && key[0] == 10
  }

  predicate OneTimeKeysAreFips203(b: Bundle) {
    forall i :: 0 <= i < |b.kemPrekeys| ==> StartsWithTen(b.kemPrekeys[i].key)
  }

  lemma {:induction false} OnlyFips203IsGathered(c: Base64, p: Parser, events: seq<Event>)
    requires OneTimeKeysAreFips203(p.bundle)
    ensures match TakeAll(c, p, events) case Ok(q) => OneTimeKeysAreFips203(q.bundle) case Err(_) => true
    decreases |events|
  {
    if events != [] {
      match Take(c, p, events[0])
      case Ok(q) => OnlyFips203IsGathered(c, q, events[1..]);
      case Err(_) =>
    }
  }

  /** Main result: whatever a peer publishes, a bundle that parses has both classical keys and the
      post-quantum identity, and every KEM key in it is FIPS 203 ML-KEM-1024. */
  lemma EveryParsedBundleIsComplete(c: Base64, events: seq<Event>)
    ensures match Parsed(c, events)
            case Ok(b) =>
              && b.ik != [] && b.spk != [] && b.pqIk != [] && b.pqSig != []
              && StartsWithTen(b.kemSpk) && OneTimeKeysAreFips203(b)
            case Err(_) => true
    ensures Malformed in events ==> Parsed(c, events).Err?
  {
    OnlyFips203IsGathered(c, Parser(BLANK, "", None, None), events);
    MalformedIsRefused(c, Parser(BLANK, "", None, None), events);
  }

  lemma {:induction false} MalformedIsRefused(c: Base64, p: Parser, events: seq<Event>)
    ensures Malformed in events ==> TakeAll(c, p, events).Err?
    decreases |events|
  {
    if events != [] && events[0] != Malformed {
      match Take(c, p, events[0])
      case Ok(q) => MalformedIsRefused(c, q, events[1..]);
      case Err(_) =>
    }
  }

  /** A key without an id gets the id zero, and text in an element of another name is not looked at. */
  lemma IdsAreOptional(c: Base64, p: Parser, name: string, key: Bytes)
    requires Lawful(c) && key != []
    ensures var r := TakeAll(c, p, Element("pk", [], c.encode(key)));
            r.Ok? && r.value.bundle == p.bundle.(prekeys := p.bundle.prekeys + [(0, key)])
    ensures name !in ["spk", "spks", "ik", "pk", "kem-spk", "kem-spks", "kem-pk", "pq-ik", "pq-sig"] ==>
              var r := TakeAll(c, p, Element(name, [], c.encode(key)));
              r.Ok? && r.value.bundle == p.bundle
  {
    TakeElement(c, p, "pk", [], key);
    TakeElement(c, p, name, [], key);
  }

  function Leaf(name: string, attributes: Attributes, text: string): seq<Event> {
    [Start(name, attributes), Text(text), End(name)]
  }

  /** Without a complete post-quantum identity, none of its elements is printed. */
  lemma PrintedWithoutIdentity(c: Base64, b: Bundle)
    requires b.pqIk == [] || b.pqSig == []
    ensures PrintedIdentity(c, b) == [End("kem-prekeys"), End("bundle")]
  {
  }

  /** The printed form of a bundle with one key of each kind, element by element. */
  lemma PrintedByName(c: Base64, b: Bundle)
    requires Lawful(c) && |b.prekeys| == 1 && |b.kemPrekeys| == 1
    requires b.spk != [] && b.spkSig != [] && b.ik != [] && b.prekeys[0].1 != []
    requires b.kemSpk != [] && b.kemSpkSig != [] && b.kemPrekeys[0].key != [] && b.pqIk != [] && b.pqSig != []
    ensures var k := b.kemPrekeys[0];
            Printed(c, b) ==
              ([Start("bundle", [("xmlns", "urn:monocles:omemo-pq:1")])]
               + Leaf("spk", [("id", Print(b.spkId))], c.encode(b.spk))
               + Leaf("spks", [], c.encode(b.spkSig))
               + Leaf("ik", [], c.encode(b.ik))
               + [Start("prekeys", [])])
              + Leaf("pk", [("id", Print(b.prekeys[0].0))], c.encode(b.prekeys[0].1))
              + ([End("prekeys")]
                 + Leaf("kem-spk", [("id", Print(b.kemSpkId))], c.encode(b.kemSpk))
                 + Leaf("kem-spks", [], c.encode(b.kemSpkSig))
                 + [Start("kem-prekeys", [])])
              + Leaf("kem-pk", [("id", Print(k.id)), ("sig", c.encode(k.sig))], c.encode(k.key))
              + ([End("kem-prekeys")]
                 + Leaf("pq-ik", [("type", "ML-DSA-87")], c.encode(b.pqIk))
                 + Leaf("pq-sig", [], c.encode(b.pqSig))
                 + [End("bundle")])
  {
    var k := b.kemPrekeys[0];
    LeafIsElement(c, "spk", [("id", Print(b.spkId))], b.spk);
    LeafIsElement(c, "spks", [], b.spkSig);
    LeafIsElement(c, "ik", [], b.ik);
    LeafIsElement(c, "pk", [("id", Print(b.prekeys[0].0))], b.prekeys[0].1);
    LeafIsElement(c, "kem-spk", [("id", Print(b.kemSpkId))], b.kemSpk);
    LeafIsElement(c, "kem-spks", [], b.kemSpkSig);
    LeafIsElement(c, "kem-pk", [("id", Print(k.id)), ("sig", c.encode(k.sig))], k.key);
    LeafIsElement(c, "pq-ik", [("type", "ML-DSA-87")], b.pqIk);
    LeafIsElement(c, "pq-sig", [], b.pqSig);
    OneOfEach(c, b);
    hide Element, Leaf, PreKeyElements, KemElements, Print, Lawful;
  }

  lemma LeafIsElement(c: Base64, name: string, attributes: Attributes, value: Bytes)
    requires Lawful(c) && value != []
    ensures Element(name, attributes, c.encode(value)) == Leaf(name, attributes, c.encode(value))
  {
  }

  lemma OneOfEach(c: Base64, b: Bundle)
    requires |b.prekeys| == 1 && |b.kemPrekeys| == 1
    ensures PreKeyElements(c, b.prekeys) == PreKeyElement(c, b.prekeys[0])
    ensures KemElements(c, b.kemPrekeys) == KemElement(c, b.kemPrekeys[0])
  {
    hide Element, PreKeyElement, KemElement;
    assert b.prekeys[..0] == [] && b.kemPrekeys[..0] == [];
    assert [] + PreKeyElement(c, b.prekeys[0]) == PreKeyElement(c, b.prekeys[0]);
    assert [] + KemElement(c, b.kemPrekeys[0]) == KemElement(c, b.kemPrekeys[0]);
  }
}

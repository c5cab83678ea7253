/**
  Sealing and opening a payload: the context binding, the key commitment, and the two keys derived
  from the message key. The cipher and the sponge are function values with the laws they are
  documented to have; no injectivity is assumed of the sponge.
 */
module Seal {
  import opened Wrappers
  import opened OmemoTypes
  import opened Kmac

  const MSG_KEY_LEN: nat := 32
  const IV_LEN: nat := 12
  const TAG_LEN: nat := 16
  const COMMIT_LEN: nat := 64
  const PAYLOAD_CUSTOMIZATION: string := "monocles:omemo2:payload:v3"
  const COMMIT_CUSTOMIZATION: string := "monocles:omemo2:key-commitment:v3"

  /** Strings are their UTF-8 bytes. */
  const OMEMO2: Bytes := [0x4F, 0x4D, 0x45, 0x4D, 0x4F, 0x32]
  const SLASH: byte := 0x2F
  const NUL: byte := 0

  datatype Primitives = Primitives(
    cshake: (Bytes, nat, string) -> Bytes,                    // input, output length, customization
    encrypt: (Bytes, Bytes, Bytes, Bytes) -> Option<Bytes>,   // key, nonce, associated data, message
    decrypt: (Bytes, Bytes, Bytes, Bytes) -> Option<Bytes>)

  /** Outputs have the length asked for; what was encrypted decrypts and carries its tag, and nothing
      else decrypts. */
  ghost predicate Lawful(p: Primitives) {
    && (forall x: Bytes, n: nat, s: string :: |p.cshake(x, n, s)| == n)
    && (forall k: Bytes, n: Bytes, a: Bytes, m: Bytes :: p.encrypt(k, n, a, m).Some? ==>
          && p.decrypt(k, n, a, p.encrypt(k, n, a, m).value) == Some(m)
          && |p.encrypt(k, n, a, m).value| == |m| + TAG_LEN)
    && (forall k: Bytes, n: Bytes, a: Bytes, c: Bytes :: p.decrypt(k, n, a, c).Some? ==>
          p.encrypt(k, n, a, p.decrypt(k, n, a, c).value) == Some(c))
  }

  /** The part of a JID before the first slash. */
  function Bare(jid: Bytes): (r: Bytes)
    ensures |r| <= |jid| && r == jid[..|r|] && SLASH !in r
    ensures |r| < |jid| ==> jid[|r|] == SLASH
  {
    if jid == [] || jid[0] == SLASH then [] else [jid[0]] + Bare(jid[1..])
  }

  function BareRecipient(to: Option<Bytes>): Bytes {
    match to
    case Some(jid) => Bare(jid)
    case None => []
  }

  /** Binds a payload to sender, recipient and device: nonce derivation, commitment and associated data. */
  function ContextBinding(from: Bytes, to: Option<Bytes>, sid: u32): Bytes {
    OMEMO2 + [NUL] + Bare(from) + [NUL] + BareRecipient(to) + [NUL] + BigEndian(sid, 4)
  }

  predicate NulFree(s: Bytes) {
    NUL !in s
  }

  /** Fields that contain no separator can be told apart at the separator. */
  lemma SplitAtNul(a: Bytes, x: Bytes, b: Bytes, y: Bytes)
    requires NulFree(a) && NulFree(b) && a + [NUL] + x == b + [NUL] + y
    ensures a == b && x == y
  {
    var l, r := a + [NUL] + x, b + [NUL] + y;
    assert l[|a|] == NUL && r[|b|] == NUL;
    forall i | 0 <= i < |a| ensures l[i] != NUL { assert l[i] == a[i]; }
    forall i | 0 <= i < |b| ensures r[i] != NUL { assert r[i] == b[i]; }
    assert a == l[..|a|] && b == r[..|b|];
    assert x == l[|a| + 1..] && y == r[|b| + 1..];
  }

  lemma {:induction false} BigEndianIsInjective(a: nat, b: nat, n: nat)
    requires a < Power256(n) && b < Power256(n) && BigEndian(a, n) == BigEndian(b, n)
    ensures a == b
  {
    if n > 0 {
      var l, r := BigEndian(a, n), BigEndian(b, n);
      assert l[..n - 1] == BigEndian(a / 256, n - 1) && r[..n - 1] == BigEndian(b / 256, n - 1);
      assert l[n - 1] == a % 256 && r[n - 1] == b % 256;
      BigEndianIsInjective(a / 256, b / 256, n - 1);
    }
  }

  lemma AfterSender(f: Bytes, t: Option<Bytes>, s: u32) returns (rest: Bytes)
    ensures rest == BareRecipient(t) + [NUL] + BigEndian(s, 4)
    ensures ContextBinding(f, t, s)[7..] == Bare(f) + [NUL] + rest
  {
    rest := BareRecipient(t) + [NUL] + BigEndian(s, 4);
    assert ContextBinding(f, t, s) == OMEMO2 + [NUL] + (Bare(f) + [NUL] + rest);
  }

  /** Two contexts of real JIDs bind alike exactly when bare sender, bare recipient (a missing one
      counts as empty) and device agree. */
  lemma ContextBindingIsInjective(f1: Bytes, t1: Option<Bytes>, s1: u32, f2: Bytes, t2: Option<Bytes>, s2: u32)
    requires NulFree(Bare(f1)) && NulFree(BareRecipient(t1)) && NulFree(Bare(f2)) && NulFree(BareRecipient(t2))
    ensures ContextBinding(f1, t1, s1) == ContextBinding(f2, t2, s2) <==>
              Bare(f1) == Bare(f2) && BareRecipient(t1) == BareRecipient(t2) && s1 == s2
  {
    var b1, b2 := ContextBinding(f1, t1, s1), ContextBinding(f2, t2, s2);
    if b1 == b2 {
      var r1 := AfterSender(f1, t1, s1);
      var r2 := AfterSender(f2, t2, s2);
      SplitAtNul(Bare(f1), r1, Bare(f2), r2);
      SplitAtNul(BareRecipient(t1), BigEndian(s1, 4), BareRecipient(t2), BigEndian(s2, 4));
      assert Power256(2) == 0x1_0000;
      assert Power256(4) == 0x1_0000_0000;
      BigEndianIsInjective(s1, s2, 4);
    }
  }

  /** A binding as it is read: the six letters and a NUL, the two bare names with a NUL after each, and
      the device id in the last four bytes. */
  lemma ContextBindingReads(from: Bytes, to: Option<Bytes>, sid: u32)
    ensures var b := ContextBinding(from, to, sid);
            var end := |b| - 4;
            && 7 <= end && b[..7] == [0x4F, 0x4D, 0x45, 0x4D, 0x4F, 0x32, 0]
            && b[7..end] == Bare(from) + [0] + BareRecipient(to) + [0]
            && ValueOf(b[end..]) == sid
  {
    hide BigEndian, ValueOf, Bare, BareRecipient;
    DeviceDecodes(sid);
    var b := ContextBinding(from, to, sid);
    var names := Bare(from) + [NUL] + BareRecipient(to) + [NUL];
    assert b == (OMEMO2 + [NUL]) + names + BigEndian(sid, 4);
  }

  lemma DeviceDecodes(sid: u32)
    ensures ValueOf(BigEndian(sid, 4)) == sid
  {
    assert Power256(2) == 0x1_0000;
    assert Power256(4) == 0x1_0000_0000;
    BigEndianDecodes(sid, 4);
  }

  lemma {:induction false} BigEndianDecodes(value: nat, n: nat)
    requires value < Power256(n)
    ensures ValueOf(BigEndian(value, n)) == value
  {
    if n > 0 {
      BigEndianDecodes(value / 256, n - 1);
      var r := BigEndian(value, n);
      assert r[..n - 1] == BigEndian(value / 256, n - 1) && r[n - 1] == value % 256;
    }
  }

  /** With a NUL inside a name the fields do run together, so the condition is needed. */
  lemma NulInANameIsAmbiguous(sid: u32)
    ensures ContextBinding([0x61, NUL, 0x62], Some([0x63]), sid) == ContextBinding([0x61], Some([0x62, NUL, 0x63]), sid)
    ensures Bare([0x61, NUL, 0x62]) != Bare([0x61])
  {
    BareOfPlain([0x61, NUL, 0x62]);
    BareOfPlain([0x61]);
    BareOfPlain([0x63]);
    BareOfPlain([0x62, NUL, 0x63]);
  }

  lemma BareOfPlain(jid: Bytes)
    requires SLASH !in jid
    ensures Bare(jid) == jid
  {
    assert forall i :: 0 <= i < |jid| ==> jid[i] != SLASH;
  }

  function Commitment(p: Primitives, key: Bytes, binding: Bytes): Bytes
    requires BitLengthFits(|key|)
  {
    p.cshake(KmacInput(key, binding, COMMIT_LEN), COMMIT_LEN, COMMIT_CUSTOMIZATION)
  }

  /** Key and nonce of the payload cipher, cut from one output. */
  function PayloadKeys(p: Primitives, key: Bytes, binding: Bytes): (Bytes, Bytes)
    requires Lawful(p) && BitLengthFits(|key|)
  {
    var okm := p.cshake(KmacInput(key, binding, MSG_KEY_LEN + IV_LEN), MSG_KEY_LEN + IV_LEN, PAYLOAD_CUSTOMIZATION);
    (okm[..MSG_KEY_LEN], okm[MSG_KEY_LEN..])
  }

  function Sealed(p: Primitives, key: Bytes, message: Bytes, from: Bytes, to: Option<Bytes>, sid: u32)
    : Result<Bytes, OmemoError>
    requires Lawful(p) && BitLengthFits(|key|)
  {
    var binding := ContextBinding(from, to, sid);
    var (k, iv) := PayloadKeys(p, key, binding);
    match p.encrypt(k, iv, binding, message)
    case Some(c) => Ok(c)
    case None => Err(Aead)
  }

  function Opened(p: Primitives, key: Bytes, payload: Bytes, from: Bytes, to: Option<Bytes>, sid: u32,
      commit: Option<Bytes>): Result<Bytes, OmemoError>
    requires Lawful(p) && BitLengthFits(|key|)
  {
    var binding := ContextBinding(from, to, sid);
    if |payload| < TAG_LEN then Err(Aead)
    else if commit != Some(Commitment(p, key, binding)) then Err(Aead)
    else
      var (k, iv) := PayloadKeys(p, key, binding);
      match p.decrypt(k, iv, binding, payload)
      case Some(m) => Ok(m)
      case None => Err(Aead)
  }

  // The bit operations, one binary digit at a time.

  function Xor(x: nat, y: nat): nat {
    if x == 0 && y == 0 then 0 else 2 * Xor(x / 2, y / 2) + (if x % 2 == y % 2 then 0 else 1)
  }

  function BitOr(x: nat, y: nat): nat {
    if x == 0 && y == 0 then 0 else 2 * BitOr(x / 2, y / 2) + (if x % 2 == 1 || y % 2 == 1 then 1 else 0)
  }

  /** Digit `i` of a number, from the right. */
  predicate Bit(x: nat, i: nat) {
    if i == 0 then x % 2 == 1 else Bit(x / 2, i - 1)
  }

  lemma {:induction false} XorDigits(x: nat, y: nat, i: nat)
    ensures Bit(Xor(x, y), i) <==> Bit(x, i) != Bit(y, i)
    ensures Bit(BitOr(x, y), i) <==> Bit(x, i) || Bit(y, i)
    decreases i
  {
    assert Xor(x, y) / 2 == Xor(x / 2, y / 2) && BitOr(x, y) / 2 == BitOr(x / 2, y / 2);
    if i > 0 {
      XorDigits(x / 2, y / 2, i - 1);
    }
  }

  lemma {:induction false} XorIsZeroIff(x: nat, y: nat)
    ensures Xor(x, y) == 0 <==> x == y
  {
    if x != 0 || y != 0 {
      XorIsZeroIff(x / 2, y / 2);
    }
  }

  lemma {:induction false} OrIsZeroIff(x: nat, y: nat)
    ensures BitOr(x, y) == 0 <==> x == 0 && y == 0
  {
    if x != 0 || y != 0 {
      OrIsZeroIff(x / 2, y / 2);
    }
  }

  /** The constant-time comparison: every byte is looked at, the answer is plain equality. */
  method CtEq(a: Bytes, b: Bytes) returns (equal: bool)
    ensures equal <==> a == b
  {
    hide Xor, BitOr;
    if |a| != |b| {
      return false;
    }
    var diff: nat := 0;
    for i := 0 to |a|
      invariant diff == 0 <==> a[..i] == b[..i]
    {
      XorIsZeroIff(a[i], b[i]);
      OrIsZeroIff(diff, Xor(a[i], b[i]));
      assert a[..i + 1] == a[..i] + [a[i]] && b[..i + 1] == b[..i] + [b[i]];
      diff := BitOr(diff, Xor(a[i], b[i]));
    }
    assert a[..|a|] == a && b[..|a|] == b;
    equal := diff == 0;
  }

  // ---- what sealing promises -------------------------------------------

  /** The commitment is 64 bytes of output, keyed by the message key, over the context. */
  lemma CommitmentIsKeyed(p: Primitives, key: Bytes, binding: Bytes)
    requires Lawful(p) && BitLengthFits(|key|)
    ensures |Commitment(p, key, binding)| == 64
    ensures exists x :: Commitment(p, key, binding) == p.cshake(x, 64, "monocles:omemo2:key-commitment:v3")
                        && Unframed(x) == Some((136, key, binding, 64))
  {
    KmacInputIsAFrame(key, binding, 64);
    assert Commitment(p, key, binding) == p.cshake(KmacInput(key, binding, 64), 64, "monocles:omemo2:key-commitment:v3");
  }

  /** Key and nonce are 32 and 12 bytes of one output, keyed by the message key, over the context. */
  lemma PayloadKeysAreCut(p: Primitives, key: Bytes, binding: Bytes)
    requires Lawful(p) && BitLengthFits(|key|)
    ensures var (k, iv) := PayloadKeys(p, key, binding);
            && |k| == 32 && |iv| == 12
            && exists x :: k + iv == p.cshake(x, 44, "monocles:omemo2:payload:v3")
                           && Unframed(x) == Some((136, key, binding, 44))
  {
    var (k, iv) := PayloadKeys(p, key, binding);
    var x := KmacInput(key, binding, 44);
    KmacInputIsAFrame(key, binding, 44);
    var okm := p.cshake(x, 44, PAYLOAD_CUSTOMIZATION);
    assert k == okm[..32] && iv == okm[32..];
    assert k + iv == okm;
  }

  /** Two derivations feed the sponge the same bytes exactly when key, bare names and device agree. */
  lemma DerivationDependsOnContext(k1: Bytes, f1: Bytes, t1: Option<Bytes>, s1: u32,
      k2: Bytes, f2: Bytes, t2: Option<Bytes>, s2: u32)
    requires BitLengthFits(|k1|) && BitLengthFits(|k2|)
    requires NulFree(Bare(f1)) && NulFree(BareRecipient(t1)) && NulFree(Bare(f2)) && NulFree(BareRecipient(t2))
    ensures KmacInput(k1, ContextBinding(f1, t1, s1), MSG_KEY_LEN + IV_LEN)
              == KmacInput(k2, ContextBinding(f2, t2, s2), MSG_KEY_LEN + IV_LEN) <==>
            k1 == k2 && Bare(f1) == Bare(f2) && BareRecipient(t1) == BareRecipient(t2) && s1 == s2
  {
    hide KmacInput, ContextBinding;
    var b1, b2 := ContextBinding(f1, t1, s1), ContextBinding(f2, t2, s2);
    ContextBindingIsInjective(f1, t1, s1, f2, t2, s2);
    if KmacInput(k1, b1, MSG_KEY_LEN + IV_LEN) == KmacInput(k2, b2, MSG_KEY_LEN + IV_LEN) {
      KmacInputIsInjective(k1, b1, MSG_KEY_LEN + IV_LEN, k2, b2, MSG_KEY_LEN + IV_LEN);
    }
  }

  /** A sealed payload is the message encrypted under the derived key and nonce, with the context as
      associated data. */
  lemma SealedUnderItsContext(p: Primitives, key: Bytes, message: Bytes, from: Bytes, to: Option<Bytes>, sid: u32)
    requires Lawful(p) && BitLengthFits(|key|)
    requires Sealed(p, key, message, from, to, sid).Ok?
    ensures var payload := Sealed(p, key, message, from, to, sid).value;
            var binding := ContextBinding(from, to, sid);
            var (k, iv) := PayloadKeys(p, key, binding);
            |payload| == |message| + 16 && p.decrypt(k, iv, binding, payload) == Some(message)
  {
  }

  /** Main result: with the commitment that belongs to key and context, a payload opens as a message
      exactly if it is what sealing this message gives; without it nothing opens. */
  lemma OpensExactlyWhatWasSealed(p: Primitives, key: Bytes, payload: Bytes, message: Bytes, from: Bytes,
      to: Option<Bytes>, sid: u32, commit: Option<Bytes>)
    requires Lawful(p) && BitLengthFits(|key|)
    ensures Opened(p, key, payload, from, to, sid, commit) == Ok(message) <==>
              && commit == Some(Commitment(p, key, ContextBinding(from, to, sid)))
              && Sealed(p, key, message, from, to, sid) == Ok(payload)
  {
    hide Commitment, ContextBinding, PayloadKeys;
    var binding := ContextBinding(from, to, sid);
    var (k, iv) := PayloadKeys(p, key, binding);
    if p.decrypt(k, iv, binding, payload) == Some(message) {
      assert p.encrypt(k, iv, binding, message) == Some(payload);
    }
  }

  /** Opening with the sender's key, an equal context and the published commitment gives back the
      message, and any other commitment, or none, gives nothing. */
  lemma OpeningASealedPayload(p: Primitives, key: Bytes, message: Bytes, from: Bytes, to: Option<Bytes>, sid: u32,
      from': Bytes, to': Option<Bytes>, commit: Option<Bytes>)
    requires Lawful(p) && BitLengthFits(|key|)
    requires Sealed(p, key, message, from, to, sid).Ok?
    requires Bare(from') == Bare(from) && BareRecipient(to') == BareRecipient(to)
    ensures var payload := Sealed(p, key, message, from, to, sid).value;
            Opened(p, key, payload, from', to', sid, commit) ==
              if commit == Some(Commitment(p, key, ContextBinding(from, to, sid))) then Ok(message) else Err(Aead)
  {
  }

  /** Two different inputs of the commitment function with the same output. */
  ghost predicate Collides(p: Primitives, x: Bytes, y: Bytes) {
    x != y && p.cshake(x, COMMIT_LEN, COMMIT_CUSTOMIZATION) == p.cshake(y, COMMIT_LEN, COMMIT_CUSTOMIZATION)
  }

  /** Main result: the scheme commits to key and context. If one payload and one commitment open
      twice, the keys, senders, recipients and devices are the same and so is the plaintext, or the
      two framed inputs written out here are a collision of the sponge. */
  lemma OnePayloadOneKey(p: Primitives, payload: Bytes, commit: Option<Bytes>,
      k1: Bytes, f1: Bytes, t1: Option<Bytes>, s1: u32, k2: Bytes, f2: Bytes, t2: Option<Bytes>, s2: u32)
    requires Lawful(p) && BitLengthFits(|k1|) && BitLengthFits(|k2|)
    requires NulFree(Bare(f1)) && NulFree(BareRecipient(t1)) && NulFree(Bare(f2)) && NulFree(BareRecipient(t2))
    requires Opened(p, k1, payload, f1, t1, s1, commit).Ok?
    requires Opened(p, k2, payload, f2, t2, s2, commit).Ok?
    ensures var x := KmacInput(k1, ContextBinding(f1, t1, s1), COMMIT_LEN);
            var y := KmacInput(k2, ContextBinding(f2, t2, s2), COMMIT_LEN);
            || Collides(p, x, y)
            || (&& k1 == k2 && Bare(f1) == Bare(f2) && BareRecipient(t1) == BareRecipient(t2) && s1 == s2
                && Opened(p, k1, payload, f1, t1, s1, commit) == Opened(p, k2, payload, f2, t2, s2, commit))
  {
    var b1, b2 := ContextBinding(f1, t1, s1), ContextBinding(f2, t2, s2);
    if KmacInput(k1, b1, COMMIT_LEN) == KmacInput(k2, b2, COMMIT_LEN) {
      KmacInputIsInjective(k1, b1, COMMIT_LEN, k2, b2, COMMIT_LEN);
      ContextBindingIsInjective(f1, t1, s1, f2, t2, s2);
    }
  }
}

/**
  Manifest verification (unoq_ota/verify.py): fail-closed checks in a fixed order.

  Ed25519, base64, SHA-256, timestamp parsing and `int(text, 0)` are functions the checks are given; nothing is
  assumed of them.
 */
module Verify {
  import opened Wrappers
  import opened Json
  import Canonical

  const UNOQ_BOARD := "arduino_uno_q"

  datatype Target = Target(address: int, maxSize: nat, coreVersion: Option<string>)

  datatype Trust = Trust(
    keys: map<string, Bytes>,
    verifies: (Bytes, Bytes, string) -> bool,
    unbase64: string -> Option<Bytes>,
    sha256: Bytes -> string,
    instant: string -> Option<int>,
    offset: string -> Option<int>,
    floatText: Float -> string)

  /** Accepted, or refused with the `poisonable` flag of the VerificationError. */
  datatype Verdict = Accepted | Refused(poisonable: bool)

  type Manifest = map<string, Json>

  function Text(j: Json): Option<string> {
    if j.Str? then Some(j.s) else None
  }

  function Block(m: Manifest, key: string): Option<Manifest> {
    var j := Get(m, key);
    if j.Obj? then Some(j.fields) else None
  }

  predicate VerifySignature(trust: Trust, m: Manifest) {
    && "signature" in m && m["signature"].Obj?
    && var block := m["signature"].fields;
       && Get(block, "alg") == Str("ed25519")
       && var keyId := Text(Get(block, "key_id"));
          && keyId.Some? && keyId.value in trust.keys
          && var sig := Text(if "sig" in block then block["sig"] else Str(""));
             && sig.Some? && trust.unbase64(sig.value).Some?
             && trust.verifies(trust.keys[keyId.value], trust.unbase64(sig.value).value,
                               Canonical.Text(trust.floatText, m))
  }

  predicate VerifyWindow(trust: Trust, m: Manifest, now: int) {
    && (match Get(m, "not_before")
        case Null => true
        case Str(s) => trust.instant(s).Some? && trust.instant(s).value <= now
        case _ => false)
    && (match Get(m, "expires")
        case Null => true
        case Str(s) => trust.instant(s).Some? && now <= trust.instant(s).value
        case _ => false)
  }

  predicate VerifySequence(m: Manifest, last: int) {
    Get(m, "sequence").Int? && Get(m, "sequence").n > last
  }

  /** The checks that come before `poisonable` can be raised: signature, window, sequence. */
  predicate Authentic(trust: Trust, m: Manifest, last: int, now: int) {
    VerifySignature(trust, m) && VerifyWindow(trust, m, now) && VerifySequence(m, last)
  }

  function SketchOffset(trust: Trust, j: Json): Option<int> {
    match j
    case Str(s) => trust.offset(s)
    case Int(n) => Some(n)
    case _ => None
  }

  predicate VerifyTarget(trust: Trust, m: Manifest, target: Target) {
    && Block(m, "target").Some?
    && var block := Block(m, "target").value;
       && Get(block, "board") == Str(UNOQ_BOARD)
       && SketchOffset(trust, Get(block, "sketch_offset")) == Some(target.address)
       && Get(block, "partition_size") in {Null, Int(target.maxSize)}
       && Get(block, "link_mode") in {Null, Str("dynamic")}
  }

  function LowerChar(c: char): char {
    if 'A' <= c <= 'Z' then c + 32 as char else c
  }

  function Lower(s: string): string {
    seq(|s|, i requires 0 <= i < |s| => LowerChar(s[i]))
  }

  /** `verify_digest`; `data` is None when the file could not be read. */
  function VerifyDigest(trust: Trust, data: Option<Bytes>, expected: string): Verdict {
    if data.None? then Refused(false)
    else if Lower(trust.sha256(data.value)) != Lower(expected) then Refused(true)
    else Accepted
  }

  /** One payload against its block: the block must be an object, its sha256 a non-empty string that matches. */
  function VerifyPayload(trust: Trust, m: Manifest, key: string, data: Option<Bytes>): Verdict {
    if Block(m, key).None? then Refused(false)
    else
      var expected := Text(Get(Block(m, key).value, "sha256"));
      if expected.None? || expected.value == "" then Refused(true)
      else VerifyDigest(trust, data, expected.value)
  }

  /** `verify_manifest` as the agent calls it: a host payload is digested exactly when its block is an object. */
  function VerifyManifest(trust: Trust, m: Manifest, target: Target, last: int, now: int,
                          artifact: Option<Bytes>, host: Option<Bytes>): Verdict
  {
    if !VerifySignature(trust, m) then Refused(false)
    else if !VerifyWindow(trust, m, now) then Refused(false)
    else if !VerifySequence(m, last) then Refused(false)
    else if !VerifyTarget(trust, m, target) then Refused(true)
    else
      var sketch := VerifyPayload(trust, m, "artifact", artifact);
      if sketch != Accepted then sketch
      else if Block(m, "host_payload").None? then Accepted
      else VerifyPayload(trust, m, "host_payload", host)
  }

  // ---------------------------------------------------------------------------------------------
  // What the checks establish, told from the manifest's own fields

  /** What a manifest's signature block says: an Ed25519 signature by a named key, in base64; no text is an empty one. */
  ghost predicate CarriesSignature(m: Manifest, block: Manifest, keyId: string, text: string) {
    && "signature" in m && m["signature"] == Obj(block)
    && "alg" in block && block["alg"] == Str("ed25519")
    && "key_id" in block && block["key_id"] == Str(keyId)
    && if "sig" in block then block["sig"] == Str(text) else text == ""
  }

  /** The key named in the block is trusted, and verifies that signature over the canonical text of the manifest. */
  ghost predicate SignedByTrusted(trust: Trust, m: Manifest) {
    exists block: Manifest, keyId: string, text: string ::
      && CarriesSignature(m, block, keyId, text) && keyId in trust.keys && trust.unbase64(text).Some?
      && trust.verifies(trust.keys[keyId], trust.unbase64(text).value, Canonical.Text(trust.floatText, m))
  }

  lemma SignatureAcceptedIffTrusted(trust: Trust, m: Manifest)
    ensures VerifySignature(trust, m) <==> SignedByTrusted(trust, m)
  {
    if VerifySignature(trust, m) {
      var block := m["signature"].fields;
      var keyId, text := Get(block, "key_id").s, if "sig" in block then block["sig"].s else "";
      assert CarriesSignature(m, block, keyId, text);
    }
  }

  /** A bound of the window that is there is a timestamp that parses, and `now` is on the right side of it. */
  ghost predicate WithinWindow(trust: Trust, m: Manifest, now: int) {
    && ("not_before" in m && m["not_before"] != Null ==>
          exists s: string, t: int :: m["not_before"] == Str(s) && trust.instant(s) == Some(t) && t <= now)
    && ("expires" in m && m["expires"] != Null ==>
          exists s: string, t: int :: m["expires"] == Str(s) && trust.instant(s) == Some(t) && now <= t)
  }

  lemma WindowAcceptedIffWithin(trust: Trust, m: Manifest, now: int)
    ensures VerifyWindow(trust, m, now) <==> WithinWindow(trust, m, now)
  {
    forall key: string | key in m && m[key].Str? && trust.instant(m[key].s).Some?
      ensures m[key] == Str(m[key].s) && trust.instant(m[key].s) == Some(trust.instant(m[key].s).value)
    {
    }
  }

  /** Signed by a trusted key, within its window, and newer than the stored sequence. */
  ghost predicate Genuine(trust: Trust, m: Manifest, last: int, now: int) {
    && SignedByTrusted(trust, m) && WithinWindow(trust, m, now)
    && exists n: int :: "sequence" in m && m["sequence"] == Int(n) && n > last
  }

  lemma AuthenticIffGenuine(trust: Trust, m: Manifest, last: int, now: int)
    ensures Authentic(trust, m, last, now) <==> Genuine(trust, m, last, now)
  {
    SignatureAcceptedIffTrusted(trust, m);
    WindowAcceptedIffWithin(trust, m, now);
    if VerifySequence(m, last) {
      assert m["sequence"] == Int(m["sequence"].n);
    }
  }

  /** What a manifest says about the board it is for, whatever else its target block holds. */
  ghost predicate NamesBoard(trust: Trust, m: Manifest, target: Target) {
    exists block: Manifest ::
      && "target" in m && m["target"] == Obj(block)
      && "board" in block && block["board"] == Str("arduino_uno_q")
      && "sketch_offset" in block
      && (block["sketch_offset"] == Int(target.address) ||
          (block["sketch_offset"].Str? && trust.offset(block["sketch_offset"].s) == Some(target.address)))
      && ("partition_size" in block && block["partition_size"] != Null ==> block["partition_size"] == Int(target.maxSize))
      && ("link_mode" in block && block["link_mode"] != Null ==> block["link_mode"] == Str("dynamic"))
  }

  lemma TargetAcceptedIffNamesBoard(trust: Trust, m: Manifest, target: Target)
    ensures VerifyTarget(trust, m, target) <==> NamesBoard(trust, m, target)
  {
    if Block(m, "target").Some? {
      var block := Block(m, "target").value;
      assert "target" in m && m["target"] == Obj(block);
      assert Get(block, "board") == Str(UNOQ_BOARD) <==> "board" in block && block["board"] == Str(UNOQ_BOARD);
    }
  }

  /** The same text, but for the case of its letters. */
  ghost predicate SameButCase(s: string, t: string) {
    && |s| == |t|
    && forall i :: 0 <= i < |s| ==>
         || s[i] == t[i]
         || ('A' <= s[i] <= 'Z' && t[i] as int == s[i] as int + 32) || ('A' <= t[i] <= 'Z' && s[i] as int == t[i] as int + 32)
  }

  lemma LowerForgetsCase(s: string, t: string)
    ensures Lower(s) == Lower(t) <==> SameButCase(s, t)
  {
    if Lower(s) == Lower(t) {
      assert |Lower(s)| == |s| && |Lower(t)| == |t|;
      forall i | 0 <= i < |s|
        ensures LowerChar(s[i]) == LowerChar(t[i])
      {
        assert Lower(s)[i] == Lower(t)[i];
      }
    }
  }

  /** The block declares this digest for its payload. */
  ghost predicate Declares(m: Manifest, key: string, digest: string) {
    exists block: Manifest :: key in m && m[key] == Obj(block) && "sha256" in block && block["sha256"] == Str(digest)
  }

  /** The payload's bytes hash to what the manifest declares. */
  ghost predicate Matches(trust: Trust, m: Manifest, key: string, data: Option<Bytes>) {
    exists digest: string ::
      Declares(m, key, digest) && digest != "" && data.Some? && SameButCase(trust.sha256(data.value), digest)
  }

  /** There is a block for the payload, but it declares no digest, or one that the bytes do not hash to. */
  ghost predicate Mismatches(trust: Trust, m: Manifest, key: string, data: Option<Bytes>) {
    && key in m && m[key].Obj?
    && ((forall digest: string :: Declares(m, key, digest) ==> digest == "")
        || (data.Some? && !Matches(trust, m, key, data)))
  }

  lemma DeclaresOne(m: Manifest, key: string)
    requires Block(m, key).Some?
    ensures var text := Text(Get(Block(m, key).value, "sha256"));
            forall digest: string :: Declares(m, key, digest) <==> text == Some(digest)
  {
    var block := Block(m, key).value;
    forall digest: string | Text(Get(block, "sha256")) == Some(digest)
      ensures Declares(m, key, digest)
    {
      assert m[key] == Obj(block) && block["sha256"] == Str(digest);
    }
  }

  /** One payload's three verdicts, from the manifest and the bytes. */
  lemma PayloadVerdict(trust: Trust, m: Manifest, key: string, data: Option<Bytes>)
    ensures VerifyPayload(trust, m, key, data) == Accepted <==> Matches(trust, m, key, data)
    ensures VerifyPayload(trust, m, key, data) == Refused(true) <==> Mismatches(trust, m, key, data)
  {
    if Block(m, key).Some? {
      DeclaresOne(m, key);
      var text := Text(Get(Block(m, key).value, "sha256"));
      if text.Some? && data.Some? {
        LowerForgetsCase(trust.sha256(data.value), text.value);
      }
    }
  }

  /**
    The verdict, exactly: accepted if every check passes; refused and held against the version if the manifest is
    genuine and only then the board, or the digest of a payload that could be read, is wrong; refused without that
    in every other case.
   */
  lemma VerdictMeaning(trust: Trust, m: Manifest, target: Target, last: int, now: int,
                       artifact: Option<Bytes>, host: Option<Bytes>)
    ensures VerifyManifest(trust, m, target, last, now, artifact, host) == Accepted <==>
              && Genuine(trust, m, last, now) && NamesBoard(trust, m, target)
              && Matches(trust, m, "artifact", artifact)
              && ("host_payload" in m && m["host_payload"].Obj? ==> Matches(trust, m, "host_payload", host))
    ensures VerifyManifest(trust, m, target, last, now, artifact, host) == Refused(true) <==>
              && Genuine(trust, m, last, now)
              && (!NamesBoard(trust, m, target) || Mismatches(trust, m, "artifact", artifact) ||
                  (Matches(trust, m, "artifact", artifact) && Mismatches(trust, m, "host_payload", host)))
  {
    AuthenticIffGenuine(trust, m, last, now);
    TargetAcceptedIffNamesBoard(trust, m, target);
    PayloadVerdict(trust, m, "artifact", artifact);
    PayloadVerdict(trust, m, "host_payload", host);
    NeverBoth(trust, m, "artifact", artifact);
  }

  lemma NeverBoth(trust: Trust, m: Manifest, key: string, data: Option<Bytes>)
    ensures !(Matches(trust, m, key, data) && Mismatches(trust, m, key, data))
  {
  }

  /** Whatever else a manifest holds: if no trusted key verifies anything over its canonical text, it is plainly refused. */
  lemma UnsignedIsRefused(trust: Trust, m: Manifest, target: Target, last: int, now: int,
                          artifact: Option<Bytes>, host: Option<Bytes>)
    requires forall keyId, sig :: keyId in trust.keys ==>
               !trust.verifies(trust.keys[keyId], sig, Canonical.Text(trust.floatText, m))
    ensures VerifyManifest(trust, m, target, last, now, artifact, host) == Refused(false)
  {
    VerdictMeaning(trust, m, target, last, now, artifact, host);
    assert !SignedByTrusted(trust, m);
  }

  /** The validity window is an interval: accepted at two instants, accepted at every instant between them. */
  lemma WindowIsAnInterval(trust: Trust, m: Manifest, first: int, now: int, last: int)
    requires first <= now <= last && VerifyWindow(trust, m, first) && VerifyWindow(trust, m, last)
    ensures VerifyWindow(trust, m, now)
  {
  }

  /** A bound that is there must be a timestamp that parses and has been kept; a manifest that has expired stays expired. */
  lemma BoundsAreKept(trust: Trust, m: Manifest, now: int)
    requires VerifyWindow(trust, m, now)
    ensures "not_before" in m && m["not_before"] != Null ==>
              && m["not_before"].Str? && trust.instant(m["not_before"].s).Some?
              && forall t :: t < trust.instant(m["not_before"].s).value ==> !VerifyWindow(trust, m, t)
    ensures "expires" in m && m["expires"] != Null ==>
              && m["expires"].Str? && trust.instant(m["expires"].s).Some?
              && forall t :: t > trust.instant(m["expires"].s).value ==> !VerifyWindow(trust, m, t)
  {
  }

  /** A manifest accepted over one baseline is refused, without poisoning, once its own sequence is the baseline. */
  lemma NoReplay(trust: Trust, m: Manifest, target: Target, last: int, now: int, later: int,
                 artifact: Option<Bytes>, host: Option<Bytes>, baseline: int)
    requires VerifyManifest(trust, m, target, last, now, artifact, host) == Accepted
    requires baseline >= Get(m, "sequence").n
    ensures VerifyManifest(trust, m, target, baseline, later, artifact, host) == Refused(false)
  {
  }

  /**
    The signed bytes decide: two manifests with the same canonical text, each with a signature block
    that verifies, get the same verdict whatever the files and the clock.
   */
  lemma SignedBytesDecide(trust: Trust, a: Manifest, b: Manifest, target: Target, last: int, now: int,
                          artifact: Option<Bytes>, host: Option<Bytes>)
    requires Canonical.Spells(trust.floatText)
    requires Canonical.Text(trust.floatText, a) == Canonical.Text(trust.floatText, b)
    requires VerifySignature(trust, a) && VerifySignature(trust, b)
    ensures VerifyManifest(trust, a, target, last, now, artifact, host) ==
            VerifyManifest(trust, b, target, last, now, artifact, host)
  {
    Canonical.SameTextSameManifest(trust.floatText, a, b);
    SameOutsideSignature(a, b, "not_before");
    SameOutsideSignature(a, b, "expires");
    SameOutsideSignature(a, b, "sequence");
    SameOutsideSignature(a, b, "target");
    SameOutsideSignature(a, b, "artifact");
    SameOutsideSignature(a, b, "host_payload");
  }

  lemma SameOutsideSignature(a: Manifest, b: Manifest, key: string)
    requires a - {"signature"} == b - {"signature"} && key != "signature"
    ensures Get(a, key) == Get(b, key)
  {
    assert key in a <==> key in a - {"signature"};
    assert key in b <==> key in b - {"signature"};
  }
}

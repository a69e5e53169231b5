/** Verification of certificate chains: a fold from the trust anchor to the end-point certificate. */
module Chain {
  import opened Bytes
  import opened Messages

  const SIGNATURE_LENGTH: nat := 64

  datatype ChainError = BadCertificateChain | BadCertificateFormat | AuthenticationError

  datatype Verdict = Good(body: CertificateBody) | Bad(error: ChainError)

  /** The signature scheme: whether Ed25519 is available, and its check of (message, signature, key). */
  datatype Dsa = Dsa(supported: bool, verify: (seq<Byte>, seq<Byte>, seq<Byte>) -> bool)

  function VerifyPair(dsa: Dsa, parent: CertificateBody, child: CertificateEnvelope): Verdict {
    if !(parent.keyType == ED25519 && dsa.supported) then Bad(BadCertificateChain)
    else if |child.signature| != SIGNATURE_LENGTH then Bad(BadCertificateChain)
    else if !dsa.verify(child.certificateBody, child.signature, parent.publicKey) then Bad(AuthenticationError)
    else
      match ReadCertificate(child.certificateBody)
      case None => Bad(BadCertificateFormat)
      case Some(body) =>
        if body.validAfter < parent.validAfter then Bad(BadCertificateChain)
        else if body.validBefore > parent.validBefore then Bad(BadCertificateChain)
        else if body.signingLevel >= parent.signingLevel then Bad(BadCertificateChain)
        else Good(body)
  }

  /** The body reached by stepping from parent through all certificates. */
  function StepThrough(dsa: Dsa, parent: CertificateBody, certs: seq<CertificateEnvelope>): Verdict
    decreases |certs|
  {
    if certs == [] then Good(parent)
    else
      match VerifyPair(dsa, parent, certs[0])
      case Bad(e) => Bad(e)
      case Good(body) => StepThrough(dsa, body, certs[1..])
  }

  function VerifyChain(dsa: Dsa, anchor: CertificateBody, certs: seq<CertificateEnvelope>): Verdict {
    if certs == [] then Bad(BadCertificateChain)
    else
      match StepThrough(dsa, anchor, certs)
      case Bad(e) => Bad(e)
      case Good(body) => if body.signingLevel != 0 || body.keyType != X25519 then Bad(BadCertificateChain) else Good(body)
  }

  method Verify(dsa: Dsa, anchor: CertificateBody, certs: seq<CertificateEnvelope>) returns (r: Verdict)
    ensures r == VerifyChain(dsa, anchor, certs)
  {
    hide VerifyPair;
    if |certs| == 0 {
      return Bad(BadCertificateChain);
    }
    var parent, i := anchor, 0;
    while i < |certs|
      invariant 0 <= i <= |certs|
      invariant StepThrough(dsa, anchor, certs) == StepThrough(dsa, parent, certs[i..])
    {
      var step := VerifyPair(dsa, parent, certs[i]);
      if step.Bad? {
        return step;
      }
      assert certs[i..][1..] == certs[i + 1..];
      parent, i := step.body, i + 1;
    }
    if parent.signingLevel != 0 {
      return Bad(BadCertificateChain);
    }
    if parent.keyType != X25519 {
      return Bad(BadCertificateChain);
    }
    r := Good(parent);
  }

  // ---- Verification composes ----

  lemma {:induction false} StepThroughConcat(dsa: Dsa, parent: CertificateBody, c1: seq<CertificateEnvelope>, c2: seq<CertificateEnvelope>)
    ensures StepThrough(dsa, parent, c1 + c2)
         == match StepThrough(dsa, parent, c1)
            case Bad(e) => Bad(e)
            case Good(body) => StepThrough(dsa, body, c2)
    decreases |c1|
  {
    hide VerifyPair;
    if c1 == [] {
      assert c1 + c2 == c2;
    } else {
      assert (c1 + c2)[1..] == c1[1..] + c2;
      match VerifyPair(dsa, parent, c1[0])
      case Bad(_) =>
      case Good(body) => StepThroughConcat(dsa, body, c1[1..], c2);
    }
  }

  /** Verifying c1 + c2 is stepping through c1 and verifying c2 from the body reached. */
  lemma VerifyComposes(dsa: Dsa, anchor: CertificateBody, c1: seq<CertificateEnvelope>, c2: seq<CertificateEnvelope>)
    requires c2 != []
    ensures VerifyChain(dsa, anchor, c1 + c2)
         == match StepThrough(dsa, anchor, c1)
            case Bad(e) => Bad(e)
            case Good(body) => VerifyChain(dsa, body, c2)
  {
    hide StepThrough;
    StepThroughConcat(dsa, anchor, c1, c2);
  }

  // ---- What an accepted chain is ----

  predicate Parses(certs: seq<CertificateEnvelope>) {
    forall i :: 0 <= i < |certs| ==> ReadCertificate(certs[i].certificateBody).Some?
  }

  /** The anchor followed by the bodies of all certificates. */
  function Path(anchor: CertificateBody, certs: seq<CertificateEnvelope>): (path: seq<CertificateBody>)
    requires Parses(certs)
    ensures |path| == |certs| + 1
  {
    [anchor] + seq(|certs|, i requires 0 <= i < |certs| => ReadCertificate(certs[i].certificateBody).value)
  }

  /** The parent holds an Ed25519 key, and the certificate carries its signature. */
  predicate Endorses(dsa: Dsa, parent: CertificateBody, cert: CertificateEnvelope) {
    && parent.keyType == ED25519 && dsa.supported
    && |cert.signature| == SIGNATURE_LENGTH
    && dsa.verify(cert.certificateBody, cert.signature, parent.publicKey)
  }

  ghost predicate Signed(dsa: Dsa, path: seq<CertificateBody>, certs: seq<CertificateEnvelope>)
    requires |path| == |certs| + 1
  {
    forall i :: 0 <= i < |certs| ==> Endorses(dsa, path[i], certs[i])
  }

  predicate Below(parent: CertificateBody, child: CertificateBody) {
    && parent.validAfter <= child.validAfter
    && child.validBefore <= parent.validBefore
    && child.signingLevel < parent.signingLevel
  }

  /** Every body lies inside the validity window of all earlier ones, at a strictly lower level. */
  ghost predicate Nested(path: seq<CertificateBody>) {
    forall i, j :: 0 <= i < j < |path| ==> Below(path[i], path[j])
  }

  lemma PathUnfolds(anchor: CertificateBody, certs: seq<CertificateEnvelope>, body: CertificateBody)
    requires certs != [] && Parses(certs) && ReadCertificate(certs[0].certificateBody) == Some(body)
    ensures Parses(certs[1..]) && Path(anchor, certs) == [anchor] + Path(body, certs[1..])
  {
    hide ReadCertificate;
  }

  lemma NestedUnfolds(anchor: CertificateBody, path: seq<CertificateBody>)
    requires path != []
    ensures Nested([anchor] + path) <==> Nested(path) && Below(anchor, path[0])
  {
    var whole := [anchor] + path;
    if Nested(whole) {
      assert Below(whole[0], whole[1]);
      forall i, j | 0 <= i < j < |path| ensures Below(path[i], path[j]) {
        assert Below(whole[i + 1], whole[j + 1]);
      }
    }
    if Nested(path) && Below(anchor, path[0]) {
      forall i, j | 0 <= i < j < |whole| ensures Below(whole[i], whole[j]) {
        if i > 0 {
          assert Below(path[i - 1], path[j - 1]);
        } else if j > 1 {
          assert Below(path[0], path[j - 1]);
        }
      }
    }
  }

  lemma SignedUnfolds(dsa: Dsa, parent: CertificateBody, path: seq<CertificateBody>, certs: seq<CertificateEnvelope>)
    requires |path| == |certs| > 0
    ensures Signed(dsa, [parent] + path, certs) <==> Signed(dsa, path, certs[1..]) && Endorses(dsa, parent, certs[0])
  {
    hide Endorses;
    var whole := [parent] + path;
    assert forall i :: 1 <= i < |certs| ==> certs[i] == certs[1..][i - 1] && whole[i] == path[i - 1];
    assert forall i :: 0 <= i < |certs| - 1 ==> certs[1..][i] == certs[i + 1] && path[i] == whole[i + 1];
  }

  lemma PairExactly(dsa: Dsa, parent: CertificateBody, cert: CertificateEnvelope)
    ensures VerifyPair(dsa, parent, cert).Good? <==>
            && ReadCertificate(cert.certificateBody).Some?
            && Endorses(dsa, parent, cert)
            && Below(parent, ReadCertificate(cert.certificateBody).value)
    ensures VerifyPair(dsa, parent, cert).Good? ==>
            ReadCertificate(cert.certificateBody) == Some(VerifyPair(dsa, parent, cert).body)
  {
    hide ReadCertificate;
  }

  ghost predicate Trusted(dsa: Dsa, parent: CertificateBody, certs: seq<CertificateEnvelope>) {
    Parses(certs) && Signed(dsa, Path(parent, certs), certs) && Nested(Path(parent, certs))
  }

  lemma TrustedUnfolds(dsa: Dsa, parent: CertificateBody, certs: seq<CertificateEnvelope>)
    requires certs != []
    ensures Trusted(dsa, parent, certs) <==>
            VerifyPair(dsa, parent, certs[0]).Good? && Trusted(dsa, VerifyPair(dsa, parent, certs[0]).body, certs[1..])
    ensures Trusted(dsa, parent, certs) ==>
            Path(parent, certs)[|certs|] == Path(VerifyPair(dsa, parent, certs[0]).body, certs[1..])[|certs| - 1]
  {
    hide ReadCertificate, Nested, VerifyPair, Endorses, Signed, Below;
    var rest := certs[1..];
    PairExactly(dsa, parent, certs[0]);
    assert Parses(certs) <==> ReadCertificate(certs[0].certificateBody).Some? && Parses(rest) by {
      assert forall i :: 1 <= i < |certs| ==> certs[i] == rest[i - 1];
      assert forall i :: 0 <= i < |rest| ==> rest[i] == certs[i + 1];
    }
    if Parses(certs) {
      var next := ReadCertificate(certs[0].certificateBody).value;
      PathUnfolds(parent, certs, next);
      NestedUnfolds(parent, Path(next, rest));
      SignedUnfolds(dsa, parent, Path(next, rest), certs);
    }
  }

  lemma {:induction false} StepsExactly(dsa: Dsa, parent: CertificateBody, certs: seq<CertificateEnvelope>)
    ensures StepThrough(dsa, parent, certs).Good? <==> Trusted(dsa, parent, certs)
    ensures StepThrough(dsa, parent, certs).Good? ==> StepThrough(dsa, parent, certs).body == Path(parent, certs)[|certs|]
    decreases |certs|
  {
    if certs == [] {
      assert Nested([parent]);
    } else {
      hide Trusted, VerifyPair, Path;
      TrustedUnfolds(dsa, parent, certs);
      if VerifyPair(dsa, parent, certs[0]).Good? {
        StepsExactly(dsa, VerifyPair(dsa, parent, certs[0]).body, certs[1..]);
      }
    }
  }

  /** A chain is accepted, with its last body as the result, exactly when it is not empty, every
      certificate parses and is signed by the Ed25519 key before it, every validity window is nested
      in all earlier ones, signing levels strictly fall to zero, and the last key is an X25519 key. */
  lemma AcceptedExactly(dsa: Dsa, anchor: CertificateBody, certs: seq<CertificateEnvelope>, body: CertificateBody)
    ensures VerifyChain(dsa, anchor, certs) == Good(body) <==>
            && certs != [] && Trusted(dsa, anchor, certs)
            && Path(anchor, certs)[|certs|] == body
            && body.signingLevel == 0 && body.keyType == X25519
  {
    hide StepThrough, Signed, Nested, Path;
    StepsExactly(dsa, anchor, certs);
  }

  lemma {:induction false} LevelsBoundLength(path: seq<CertificateBody>, k: nat)
    requires Nested(path) && k < |path|
    ensures path[k].signingLevel + k <= path[0].signingLevel
  {
    if k > 0 {
      LevelsBoundLength(path, k - 1);
      assert Below(path[k - 1], path[k]);
    }
  }

  /** The signing level of the anchor bounds the length of any accepted chain. */
  lemma ChainLengthBounded(dsa: Dsa, anchor: CertificateBody, certs: seq<CertificateEnvelope>)
    requires VerifyChain(dsa, anchor, certs).Good?
    ensures 1 <= |certs| <= anchor.signingLevel
  {
    hide VerifyChain, Signed;
    AcceptedExactly(dsa, anchor, certs, VerifyChain(dsa, anchor, certs).body);
    LevelsBoundLength(Path(anchor, certs), |certs|);
  }
}

/** Portable credentials: the request checks, the signing and the verifying, with the libraries abstract. */
module Credentials {
  import opened Evm
  import Preimages

  /** Nanoseconds since Go's zero time, so that zero is what IsZero tests. */
  type Time = int

  datatype Signer = Signer(keyId: string, secret: nat)

  datatype IssueRequest = IssueRequest(
    learnerId: string,
    projectName: string,
    skillId: string,
    policyVersion: string,
    evidenceBinding: string,
    evaluationScore: int,
    issuedAt: Time,
    agentName: string,
    execution: string,
    issuer: string
  )

  datatype Subject = Subject(
    id: string,
    learnerId: string,
    projectName: string,
    skillId: string,
    policyVersion: string,
    evidenceBinding: string,
    evaluationScore: int,
    agentName: string,
    execution: string
  )

  datatype Proof = Proof(kind: string, cryptosuite: string, created: string, verificationMethod: string, proofPurpose: string,
                         proofValue: string)

  datatype Credential = Credential(context: seq<string>, id: string, kinds: seq<string>, issuer: string, validFrom: string,
                                   subject: Subject, proof: Proof)

  /** The struct that is serialized and hashed: everything except the signature itself. */
  datatype UnsignedProof = UnsignedProof(kind: string, cryptosuite: string, created: string, verificationMethod: string,
                                         proofPurpose: string)

  datatype Unsigned = Unsigned(context: seq<string>, id: string, kinds: seq<string>, issuer: string, validFrom: string,
                               subject: Subject, proof: UnsignedProof)

  /** A public key and its curve. Go's nil key is no key at all. */
  datatype PublicKey = P256(point: nat) | OtherCurve

  /** The library calls: hashing, formatting, P-256 and base64. */
  datatype Suite = Suite(
    digest: Unsigned -> nat,
    hashId: string -> string,
    rfc3339: Time -> string,
    rfc3339Nano: Time -> string,
    sign: (nat, nat, nat) -> seq<nat>,
    verifies: (nat, nat, seq<nat>) -> bool,
    publicOf: nat -> nat,
    encode: seq<nat> -> string,
    decode: string -> Option<seq<nat>>
  ) {
    /** A signature verifies under the key's public half, whatever the nonce; base64 decodes what it encoded. */
    ghost predicate Sound() {
      && (forall secret, digest, nonce :: verifies(publicOf(secret), digest, sign(secret, digest, nonce)))
      && (forall bytes :: decode(encode(bytes)) == Some(bytes))
    }
  }

  const PROOF_SUITE := "company-p256-sha256"

  predicate IsSpace(c: char) {
    || '\t' <= c <= '\r' || c == ' ' || c == '\U{85}' || c == '\U{A0}' || c == '\U{1680}'
    || '\U{2000}' <= c <= '\U{200A}' || c == '\U{2028}' || c == '\U{2029}' || c == '\U{202F}' || c == '\U{205F}' || c == '\U{3000}'
  }

  /** strings.TrimSpace leaves nothing. */
  predicate Blank(s: string) {
    forall i :: 0 <= i < |s| ==> IsSpace(s[i])
  }

  predicate ValidRequest(r: IssueRequest) {
    && !Blank(r.learnerId) && !Blank(r.projectName) && !Blank(r.agentName) && !Blank(r.issuer)
    && 0 <= r.evaluationScore <= 100
    && r.issuedAt != 0
    && r.execution in {"PASS", "FAIL"}
  }

  function UnsignedPart(c: Credential): Unsigned {
    Unsigned(c.context, c.id, c.kinds, c.issuer, c.validFrom, c.subject,
             UnsignedProof(c.proof.kind, c.proof.cryptosuite, c.proof.created, c.proof.verificationMethod, c.proof.proofPurpose))
  }

  /** Learner, project, time and agent, joined by NUL. */
  function CredentialSeed(u: Suite, r: IssueRequest): string {
    r.learnerId + "\0" + r.projectName + "\0" + u.rfc3339Nano(r.issuedAt) + "\0" + r.agentName
  }

  function CredentialId(u: Suite, r: IssueRequest): string {
    "urn:company:credential:" + u.hashId(CredentialSeed(u, r))
  }

  ghost predicate SameOccasion(u: Suite, r: IssueRequest, r': IssueRequest) {
    && r'.learnerId == r.learnerId && r'.projectName == r.projectName
    && u.rfc3339Nano(r'.issuedAt) == u.rfc3339Nano(r.issuedAt) && r'.agentName == r.agentName
  }

  /** Between the start or a NUL, and a NUL, this string contains that one. */
  ghost predicate HasField(s: string, field: string) {
    exists i, j :: 0 <= i <= j < |s| && s[i..j] == field && s[j] == '\0' && (i == 0 || s[i - 1] == '\0')
  }

  /** A NUL in learner or project, or in the agent's name after something that reads as a time. */
  ghost predicate Ambiguous(u: Suite, r: IssueRequest) {
    '\0' in r.learnerId || '\0' in r.projectName || exists time: Time :: HasField(r.agentName, u.rfc3339Nano(time))
  }

  /** Two strings with one hash. */
  ghost predicate HashCollides(u: Suite, a: string, b: string) {
    a != b && u.hashId(a) == u.hashId(b)
  }

  /**
   When a credential id stands for one learner, project, time and agent, up to hash collisions: exactly
   when the request is not ambiguous. Times are written without NUL.
   */
  lemma CredentialIdIsOwnIff(u: Suite, r: IssueRequest)
    requires forall time: Time :: '\0' !in u.rfc3339Nano(time)
    ensures !Ambiguous(u, r) <==>
              forall r' :: CredentialId(u, r') == CredentialId(u, r) ==>
                SameOccasion(u, r, r') || HashCollides(u, CredentialSeed(u, r), CredentialSeed(u, r'))
  {
    if Ambiguous(u, r) {
      var r' := AmbiguousIsShared(u, r);
      assert CredentialId(u, r') == CredentialId(u, r);
    } else {
      forall r' | CredentialId(u, r') == CredentialId(u, r) && !HashCollides(u, CredentialSeed(u, r), CredentialSeed(u, r'))
        ensures SameOccasion(u, r, r')
      {
        var tag := "urn:company:credential:";
        assert CredentialId(u, r)[|tag|..] == u.hashId(CredentialSeed(u, r));
        assert CredentialId(u, r')[|tag|..] == u.hashId(CredentialSeed(u, r'));
        SeedHasOneReading(u, r, r');
      }
    }
  }

  lemma AmbiguousIsShared(u: Suite, r: IssueRequest) returns (r': IssueRequest)
    requires Ambiguous(u, r)
    ensures CredentialSeed(u, r') == CredentialSeed(u, r) && !SameOccasion(u, r, r')
  {
    if '\0' in r.learnerId {
      r' := LearnerSplit(u, r);
    } else if '\0' in r.projectName {
      r' := ProjectSplit(u, r);
    } else {
      var time: Time :| HasField(r.agentName, u.rfc3339Nano(time));
      r' := TimeMovedLeft(u, r, time);
    }
  }

  lemma LearnerSplit(u: Suite, r: IssueRequest) returns (r': IssueRequest)
    requires '\0' in r.learnerId
    ensures CredentialSeed(u, r') == CredentialSeed(u, r) && r'.learnerId != r.learnerId
  {
    var learner, project := r.learnerId, r.projectName;
    var i :| 0 <= i < |learner| && learner[i] == '\0';
    r' := r.(learnerId := learner[..i], projectName := learner[i + 1..] + "\0" + project);
    assert learner + "\0" + project == r'.learnerId + "\0" + r'.projectName;
    assert |r'.learnerId| < |learner|;
  }

  lemma ProjectSplit(u: Suite, r: IssueRequest) returns (r': IssueRequest)
    requires '\0' in r.projectName
    ensures CredentialSeed(u, r') == CredentialSeed(u, r) && r'.projectName != r.projectName
  {
    var learner, project := r.learnerId, r.projectName;
    var i :| 0 <= i < |project| && project[i] == '\0';
    r' := r.(learnerId := learner + "\0" + project[..i], projectName := project[i + 1..]);
    assert learner + "\0" + project == r'.learnerId + "\0" + r'.projectName;
    assert |r'.projectName| < |project|;
  }

  lemma TimeMovedLeft(u: Suite, r: IssueRequest, time: Time) returns (r': IssueRequest)
    requires HasField(r.agentName, u.rfc3339Nano(time))
    ensures CredentialSeed(u, r') == CredentialSeed(u, r) && r'.projectName != r.projectName
  {
    var agent, t := r.agentName, u.rfc3339Nano(time);
    var i, j :| 0 <= i <= j < |agent| && agent[i..j] == t && agent[j] == '\0' && (i == 0 || agent[i - 1] == '\0');
    var gap := if i == 0 then "" else "\0" + agent[..i - 1];
    r' := r.(projectName := r.projectName + "\0" + u.rfc3339Nano(r.issuedAt) + gap, issuedAt := time, agentName := agent[j + 1..]);
    FieldSplits(agent, i, j);
    Regroup(r.learnerId, r.projectName, u.rfc3339Nano(r.issuedAt), agent, gap, t, agent[j + 1..]);
    assert |r'.projectName| > |r.projectName|;
  }

  lemma Regroup(learner: string, project: string, t: string, agent: string, gap: string, t': string, agent': string)
    requires "\0" + agent == gap + "\0" + t' + "\0" + agent'
    ensures learner + "\0" + project + "\0" + t + "\0" + agent ==
              learner + "\0" + (project + "\0" + t + gap) + "\0" + t' + "\0" + agent'
  {
    var head := learner + "\0" + (project + "\0" + t);
    assert learner + "\0" + project + "\0" + t + "\0" + agent == head + ("\0" + agent);
    assert head + (gap + "\0" + t' + "\0" + agent') == learner + "\0" + (project + "\0" + t + gap) + "\0" + t' + "\0" + agent';
  }

  lemma FieldSplits(s: string, i: nat, j: nat)
    requires i <= j < |s| && s[j] == '\0' && (i == 0 || s[i - 1] == '\0')
    ensures "\0" + s == (if i == 0 then "" else "\0" + s[..i - 1]) + "\0" + s[i..j] + "\0" + s[j + 1..]
  {
    assert s == s[..i] + s[i..j] + "\0" + s[j + 1..];
    assert i > 0 ==> s[..i] == s[..i - 1] + "\0";
  }

  lemma SeedHasOneReading(u: Suite, r: IssueRequest, r': IssueRequest)
    requires forall time: Time :: '\0' !in u.rfc3339Nano(time)
    requires !Ambiguous(u, r) && CredentialSeed(u, r') == CredentialSeed(u, r)
    ensures SameOccasion(u, r, r')
  {
    var t, t' := u.rfc3339Nano(r.issuedAt), u.rfc3339Nano(r'.issuedAt);
    var head, head' := r.learnerId + "\0" + r.projectName, r'.learnerId + "\0" + r'.projectName;
    var tail, tail' := t + "\0" + r.agentName, t' + "\0" + r'.agentName;
    assert CredentialSeed(u, r) == r.learnerId + "\0" + (r.projectName + "\0" + tail) && CredentialSeed(u, r') == head' + "\0" + tail';
    var y := Peel(r.learnerId, r.projectName + "\0" + tail, head', tail');
    assert y.Some? by { assert head'[|r'.learnerId|] == '\0'; }
    var z := Peel(r.projectName, tail, y.value, tail');
    if z.None? {
      assert head' == head;
      var rest := Peel(r.learnerId, r.projectName, r'.learnerId, r'.projectName);
      assert rest.None?;
      Preimages.FirstMark('\0', t, r.agentName, t', r'.agentName);
    } else {
      TimeInsideAgent(t, r.agentName, z.value, t', r'.agentName);
    }
  }

  /** What stands before the first NUL either is all that stands before another NUL, or begins it. */
  lemma Peel(a: string, b: string, a': string, b': string) returns (y: Option<string>)
    requires a + "\0" + b == a' + "\0" + b' && '\0' !in a
    ensures y.None? ==> a' == a && b' == b
    ensures y.Some? ==> a' == a + "\0" + y.value && b == y.value + "\0" + b'
  {
    var s := a + "\0" + b;
    assert s[|a'|] == '\0' && s[|a|] == '\0' && forall k :: 0 <= k < |a| ==> s[k] == a[k];
    assert a == s[..|a|] && a' == s[..|a'|] && b == s[|a| + 1..] && b' == s[|a'| + 1..];
    if |a'| == |a| {
      y := None;
    } else {
      y := Some(s[|a| + 1..|a'|]);
    }
  }

  lemma TimeInsideAgent(t: string, agent: string, y: string, t': string, agent': string)
    requires t + "\0" + agent == y + "\0" + (t' + "\0" + agent') && '\0' !in t
    ensures HasField(agent, t')
  {
    var z := Peel(t, agent, y, t' + "\0" + agent');
    var i := if z.None? then 0 else |z.value| + 1;
    assert agent[i..i + |t'|] == t' && agent[i + |t'|] == '\0' && (i == 0 || agent[i - 1] == '\0');
  }

  /** With a NUL in a learner id two learners share a credential id, whatever the hash. */
  lemma NulConfusesCredentialIds(u: Suite, r: IssueRequest)
    ensures var one, other := r.(learnerId := "a\0b", projectName := "c"), r.(learnerId := "a", projectName := "b\0c");
      one.learnerId != other.learnerId && CredentialId(u, one) == CredentialId(u, other)
  {
    var one, other := r.(learnerId := "a\0b", projectName := "c"), r.(learnerId := "a", projectName := "b\0c");
    assert "a\0b" + "\0" + "c" == "a" + "\0" + "b\0c";
    assert CredentialSeed(u, one) == CredentialSeed(u, other);
    assert |one.learnerId| == 3 && |other.learnerId| == 1;
  }

  predicate Verify(u: Suite, c: Credential, publicKey: Option<PublicKey>) {
    var signature := u.decode(c.proof.proofValue);
    && publicKey.Some? && publicKey.value.P256? && c.proof.cryptosuite == PROOF_SUITE && signature.Some?
    && u.verifies(publicKey.value.point, u.digest(UnsignedPart(c)), signature.value)
  }

  /** The credential says what the request asked for. */
  predicate Carries(u: Suite, c: Credential, r: IssueRequest) {
    && c.subject == Subject("urn:company:learner:" + u.hashId(r.learnerId), r.learnerId, r.projectName, r.skillId, r.policyVersion,
                            r.evidenceBinding, r.evaluationScore, r.agentName, r.execution)
    && c.id == CredentialId(u, r) && c.issuer == r.issuer && c.validFrom == u.rfc3339(r.issuedAt)
  }

  function Template(u: Suite, signer: Signer, r: IssueRequest): Credential {
    Credential(
      ["https://www.w3.org/ns/credentials/v2"],
      CredentialId(u, r),
      ["VerifiableCredential", "ProjectCredential"],
      r.issuer,
      u.rfc3339(r.issuedAt),
      Subject("urn:company:learner:" + u.hashId(r.learnerId), r.learnerId, r.projectName, r.skillId, r.policyVersion,
              r.evidenceBinding, r.evaluationScore, r.agentName, r.execution),
      Proof("DataIntegrityProof", PROOF_SUITE, u.rfc3339(r.issuedAt), r.issuer + "#" + signer.keyId, "assertionMethod", ""))
  }

  /** The signed credential, with its signature over everything else in it. */
  function SignedCredential(u: Suite, signer: Signer, r: IssueRequest, nonce: nat): Credential {
    var c := Template(u, signer, r);
    c.(proof := c.proof.(proofValue := u.encode(u.sign(signer.secret, u.digest(UnsignedPart(c)), nonce))))
  }

  /** What LocalSigner.PublicKey returns. */
  function PublicHalf(u: Suite, signer: Signer): Option<PublicKey> {
    Some(P256(u.publicOf(signer.secret)))
  }

  /** It verifies under the signer's public key, and says what was asked for. */
  lemma SignedCredentialVerifies(u: Suite, signer: Signer, r: IssueRequest, nonce: nat)
    requires u.Sound()
    ensures var c := SignedCredential(u, signer, r, nonce);
      Verify(u, c, PublicHalf(u, signer)) && Carries(u, c, r) && c.proof.verificationMethod == r.issuer + "#" + signer.keyId
  {
    assert UnsignedPart(SignedCredential(u, signer, r, nonce)) == UnsignedPart(Template(u, signer, r));
  }

  /** Two structs with one digest. */
  ghost predicate Collides(u: Suite, a: Unsigned, b: Unsigned) {
    a != b && u.digest(a) == u.digest(b)
  }

  /** A signature that verifies where it was not made: over another digest, or under another key. */
  ghost predicate Strays(u: Suite, secret: nat, digest: nat, nonce: nat, point: nat, digest': nat) {
    u.verifies(point, digest', u.sign(secret, digest, nonce)) && !(point == u.publicOf(secret) && digest' == digest)
  }

  /**
   Take a signed credential and change anything in it, or ask for any key. As long as no two digests
   collide and the signature does not verify where it was not made, exactly one answer is yes: the
   untouched contents under the signer's own key. Only the spelling of the signature is free.
   */
  lemma VerifiesOnlyUntouched(u: Suite, signer: Signer, r: IssueRequest, nonce: nat, c': Credential, key: Option<PublicKey>)
    requires u.Sound() && u.decode(c'.proof.proofValue) == u.decode(SignedCredential(u, signer, r, nonce).proof.proofValue)
    requires !Collides(u, UnsignedPart(c'), UnsignedPart(Template(u, signer, r)))
    requires forall point :: key == Some(P256(point)) ==>
               !Strays(u, signer.secret, u.digest(UnsignedPart(Template(u, signer, r))), nonce, point, u.digest(UnsignedPart(c')))
    ensures var c := SignedCredential(u, signer, r, nonce);
      Verify(u, c', key) <==> c' == c.(proof := c.proof.(proofValue := c'.proof.proofValue)) && key == PublicHalf(u, signer)
  {
    var c := SignedCredential(u, signer, r, nonce);
    assert UnsignedPart(c) == UnsignedPart(Template(u, signer, r));
    SignatureCoversEverything(c, c');
  }

  /** No key, a key of another curve, another suite or an undecodable signature: each is refused by itself. */
  lemma VerifyRefuses(u: Suite, c: Credential, key: Option<PublicKey>)
    requires key.None? || key == Some(OtherCurve) || c.proof.cryptosuite != PROOF_SUITE || u.decode(c.proof.proofValue).None?
    ensures !Verify(u, c, key)
  {
  }

  datatype IssueError = ContextDone | NoSigner | BadRequest

  /** The low-level helper. It fills the credential, hashes it without a signature, and then sets the signature in it. */
  method Issue(u: Suite, contextDone: bool, signer: Option<Signer>, r: IssueRequest, nonce: nat)
    returns (credential: Option<Credential>, error: Option<IssueError>)
    ensures credential.Some? <==> !contextDone && signer.Some? && ValidRequest(r)
    ensures credential.Some? ==> error == None && credential.value == SignedCredential(u, signer.value, r, nonce)
    ensures credential.None? ==>
              error == Some(if contextDone then ContextDone else if signer.None? then NoSigner else BadRequest)
  {
    if contextDone { return None, Some(ContextDone); }
    if signer.None? { return None, Some(NoSigner); }
    if !ValidRequest(r) { return None, Some(BadRequest); }
    var c := Template(u, signer.value, r);
    var signature := u.sign(signer.value.secret, u.digest(UnsignedPart(c)), nonce);
    c := c.(proof := c.proof.(proofValue := u.encode(signature)));
    return Some(c), None;
  }

  /** Nothing but the signature escapes the digest: credentials that hash the same struct differ in nothing else. */
  lemma SignatureCoversEverything(c: Credential, c': Credential)
    ensures UnsignedPart(c) == UnsignedPart(c') <==> c' == c.(proof := c.proof.(proofValue := c'.proof.proofValue))
  {
    assert UnsignedPart(c) == UnsignedPart(c') ==> c'.proof == c.proof.(proofValue := c'.proof.proofValue);
  }
}

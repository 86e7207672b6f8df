/**
 A holder proves control of a project: the command line signs on one side, SkillMVPRegistry
 recovers and compares on the other.
 */
module HolderProof {
  import opened Evm
  import opened RecordBook
  import opened SkillMvpModel
  import opened Preimages
  import opened SkillMvpRegistryContract
  import Theorems = SkillMvpTheorems

  type Byte = x: nat | x < 256
  type PrivateKey = nat

  /** The order of secp256k1 and the largest s value that is accepted. */
  const GROUP_ORDER: nat := 0xfffffffffffffffffffffffffffffffebaaedce6af48a03bbfd25e8cd0364141
  const HALF_ORDER: nat := 0x7fffffffffffffffffffffffffffffff5d576e7357a4501ddfe92f46681b20a0

  /** Library code, of which only the round trip is used. */
  datatype Crypto = Crypto(
    keccak: seq<Byte> -> Bytes32,
    ecrecover: (Bytes32, Byte, Bytes32, Bytes32) -> Address,
    sign: (Bytes32, PrivateKey) -> seq<Byte>,
    addressOf: PrivateKey -> Address
  ) {
    /** crypto.Sign returns r, a low s and a recovery id of 0 or 1, and ecrecover undoes it. */
    ghost predicate SignsCorrectly() {
      forall digest, key :: WellSigned(digest, key, sign(digest, key))
    }

    predicate WellSigned(digest: Bytes32, key: PrivateKey, signature: seq<Byte>) {
      && |signature| == 65 && signature[64] <= 1 && SOf(signature) <= HALF_ORDER
      && ecrecover(digest, signature[64] + 27, ROf(signature), SOf(signature)) == addressOf(key)
    }
  }

  // ------------------------------------------------------------ encoding

  function Pow256(n: nat): (p: nat)
    ensures p > 0
  {
    if n == 0 then 1 else 256 * Pow256(n - 1)
  }

  function BigEndian(bytes: seq<Byte>): (x: nat)
    ensures x < Pow256(|bytes|)
  {
    if bytes == [] then 0 else 256 * BigEndian(bytes[..|bytes| - 1]) + bytes[|bytes| - 1]
  }

  function Bytes(x: nat, n: nat): (bytes: seq<Byte>)
    ensures |bytes| == n
  {
    if n == 0 then [] else Bytes(x / 256, n - 1) + [x % 256]
  }

  lemma {:induction false} BytesRoundTrip(x: nat, n: nat)
    requires x < Pow256(n)
    ensures BigEndian(Bytes(x, n)) == x
  {
    if n > 0 {
      BytesRoundTrip(x / 256, n - 1);
      assert Bytes(x, n)[..n - 1] == Bytes(x / 256, n - 1);
    }
  }

  lemma WordSize()
    ensures Pow256(32) == TWO_256
  {
    assert Pow256(8) == TWO_64;
    assert Pow256(16) == TWO_64 * TWO_64;
    assert Pow256(24) == TWO_64 * TWO_64 * TWO_64;
  }

  function Word(bytes: seq<Byte>): Bytes32
    requires |bytes| == 32
  {
    WordSize();
    BigEndian(bytes)
  }

  function ROf(signature: seq<Byte>): Bytes32
    requires |signature| == 65
  {
    Word(signature[..32])
  }

  function SOf(signature: seq<Byte>): Bytes32
    requires |signature| == 65
  {
    Word(signature[32..64])
  }

  function CodeOf(c: char): Byte {
    c as int % 256
  }

  /** The bytes of a string of single-byte characters. */
  function Ascii(s: string): (bytes: seq<Byte>)
    ensures |bytes| == |s|
  {
    if s == [] then [] else Ascii(s[..|s| - 1]) + [CodeOf(s[|s| - 1])]
  }

  // ------------------------------------------------------------- digests

  /** abi.encode of the chain, the contract and the two words. */
  function ProjectPreimage(chainId: Bytes32, registry: Address, id: Bytes32, evidence: Bytes32): seq<Byte> {
    Bytes(chainId, 32) + Bytes(registry, 32) + Bytes(id, 32) + Bytes(evidence, 32)
  }

  /** The digest the contract recovers from. */
  function EthSignedPreimage(payload: Bytes32): seq<Byte> {
    Ascii("\U{19}Ethereum Signed Message:\n32") + Bytes(payload, 32)
  }

  /** The digest a wallet signs: any message, with its length spelled out in decimal. */
  function TextPreimage(message: seq<Byte>): seq<Byte> {
    Ascii("\U{19}Ethereum Signed Message:\n") + Ascii(Decimal(|message|)) + message
  }

  function ProjectDigest(c: Crypto, chainId: Bytes32, registry: Address, id: Bytes32, evidence: Bytes32): Bytes32 {
    c.keccak(ProjectPreimage(chainId, registry, id, evidence))
  }

  /** Wallet and contract hash the same bytes for a 32-byte payload. */
  lemma PreimagesAgree(payload: Bytes32)
    ensures TextPreimage(Bytes(payload, 32)) == EthSignedPreimage(payload)
  {
    assert Decimal(32) == Decimal(3) + "2" == "32";
    var head := "\U{19}Ethereum Signed Message:\n";
    assert "\U{19}Ethereum Signed Message:\n32" == head + "32";
    AsciiConcat(head, "32");
  }

  lemma {:induction false} AsciiConcat(s: string, t: string)
    ensures Ascii(s + t) == Ascii(s) + Ascii(t)
  {
    if t == [] {
      assert s + t == s;
    } else {
      AsciiConcat(s, t[..|t| - 1]);
      assert (s + t)[..|s + t| - 1] == s + t[..|t| - 1];
    }
  }

  /** The bytes behind a project digest determine chain, contract, record and project. */
  lemma ProjectPreimageInjective(chainId: Bytes32, registry: Address, id: Bytes32, evidence: Bytes32,
                                 chainId': Bytes32, registry': Address, id': Bytes32, evidence': Bytes32)
    requires ProjectPreimage(chainId, registry, id, evidence) == ProjectPreimage(chainId', registry', id', evidence')
    ensures chainId == chainId' && registry == registry' && id == id' && evidence == evidence'
  {
    WordSize();
    var p, p' := ProjectPreimage(chainId, registry, id, evidence), ProjectPreimage(chainId', registry', id', evidence');
    assert p[..32] == Bytes(chainId, 32) && p'[..32] == Bytes(chainId', 32);
    assert p[32..64] == Bytes(registry, 32) && p'[32..64] == Bytes(registry', 32);
    assert p[64..96] == Bytes(id, 32) && p'[64..96] == Bytes(id', 32);
    assert p[96..] == Bytes(evidence, 32) && p'[96..] == Bytes(evidence', 32);
    BytesRoundTrip(chainId, 32); BytesRoundTrip(chainId', 32);
    BytesRoundTrip(registry, 32); BytesRoundTrip(registry', 32);
    BytesRoundTrip(id, 32); BytesRoundTrip(id', 32);
    BytesRoundTrip(evidence, 32); BytesRoundTrip(evidence', 32);
  }

  // ------------------------------------------------------------ contract

  /** The address a signature stands for; zero for anything malformed or malleable. */
  function Recovered(c: Crypto, digest: Bytes32, signature: seq<Byte>): Address {
    if |signature| != 65 then 0
    else
      var v := if signature[64] < 27 then signature[64] + 27 else signature[64];
      if (v != 27 && v != 28) || SOf(signature) > HALF_ORDER then 0
      else c.ecrecover(digest, v, ROf(signature), SOf(signature))
  }

  predicate VerifyHolderProject(c: Crypto, chainId: Bytes32, registry: Address, s: MvpState, now: Timestamp,
                                id: Bytes32, evidence: Bytes32, signature: seq<Byte>)
  {
    var binding := BindingOf(s, id);
    if id !in s.attestations || !s.attestations[id].active || !binding.active || binding.expiresAt <= now then false
    else
      var digest := c.keccak(EthSignedPreimage(ProjectDigest(c, chainId, registry, id, evidence)));
      Recovered(c, digest, signature) == binding.holder
  }

  /** The contract's recovery, which shifts v in place before it tests it. */
  method Recover(c: Crypto, digest: Bytes32, signature: seq<Byte>) returns (signer: Address)
    ensures signer == Recovered(c, digest, signature)
  {
    if |signature| != 65 { return 0; }
    var r, s := Word(signature[..32]), Word(signature[32..64]);
    var v := signature[64];
    if v < 27 { v := v + 27; }
    if (v != 27 && v != 28) || s > HALF_ORDER { return 0; }
    return c.ecrecover(digest, v, r, s);
  }

  /** Only a 65-byte signature with a low s and a last byte in one of the two usual forms stands for anybody. */
  lemma OnlyCanonicalSignaturesRecover(c: Crypto, digest: Bytes32, signature: seq<Byte>)
    ensures Recovered(c, digest, signature) != 0 ==>
              |signature| == 65 && SOf(signature) <= HALF_ORDER && signature[64] in {0, 1, 27, 28}
    ensures |signature| == 65 && signature[64] <= 1 ==>
              Recovered(c, digest, signature[64 := signature[64] + 27]) == Recovered(c, digest, signature)
  {
    if |signature| == 65 && signature[64] <= 1 {
      var shifted := signature[64 := signature[64] + 27];
      assert shifted[..32] == signature[..32] && shifted[32..64] == signature[32..64];
    }
  }

  /**
   The contract's view. On a sound registry it accepts exactly when the signature recovers to a
   nonzero holder who is authorized at that moment, and then the signature is canonical.
   */
  method VerifyProject(registry: SkillMVPRegistry, c: Crypto, chainId: Bytes32, self: Address, now: Timestamp,
                       id: Bytes32, evidence: Bytes32, signature: seq<Byte>)
    returns (verified: bool)
    ensures verified == VerifyHolderProject(c, chainId, self, registry.Storage(), now, id, evidence, signature)
    ensures Theorems.HoldersKnown(registry.Storage()) ==>
              var signer := Recovered(c, c.keccak(EthSignedPreimage(ProjectDigest(c, chainId, self, id, evidence))), signature);
              && (verified <==> signer != 0 && IsHolderAuthorized(registry.Storage(), id, signer, now))
              && (verified ==> |signature| == 65 && SOf(signature) <= HALF_ORDER && signature[64] in {0, 1, 27, 28})
  {
    var binding := BindingOf(registry.Storage(), id);
    if id !in registry.attestations || !registry.attestations[id].active || !binding.active || binding.expiresAt <= now { return false; }
    var digest := c.keccak(EthSignedPreimage(ProjectDigest(c, chainId, self, id, evidence)));
    var signer := Recover(c, digest, signature);
    OnlyCanonicalSignaturesRecover(c, digest, signature);
    return signer == binding.holder;
  }

  // -------------------------------------------------------- command line

  /**
   The holder's side. The signature of go-ethereum ends in 0 or 1 and is edited in place to the
   serialized form. Every registry state that binds this key's address live will accept it.
   */
  method SignProject(c: Crypto, chainId: Bytes32, registry: Address, id: Bytes32, evidence: Bytes32, key: PrivateKey)
    returns (signature: array<Byte>)
    requires c.SignsCorrectly()
    ensures fresh(signature) && signature.Length == 65 && signature[64] in {27, 28}
    ensures forall s, now :: IsHolderAuthorized(s, id, c.addressOf(key), now) ==>
              VerifyHolderProject(c, chainId, registry, s, now, id, evidence, signature[..])
  {
    var payload := ProjectDigest(c, chainId, registry, id, evidence);
    var digest := c.keccak(TextPreimage(Bytes(payload, 32)));
    signature := SignDigest(c, digest, key);
    PreimagesAgree(payload);
  }

  method SignDigest(c: Crypto, digest: Bytes32, key: PrivateKey) returns (signature: array<Byte>)
    requires c.SignsCorrectly()
    ensures fresh(signature) && signature.Length == 65 && signature[64] in {27, 28}
    ensures Recovered(c, digest, signature[..]) == c.addressOf(key)
  {
    var raw := c.sign(digest, key);
    assert c.WellSigned(digest, key, raw);
    signature := new Byte[65](i requires 0 <= i < 65 => raw[i]);
    signature[64] := (signature[64] + 27) % 256;
    assert signature[..] == raw[64 := raw[64] + 27];
    SerializedRecovers(c, digest, key, raw);
  }

  lemma SerializedRecovers(c: Crypto, digest: Bytes32, key: PrivateKey, raw: seq<Byte>)
    requires c.WellSigned(digest, key, raw)
    ensures Recovered(c, digest, raw[64 := raw[64] + 27]) == c.addressOf(key)
  {
    OnlyCanonicalSignaturesRecover(c, digest, raw);
  }

  // ------------------------------------------------------------ theorems

  /** In every reachable state a signature is accepted exactly when it recovers to an authorized holder, which is never zero. */
  lemma AcceptedIffRecoversHolder(d: MvpDeployment, txs: seq<MvpTx>, c: Crypto, chainId: Bytes32, registry: Address,
                                  now: Timestamp, id: Bytes32, evidence: Bytes32, signature: seq<Byte>)
    requires d.Valid()
    ensures var s := Run(d, MVP_INITIAL, txs);
      var signer := Recovered(c, c.keccak(EthSignedPreimage(ProjectDigest(c, chainId, registry, id, evidence))), signature);
      VerifyHolderProject(c, chainId, registry, s, now, id, evidence, signature) <==>
        signer != 0 && IsHolderAuthorized(s, id, signer, now)
  {
    Theorems.ReachableSound(d, txs);
  }

  /** Exactly one of s and its negation is low. */
  lemma ExactlyOneLowS(s: nat)
    requires 0 < s < GROUP_ORDER
    ensures (s <= HALF_ORDER) != (GROUP_ORDER - s <= HALF_ORDER)
  {
    assert GROUP_ORDER == 2 * HALF_ORDER + 1;
  }

  /** The malleated twin of an accepted signature is never accepted, under any v, for any digest. */
  lemma TwinIsRejected(d: MvpDeployment, txs: seq<MvpTx>, c: Crypto, chainId: Bytes32, registry: Address, now: Timestamp,
                       id: Bytes32, evidence: Bytes32, signature: seq<Byte>, twin: seq<Byte>, id': Bytes32, evidence': Bytes32)
    requires d.Valid()
    requires VerifyHolderProject(c, chainId, registry, Run(d, MVP_INITIAL, txs), now, id, evidence, signature)
    requires |signature| == 65 && |twin| == 65 && SOf(twin) == GROUP_ORDER - SOf(signature)
    ensures !VerifyHolderProject(c, chainId, registry, Run(d, MVP_INITIAL, txs), now, id', evidence', twin)
  {
    AcceptedIffRecoversHolder(d, txs, c, chainId, registry, now, id, evidence, signature);
    AcceptedIffRecoversHolder(d, txs, c, chainId, registry, now, id', evidence', twin);
    assert SOf(signature) <= HALF_ORDER;
    assert GROUP_ORDER == 2 * HALF_ORDER + 1;
  }

  /** Once a record is revoked or superseded, no signature over it is ever accepted again. */
  lemma ProofDiesWithRecord(d: MvpDeployment, earlier: seq<MvpTx>, later: seq<MvpTx>, c: Crypto, chainId: Bytes32,
                            registry: Address, now: Timestamp, id: Bytes32, evidence: Bytes32, signature: seq<Byte>)
    requires d.Valid() && id in Run(d, MVP_INITIAL, earlier).attestations
    requires !Run(d, MVP_INITIAL, earlier).Book().IsCurrent(id)
    ensures !VerifyHolderProject(c, chainId, registry, Run(d, Run(d, MVP_INITIAL, earlier), later), now, id, evidence, signature)
  {
    var s := Run(d, MVP_INITIAL, earlier);
    Theorems.ReachableSound(d, earlier);
    Theorems.RunSound(d, s, later);
    CurrentIffActive(d.root, s.Book(), id);
    assert id in s.Book().records && !Run(d, s, later).Book().Active(id);
  }
}

/**
 Symbolic cryptography.  Keys are terms, so derivations are injective; sealing is
 ideal, so a ciphertext opens under exactly the key, nonce and associated data it
 was sealed with.  Any `Sealed` term may be handed to a session: a statement about
 all ciphertexts also covers a peer who knows every key.
 */
module Symbolic {

  datatype Option<+T> = None | Some(value: T)

  datatype Error =
    | GenerationExhausted | GenerationMismatch | Replay | PartialRekey
    | DecapsulationFailed | EncapsulationFailed | AuthenticationFailed
    | Desynchronized | ProposalPending | StaleTarget | GapTooLarge | BudgetExhausted
    | BadKeyLength | NotSynchronize | CrossGeneration | NoSession

  datatype Result<+T> = Ok(value: T) | Err(error: Error)

  type byte = b: int | 0 <= b < 256

  type Bytes = seq<nat>

  /** The name a peer is filed under. */
  datatype Peer = Peer(identity: string)

  /** A hybrid public key: the X25519 half and the ML-KEM half. */
  datatype PublicKey = PublicKey(x: Bytes, m: Bytes)

  /** The secret half is identified with its public half. */
  datatype KeyPair = KeyPair(pk: PublicKey)

  datatype KemCiphertext = Encapsulation(pk: PublicKey, eph: nat) | Malformed(id: nat)

  /** `Rejected` is the pseudorandom secret of an implicitly rejected ciphertext. */
  datatype Secret = Shared(pk: PublicKey, eph: nat) | Rejected(ct: KemCiphertext, pk: PublicKey)

  /**
   Decapsulation fails on a malformed ciphertext only.  A well-formed ciphertext
   made for another key does not fail: it yields an unrelated secret.
   */
  function Decapsulate(ct: KemCiphertext, pair: KeyPair): Option<Secret> {
    match ct
    case Malformed(_) => None
    case Encapsulation(pk, eph) => Some(if pk == pair.pk then Shared(pk, eph) else Rejected(ct, pair.pk))
  }

  datatype Root = Master(id: nat) | NextRoot(root: Root, ss: Secret)

  /** The chain keys: two from the root of a pairing, two from every rekey, and the steps of a chain. */
  datatype ChainKey =
    | InitiatorSend(root: Root)
    | InitiatorRecv(root: Root)
    | RekeySend(root: Root, ss: Secret)
    | RekeyRecv(root: Root, ss: Secret)
    | Next(prev: ChainKey)

  datatype MsgKey = MsgKey(chain: ChainKey)

  /** The chain key n steps further on. */
  function Advance(ck: ChainKey, n: nat): ChainKey {
    if n == 0 then ck else Next(Advance(ck, n - 1))
  }

  datatype Nonce = Nonce(gen: nat, num: nat)

  /** The rekey offer a carrier message transports; also the associated data that binds it. */
  datatype Payload = Payload(pk: PublicKey, ct: KemCiphertext)

  datatype Plaintext = Data(id: nat) | RekeyAck(carrier: nat) | Synchronize(count: nat)

  datatype Cipher =
    | Sealed(key: MsgKey, nonce: Nonce, aad: Option<Payload>, text: Plaintext)
    | Forged(id: nat)

  function Open(key: MsgKey, nonce: Nonce, body: Cipher, aad: Option<Payload>): Option<Plaintext> {
    if body.Sealed? && body.key == key && body.nonce == nonce && body.aad == aad then Some(body.text) else None
  }

  /** The three optional rekey fields of a message on the wire. */
  datatype Fields = Fields(ct: Option<KemCiphertext>, x: Option<Bytes>, m: Option<Bytes>)

  const NO_FIELDS := Fields(None, None, None)

  function FieldsOf(p: Option<Payload>): Fields {
    match p
    case None => NO_FIELDS
    case Some(offer) => Fields(Some(offer.ct), Some(offer.pk.x), Some(offer.pk.m))
  }

  /** A partial set of rekey fields is an error, never an empty binding. */
  function BuildAad(f: Fields): Result<Option<Payload>> {
    match f
    case Fields(None, None, None) => Ok(None)
    case Fields(Some(ct), Some(x), Some(m)) => Ok(Some(Payload(PublicKey(x, m), ct)))
    case _ => Err(PartialRekey)
  }

  datatype Message = Message(nonce: Nonce, body: Cipher, fields: Fields)

  // ----- Chains -----

  lemma {:induction false} AdvanceAdd(ck: ChainKey, m: nat, n: nat)
    ensures Advance(Advance(ck, m), n) == Advance(ck, m + n)
  {
    if n > 0 { AdvanceAdd(ck, m, n - 1); }
  }

  /** The chain a key belongs to, named by the key it starts from. */
  function Seed(ck: ChainKey): ChainKey {
    if ck.Next? then Seed(ck.prev) else ck
  }

  /** The number of steps from the start of the chain. */
  function Pos(ck: ChainKey): nat {
    if ck.Next? then 1 + Pos(ck.prev) else 0
  }

  lemma {:induction false} SeedPosAdvance(ck: ChainKey, n: nat)
    ensures Seed(Advance(ck, n)) == Seed(ck)
    ensures Pos(Advance(ck, n)) == Pos(ck) + n
  {
    if n > 0 { SeedPosAdvance(ck, n - 1); }
  }

  /** Positions of one chain carry different keys. */
  lemma AdvanceInjective(ck: ChainKey, m: nat, n: nat)
    ensures Advance(ck, m) == Advance(ck, n) <==> m == n
  {
    SeedPosAdvance(ck, m);
    SeedPosAdvance(ck, n);
  }

  function RootDepth(r: Root): nat {
    if r.Master? then 1 else 1 + RootDepth(r.root)
  }

  /** Chains of a rekey are as deep as the root they were derived under. */
  function SeedDepth(ck: ChainKey): nat {
    if ck.RekeySend? || ck.RekeyRecv? then RootDepth(ck.root) else 0
  }
}

/** Runs of one session: every operation the code base calls on it, in any order, with any arguments. */
module RatchetRuns {
  import opened Symbolic
  import opened RatchetSpec

  datatype Op =
    | Send(text: Plaintext, env: Env)
    | Receive(nonce: Nonce, body: Cipher)
    | ReceiveRekey(msg: Message, now: Clock)
    | AckArrived(at: nat)
    | HandOutAck
    | RequestRekey(peer: PublicKey, env: Env)
    | Resynchronise(target: nat, now: Clock)

  ghost function Apply(s: Session, op: Op): Session {
    match op
    case Send(text, env) => Encrypt(s, text, env).0
    case Receive(n, body) => Decrypt(s, n, body).0
    case ReceiveRekey(m, now) => DecryptRekey(s, m, now).0
    case AckArrived(at) => ProcessAck(s, at).0
    case HandOutAck => TakeAck(s).0
    case RequestRekey(peer, env) => DhRekey(s, peer, env).0
    case Resynchronise(target, now) => Resync(s, target, now).0
  }

  ghost function RunFrom(s: Session, ops: seq<Op>): Session
    decreases |ops|
  {
    if ops == [] then s else RunFrom(Apply(s, ops[0]), ops[1..])
  }
}

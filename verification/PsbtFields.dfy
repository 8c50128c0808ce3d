/** The fields of a PSBT input into which the interpreters write signatures. */
module PsbtFields {
  import opened Common

  /** Where a signature goes inside an input. */
  datatype Slot = Ecdsa(key: Bytes) | TapScript(xonly: Bytes, leafHash: Bytes) | TapKey

  /** The signature fields of a PSBT input; `rest` stands for all its other fields. */
  datatype PsbtInput<T> = PsbtInput(
    partialSigs: map<Bytes, Bytes>,
    tapScriptSigs: map<(Bytes, Bytes), Bytes>,
    tapKeySig: Option<Bytes>,
    rest: T)
  {
    function Insert(slot: Slot, signature: Bytes): PsbtInput<T> {
      match slot
      case Ecdsa(key) => this.(partialSigs := partialSigs[key := signature])
      case TapScript(xonly, leafHash) => this.(tapScriptSigs := tapScriptSigs[(xonly, leafHash) := signature])
      case TapKey => this.(tapKeySig := Some(signature))
    }

    function Get(slot: Slot): Option<Bytes> {
      match slot
      case Ecdsa(key) => if key in partialSigs then Some(partialSigs[key]) else None
      case TapScript(xonly, leafHash) =>
        if (xonly, leafHash) in tapScriptSigs then Some(tapScriptSigs[(xonly, leafHash)]) else None
      case TapKey => tapKeySig
    }
  }

  /** Inserting a signature is seen in its own slot and nowhere else. */
  lemma {:induction false} InsertGet<T>(input: PsbtInput<T>, slot: Slot, signature: Bytes, other: Slot)
    ensures input.Insert(slot, signature).Get(other) == if other == slot then Some(signature) else input.Get(other)
    ensures input.Insert(slot, signature).rest == input.rest
  {
  }
}

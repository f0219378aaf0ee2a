/** Values shared by every component of the consensus client. */
module Types {

  datatype Option<+T> = None | Some(value: T)

  type Byte = x: nat | x < 256

  type Bytes = seq<Byte>

  /** A 32-byte root, read as a big-endian number, so `<` is the lexicographic order. */
  type Root = nat

  /** `kZeroHash`: marks a slot without a block and a header without a state root. */
  const ZERO_ROOT: Root := 0

  datatype Checkpoint = Checkpoint(root: Root, slot: nat)

  /** The vote carried by an attestation; the transition function reads source and target only. */
  datatype AttestationData =
    AttestationData(slot: nat, head: Checkpoint, target: Checkpoint, source: Checkpoint)

  /** One vote cast by every validator whose bit is set. */
  datatype Attestation = Attestation(bits: seq<bool>, data: AttestationData)

  datatype BlockIndex = BlockIndex(slot: nat, hash: Root)
}

/** What every component knows about a record: its identity, its kind, and how it is sealed. */
module Records {
  import opened Bytes

  ghost predicate AllDiffer<T>(s: seq<T>) { forall i, j :: 0 <= i < j < |s| ==> s[i] != s[j] }

  /** Record ids are sixteen bytes. */
  const ID_SIZE: nat := 16

  datatype RawId = RawId(bytes: Bytes)

  type Id = r: RawId | |r.bytes| == ID_SIZE witness RawId(seq(ID_SIZE, _ => 0))

  datatype Kind = Memory | Session | Chunk

  datatype Option<+T> = None | Some(value: T) {
    predicate IsFailure() { None? }
    function PropagateFailure<U>(): Option<U> requires None? { None }
    function Extract(): T requires Some? { value }
  }

  /**
   * Authenticated encryption, reduced to what the store relies on.
   * `seal` takes the fresh nonce as its first argument.
   */
  datatype Sealer = Sealer(seal: (nat, Bytes) -> Bytes, open: Bytes -> Option<Bytes>)

  /** Opening what was sealed returns the plaintext, whatever nonce was drawn. */
  ghost predicate Inverts(s: Sealer) {
    forall n: nat, x: Bytes :: s.open(s.seal(n, x)) == Some(x)
  }

  /** The sealed length depends on the plaintext alone, and is never zero. */
  ghost predicate LengthPreserving(s: Sealer) {
    forall n: nat, x: Bytes :: |s.seal(n, x)| == |s.seal(0, x)| > 0
  }

  /** Sealing adds little: half a megabyte of plaintext still has a length four bytes can hold. */
  ghost predicate Bounded(s: Sealer) {
    forall n: nat, x: Bytes :: |x| < 0x80000 ==> |s.seal(n, x)| < 0x1_0000_0000
  }

  /** The authentication tag covers every byte: no proper prefix of a sealed blob opens. */
  ghost predicate Authentic(s: Sealer) {
    forall n: nat, x: Bytes, k: nat :: k < |s.seal(n, x)| ==> s.open(s.seal(n, x)[..k]) == None
  }
}

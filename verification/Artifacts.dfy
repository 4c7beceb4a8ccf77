/** Owned artifacts: the identity that owns a stored file, the manifest that describes it, and the
    checks both storage backends make. Digests and key derivation are parameters. */
module Artifacts {
  import opened Options

  type Bytes = seq<bv8>

  datatype Role = PreviewSource | ImportErrors | Export

  datatype Identity = Identity(tenant: nat, operation: string, owner: string, role: Role, resource: string)

  datatype Manifest = Manifest(identity: Identity, size: nat, sha256: string, retired: bool)

  /** SHA-256 of a payload, and the storage key derived from an identity. */
  datatype Codec = Codec(hash: Bytes -> string, keyOf: Identity -> string)

  ghost predicate HashInjective(c: Codec) {
    forall a, b :: c.hash(a) == c.hash(b) ==> a == b
  }

  ghost predicate KeyInjective(c: Codec) {
    forall a, b :: c.keyOf(a) == c.keyOf(b) ==> a == b
  }

  /** _manifest: what a save of `data` under `identity` records. */
  function Describe(c: Codec, data: Bytes, identity: Identity): (m: Manifest) {
    Manifest(identity, |data|, c.hash(data), false)
  }

  /** _verify_manifest against the key, and against the payload when one is given. */
  predicate Verifies(c: Codec, m: Manifest, key: string, data: Option<Bytes>) {
    && c.keyOf(m.identity) == key
    && (data.Some? ==> m.size == |data.value| && m.sha256 == c.hash(data.value))
  }

  /** The immutable part of a manifest. */
  predicate SameFacts(a: Manifest, b: Manifest) {
    a.(retired := false) == b.(retired := false)
  }

  datatype Result =
    | Saved                        // the storage key
    | Content(data: Bytes)
    | Owner(identity: Identity)
    | Deleted(existed: bool)
    | Refused                      // the call raised
}

/** Content-addressed blobs. SHA-256 and AES-GCM are parameters; the CHK
    scheme of tinyclient/blossom-encryption.js (BUD-15) is built on them as the
    browser builds it: the key is the digest of the plaintext, the blob's name
    the digest of the ciphertext. */
module Blobs {
  import opened Prelude
  import opened Manifest

  type Digest = b: Bytes | |b| == 32 witness seq(32, i => 0)

  /** `sealed` says whether blobs are stored encrypted. */
  datatype Crypto = Crypto(
    sha: Bytes -> Digest,
    aes: (Digest, Bytes) -> Bytes,
    unaes: (Digest, Bytes) -> Option<Bytes>,
    sealed: bool)

  /** What is assumed of AES-GCM: decryption undoes encryption, and a
      ciphertext is its plaintext's length plus a 16-byte tag. */
  ghost predicate Sound(c: Crypto) {
    && (forall k: Digest, p: Bytes :: c.unaes(k, c.aes(k, p)) == Some(p))
    && (forall k: Digest, p: Bytes :: |c.aes(k, p)| == |p| + 16)
  }

  function Blob(c: Crypto, plain: Bytes): Bytes {
    if c.sealed then c.aes(c.sha(plain), plain) else plain
  }

  function BlobHash(c: Crypto, plain: Bytes): Digest { c.sha(Blob(c, plain)) }

  function BlobKey(c: Crypto, plain: Bytes): Option<Bytes> {
    if c.sealed then Some(c.sha(plain)) else None
  }

  /** decryptCHK: checks the name of the blob, decrypts, checks the key. */
  function DecryptChk(c: Crypto, raw: Bytes, key: Bytes, hash: Bytes): Option<Bytes> {
    if |key| != 32 || c.sha(raw) != hash then None
    else
      match c.unaes(key, raw)
      case None => None
      case Some(plain) => if c.sha(plain) != key then None else Some(plain)
  }

  /** The plaintext a link's blob stands for. */
  function Open(c: Crypto, raw: Bytes, link: Link): Option<Bytes> {
    if link.k.Some? then DecryptChk(c, raw, link.k.value, link.h) else Some(raw)
  }

  lemma OpenBlob(c: Crypto, plain: Bytes, link: Link)
    requires Sound(c) && link.h == BlobHash(c, plain) && link.k == BlobKey(c, plain)
    ensures Open(c, Blob(c, plain), link) == Some(plain)
  {}

  lemma BlobLength(c: Crypto, plain: Bytes)
    requires Sound(c)
    ensures |plain| <= |Blob(c, plain)| <= |plain| + 16
  {}

  /** A server: what it answers may depend on how often it was asked. */
  type Fetch = (nat, Bytes) -> Option<Bytes>

  type Store = map<Bytes, Bytes>

  function FromStore(store: Store): Fetch {
    (i: nat, h: Bytes) => if h in store then Some(store[h]) else None
  }

  predicate Holds(c: Crypto, store: Store, plain: Bytes) {
    BlobHash(c, plain) in store && store[BlobHash(c, plain)] == Blob(c, plain)
  }

  function Put(c: Crypto, store: Store, plain: Bytes): Store {
    store[BlobHash(c, plain) := Blob(c, plain)]
  }

  /** No two of these plaintexts share a blob name. */
  ghost predicate Collisionless(c: Crypto, plains: set<Bytes>) {
    forall p, q :: p in plains && q in plains && BlobHash(c, p) == BlobHash(c, q) ==> p == q
  }

  lemma PutHolds(c: Crypto, store: Store, plain: Bytes, plains: set<Bytes>)
    requires Collisionless(c, plains) && plain in plains
    ensures Holds(c, Put(c, store, plain), plain)
    ensures forall p :: p in plains && Holds(c, store, p) ==> Holds(c, Put(c, store, plain), p)
  {}

  /** No two different blobs of this set have the same digest. */
  ghost predicate NoCollision(c: Crypto, blobs: set<Bytes>) {
    forall a, b :: a in blobs && b in blobs && c.sha(a) == c.sha(b) ==> a == b
  }

  lemma SameBlob(c: Crypto, x: Bytes, y: Bytes, a: set<Bytes>, b: set<Bytes>, a': set<Bytes>, b': set<Bytes>)
    requires x in a && y in b && a <= a' && b <= b' && NoCollision(c, a' + b') && c.sha(x) == c.sha(y)
    ensures x == y
  {}

  /** Requests grow with the manifests allowed, a full node's worth for each. */
  lemma Scale(a: nat, b: nat)
    requires a <= b
    ensures MAX_LINKS * a <= MAX_LINKS * b
  {}

  lemma AtMostMaxLinks(node: Node)
    requires NodeOK(node)
    ensures |node.l| <= MAX_LINKS
  {}
}

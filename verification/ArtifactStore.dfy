/** The SHA-256 content-addressed artifact store of a mesh node.
    SHA-256 itself is the parameter `hash`; nothing is assumed about it except,
    where a statement says so, the shape of its digests or the absence of collisions. */
module ArtifactStore {
  import opened Wrappers

  type Bytes = seq<bv8>
  type Hash = string
  type HashFn = Bytes -> Hash

  /** The fields of an artifact's metadata as they travel in a message or a file. */
  datatype MetaData = MetaData(contentHash: Hash, size: nat, filename: string, project: string, createdAt: real)

  predicate IsLowerHex(c: char) {
    '0' <= c <= '9' || 'a' <= c <= 'f'
  }

  predicate IsDigest(h: Hash) {
    |h| == 64 && forall i | 0 <= i < 64 :: IsLowerHex(h[i])
  }

  /** `^[0-9a-f]{64}$` as Python matches it: `$` also matches before a final newline. */
  predicate ValidHash(h: Hash) {
    IsDigest(h) || (|h| == 65 && h[64] == '\n' && IsDigest(h[..64]))
  }

  ghost predicate HexDigests(hash: HashFn) {
    forall c :: IsDigest(hash(c))
  }

  /** No two of the contents that occur have the same digest. */
  ghost predicate CollisionFree(hash: HashFn, contents: iset<Bytes>) {
    forall c, d | c in contents && d in contents && hash(c) == hash(d) :: c == d
  }

  // ----- the store as a value -----

  /** `files` is the sharded directory, `catalog` the dictionary and `order` its insertion order. */
  datatype StoreState = StoreState(files: map<Hash, Bytes>, catalog: map<Hash, MetaData>, order: seq<Hash>)

  const EMPTY_STORE := StoreState(map[], map[], [])

  function Put(hash: HashFn, s: StoreState, content: Bytes, meta: MetaData): StoreState {
    var h := hash(content);
    StoreState(
      if h in s.files then s.files else s.files[h := content],
      s.catalog[h := meta.(contentHash := h, size := |content|)],
      if h in s.catalog then s.order else s.order + [h])
  }

  function Retrieve(s: StoreState, h: Hash): Option<Bytes> {
    if ValidHash(h) && h in s.files then Some(s.files[h]) else None
  }

  predicate Has(s: StoreState, h: Hash) {
    ValidHash(h) && h in s.files
  }

  /** What is looked up has to be 64 digits in lower-case hex, behind which Python's `$` allows one line break. */
  lemma RetrievedExactly(s: StoreState, h: Hash)
    ensures Retrieve(s, h).Some? <==> h in s.files && (LooksLikeDigest(h) || (h != "" && h[|h| - 1] == '\n' && LooksLikeDigest(h[..|h| - 1])))
    ensures Retrieve(s, h).Some? ==> Retrieve(s, h).value == s.files[h]
    ensures Has(s, h) <==> Retrieve(s, h).Some?
  {
    DigestsLook(h);
    if h != "" {
      DigestsLook(h[..|h| - 1]);
    }
  }

  predicate LooksLikeDigest(h: Hash) {
    |h| == 64 && forall c | c in h :: c in "0123456789abcdef"
  }

  lemma DigestsLook(h: Hash)
    ensures IsDigest(h) <==> LooksLikeDigest(h)
  {
    forall c: char
      ensures IsLowerHex(c) <==> c in "0123456789abcdef"
    {
      HexDigits(c);
    }
    if IsDigest(h) {
      assert forall c | c in h :: exists i :: 0 <= i < 64 && h[i] == c;
    }
  }

  lemma HexDigits(c: char)
    ensures IsLowerHex(c) <==> c in "0123456789abcdef"
  {
    var digits := "0123456789abcdef";
    if '0' <= c <= '9' {
      assert digits[c as int - '0' as int] == c;
    } else if 'a' <= c <= 'f' {
      assert digits[10 + c as int - 'a' as int] == c;
    }
  }

  ghost predicate NoDuplicates<T>(s: seq<T>) {
    forall i, j | 0 <= i < j < |s| :: s[i] != s[j]
  }

  /** Integrity that needs no assumption about collisions. */
  ghost predicate Intact(hash: HashFn, s: StoreState) {
    && s.files.Keys == s.catalog.Keys
    && (forall h | h in s.files :: hash(s.files[h]) == h)
    && (forall h | h in s.catalog :: s.catalog[h].contentHash == h)
    && (forall h :: h in s.order <==> h in s.catalog)
    && NoDuplicates(s.order)
  }

  /** Recorded sizes agree with the stored bytes. */
  ghost predicate SizesAgree(s: StoreState) {
    forall h | h in s.catalog && h in s.files :: s.catalog[h].size == |s.files[h]|
  }

  /** The content does not collide with what is stored. */
  predicate Fits(hash: HashFn, s: StoreState, content: Bytes) {
    hash(content) in s.files ==> s.files[hash(content)] == content
  }

  lemma PutKeepsIntact(hash: HashFn, s: StoreState, content: Bytes, meta: MetaData)
    requires Intact(hash, s)
    ensures Intact(hash, Put(hash, s, content, meta))
    ensures Fits(hash, s, content) && SizesAgree(s) ==> SizesAgree(Put(hash, s, content, meta))
  {
  }

  /** Stored bytes are never replaced, whatever is stored later. */
  lemma PutKeepsFiles(hash: HashFn, s: StoreState, content: Bytes, meta: MetaData)
    ensures forall h | h in s.files :: h in Put(hash, s, content, meta).files && Put(hash, s, content, meta).files[h] == s.files[h]
    ensures s.catalog.Keys <= Put(hash, s, content, meta).catalog.Keys
  {
  }

  /** What was stored comes back: always bytes with the same digest, and exactly the bytes stored
      unless they collide with others that were there before. */
  lemma StoreThenRetrieve(hash: HashFn, s: StoreState, content: Bytes, meta: MetaData)
    requires HexDigests(hash) && Intact(hash, s)
    ensures var back := Retrieve(Put(hash, s, content, meta), hash(content));
            && back.Some?
            && hash(back.value) == hash(content)
            && (back.value == content <==> Fits(hash, s, content))
  {
  }

  /** `Put` when the metadata object handed in is already the entry of the hashes `shared`:
      those entries change with it. */
  function PutShared(hash: HashFn, s: StoreState, content: Bytes, meta: MetaData, shared: set<Hash>): StoreState {
    var h := hash(content);
    StoreState(
      if h in s.files then s.files else s.files[h := content],
      SharedEntries(s.catalog, h, meta.(contentHash := h, size := |content|), shared),
      if h in s.catalog then s.order else s.order + [h])
  }

  function SharedEntries(entries: map<Hash, MetaData>, h: Hash, meta: MetaData,
          shared: set<Hash>): map<Hash, MetaData> {
    (map k | k in entries :: if k in shared then meta else entries[k])[h := meta]
  }

  ghost predicate Filed(s: StoreState) {
    forall h | h in s.catalog :: s.catalog[h].contentHash == h
  }

  /** Handing one metadata object in for two different contents breaks the older entry:
      the catalog stays filed under its own hashes exactly when the object is not
      already filed under another hash, and then nothing but the new entry changes. */
  lemma SharedMetadata(hash: HashFn, s: StoreState, content: Bytes, meta: MetaData, shared: set<Hash>)
    requires Filed(s) && shared <= s.catalog.Keys
    ensures Filed(PutShared(hash, s, content, meta, shared)) <==> shared <= {hash(content)}
    ensures shared <= {hash(content)} ==> PutShared(hash, s, content, meta, shared) == Put(hash, s, content, meta)
  {
    var h := hash(content);
    var t := PutShared(hash, s, content, meta, shared);
    if k :| k in shared && k != h {
      assert k in t.catalog && t.catalog[k].contentHash == h;
    } else {
      assert t.catalog == Put(hash, s, content, meta).catalog;
    }
  }

  lemma SharedWithNone(hash: HashFn, s: StoreState, content: Bytes, meta: MetaData)
    ensures PutShared(hash, s, content, meta, {}) == Put(hash, s, content, meta)
  {
  }

  // ----- the store as the object the node mutates -----

  class ArtifactMeta {
    var contentHash: Hash
    var size: nat
    const filename: string
    const project: string
    const createdAt: real

    function Data(): MetaData
      reads this
    {
      MetaData(contentHash, size, filename, project, createdAt)
    }

    /** `ArtifactMeta.from_dict`: a new object with the given fields. */
    constructor (d: MetaData)
      ensures Data() == d
    {
      contentHash, size, filename, project, createdAt := d.contentHash, d.size, d.filename, d.project, d.createdAt;
    }
  }

  class ContentStore {
    const hash: HashFn
    var files: map<Hash, Bytes>
    var catalog: map<Hash, ArtifactMeta>
    var order: seq<Hash>
    ghost var Model: StoreState

    /** The value the fields and the metadata objects amount to. */
    ghost predicate Valid()
      reads this, catalog.Values
    {
      && Model.files == files
      && Model.order == order
      && Model.catalog.Keys == catalog.Keys
      && forall h | h in catalog :: catalog[h].Data() == Model.catalog[h]
    }

    /** The hashes under which this very object is already filed. */
    ghost function SharedKeys(meta: ArtifactMeta): set<Hash>
      reads this
    {
      set h | h in catalog && catalog[h] == meta
    }

    constructor (hash: HashFn)
      ensures this.hash == hash && Valid() && Model == EMPTY_STORE && fresh(catalog.Values)
    {
      this.hash := hash;
      files, catalog, order := map[], map[], [];
      Model := EMPTY_STORE;
    }

    /** The caller's metadata object is updated in place and becomes the entry, so any
        older entry that is the same object changes with it (see `SharedMetadata`). */
    method Store(content: Bytes, meta: ArtifactMeta) returns (h: Hash)
      requires Valid()
      modifies this, meta
      ensures Valid() && catalog == old(catalog)[h := meta]
      ensures h == hash(content)
      ensures Model == PutShared(hash, old(Model), content, old(meta.Data()), old(SharedKeys(meta)))
    {
      h := hash(content);
      WriteIfMissing(h, content);
      if h !in catalog {
        order := order + [h];
        Model := Model.(order := order);
      }
      FileUnder(h, |content|, meta, SharedKeys(meta));
    }

    /** The content goes to its path unless that path already exists. */
    method WriteIfMissing(h: Hash, content: Bytes)
      requires Valid()
      modifies this`files, this`Model
      ensures Valid()
      ensures Model == old(Model).(files := if h in old(Model).files then old(Model).files else old(Model).files[h := content])
    {
      if h !in files {
        files := files[h := content];
        Model := Model.(files := files);
      }
    }

    /** The metadata object is stamped and becomes the entry of `h`; `shared` are the hashes it already was the entry of. */
    method FileUnder(h: Hash, size: nat, meta: ArtifactMeta, ghost shared: set<Hash>)
      requires Valid()
      requires forall k | k in catalog :: k in shared <==> catalog[k] == meta
      modifies this`catalog, this`Model, meta
      ensures Valid() && catalog == old(catalog)[h := meta]
      ensures Model == old(Model).(
        catalog := SharedEntries(old(Model).catalog, h, old(meta.Data()).(contentHash := h, size := size), shared))
    {
      ghost var entries := SharedEntries(Model.catalog, h, meta.Data().(contentHash := h, size := size), shared);
      meta.contentHash := h;
      meta.size := size;
      catalog := catalog[h := meta];
      Model := Model.(catalog := entries);
    }

    /** Storing with a metadata object of its own, as every caller in the node does. */
    method StoreNew(content: Bytes, d: MetaData) returns (h: Hash)
      requires Valid()
      modifies this
      ensures Valid() && fresh(catalog.Values - old(catalog.Values))
      ensures h == hash(content)
      ensures Model == Put(hash, old(Model), content, d)
    {
      var meta := new ArtifactMeta(d);
      assert SharedKeys(meta) == {};
      SharedWithNone(hash, Model, content, d);
      h := Store(content, meta);
    }

    method RetrieveBytes(h: Hash) returns (r: Option<Bytes>)
      requires Valid()
      ensures r == Retrieve(Model, h)
    {
      if !ValidHash(h) {
        return None;
      }
      r := if h in files then Some(files[h]) else None;
    }

    method GetMeta(h: Hash) returns (r: Option<MetaData>)
      requires Valid()
      ensures r == if h in Model.catalog then Some(Model.catalog[h]) else None
    {
      r := if h in catalog then Some(catalog[h].Data()) else None;
    }
  }
}
